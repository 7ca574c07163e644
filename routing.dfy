/** The scans of the tracker's event list that route a conversation:
    `action_ran_after_latest_user` and
    `ActionApplyFilters._get_last_relevant_action`.

    A tracker event arrives either as a dictionary (the form the Rasa SDK
    uses for `tracker.events`) or as an object with attributes. The source
    reads every field with `getattr(event, key, None)`, which finds the
    attributes of an object but never the keys of a dictionary; the scans
    below take the field reader as a parameter, so that the reader as
    written (`GetAttr`) and one that reads both forms (`EventField`) can be
    compared. */
module Routing {
  import opened PyText

  /** A tracker event: its fields, and whether it is a dictionary. */
  datatype Event = Event(isDict: bool, fields: map<string, string>)

  /** A way of reading a field of an event. */
  type Reader = (Event, string) -> Option<string>

  function Lookup(e: Event, key: string): Option<string> {
    if key in e.fields then Some(e.fields[key]) else None
  }

  /** `getattr(event, key, None)`: only an object has attributes. */
  function GetAttr(e: Event, key: string): (r: Option<string>)
    ensures e.isDict ==> r.None?
  {
    if e.isDict then None else Lookup(e, key)
  }

  /** `event.get(key)` for a dictionary, `getattr(event, key, None)` for an
      object. */
  function EventField(e: Event, key: string): Option<string> {
    Lookup(e, key)
  }

  predicate IsUser(read: Reader, e: Event) {
    read(e, "event") == Some("user")
  }

  predicate IsAction(read: Reader, e: Event) {
    read(e, "event") == Some("action")
  }

  // ------------------------------------------- action_ran_after_latest_user

  /** The index of the last user event among the first `n` events. */
  function LastUserBefore(read: Reader, events: seq<Event>, n: nat): (r: Option<nat>)
    requires n <= |events|
    ensures r.Some? ==> (r.value < n && IsUser(read, events[r.value])
      && forall k :: r.value < k < n ==> !IsUser(read, events[k]))
    ensures r.None? ==> forall k :: 0 <= k < n ==> !IsUser(read, events[k])
  {
    if n == 0 then None
    else if IsUser(read, events[n - 1]) then Some(n - 1)
    else LastUserBefore(read, events, n - 1)
  }

  /** What `action_ran_after_latest_user(tracker, action)` returns: whether
      an action event named `action` follows the last user event. */
  function RanAfterLatestUser(read: Reader, events: seq<Event>, action: string): bool {
    match LastUserBefore(read, events, |events|)
    case None => false
    case Some(u) =>
      u != |events| - 1
      && exists k :: u < k < |events| && IsAction(read, events[k]) && read(events[k], "name") == Some(action)
  }

  /** The two loops of `action_ran_after_latest_user`. */
  method ActionRanAfterLatestUser(read: Reader, events: seq<Event>, action: string) returns (ran: bool)
    ensures ran == RanAfterLatestUser(read, events, action)
  {
    if events == [] {
      return false;
    }
    var lastUser: Option<nat> := None;
    for idx := 0 to |events|
      invariant lastUser == LastUserBefore(read, events, idx)
    {
      if read(events[idx], "event") == Some("user") {
        lastUser := Some(idx);
      }
    }
    if lastUser.None? || lastUser.value == |events| - 1 {
      return false;
    }
    var u := lastUser.value;
    for k := u + 1 to |events|
      invariant forall j :: u < j < k ==> !(IsAction(read, events[j]) && read(events[j], "name") == Some(action))
    {
      if read(events[k], "event") == Some("action") && read(events[k], "name") == Some(action) {
        return true;
      }
    }
    return false;
  }

  /** A new user message starts afresh: nothing has run after it yet. */
  lemma UserMessageResets(read: Reader, events: seq<Event>, user: Event, action: string)
    requires IsUser(read, user)
    ensures !RanAfterLatestUser(read, events + [user], action)
  {
    var es := events + [user];
    assert es[|es| - 1] == user;
  }

  /** An action that runs after a user message is seen, until the next user
      message. */
  lemma ActionAfterUserSeen(read: Reader, events: seq<Event>, action: string, e: Event)
    requires IsAction(read, e) && read(e, "name") == Some(action)
    requires LastUserBefore(read, events, |events|).Some?
    ensures RanAfterLatestUser(read, events + [e], action)
  {
    var es := events + [e];
    var u := LastUserBefore(read, events, |events|).value;
    assert !IsUser(read, e);
    assert LastUserBefore(read, es, |events|) == LastUserBefore(read, events, |events|) by {
      LastUserBeforePrefix(read, events, es, |events|);
    }
    assert es[|events|] == e;
  }

  lemma {:induction false} LastUserBeforePrefix(read: Reader, a: seq<Event>, b: seq<Event>, n: nat)
    requires n <= |a| && n <= |b| && a[..n] == b[..n]
    ensures LastUserBefore(read, a, n) == LastUserBefore(read, b, n)
  {
    if n > 0 {
      assert a[n - 1] == a[..n][n - 1] == b[..n][n - 1] == b[n - 1];
      assert a[..n - 1] == a[..n][..n - 1];
      assert b[..n - 1] == b[..n][..n - 1];
      LastUserBeforePrefix(read, a, b, n - 1);
    }
  }

  /** As written, with the events of the Rasa SDK (dictionaries), the scan
      never sees a user event and is always false. */
  lemma RanAfterLatestUserBlindToDicts(events: seq<Event>, action: string)
    requires forall i :: 0 <= i < |events| ==> events[i].isDict
    ensures !RanAfterLatestUser(GetAttr, events, action)
  {
    assert LastUserBefore(GetAttr, events, |events|).None?;
  }

  /** The events of a follow-up: the user spoke, then the stats action ran. */
  const FollowUpEvents: seq<Event> := [
    Event(true, map["event" := "user"]),
    Event(true, map["event" := "action", "name" := "action_player_stats"])]

  /** On those events the reader as written misses the action, the reader
      of both forms finds it. */
  lemma RanAfterLatestUserExample()
    ensures !RanAfterLatestUser(GetAttr, FollowUpEvents, "action_player_stats")
    ensures RanAfterLatestUser(EventField, FollowUpEvents, "action_player_stats")
  {
    RanAfterLatestUserBlindToDicts(FollowUpEvents, "action_player_stats");
    var es := FollowUpEvents;
    assert IsUser(EventField, es[0]);
    assert !IsUser(EventField, es[1]);
    assert LastUserBefore(EventField, es, 2) == Some(0);
    assert IsAction(EventField, es[1]) && EventField(es[1], "name") == Some("action_player_stats");
  }

  /** With a reader of both forms, an action that follows a user message, both
      given as dictionaries, is seen, whatever came before. */
  lemma CorrectedReaderSeesAction(events: seq<Event>, action: string)
    ensures RanAfterLatestUser(EventField, events + [Event(true, map["event" := "user"]),
      Event(true, map["event" := "action", "name" := action])], action)
  {
    var user := Event(true, map["event" := "user"]);
    var act := Event(true, map["event" := "action", "name" := action]);
    var before := events + [user];
    assert before[|before| - 1] == user;
    assert LastUserBefore(EventField, before, |before|) == Some(|events|);
    ActionAfterUserSeen(EventField, before, action, act);
    assert before + [act] == events + [user, act];
  }

  // ------------------------------------------------ _get_last_relevant_action

  /** The actions that never count as the one to return to. */
  const IgnoredActions: set<string> := {
    "action_listen", "action_apply_filters", "action_default_fallback",
    "action_reset_slots", "action_session_start", "action_extract_slots"}

  /** `getattr(event, "name", "") or ""` */
  function NameOf(read: Reader, e: Event): string {
    match read(e, "name")
    case Some(n) => n
    case None => ""
  }

  /** An action event that names an action the filters can return to. */
  predicate IsRelevant(read: Reader, e: Event) {
    && IsAction(read, e)
    && NameOf(read, e) !in IgnoredActions
    && !StartsWith(NameOf(read, e), "utter_")
  }

  /** The name of the last relevant action among the first `n` events. */
  function LastRelevantBefore(read: Reader, events: seq<Event>, n: nat): (r: Option<string>)
    requires n <= |events|
  {
    if n == 0 then None
    else if IsRelevant(read, events[n - 1]) then Some(NameOf(read, events[n - 1]))
    else LastRelevantBefore(read, events, n - 1)
  }

  /** The last relevant action is the name of a relevant action event, and
      no relevant action event follows it. */
  lemma {:induction false} LastRelevantSpec(read: Reader, events: seq<Event>, n: nat)
    requires n <= |events|
    ensures var r := LastRelevantBefore(read, events, n);
      && (r.Some? ==> exists i :: (0 <= i < n && IsRelevant(read, events[i]) && r.value == NameOf(read, events[i])
            && forall k :: i < k < n ==> !IsRelevant(read, events[k])))
      && (r.None? <==> forall k :: 0 <= k < n ==> !IsRelevant(read, events[k]))
  {
    if n > 0 && !IsRelevant(read, events[n - 1]) {
      LastRelevantSpec(read, events, n - 1);
    }
  }

  /** `ActionApplyFilters._get_last_relevant_action(tracker)`: the loop over
      the reversed events. */
  method GetLastRelevantAction(read: Reader, events: seq<Event>) returns (r: Option<string>)
    ensures r == LastRelevantBefore(read, events, |events|)
  {
    var i := |events|;
    while i > 0
      invariant 0 <= i <= |events|
      invariant LastRelevantBefore(read, events, |events|) == LastRelevantBefore(read, events, i)
    {
      var event := events[i - 1];
      i := i - 1;
      if read(event, "event") != Some("action") {
        continue;
      }
      var name := match read(event, "name") case Some(n) => n case None => "";
      if name in IgnoredActions || StartsWith(name, "utter_") {
        continue;
      }
      return Some(name);
    }
    return None;
  }

  /** As written, with dictionary events no action is ever found. */
  lemma LastRelevantBlindToDicts(events: seq<Event>, n: nat)
    requires n <= |events|
    requires forall i :: 0 <= i < |events| ==> events[i].isDict
    ensures LastRelevantBefore(GetAttr, events, n).None?
  {
    LastRelevantSpec(GetAttr, events, n);
  }

  /** With a reader of both forms, the last action, given as a dictionary, is
      found when it is relevant. */
  lemma CorrectedReaderFindsAction(events: seq<Event>, name: string)
    requires name !in IgnoredActions && !StartsWith(name, "utter_")
    ensures var es := events + [Event(true, map["event" := "action", "name" := name])];
      LastRelevantBefore(EventField, es, |es|) == Some(name)
  {
    var es := events + [Event(true, map["event" := "action", "name" := name])];
    assert es[|es| - 1] == Event(true, map["event" := "action", "name" := name]);
  }
}
