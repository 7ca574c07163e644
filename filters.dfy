/** Year, surface and tournament filters: the synonym table, the four
    normalisers, `FilterContext` and `build_filter_context`
    (Chatbot/actions/actions.py:41-65, 91-100, 219-393). The Rasa tracker
    is replaced by the fields of its latest message and a map of slot
    values, and `SlotSet` by a datatype. */
module Filters {
  import opened PyText

  // ---------------------------------------------------------------- surfaces

  /** The surface codes of the `matches` table, `VALID_SURFACE_CODES`. */
  predicate ValidSurfaceCode(s: string) {
    s == "Hard" || s == "Grass" || s == "Clay" || s == "Carpet"
  }

  /** `SURFACE_LABELS.get(code, code)`: the Italian label of a code. */
  function SurfaceLabel(code: string): (r: string)
    ensures !ValidSurfaceCode(code) ==> r == code
  {
    if code == "Hard" then "cemento"
    else if code == "Grass" then "erba"
    else if code == "Clay" then "terra battuta"
    else if code == "Carpet" then "moquette"
    else code
  }

  /** `SURFACE_KEYWORDS` in insertion order (the order in which
      `extract_surface_from_text` tries them). */
  const SurfaceKeywords: seq<(string, string)> := [
    ("terra battuta", "Clay"),
    ("terra", "Clay"),
    ("clay", "Clay"),
    ("erba", "Grass"),
    ("grass", "Grass"),
    ("cemento", "Hard"),
    ("cement", "Hard"),
    ("hard", "Hard"),
    ("moquette", "Carpet"),
    ("carpet", "Carpet")
  ]

  lemma KeywordCodesValid()
    ensures forall i :: 0 <= i < |SurfaceKeywords| ==> ValidSurfaceCode(SurfaceKeywords[i].1)
  {
  }

  /** The index of the first keyword, from position `from` on, that occurs
      in `s`. */
  function FirstKeyword(s: string, from: nat): (r: Option<nat>)
    requires from <= |SurfaceKeywords|
    ensures r.Some? ==> (from <= r.value < |SurfaceKeywords| && Contains(s, SurfaceKeywords[r.value].0)
      && forall k :: from <= k < r.value ==> !Contains(s, SurfaceKeywords[k].0))
    ensures r.None? ==> forall k :: from <= k < |SurfaceKeywords| ==> !Contains(s, SurfaceKeywords[k].0)
    decreases |SurfaceKeywords| - from
  {
    if from == |SurfaceKeywords| then None
    else if Contains(s, SurfaceKeywords[from].0) then Some(from)
    else FirstKeyword(s, from + 1)
  }

  /** `extract_surface_from_text(text)`: the code of the first synonym, in
      table order, that occurs in the lower-cased text. */
  function ExtractSurfaceFromText(text: string): (r: Option<string>)
    ensures r.Some? ==> ValidSurfaceCode(r.value)
    ensures r.Some? <==> (text != "" && exists i :: 0 <= i < |SurfaceKeywords| && Contains(Lower(text), SurfaceKeywords[i].0))
  {
    KeywordCodesValid();
    if text == "" then None
    else
      match FirstKeyword(Lower(text), 0)
      case None => None
      case Some(i) => Some(SurfaceKeywords[i].1)
  }

  /** `SURFACE_KEYWORDS.get(key)` */
  function KeywordLookup(key: string): (r: Option<string>)
    ensures r.Some? ==> ValidSurfaceCode(r.value)
  {
    if key == "terra battuta" || key == "terra" || key == "clay" then Some("Clay")
    else if key == "erba" || key == "grass" then Some("Grass")
    else if key == "cemento" || key == "cement" || key == "hard" then Some("Hard")
    else if key == "moquette" || key == "carpet" then Some("Carpet")
    else None
  }

  /** `normalize_surface_value(value)`: the exact synonym, else the first
      synonym that occurs in the value. */
  function NormalizeSurfaceValue(value: Option<string>): (r: Option<string>)
    ensures r.Some? ==> ValidSurfaceCode(r.value)
    ensures value.None? || value.value == "" ==> r.None?
  {
    if value.None? || value.value == "" then None
    else
      match KeywordLookup(Lower(value.value))
      case Some(code) => Some(code)
      case None => ExtractSurfaceFromText(value.value)
  }

  lemma KeywordLookupOfKeyword(i: nat)
    requires i < |SurfaceKeywords|
    ensures KeywordLookup(SurfaceKeywords[i].0) == Some(SurfaceKeywords[i].1)
  {
  }

  /** The lookup succeeds only on a synonym of the table, and returns that
      synonym's code. */
  lemma KeywordLookupHit(key: string) returns (i: nat)
    requires KeywordLookup(key).Some?
    ensures i < |SurfaceKeywords| && SurfaceKeywords[i].0 == key
    ensures KeywordLookup(key) == Some(SurfaceKeywords[i].1)
  {
    i := if key == "terra battuta" then 0 else if key == "terra" then 1 else if key == "clay" then 2
      else if key == "erba" then 3 else if key == "grass" then 4 else if key == "cemento" then 5
      else if key == "cement" then 6 else if key == "hard" then 7 else if key == "moquette" then 8 else 9;
  }

  /** A synonym never contains an earlier synonym of another surface. */
  lemma NoEarlierForeignKeyword(i: nat, j: nat)
    requires j < i < |SurfaceKeywords| && SurfaceKeywords[j].1 != SurfaceKeywords[i].1
    ensures !Contains(SurfaceKeywords[i].0, SurfaceKeywords[j].0)
  {
    var s := SurfaceKeywords[i].0;
    var pat := SurfaceKeywords[j].0;
    if |pat| <= |s| {
      NoPairAt(s, pat);
    }
  }

  /** `pat` does not occur in `s` when no position where it could start holds
      its first two characters. */
  lemma NoPairAt(s: string, pat: string)
    requires |pat| >= 2
    requires forall i :: 0 <= i <= |s| - |pat| ==> !(s[i] == pat[0] && s[i + 1] == pat[1])
    ensures !Contains(s, pat)
  {
    forall i | 0 <= i <= |s| - |pat| ensures !OccursAt(s, pat, i) {
      assert s[i..i + |pat|][0] == s[i] && s[i..i + |pat|][1] == s[i + 1];
    }
  }

  /** The exact lookup in `normalize_surface_value` never disagrees with the
      scan of `extract_surface_from_text`: the lookup is a shortcut. */
  lemma NormalizeSurfaceIsScan(value: string)
    requires value != ""
    ensures NormalizeSurfaceValue(Some(value)) == ExtractSurfaceFromText(value)
  {
    var s := Lower(value);
    if KeywordLookup(s).Some? {
      var i := KeywordLookupHit(s);
      assert OccursAt(s, s, 0);
      assert Contains(s, SurfaceKeywords[i].0);
      var r := FirstKeyword(s, 0);
      assert r.Some? && r.value <= i;
      var j := r.value;
      if SurfaceKeywords[j].1 != SurfaceKeywords[i].1 {
        NoEarlierForeignKeyword(i, j);
        assert false;
      }
      assert ExtractSurfaceFromText(value) == Some(SurfaceKeywords[j].1);
    }
  }

  // ------------------------------------------------------------------- years

  /** A character of Python's `\w` class, exact up to U+00FF. */
  predicate IsWordChar(c: char) {
    || ('a' <= c <= 'z') || ('A' <= c <= 'Z') || ('0' <= c <= '9') || c == '_'
    || c == 'ª' || c == '²' || c == '³' || c == 'µ' || c == '¹'
    || c == 'º' || ('¼' <= c <= '¾')
    || ('À' <= c <= 'ÿ' && c != '×' && c != '÷')
  }

  /** `(19|20)\d{2}` matches at position `i`, and, when `bounded`, the
      `\b` on both sides holds as well. */
  predicate YearAt(s: string, i: int, bounded: bool) {
    && 0 <= i && i + 4 <= |s|
    && ((s[i] == '1' && s[i + 1] == '9') || (s[i] == '2' && s[i + 1] == '0'))
    && IsAsciiDigit(s[i + 2]) && IsAsciiDigit(s[i + 3])
    && (bounded ==> (i == 0 || !IsWordChar(s[i - 1])) && (i + 4 == |s| || !IsWordChar(s[i + 4])))
  }

  /** `re.search` for a year from position `from`: the leftmost match. */
  function FindYear(s: string, from: nat, bounded: bool): (r: Option<nat>)
    ensures r.Some? ==> (from <= r.value && YearAt(s, r.value, bounded)
      && forall k :: from <= k < r.value ==> !YearAt(s, k, bounded))
    ensures r.None? ==> forall k :: from <= k ==> !YearAt(s, k, bounded)
    decreases |s| - from
  {
    if from + 4 > |s| then None
    else if YearAt(s, from, bounded) then Some(from)
    else FindYear(s, from + 1, bounded)
  }

  /** Four characters that read as a year of the 1900s or 2000s. */
  predicate IsYearText(y: string) {
    |y| == 4 && YearAt(y, 0, false)
  }

  function YearSearch(s: string, bounded: bool): (r: Option<string>)
    ensures r.Some? ==> IsYearText(r.value)
  {
    match FindYear(s, 0, bounded)
    case None => None
    case Some(i) => Some(s[i..i + 4])
  }

  /** `extract_year_from_text(text)`: the first whole-word year. */
  function ExtractYearFromText(text: string): (r: Option<string>)
    ensures r.Some? ==> IsYearText(r.value)
  {
    if text == "" then None else YearSearch(text, true)
  }

  /** `normalize_year_value(value)`: the first year-like run of digits,
      even inside a longer word. */
  function NormalizeYearValue(value: Option<string>): (r: Option<string>)
    ensures r.Some? ==> IsYearText(r.value)
    ensures value.None? || value.value == "" ==> r.None?
  {
    if value.None? || value.value == "" then None else YearSearch(value.value, false)
  }

  /** A whole-word year found by the text extractor is also found (possibly
      an earlier one) by the slot normaliser. */
  lemma ExtractedYearNormalises(text: string)
    requires ExtractYearFromText(text).Some?
    ensures NormalizeYearValue(Some(text)).Some?
  {
    var i := FindYear(text, 0, true).value;
    assert YearAt(text, i, false);
  }

  /** Both normalisers return a year unchanged. */
  lemma YearFixpoint(y: string)
    requires IsYearText(y)
    ensures ExtractYearFromText(y) == Some(y)
    ensures NormalizeYearValue(Some(y)) == Some(y)
  {
    assert YearAt(y, 0, true);
    assert y[0..4] == y;
  }

  // ----------------------------------------------------------------- context

  /** An entity of the NLU result: `e.get("entity")`, `e.get("value")`. */
  datatype Entity = Entity(entity: Option<string>, value: Option<string>)

  /** `tracker.latest_message`: the intent name, the text and the entities,
      each possibly missing. */
  datatype Message = Message(intent: Option<string>, text: Option<string>, entities: seq<Entity>)

  /** The tracker's slot values; a slot not in the map is unset. */
  type Slots = map<string, Option<string>>

  function GetSlot(slots: Slots, key: string): Option<string> {
    if key in slots then slots[key] else None
  }

  /** `[e.get("value") for e in entities if e.get("entity") == kind][0]`,
      or None when the list is empty. */
  function FirstEntityValue(entities: seq<Entity>, kind: string): (r: Option<Option<string>>)
    ensures r.None? <==> forall i :: 0 <= i < |entities| ==> entities[i].entity != Some(kind)
    ensures r.Some? ==> exists i :: (0 <= i < |entities| && entities[i].entity == Some(kind)
      && r.value == entities[i].value
      && forall k :: 0 <= k < i ==> entities[k].entity != Some(kind))
  {
    if entities == [] then None
    else if entities[0].entity == Some(kind) then Some(entities[0].value)
    else
      var r := FirstEntityValue(entities[1..], kind);
      assert forall k :: 1 <= k < |entities| ==> entities[k] == entities[1..][k - 1];
      r
  }

  /** Python's `a or b` on optional strings. */
  function OrElse(a: Option<string>, b: Option<string>): (r: Option<string>)
    ensures a.Some? && a.value != "" ==> r == a
    ensures a.None? || a.value == "" ==> r == b
  {
    if a.Some? && a.value != "" then a else b
  }

  function MessageText(m: Message): string {
    match m.text
    case None => ""
    case Some(t) => t
  }

  function IntentName(m: Message): string {
    match m.intent
    case None => ""
    case Some(n) => n
  }

  /** The year stated in the message: from a `year` entity if there is one,
      else from the text. */
  function MessageYear(m: Message): Option<string> {
    match FirstEntityValue(m.entities, "year")
    case Some(v) => NormalizeYearValue(v)
    case None => ExtractYearFromText(MessageText(m))
  }

  function MessageSurface(m: Message): Option<string> {
    match FirstEntityValue(m.entities, "surface")
    case Some(v) => NormalizeSurfaceValue(v)
    case None => ExtractSurfaceFromText(MessageText(m))
  }

  function MessageTournament(m: Message): Option<string> {
    match FirstEntityValue(m.entities, "tournament")
    case Some(v) => v
    case None => None
  }

  const InformIntent := "inform_filters"

  /** `FilterContext`: effective values, what the message said, what the
      slots held, and which filters count as stated explicitly. */
  datatype FilterContext = FilterContext(
    intentName: string,
    text: string,
    entities: seq<Entity>,
    year: Option<string>,
    surface: Option<string>,
    tournament: Option<string>,
    messageYear: Option<string>,
    messageSurface: Option<string>,
    messageTournament: Option<string>,
    slotYear: Option<string>,
    slotSurface: Option<string>,
    slotTournament: Option<string>,
    explicitYear: bool,
    explicitSurface: bool,
    explicitTournament: bool)
  {
    predicate IsInform() { intentName == InformIntent }
  }

  /** `build_filter_context(tracker)`. */
  function BuildFilterContext(m: Message, slots: Slots): (ctx: FilterContext)
    ensures ctx.intentName == IntentName(m)
    ensures ctx.messageYear == MessageYear(m) && ctx.messageSurface == MessageSurface(m)
      && ctx.messageTournament == MessageTournament(m)
    ensures ctx.slotYear == GetSlot(slots, "year") && ctx.slotSurface == GetSlot(slots, "surface")
      && ctx.slotTournament == GetSlot(slots, "tournament_name")
    ensures ctx.explicitYear == ctx.messageYear.Some? && ctx.explicitSurface == ctx.messageSurface.Some?
      && ctx.explicitTournament == ctx.messageTournament.Some?
    ensures ctx.IsInform() ==> (ctx.year == OrElse(ctx.messageYear, ctx.slotYear)
      && ctx.surface == OrElse(ctx.messageSurface, ctx.slotSurface)
      && ctx.tournament == OrElse(ctx.messageTournament, ctx.slotTournament))
    ensures !ctx.IsInform() ==> (ctx.year == ctx.messageYear && ctx.surface == ctx.messageSurface
      && ctx.tournament == ctx.messageTournament)
  {
    var my := MessageYear(m);
    var ms := MessageSurface(m);
    var mt := MessageTournament(m);
    var sy := GetSlot(slots, "year");
    var ss := GetSlot(slots, "surface");
    var st := GetSlot(slots, "tournament_name");
    if IntentName(m) == InformIntent then
      FilterContext(IntentName(m), MessageText(m), m.entities,
        OrElse(my, sy), OrElse(ms, ss), OrElse(mt, st),
        my, ms, mt, sy, ss, st,
        my.Some?, ms.Some?, mt.Some?)
    else
      FilterContext(IntentName(m), MessageText(m), m.entities,
        my, ms, mt,
        my, ms, mt, sy, ss, st,
        my.Some?, ms.Some?, mt.Some?)
  }

  /** The three filter keys, in the order the events list them. */
  const FilterKeys: seq<string> := ["year", "surface", "tournament_name"]

  function Effective(ctx: FilterContext, k: nat): Option<string>
    requires k < 3
  {
    if k == 0 then ctx.year else if k == 1 then ctx.surface else ctx.tournament
  }

  function Stated(ctx: FilterContext, k: nat): Option<string>
    requires k < 3
  {
    if k == 0 then ctx.messageYear else if k == 1 then ctx.messageSurface else ctx.messageTournament
  }

  function Remembered(ctx: FilterContext, k: nat): Option<string>
    requires k < 3
  {
    if k == 0 then ctx.slotYear else if k == 1 then ctx.slotSurface else ctx.slotTournament
  }

  predicate Explicit(ctx: FilterContext, k: nat)
    requires k < 3
  {
    if k == 0 then ctx.explicitYear else if k == 1 then ctx.explicitSurface else ctx.explicitTournament
  }

  /** For `inform_filters` a stated value wins and a missing one falls back
      to the slot; a filter is explicit exactly when the message stated
      it. */
  lemma InformMerge(m: Message, slots: Slots, k: nat)
    requires k < 3 && IntentName(m) == InformIntent
    ensures var ctx := BuildFilterContext(m, slots);
      && (Stated(ctx, k).Some? && Stated(ctx, k).value != "" ==> Effective(ctx, k) == Stated(ctx, k))
      && (Stated(ctx, k).None? ==> Effective(ctx, k) == Remembered(ctx, k))
      && (Explicit(ctx, k) <==> Stated(ctx, k).Some?)
  {
    InformMergeOf(BuildFilterContext(m, slots), k);
  }

  /** The merge rule of `inform_filters`, on any context built by it. */
  lemma InformMergeOf(ctx: FilterContext, k: nat)
    requires k < 3
    requires ctx.explicitYear == ctx.messageYear.Some? && ctx.explicitSurface == ctx.messageSurface.Some?
      && ctx.explicitTournament == ctx.messageTournament.Some?
    requires ctx.year == OrElse(ctx.messageYear, ctx.slotYear)
      && ctx.surface == OrElse(ctx.messageSurface, ctx.slotSurface)
      && ctx.tournament == OrElse(ctx.messageTournament, ctx.slotTournament)
    ensures Stated(ctx, k).Some? && Stated(ctx, k).value != "" ==> Effective(ctx, k) == Stated(ctx, k)
    ensures Stated(ctx, k).None? ==> Effective(ctx, k) == Remembered(ctx, k)
    ensures Explicit(ctx, k) <==> Stated(ctx, k).Some?
  {
  }

  /** For any other intent the slots are ignored: the effective value is
      what the message stated, and explicit means present. */
  lemma OtherIntentIgnoresSlots(m: Message, slots1: Slots, slots2: Slots, k: nat)
    requires k < 3 && IntentName(m) != InformIntent
    ensures var c1 := BuildFilterContext(m, slots1);
      var c2 := BuildFilterContext(m, slots2);
      && Effective(c1, k) == Effective(c2, k) == Stated(c1, k)
      && (Explicit(c1, k) <==> Explicit(c2, k))
      && (Explicit(c1, k) <==> Effective(c1, k).Some?)
  {
  }

  // ------------------------------------------------------------------ events

  /** `SlotSet(key, value)`; a None value clears the slot. */
  datatype SlotEvent = SlotSet(key: string, value: Option<string>)

  /** One key's contribution to `slot_events` outside `inform_filters`. */
  function PlainEvent(ctx: FilterContext, k: nat, clearUnset: bool): seq<SlotEvent>
    requires k < 3
  {
    if Explicit(ctx, k) then [SlotSet(FilterKeys[k], Effective(ctx, k))]
    else if clearUnset then [SlotSet(FilterKeys[k], None)]
    else []
  }

  function InformEvent(ctx: FilterContext, k: nat): seq<SlotEvent>
    requires k < 3
  {
    if Explicit(ctx, k) then [SlotSet(FilterKeys[k], Stated(ctx, k))] else []
  }

  /** `FilterContext.slot_events(clear_unset)`. */
  function SlotEvents(ctx: FilterContext, clearUnset: bool): seq<SlotEvent> {
    if ctx.IsInform() then InformEvent(ctx, 0) + InformEvent(ctx, 1) + InformEvent(ctx, 2)
    else PlainEvent(ctx, 0, clearUnset) + PlainEvent(ctx, 1, clearUnset) + PlainEvent(ctx, 2, clearUnset)
  }

  function KeyIndex(key: string): nat {
    if key == "year" then 0 else if key == "surface" then 1 else if key == "tournament_name" then 2 else 3
  }

  /** The keys of `events` are filter keys in strictly increasing order. */
  predicate OrderedKeys(events: seq<SlotEvent>) {
    && (forall i :: 0 <= i < |events| ==> KeyIndex(events[i].key) < 3)
    && (forall i, j :: 0 <= i < j < |events| ==> KeyIndex(events[i].key) < KeyIndex(events[j].key))
  }

  function EventFor(events: seq<SlotEvent>, k: nat): (r: Option<SlotEvent>)
    ensures r.Some? ==> r.value in events && KeyIndex(r.value.key) == k
    ensures r.None? ==> forall i :: 0 <= i < |events| ==> KeyIndex(events[i].key) != k
  {
    if events == [] then None
    else if KeyIndex(events[0].key) == k then Some(events[0])
    else
      var r := EventFor(events[1..], k);
      assert forall i :: 1 <= i < |events| ==> events[i] == events[1..][i - 1];
      r
  }

  lemma KeyIndexOfFilterKey(k: nat)
    requires k < 3
    ensures KeyIndex(FilterKeys[k]) == k
  {
  }

  /** The events of `slot_events` name filter keys in year, surface,
      tournament order, one event per key at most. */
  lemma SlotEventsOrdered(ctx: FilterContext, clearUnset: bool)
    ensures OrderedKeys(SlotEvents(ctx, clearUnset))
  {
    KeyIndexOfFilterKey(0);
    KeyIndexOfFilterKey(1);
    KeyIndexOfFilterKey(2);
    if ctx.IsInform() {
      OrderedParts(InformEvent(ctx, 0), InformEvent(ctx, 1), InformEvent(ctx, 2));
    } else {
      OrderedParts(PlainEvent(ctx, 0, clearUnset), PlainEvent(ctx, 1, clearUnset), PlainEvent(ctx, 2, clearUnset));
    }
  }

  /** Three parts of at most one event each, keyed year, surface and
      tournament, concatenate to an ordered list. */
  lemma OrderedParts(a: seq<SlotEvent>, b: seq<SlotEvent>, c: seq<SlotEvent>)
    requires |a| <= 1 && |b| <= 1 && |c| <= 1
    requires forall e :: e in a ==> KeyIndex(e.key) == 0
    requires forall e :: e in b ==> KeyIndex(e.key) == 1
    requires forall e :: e in c ==> KeyIndex(e.key) == 2
    ensures OrderedKeys(a + b + c)
  {
    var s := a + b + c;
    forall i | 0 <= i < |s|
      ensures KeyIndex(s[i].key) == if i < |a| then 0 else if i < |a| + |b| then 1 else 2
    {
      if i < |a| {
        assert s[i] == a[i];
      } else if i < |a| + |b| {
        assert s[i] == b[i - |a|];
      } else {
        assert s[i] == c[i - |a| - |b|];
      }
    }
  }

  /** `slot_events` for `inform_filters`: exactly the explicitly stated
      filters are set, each to what the message stated. */
  lemma InformSlotEvents(ctx: FilterContext, clearUnset: bool, k: nat)
    requires k < 3 && ctx.IsInform()
    ensures EventFor(SlotEvents(ctx, clearUnset), k) ==
      (if Explicit(ctx, k) then Some(SlotSet(FilterKeys[k], Stated(ctx, k))) else None)
  {
    KeyIndexOfFilterKey(0);
    KeyIndexOfFilterKey(1);
    KeyIndexOfFilterKey(2);
    EventForOfParts(InformEvent(ctx, 0), InformEvent(ctx, 1), InformEvent(ctx, 2), k);
  }

  /** `slot_events(clear_unset=True)` outside `inform_filters`: one event per
      filter, its effective value when explicit and a clear otherwise. */
  lemma ClearingSlotEvents(ctx: FilterContext, k: nat)
    requires k < 3 && !ctx.IsInform()
    ensures |SlotEvents(ctx, true)| == 3
    ensures SlotEvents(ctx, true)[k] ==
      SlotSet(FilterKeys[k], if Explicit(ctx, k) then Effective(ctx, k) else None)
  {
  }

  /** `slot_events(clear_unset=False)` outside `inform_filters`: explicit
      filters are set to their effective value, the others left alone. */
  lemma KeepingSlotEvents(ctx: FilterContext, k: nat)
    requires k < 3 && !ctx.IsInform()
    ensures EventFor(SlotEvents(ctx, false), k) ==
      (if Explicit(ctx, k) then Some(SlotSet(FilterKeys[k], Effective(ctx, k))) else None)
  {
    KeyIndexOfFilterKey(0);
    KeyIndexOfFilterKey(1);
    KeyIndexOfFilterKey(2);
    EventForOfParts(PlainEvent(ctx, 0, false), PlainEvent(ctx, 1, false), PlainEvent(ctx, 2, false), k);
  }

  /** Looking a key up in three single-key parts. */
  lemma EventForOfParts(a: seq<SlotEvent>, b: seq<SlotEvent>, c: seq<SlotEvent>, k: nat)
    requires |a| <= 1 && |b| <= 1 && |c| <= 1
    requires forall e :: e in a ==> KeyIndex(e.key) == 0
    requires forall e :: e in b ==> KeyIndex(e.key) == 1
    requires forall e :: e in c ==> KeyIndex(e.key) == 2
    ensures k == 0 ==> EventFor(a + b + c, k) == (if a == [] then None else Some(a[0]))
    ensures k == 1 ==> EventFor(a + b + c, k) == (if b == [] then None else Some(b[0]))
    ensures k == 2 ==> EventFor(a + b + c, k) == (if c == [] then None else Some(c[0]))
  {
    var s := a + b + c;
    if a != [] {
      assert s[0] == a[0];
      assert s[1..] == b + c;
    } else {
      assert s == b + c;
    }
    if b != [] {
      assert (b + c)[0] == b[0];
      assert (b + c)[1..] == c;
    }
    if c != [] {
      assert c[1..] == [];
    }
  }

  /** For a context built from a message, `inform_filters` never clears a
      slot: every event carries a value. */
  lemma InformNeverClears(m: Message, slots: Slots)
    requires IntentName(m) == InformIntent
    ensures forall e :: e in SlotEvents(BuildFilterContext(m, slots), false) ==> e.value.Some?
    ensures forall e :: e in SlotEvents(BuildFilterContext(m, slots), true) ==> e.value.Some?
  {
    var ctx := BuildFilterContext(m, slots);
    assert ctx.IsInform();
    assert ExplicitMeansStated(ctx);
    InformEventsCarryValues(ctx, false);
    InformEventsCarryValues(ctx, true);
  }

  /** Every filter marked explicit was stated by the message. */
  predicate ExplicitMeansStated(ctx: FilterContext) {
    && (ctx.explicitYear ==> ctx.messageYear.Some?)
    && (ctx.explicitSurface ==> ctx.messageSurface.Some?)
    && (ctx.explicitTournament ==> ctx.messageTournament.Some?)
  }

  lemma InformEventsCarryValues(ctx: FilterContext, clearUnset: bool)
    requires ctx.IsInform() && ExplicitMeansStated(ctx)
    ensures forall e :: e in SlotEvents(ctx, clearUnset) ==> e.value.Some?
  {
    var a, b, c := InformEvent(ctx, 0), InformEvent(ctx, 1), InformEvent(ctx, 2);
    assert SlotEvents(ctx, clearUnset) == a + b + c;
    forall e: SlotEvent | e in a + b + c ensures e.value.Some? {
      assert e in a || e in b || e in c;
    }
  }

  function ActiveEvent(ctx: FilterContext, k: nat): seq<SlotEvent>
    requires k < 3
  {
    if Effective(ctx, k).Some? && Effective(ctx, k).value != "" then [SlotSet(FilterKeys[k], Effective(ctx, k))]
    else []
  }

  /** `FilterContext.active_slot_events()`: every effective filter that is
      set and non-empty. */
  function ActiveSlotEvents(ctx: FilterContext): (r: seq<SlotEvent>)
    ensures OrderedKeys(r)
  {
    KeyIndexOfFilterKey(0);
    KeyIndexOfFilterKey(1);
    KeyIndexOfFilterKey(2);
    ActiveEvent(ctx, 0) + ActiveEvent(ctx, 1) + ActiveEvent(ctx, 2)
  }

  /** Rasa's effect of the events on the slots, in order. */
  function ApplyEvents(slots: Slots, events: seq<SlotEvent>): Slots
    decreases |events|
  {
    if events == [] then slots
    else ApplyEvents(slots[events[0].key := events[0].value], events[1..])
  }

  lemma ApplyEventsAppend(slots: Slots, a: seq<SlotEvent>, b: seq<SlotEvent>)
    ensures ApplyEvents(slots, a + b) == ApplyEvents(ApplyEvents(slots, a), b)
    decreases |a|
  {
    if a != [] {
      assert (a + b)[0] == a[0];
      assert (a + b)[1..] == a[1..] + b;
      ApplyEventsAppend(slots[a[0].key := a[0].value], a[1..], b);
    } else {
      assert a + b == b;
    }
  }

  /** A message that states no filter at all. */
  predicate StatesNoFilter(m: Message) {
    MessageYear(m).None? && MessageSurface(m).None? && MessageTournament(m).None?
  }

  /** The follow-up round trip: after the active filters are stored in the
      slots, an `inform_filters` message that states nothing recovers every
      active filter from memory. */
  lemma FollowUpKeepsActiveFilters(ctx: FilterContext, slots: Slots, m: Message, k: nat)
    requires k < 3
    requires IntentName(m) == InformIntent && StatesNoFilter(m)
    requires Effective(ctx, k).Some? && Effective(ctx, k).value != ""
    ensures Effective(BuildFilterContext(m, ApplyEvents(slots, ActiveSlotEvents(ctx))), k) == Effective(ctx, k)
  {
    var e0 := ActiveEvent(ctx, 0);
    var e1 := ActiveEvent(ctx, 1);
    var e2 := ActiveEvent(ctx, 2);
    ApplyEventsAppend(slots, e0 + e1, e2);
    ApplyEventsAppend(slots, e0, e1);
  }

  /** `describe_filters(year, surface, tournament)`. */
  function DescribeFilters(year: Option<string>, surface: Option<string>, tournament: Option<string>): seq<string> {
    (if year.Some? && year.value != "" then ["anno: " + year.value] else [])
    + (if surface.Some? && surface.value != "" then ["superficie: " + SurfaceLabel(surface.value)] else [])
    + (if tournament.Some? && tournament.value != "" then ["torneo: " + tournament.value] else [])
  }

  /** `FilterContext.describe()` */
  function Describe(ctx: FilterContext): seq<string> {
    DescribeFilters(ctx.year, ctx.surface, ctx.tournament)
  }

  /** The description has one line per active filter, so it is empty exactly
      when `active_slot_events` is. */
  lemma DescribeMatchesActive(ctx: FilterContext)
    ensures |Describe(ctx)| == |ActiveSlotEvents(ctx)|
    ensures Describe(ctx) == [] <==> ActiveSlotEvents(ctx) == []
  {
  }
}
