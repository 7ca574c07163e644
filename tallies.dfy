/** The `{"matches": m, "wins": w}` buckets that the statistics actions keep
    per surface, tournament and year, updated with
    `entry = stats.setdefault(key, {"matches": 0, "wins": 0})`,
    `entry["matches"] += 1` and, for a win, `entry["wins"] += 1`
    (Chatbot/actions/actions.py:1210-1228 and 1529-1541). A Python dict keeps
    insertion order, so the buckets are an association list in that
    order. */
module Tallies {
  import opened PyText

  datatype Tally = Tally(matches: nat, wins: nat)

  type Buckets = seq<(string, Tally)>

  /** The tally after one more match, won or not. */
  function Count(t: Tally, won: bool): Tally {
    Tally(t.matches + 1, t.wins + (if won then 1 else 0))
  }

  /** The setdefault-and-increment step. */
  function Bump(b: Buckets, key: string, won: bool): (r: Buckets)
    decreases |b|
  {
    if b == [] then [(key, Count(Tally(0, 0), won))]
    else if b[0].0 == key then [(key, Count(b[0].1, won))] + b[1..]
    else [b[0]] + Bump(b[1..], key, won)
  }

  /** `stats.get(key)` */
  function Lookup(b: Buckets, key: string): Option<Tally>
    decreases |b|
  {
    if b == [] then None
    else if b[0].0 == key then Some(b[0].1)
    else Lookup(b[1..], key)
  }

  function MatchesSum(b: Buckets): nat
    decreases |b|
  {
    if b == [] then 0 else b[0].1.matches + MatchesSum(b[1..])
  }

  function WinsSum(b: Buckets): nat
    decreases |b|
  {
    if b == [] then 0 else b[0].1.wins + WinsSum(b[1..])
  }

  /** Keys are distinct, as in a dict, and every bucket holds at least one
      match and no more wins than matches. */
  predicate BucketsOk(b: Buckets) {
    && (forall i, j :: 0 <= i < j < |b| ==> b[i].0 != b[j].0)
    && (forall i :: 0 <= i < |b| ==> 1 <= b[i].1.matches && b[i].1.wins <= b[i].1.matches)
  }

  /** One bump adds one match to the total, and one win when the match was
      won. */
  lemma {:induction false} BumpSums(b: Buckets, key: string, won: bool)
    ensures MatchesSum(Bump(b, key, won)) == MatchesSum(b) + 1
    ensures WinsSum(Bump(b, key, won)) == WinsSum(b) + (if won then 1 else 0)
    decreases |b|
  {
    if b != [] && b[0].0 != key {
      BumpSums(b[1..], key, won);
      var r := Bump(b, key, won);
      assert r[1..] == Bump(b[1..], key, won);
    } else if b != [] {
      var r := Bump(b, key, won);
      assert r[1..] == b[1..];
    }
  }

  /** The keys after a bump: the old ones and `key`, in insertion order. */
  lemma {:induction false} BumpKeys(b: Buckets, key: string, won: bool)
    ensures var r := Bump(b, key, won);
      && |r| == (if Lookup(b, key).Some? then |b| else |b| + 1)
      && (forall i :: 0 <= i < |b| ==> r[i].0 == b[i].0)
      && (|r| > |b| ==> r[|b|].0 == key)
    decreases |b|
  {
    if b != [] && b[0].0 != key {
      BumpKeys(b[1..], key, won);
    }
  }

  lemma {:induction false} LookupIn(b: Buckets, key: string)
    ensures Lookup(b, key).Some? <==> exists i :: 0 <= i < |b| && b[i].0 == key
    decreases |b|
  {
    if b != [] {
      LookupIn(b[1..], key);
      if b[0].0 != key {
        assert forall i :: 1 <= i < |b| ==> b[i] == b[1..][i - 1];
        if exists i :: 0 <= i < |b[1..]| && b[1..][i].0 == key {
          var i :| 0 <= i < |b[1..]| && b[1..][i].0 == key;
          assert b[i + 1].0 == key;
        }
      }
    }
  }

  /** A bump keeps the buckets well formed. */
  lemma BumpOk(b: Buckets, key: string, won: bool)
    requires BucketsOk(b)
    ensures BucketsOk(Bump(b, key, won))
  {
    if exists i :: 0 <= i < |b| && b[i].0 == key {
      var i :| 0 <= i < |b| && b[i].0 == key;
      BumpAtFirst(b, key, won, i);
    } else {
      BumpNew(b, key, won);
    }
  }

  /** Only the bucket of `key` changes: it counts one more match (one more
      win when won), starting from zero when the key is new. */
  lemma {:induction false} BumpLookup(b: Buckets, key: string, won: bool, other: string)
    ensures Lookup(Bump(b, key, won), key) ==
      Some(Count(if Lookup(b, key).Some? then Lookup(b, key).value else Tally(0, 0), won))
    ensures other != key ==> Lookup(Bump(b, key, won), other) == Lookup(b, other)
    decreases |b|
  {
    if b != [] && b[0].0 != key {
      BumpLookup(b[1..], key, won, other);
      assert Bump(b, key, won)[1..] == Bump(b[1..], key, won);
    } else if b != [] {
      assert Bump(b, key, won)[1..] == b[1..];
    }
  }

  /** The bump when `key` first sits at position `i`. */
  lemma {:induction false} BumpAtFirst(b: Buckets, key: string, won: bool, i: nat)
    requires i < |b| && b[i].0 == key && forall k :: 0 <= k < i ==> b[k].0 != key
    ensures Bump(b, key, won) == b[i := (key, Count(b[i].1, won))]
    decreases i
  {
    if i > 0 {
      BumpAtFirst(b[1..], key, won, i - 1);
    }
  }

  /** The bump of a key that is not present appends it. */
  lemma {:induction false} BumpNew(b: Buckets, key: string, won: bool)
    requires forall k :: 0 <= k < |b| ==> b[k].0 != key
    ensures Bump(b, key, won) == b + [(key, Count(Tally(0, 0), won))]
    decreases |b|
  {
    if b != [] {
      BumpNew(b[1..], key, won);
    }
  }

  /** `stats.setdefault(key, ...)` and the increments: find the entry, or
      add a fresh one at the end. */
  method SetDefaultCount(b: Buckets, key: string, won: bool) returns (r: Buckets)
    ensures r == Bump(b, key, won)
  {
    var i := 0;
    while i < |b| && b[i].0 != key
      invariant 0 <= i <= |b|
      invariant forall k :: 0 <= k < i ==> b[k].0 != key
    {
      i := i + 1;
    }
    if i < |b| {
      BumpAtFirst(b, key, won, i);
      r := b[i := (key, Count(b[i].1, won))];
    } else {
      BumpNew(b, key, won);
      r := b + [(key, Count(Tally(0, 0), won))];
    }
  }
}
