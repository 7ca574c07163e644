/** Stable first-occurrence filtering by a key, the loop shared by
    `deduplicate_matches`, `fetch_unique_match_dicts` and the head-to-head
    action (Chatbot/actions/actions.py:443-452, 463-472, 1474-1481), and by
    the `tried` set of `guess_tournament_from_text`. */
module FirstOccurrence {

  /** Keys of the elements of `s`. */
  function KeysOf<T, K(==)>(s: seq<T>, key: T -> K): set<K>
    decreases |s|
  {
    if s == [] then {} else KeysOf(s[..|s| - 1], key) + {key(s[|s| - 1])}
  }

  /** What the loop has kept after reading `s`: an element is appended when
      its key is not yet among the keys of what was kept before it. */
  function Dedup<T, K(==)>(s: seq<T>, key: T -> K): seq<T>
    decreases |s|
  {
    if s == [] then []
    else
      var kept := Dedup(s[..|s| - 1], key);
      if key(s[|s| - 1]) in KeysOf(kept, key) then kept else kept + [s[|s| - 1]]
  }

  /** Position `i` holds the first element of `s` with its key. */
  predicate IsFirst<T, K(==)>(s: seq<T>, key: T -> K, i: int)
    requires 0 <= i < |s|
  {
    forall j :: 0 <= j < i ==> key(s[j]) != key(s[i])
  }

  /** The positions of `s` that hold a first occurrence, in increasing order:
      a reference definition that does not look at what was kept. */
  function FirstPositions<T, K(==)>(s: seq<T>, key: T -> K): seq<nat>
    decreases |s|
  {
    if s == [] then []
    else FirstPositions(s[..|s| - 1], key) + (if IsFirst(s, key, |s| - 1) then [|s| - 1] else [])
  }

  predicate DistinctKeys<T, K(==)>(s: seq<T>, key: T -> K) {
    forall i, j :: 0 <= i < j < |s| ==> key(s[i]) != key(s[j])
  }

  lemma {:induction false} KeysOfMember<T, K>(s: seq<T>, key: T -> K, k: K)
    ensures k in KeysOf(s, key) <==> exists i :: 0 <= i < |s| && key(s[i]) == k
    decreases |s|
  {
    if s != [] {
      var p := s[..|s| - 1];
      KeysOfMember(p, key, k);
      if exists i :: 0 <= i < |p| && key(p[i]) == k {
        var i :| 0 <= i < |p| && key(p[i]) == k;
        assert key(s[i]) == k;
      }
    }
  }

  lemma KeysOfAppend<T, K>(s: seq<T>, x: T, key: T -> K)
    ensures KeysOf(s + [x], key) == KeysOf(s, key) + {key(x)}
  {
    assert (s + [x])[..|s|] == s;
  }

  /** Coverage: the output has exactly the keys of the input. */
  lemma {:induction false} DedupKeys<T, K>(s: seq<T>, key: T -> K)
    ensures KeysOf(Dedup(s, key), key) == KeysOf(s, key)
    decreases |s|
  {
    if s != [] {
      var p := s[..|s| - 1];
      DedupKeys(p, key);
      var kept := Dedup(p, key);
      if key(s[|s| - 1]) !in KeysOf(kept, key) {
        KeysOfAppend(kept, s[|s| - 1], key);
      }
    }
  }

  /** The last element is appended exactly when it is a first occurrence. */
  lemma LastIsFirst<T, K>(s: seq<T>, key: T -> K)
    requires s != []
    ensures key(s[|s| - 1]) !in KeysOf(Dedup(s[..|s| - 1], key), key) <==> IsFirst(s, key, |s| - 1)
  {
    var p := s[..|s| - 1];
    DedupKeys(p, key);
    KeysOfMember(p, key, key(s[|s| - 1]));
    if !IsFirst(s, key, |s| - 1) {
      var j :| 0 <= j < |s| - 1 && key(s[j]) == key(s[|s| - 1]);
      assert key(p[j]) == key(s[|s| - 1]);
    }
  }

  /** Stability and first occurrence: the output is the input read at its
      first-occurrence positions, in order. */
  lemma {:induction false} DedupIsFirstOccurrences<T, K>(s: seq<T>, key: T -> K)
    ensures |Dedup(s, key)| == |FirstPositions(s, key)|
    ensures forall j :: 0 <= j < |Dedup(s, key)| ==>
      FirstPositions(s, key)[j] < |s| && Dedup(s, key)[j] == s[FirstPositions(s, key)[j]]
    decreases |s|
  {
    if s != [] {
      var p := s[..|s| - 1];
      DedupIsFirstOccurrences(p, key);
      LastIsFirst(s, key);
    }
  }

  /** The first-occurrence positions are increasing, are first occurrences,
      and include every first occurrence. */
  lemma {:induction false} FirstPositionsSpec<T, K>(s: seq<T>, key: T -> K)
    ensures forall j :: 0 <= j < |FirstPositions(s, key)| ==>
      FirstPositions(s, key)[j] < |s| && IsFirst(s, key, FirstPositions(s, key)[j])
    ensures forall j1, j2 :: 0 <= j1 < j2 < |FirstPositions(s, key)| ==>
      FirstPositions(s, key)[j1] < FirstPositions(s, key)[j2]
    ensures forall i :: 0 <= i < |s| && IsFirst(s, key, i) ==> i in FirstPositions(s, key)
    decreases |s|
  {
    if s != [] {
      var p := s[..|s| - 1];
      FirstPositionsSpec(p, key);
      var fp := FirstPositions(s, key);
      var fq := FirstPositions(p, key);
      forall j | 0 <= j < |fp| ensures fp[j] < |s| && IsFirst(s, key, fp[j]) {
        if j < |fq| {
          assert fp[j] == fq[j];
          assert fq[j] < |p| && IsFirst(p, key, fq[j]);
        }
      }
      forall i | 0 <= i < |s| && IsFirst(s, key, i) ensures i in fp {
        if i < |p| {
          assert IsFirst(p, key, i);
        }
      }
    }
  }

  /** No two kept elements share a key. */
  lemma {:induction false} DedupDistinct<T, K>(s: seq<T>, key: T -> K)
    ensures DistinctKeys(Dedup(s, key), key)
    decreases |s|
  {
    if s != [] {
      var p := s[..|s| - 1];
      DedupDistinct(p, key);
      var kept := Dedup(p, key);
      var x := s[|s| - 1];
      if key(x) !in KeysOf(kept, key) {
        forall i | 0 <= i < |kept| ensures key(kept[i]) != key(x) {
          KeysOfMember(kept, key, key(x));
        }
      }
    }
  }

  /** An input whose keys are already distinct passes unchanged. */
  lemma {:induction false} DedupOfDistinct<T, K>(s: seq<T>, key: T -> K)
    requires DistinctKeys(s, key)
    ensures Dedup(s, key) == s
    decreases |s|
  {
    if s != [] {
      var p := s[..|s| - 1];
      DedupOfDistinct(p, key);
      DedupKeys(p, key);
      KeysOfMember(p, key, key(s[|s| - 1]));
      assert p + [s[|s| - 1]] == s;
    }
  }

  /** Two sequences whose keys agree position by position have the same
      first-occurrence positions. */
  lemma {:induction false} FirstPositionsOfSameKeys<T, U, K>(s: seq<T>, u: seq<U>, k1: T -> K, k2: U -> K)
    requires |s| == |u| && forall i :: 0 <= i < |s| ==> k1(s[i]) == k2(u[i])
    ensures FirstPositions(s, k1) == FirstPositions(u, k2)
    decreases |s|
  {
    if s != [] {
      FirstPositionsOfSameKeys(s[..|s| - 1], u[..|u| - 1], k1, k2);
      assert IsFirst(s, k1, |s| - 1) <==> IsFirst(u, k2, |u| - 1);
    }
  }

  /** Deduplicating twice is deduplicating once. */
  lemma DedupIdempotent<T, K>(s: seq<T>, key: T -> K)
    ensures Dedup(Dedup(s, key), key) == Dedup(s, key)
  {
    DedupDistinct(s, key);
    DedupOfDistinct(Dedup(s, key), key);
  }

  /** The loop itself: a `seen` set and an output list that grows by
      appending. */
  method DeduplicateBy<T, K(==)>(rows: seq<T>, key: T -> K) returns (unique: seq<T>)
    ensures unique == Dedup(rows, key)
  {
    var seen: set<K> := {};
    unique := [];
    for i := 0 to |rows|
      invariant unique == Dedup(rows[..i], key)
      invariant seen == KeysOf(unique, key)
    {
      var k := key(rows[i]);
      assert rows[..i + 1][..i] == rows[..i];
      if k !in seen {
        KeysOfAppend(unique, rows[i], key);
        seen := seen + {k};
        unique := unique + [rows[i]];
      }
    }
    assert rows[..|rows|] == rows;
  }
}
