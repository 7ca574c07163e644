/** SQLite's `LIKE` operator as the lookup queries use it: `%` matches any
    run of characters, `_` any single character, and other characters
    match with ASCII letters compared case-insensitively (no ESCAPE
    clause). */
module SqlLike {
  import opened PyText

  /** `s LIKE p` */
  predicate Like(s: string, p: string)
    decreases |s| + |p|
  {
    if p == [] then s == []
    else if p[0] == '%' then Like(s, p[1..]) || (s != [] && Like(s[1..], p))
    else s != [] && (p[0] == '_' || AsciiLowerChar(s[0]) == AsciiLowerChar(p[0])) && Like(s[1..], p[1..])
  }

  /** A pattern text with no wildcard in it. */
  predicate NoWildcards(t: string) {
    forall i :: 0 <= i < |t| ==> t[i] != '%' && t[i] != '_'
  }

  /** `t` is a prefix of `s` up to ASCII case. */
  predicate FoldedPrefix(s: string, t: string) {
    |t| <= |s| && forall i :: 0 <= i < |t| ==> AsciiLowerChar(s[i]) == AsciiLowerChar(t[i])
  }

  /** `t` occurs in `s` up to ASCII case. */
  predicate FoldedContains(s: string, t: string) {
    exists i :: 0 <= i <= |s| && FoldedPrefix(s[i..], t)
  }

  /** A lone `%` matches everything. */
  lemma {:induction false} LikeAnything(s: string)
    ensures Like(s, "%")
    decreases |s|
  {
    if s != [] {
      LikeAnything(s[1..]);
    }
  }

  /** `s LIKE t%` holds exactly when `t` starts `s`, up to ASCII case. */
  lemma {:induction false} LikePrefix(s: string, t: string)
    requires NoWildcards(t)
    ensures Like(s, t + "%") <==> FoldedPrefix(s, t)
    decreases |t|
  {
    if t == [] {
      assert t + "%" == "%";
      LikeAnything(s);
    } else {
      var p := t + "%";
      assert p[0] == t[0] && p[1..] == t[1..] + "%";
      LikePrefix(if s == [] then s else s[1..], t[1..]);
      if s != [] {
        if FoldedPrefix(s[1..], t[1..]) && AsciiLowerChar(s[0]) == AsciiLowerChar(t[0]) {
          forall i | 0 <= i < |t| ensures AsciiLowerChar(s[i]) == AsciiLowerChar(t[i]) {
            if i > 0 { assert s[i] == s[1..][i - 1] && t[i] == t[1..][i - 1]; }
          }
        }
        if FoldedPrefix(s, t) {
          forall i | 0 <= i < |t| - 1 ensures AsciiLowerChar(s[1..][i]) == AsciiLowerChar(t[1..][i]) {
            assert s[1..][i] == s[i + 1] && t[1..][i] == t[i + 1];
          }
        }
      }
    }
  }

  /** The words `ws` occur in `s` one after the other, without overlap,
      each up to ASCII case. */
  predicate FoldedInOrder(s: string, ws: seq<string>)
    decreases |ws|
  {
    ws == [] ||
      exists i ::
        0 <= i <= |s| && FoldedPrefix(s[i..], ws[0]) && FoldedInOrder(s[i + |ws[0]|..], ws[1..])
  }

  /** A literal head of a pattern must start `s`; the rest of the pattern
      then matches what follows it. */
  lemma {:induction false} LikeLiteralThen(s: string, t: string, q: string)
    requires NoWildcards(t)
    ensures Like(s, t + q) <==> FoldedPrefix(s, t) && Like(s[|t|..], q)
    decreases |t|
  {
    if t == [] {
      assert t + q == q && s[0..] == s;
    } else {
      var p := t + q;
      assert p[0] == t[0] && p[1..] == t[1..] + q;
      if s != [] {
        LikeLiteralThen(s[1..], t[1..], q);
        if FoldedPrefix(s, t) {
          assert s[1..][|t[1..]|..] == s[|t|..];
          forall i | 0 <= i < |t| - 1 ensures AsciiLowerChar(s[1..][i]) == AsciiLowerChar(t[1..][i]) {
            assert s[1..][i] == s[i + 1] && t[1..][i] == t[i + 1];
          }
        }
        if FoldedPrefix(s[1..], t[1..]) && AsciiLowerChar(s[0]) == AsciiLowerChar(t[0]) {
          assert s[1..][|t[1..]|..] == s[|t|..];
          forall i | 0 <= i < |t| ensures AsciiLowerChar(s[i]) == AsciiLowerChar(t[i]) {
            if i > 0 { assert s[i] == s[1..][i - 1] && t[i] == t[1..][i - 1]; }
          }
        }
      }
    }
  }

  /** A leading `%` tries every suffix of `s`. */
  lemma {:induction false} LikeLeadingPercent(s: string, q: string)
    ensures Like(s, "%" + q) <==> exists i :: 0 <= i <= |s| && Like(s[i..], q)
    decreases |s|
  {
    var p := "%" + q;
    assert p[0] == '%' && p[1..] == q;
    assert s[0..] == s;
    if s != [] {
      LikeLeadingPercent(s[1..], q);
      if Like(s[1..], p) {
        var i :| 0 <= i <= |s[1..]| && Like(s[1..][i..], q);
        assert s[1..][i..] == s[i + 1..];
      }
      if !Like(s, q) && exists i :: 0 <= i <= |s| && Like(s[i..], q) {
        var i :| 0 <= i <= |s| && Like(s[i..], q);
        assert i > 0;
        assert s[1..][i - 1..] == s[i..];
      }
    }
  }

  /** `s LIKE %t%` holds exactly when `t` occurs in `s`, up to ASCII case:
      the substring test of the lookup queries. */
  lemma LikeContains(s: string, t: string)
    requires NoWildcards(t)
    ensures Like(s, "%" + t + "%") <==> FoldedContains(s, t)
  {
    assert "%" + t + "%" == "%" + (t + "%");
    LikeLeadingPercent(s, t + "%");
    forall i | 0 <= i <= |s| ensures Like(s[i..], t + "%") <==> FoldedPrefix(s[i..], t) {
      LikePrefix(s[i..], t);
    }
  }

  /** `s LIKE %w1%w2%...%wn%` holds exactly when the words occur in `s` in
      order, without overlap, up to ASCII case. */
  lemma {:induction false} LikeWordsInOrder(s: string, ws: seq<string>)
    requires forall k :: 0 <= k < |ws| ==> NoWildcards(ws[k])
    ensures Like(s, "%" + Join(ws, "%") + "%") <==> FoldedInOrder(s, ws)
    decreases |ws|
  {
    if ws == [] {
      assert "%" + Join(ws, "%") + "%" == "%" + "%";
      LikeLeadingPercent(s, "%");
      LikeAnything(s);
      assert s[0..] == s;
    } else {
      var w, rest := ws[0], ws[1..];
      var tail := if rest == [] then "%" else "%" + Join(rest, "%") + "%";
      assert "%" + Join(ws, "%") + "%" == "%" + (w + tail);
      LikeLeadingPercent(s, w + tail);
      forall i | 0 <= i <= |s|
        ensures Like(s[i..], w + tail) <==> FoldedPrefix(s[i..], w) && FoldedInOrder(s[i + |w|..], rest)
      {
        LikeLiteralThen(s[i..], w, tail);
        if FoldedPrefix(s[i..], w) {
          assert s[i..][|w|..] == s[i + |w|..];
          if rest == [] {
            LikeAnything(s[i + |w|..]);
          } else {
            LikeWordsInOrder(s[i + |w|..], rest);
          }
        }
      }
      if Like(s, "%" + (w + tail)) {
        var i :| 0 <= i <= |s| && Like(s[i..], w + tail);
        assert FoldedPrefix(s[i..], ws[0]) && FoldedInOrder(s[i + |ws[0]|..], ws[1..]);
      }
      if FoldedInOrder(s, ws) {
        var i :| 0 <= i <= |s| && FoldedPrefix(s[i..], ws[0]) && FoldedInOrder(s[i + |ws[0]|..], ws[1..]);
        assert Like(s[i..], w + tail);
      }
    }
  }

  /** Lower-casing both sides, as `LOWER(x) LIKE LOWER(?)` does, changes
      nothing: `LIKE` already ignores ASCII case. */
  lemma {:induction false} LikeOfLowered(s: string, p: string)
    ensures Like(AsciiLower(s), AsciiLower(p)) == Like(s, p)
    decreases |s| + |p|
  {
    var ls, lp := AsciiLower(s), AsciiLower(p);
    if p != [] {
      assert lp[1..] == AsciiLower(p[1..]);
      if s != [] {
        assert ls[1..] == AsciiLower(s[1..]);
        LikeOfLowered(s[1..], p[1..]);
      }
      if p[0] == '%' {
        LikeOfLowered(s, p[1..]);
        if s != [] { LikeOfLowered(s[1..], p); }
      }
    }
  }

  /** A prefix is also an occurrence. */
  lemma PrefixIsContained(s: string, t: string)
    requires FoldedPrefix(s, t)
    ensures FoldedContains(s, t)
  {
    assert s[0..] == s;
  }
}
