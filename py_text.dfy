/** Python string semantics that the chatbot's actions rely on: whitespace,
    `strip`, `lower`, `split`, `join`, `isdigit`, `in` on strings, `str(int)`,
    `int(str)` and string ordering. */
module PyText {

  datatype Option<+T> = None | Some(value: T)

  /** `str.isspace()` for one character (the Unicode White_Space set that
      Python's `split`, `strip` and the regex class `\s` use). */
  predicate IsSpace(c: char) {
    c == ' ' || ('\t' <= c <= '\r') || ('\U{1c}' <= c <= '\U{1f}')
    || c == '\U{85}' || c == '\U{a0}' || c == '\U{1680}'
    || ('\U{2000}' <= c <= '\U{200a}') || c == '\U{2028}' || c == '\U{2029}'
    || c == '\U{202f}' || c == '\U{205f}' || c == '\U{3000}'
  }

  predicate IsAsciiDigit(c: char) { '0' <= c <= '9' }

  /** `s.isdigit()`: non-empty and every character a digit. */
  predicate IsDigitStr(s: string) {
    |s| > 0 && forall i :: 0 <= i < |s| ==> IsAsciiDigit(s[i])
  }

  // ---------------------------------------------------------------------------
  // strip
  // ---------------------------------------------------------------------------

  /** Drops the leading characters that satisfy `drop`. */
  function LStripBy(s: string, drop: char -> bool): (r: string)
    ensures |r| <= |s|
  {
    if s != [] && drop(s[0]) then LStripBy(s[1..], drop) else s
  }

  /** What `LStripBy` removes is a prefix of dropped characters, and what it
      keeps starts with a kept one. */
  lemma {:induction false} LStripByShape(s: string, drop: char -> bool)
    ensures var r := LStripBy(s, drop);
      && r == s[|s| - |r|..]
      && (r != [] ==> !drop(r[0]))
      && (forall i :: 0 <= i < |s| - |r| ==> drop(s[i]))
  {
    if s != [] && drop(s[0]) {
      LStripByShape(s[1..], drop);
      var r := LStripBy(s, drop);
      forall i | 0 < i < |s| - |r| ensures drop(s[i]) {
        assert s[i] == s[1..][i - 1];
      }
    }
  }

  /** Drops the trailing characters that satisfy `drop`. */
  function RStripBy(s: string, drop: char -> bool): (r: string)
    ensures |r| <= |s|
  {
    if s != [] && drop(s[|s| - 1]) then RStripBy(s[..|s| - 1], drop) else s
  }

  lemma {:induction false} RStripByShape(s: string, drop: char -> bool)
    ensures var r := RStripBy(s, drop);
      && r == s[..|r|]
      && (r != [] ==> !drop(r[|r| - 1]))
      && (forall i :: |r| <= i < |s| ==> drop(s[i]))
  {
    if s != [] && drop(s[|s| - 1]) {
      RStripByShape(s[..|s| - 1], drop);
      var r := RStripBy(s, drop);
      assert s[..|s| - 1][..|r|] == s[..|r|];
    }
  }

  function StripBy(s: string, drop: char -> bool): string {
    RStripBy(LStripBy(s, drop), drop)
  }

  /** `s.strip()` */
  function Strip(s: string): string { StripBy(s, IsSpace) }

  /** `s.lstrip()` */
  function LStrip(s: string): string { LStripBy(s, IsSpace) }

  /** `s.strip(chars)` */
  function StripChars(s: string, chars: set<char>): string {
    StripBy(s, c => c in chars)
  }

  lemma StripByShape(s: string, drop: char -> bool)
    ensures var r := StripBy(s, drop);
      r != [] ==> !drop(r[0]) && !drop(r[|r| - 1])
  {
    var l := LStripBy(s, drop);
    LStripByShape(s, drop);
    RStripByShape(l, drop);
  }

  /** Stripping twice is stripping once. */
  lemma StripIdempotent(s: string)
    ensures Strip(Strip(s)) == Strip(s)
  {
    var r := Strip(s);
    StripByShape(s, IsSpace);
    if r != [] {
      assert LStripBy(r, IsSpace) == r;
      assert RStripBy(r, IsSpace) == r;
    }
  }

  // ---------------------------------------------------------------------------
  // lower / upper
  // ---------------------------------------------------------------------------

  /** `c.lower()` for ASCII and Latin-1 letters (A-Z and À-Þ except ×). */
  function LowerChar(c: char): char {
    if ('A' <= c <= 'Z') || ('\U{c0}' <= c <= '\U{de}' && c != '\U{d7}')
    then (c as int + 32) as char
    else c
  }

  /** `s.lower()` */
  function Lower(s: string): (r: string)
    ensures |r| == |s|
    ensures forall i :: 0 <= i < |s| ==> r[i] == LowerChar(s[i])
  {
    seq(|s|, i requires 0 <= i < |s| => LowerChar(s[i]))
  }

  /** `c.upper()` for ASCII letters. */
  function UpperChar(c: char): char {
    if 'a' <= c <= 'z' then (c as int - 32) as char else c
  }

  /** `s.upper()` */
  function Upper(s: string): (r: string)
    ensures |r| == |s|
  {
    seq(|s|, i requires 0 <= i < |s| => UpperChar(s[i]))
  }

  /** SQLite's built-in `LOWER()`, which folds ASCII letters only. */
  function AsciiLowerChar(c: char): char {
    if 'A' <= c <= 'Z' then (c as int + 32) as char else c
  }

  function AsciiLower(s: string): (r: string)
    ensures |r| == |s|
    ensures forall i :: 0 <= i < |s| ==> r[i] == AsciiLowerChar(s[i])
  {
    seq(|s|, i requires 0 <= i < |s| => AsciiLowerChar(s[i]))
  }

  lemma LowerSlice(s: string, i: int, j: int)
    requires 0 <= i <= j <= |s|
    ensures Lower(s[i..j]) == Lower(s)[i..j]
  {
  }

  // ---------------------------------------------------------------------------
  // substring tests
  // ---------------------------------------------------------------------------

  predicate StartsWith(s: string, prefix: string) {
    |prefix| <= |s| && s[..|prefix|] == prefix
  }

  /** `pat` occurs in `s` starting at index `i`. */
  predicate OccursAt(s: string, pat: string, i: int) {
    0 <= i <= |s| - |pat| && s[i..i + |pat|] == pat
  }

  /** `pat in s` */
  predicate Contains(s: string, pat: string) {
    exists i | 0 <= i <= |s| - |pat| :: OccursAt(s, pat, i)
  }

  // ---------------------------------------------------------------------------
  // split / join
  // ---------------------------------------------------------------------------

  /** Length of the longest prefix of `s` whose characters satisfy `keep`. */
  function RunLength(s: string, keep: char -> bool): (n: nat)
    ensures n <= |s|
    ensures forall i :: 0 <= i < n ==> keep(s[i])
    ensures n < |s| ==> !keep(s[n])
  {
    if s != [] && keep(s[0]) then 1 + RunLength(s[1..], keep) else 0
  }

  /** The maximal runs of characters satisfying `keep`, left to right
      (`re.findall` of a repeated character class; with `keep` = "not
      whitespace" this is `s.split()`). */
  function Chunks(s: string, keep: char -> bool): (r: seq<string>)
    decreases |s|
  {
    LStripByShape(s, c => !keep(c));
    var t := LStripBy(s, c => !keep(c));
    if t == [] then []
    else
      var n := RunLength(t, keep);
      [t[..n]] + Chunks(t[n..], keep)
  }

  /** Every chunk is non-empty and made of characters of `s` that satisfy `keep`. */
  lemma {:induction false} ChunksShape(s: string, keep: char -> bool)
    ensures forall w :: w in Chunks(s, keep) ==>
      w != [] && forall c :: c in w ==> c in s && keep(c)
    decreases |s|
  {
    LStripByShape(s, c => !keep(c));
    var t := LStripBy(s, c => !keep(c));
    if t != [] {
      var n := RunLength(t, keep);
      assert n >= 1;
      assert t == s[|s| - |t|..];
      ChunksShape(t[n..], keep);
      assert Chunks(s, keep) == [t[..n]] + Chunks(t[n..], keep);
      forall w | w in Chunks(s, keep)
        ensures w != [] && forall c :: c in w ==> c in s && keep(c)
      {
        if w == t[..n] {
          forall c | c in w ensures c in s && keep(c) {
            var i :| 0 <= i < n && t[i] == c;
            assert c == s[|s| - |t| + i];
          }
        } else {
          assert w in Chunks(t[n..], keep);
          forall c | c in w ensures c in s {
            var i :| 0 <= i < |t[n..]| && t[n..][i] == c;
            assert c == s[|s| - |t| + n + i];
          }
        }
      }
    }
  }

  predicate NotSpace(c: char) { !IsSpace(c) }

  /** `s.split()` */
  function Words(s: string): seq<string> { Chunks(s, NotSpace) }

  /** `sep.join(parts)` */
  function Join(parts: seq<string>, sep: string): string {
    if parts == [] then ""
    else if |parts| == 1 then parts[0]
    else parts[0] + sep + Join(parts[1..], sep)
  }

  /** Joining non-empty parts gives the empty string only for no parts. */
  lemma JoinEmpty(parts: seq<string>, sep: string)
    requires forall i :: 0 <= i < |parts| ==> parts[i] != ""
    ensures Join(parts, sep) == "" <==> parts == []
  {
    if |parts| > 1 {
      assert |Join(parts, sep)| >= |parts[0]|;
    }
  }

  // ---------------------------------------------------------------------------
  // integers as text
  // ---------------------------------------------------------------------------

  function DigitChar(d: nat): char
    requires d < 10
  {
    ('0' as int + d) as char
  }

  function DigitValue(c: char): nat
    requires IsAsciiDigit(c)
  {
    c as int - '0' as int
  }

  /** Decimal digits of `n`, most significant first, no leading zeros. */
  function NatToDecimal(n: nat): (r: string)
    ensures |r| > 0 && forall i :: 0 <= i < |r| ==> IsAsciiDigit(r[i])
  {
    if n < 10 then [DigitChar(n)] else NatToDecimal(n / 10) + [DigitChar(n % 10)]
  }

  /** `str(n)` for an integer. */
  function IntToDecimal(n: int): string {
    if n < 0 then "-" + NatToDecimal(-n) else NatToDecimal(n)
  }

  /** The digit body of a Python integer literal: digits, with single
      underscores allowed between two digits. */
  predicate IsDigitBody(s: string)
    decreases |s|
  {
    && |s| > 0 && IsAsciiDigit(s[|s| - 1])
    && (|s| == 1
        || (if s[|s| - 2] == '_' then |s| >= 3 && IsDigitBody(s[..|s| - 2])
            else IsDigitBody(s[..|s| - 1])))
  }

  /** The value of a digit body, underscores ignored. */
  function BodyValue(s: string): nat
    requires IsDigitBody(s)
    decreases |s|
  {
    var d := DigitValue(s[|s| - 1]);
    if |s| == 1 then d
    else if s[|s| - 2] == '_' then 10 * BodyValue(s[..|s| - 2]) + d
    else 10 * BodyValue(s[..|s| - 1]) + d
  }

  /** `int(s)` for a string: `Some(value)`, or `None` where Python raises
      ValueError. Surrounding whitespace and one sign are accepted. */
  function ParseInt(s: string): Option<int> {
    ParseTrimmed(Strip(s))
  }

  /** `int` of a string without surrounding whitespace. */
  function ParseTrimmed(t: string): Option<int> {
    if t != [] && (t[0] == '-' || t[0] == '+') then
      if IsDigitBody(t[1..]) then
        var v: int := BodyValue(t[1..]);
        Some(if t[0] == '-' then -v else v)
      else None
    else if IsDigitBody(t) then Some(BodyValue(t))
    else None
  }

  predicate NoSpace(s: string) {
    forall i :: 0 <= i < |s| ==> !IsSpace(s[i])
  }

  lemma StripOfNonSpace(s: string)
    requires NoSpace(s)
    ensures Strip(s) == s
  {
    assert LStripBy(s, IsSpace) == s;
    assert RStripBy(s, IsSpace) == s;
  }

  /** `int(str(n)) == n`: the decimal text of an integer parses back to it. */
  lemma ParseIntOfDecimal(n: int)
    ensures ParseInt(IntToDecimal(n)) == Some(n)
  {
    if n < 0 {
      BodyOfDecimal(-n);
      ParseSigned(NatToDecimal(-n));
    } else {
      BodyOfDecimal(n);
      ParseUnsigned(NatToDecimal(n));
    }
  }

  lemma DigitsNotSpace(d: string)
    requires forall i :: 0 <= i < |d| ==> IsAsciiDigit(d[i])
    ensures forall i :: 0 <= i < |d| ==> !IsSpace(d[i])
  {
  }

  lemma ParseUnsigned(d: string)
    requires IsDigitBody(d) && forall i :: 0 <= i < |d| ==> IsAsciiDigit(d[i])
    ensures ParseInt(d) == Some(BodyValue(d) as int)
  {
    DigitsNotSpace(d);
    StripOfNonSpace(d);
  }

  lemma ParseSigned(d: string)
    requires IsDigitBody(d) && forall i :: 0 <= i < |d| ==> IsAsciiDigit(d[i])
    ensures ParseInt("-" + d) == Some(-(BodyValue(d) as int))
  {
    var s := "-" + d;
    assert s[1..] == d;
    assert ParseTrimmed(s) == Some(-(BodyValue(d) as int));
    assert NoSpace(s) by {
      DigitsNotSpace(d);
      forall i | 0 < i < |s| ensures !IsSpace(s[i]) {
        assert s[i] == d[i - 1];
      }
    }
    StripOfNonSpace(s);
  }

  lemma {:induction false} BodyOfDecimal(m: nat)
    ensures IsDigitBody(NatToDecimal(m)) && BodyValue(NatToDecimal(m)) == m
  {
    var d := NatToDecimal(m);
    if m >= 10 {
      BodyOfDecimal(m / 10);
      assert d[..|d| - 1] == NatToDecimal(m / 10);
      assert IsAsciiDigit(d[|d| - 2]);
    }
  }

  // ---------------------------------------------------------------------------
  // string ordering
  // ---------------------------------------------------------------------------

  /** Python's `a < b` on strings: lexicographic by code point. */
  predicate StrLt(a: string, b: string) {
    if b == [] then false
    else if a == [] then true
    else if a[0] != b[0] then a[0] < b[0]
    else StrLt(a[1..], b[1..])
  }

  /** Of two different strings exactly one is smaller. */
  lemma {:induction false} StrLtTrichotomy(a: string, b: string)
    ensures a == b ==> !StrLt(a, b)
    ensures a != b ==> (StrLt(a, b) <==> !StrLt(b, a))
  {
    if a != [] && b != [] && a[0] == b[0] {
      StrLtTrichotomy(a[1..], b[1..]);
      if a[1..] == b[1..] {
        assert a == [a[0]] + a[1..] && b == [b[0]] + b[1..];
      }
    }
  }
}
