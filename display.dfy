/** The formatting helpers of the replies: tournament dates, column values
    shown with a default, and the "mathematical bold" transliteration used
    for headings. */
module Display {
  import opened PyText
  import opened Rows

  // ------------------------------------------------------------------ dates

  /** Eight digits: the `YYYYMMDD` form stored in `tourney_date`. */
  predicate IsCompactDate(s: string) {
    |s| == 8 && IsDigitStr(s)
  }

  /** `DD/MM/YYYY` in digits. */
  predicate IsDisplayDate(d: string) {
    && |d| == 10 && d[2] == '/' && d[5] == '/'
    && IsDigitStr(d[0..2]) && IsDigitStr(d[3..5]) && IsDigitStr(d[6..10])
  }

  /** `format_tournament_date(date_str)`: "N/A" for a missing or empty
      date, `DD/MM/YYYY` for an eight-digit one, anything else unchanged. */
  function FormatTournamentDate(date: Option<string>): (r: string)
    ensures date.None? || date.value == "" ==> r == "N/A"
    ensures date.Some? && date.value != "" && !IsCompactDate(date.value) ==> r == date.value
    ensures date.Some? && IsCompactDate(date.value) ==> IsDisplayDate(r)
  {
    if date.None? || date.value == "" then "N/A"
    else
      var s := date.value;
      if !IsCompactDate(s) then s
      else
        var r := s[6..8] + "/" + s[4..6] + "/" + s[0..4];
        assert r[0..2] == s[6..8] && r[3..5] == s[4..6] && r[6..10] == s[0..4];
        r
  }

  /** The compact form a display date was made from. */
  function CompactOf(d: string): string
    requires |d| == 10
  {
    d[6..10] + d[3..5] + d[0..2]
  }

  /** Formatting an eight-digit date loses nothing: reading the day, month
      and year back gives the stored date. */
  lemma FormatDateRoundTrip(s: string)
    requires IsCompactDate(s)
    ensures IsDisplayDate(FormatTournamentDate(Some(s)))
    ensures CompactOf(FormatTournamentDate(Some(s))) == s
  {
    var r := FormatTournamentDate(Some(s));
    assert r == s[6..8] + "/" + s[4..6] + "/" + s[0..4];
    assert r[6..10] == s[0..4] && r[3..5] == s[4..6] && r[0..2] == s[6..8];
    assert s == s[0..4] + s[4..6] + s[6..8];
  }

  /** Every display date is the image of exactly one compact date. */
  lemma DisplayDateOfCompact(d: string)
    requires IsDisplayDate(d)
    ensures IsCompactDate(CompactOf(d))
    ensures FormatTournamentDate(Some(CompactOf(d))) == d
  {
    var s := CompactOf(d);
    assert s[0..4] == d[6..10] && s[4..6] == d[3..5] && s[6..8] == d[0..2];
    assert IsDigitStr(s) by {
      forall i | 0 <= i < 8 ensures IsAsciiDigit(s[i]) {
        if i < 4 { assert s[i] == d[6..10][i]; }
        else if i < 6 { assert s[i] == d[3..5][i - 4]; }
        else { assert s[i] == d[0..2][i - 6]; }
      }
    }
    assert d == d[0..2] + "/" + d[3..5] + "/" + d[6..10];
  }

  /** Formatting an already formatted date changes nothing. */
  lemma FormatDateIdempotent(date: Option<string>)
    ensures FormatTournamentDate(Some(FormatTournamentDate(date))) == FormatTournamentDate(date)
  {
    var r := FormatTournamentDate(date);
    assert r != "" by {
      if date.Some? && IsCompactDate(date.value) { assert |r| == 10; }
    }
    assert !IsCompactDate(r) by {
      if date.Some? && IsCompactDate(date.value) { assert |r| == 10; }
    }
  }

  // ---------------------------------------------------------- column values

  /** A value `display_value` replaces by its default: None, or a string
      that is empty once stripped. */
  predicate IsBlank(v: Field) {
    v.Null? || (v.Text? && Strip(v.s) == "")
  }

  /** `display_value(value, default)`: the stripped string, `str` of a
      number, or the default for a blank value. */
  function DisplayValue(v: Field, default: string): (r: string)
    ensures IsBlank(v) ==> r == default
    ensures !IsBlank(v) ==> r != "" && Strip(r) == r
  {
    match v
    case Null => default
    case Text(s) =>
      var t := Strip(s);
      StripIdempotent(s);
      if t == "" then default else t
    case Int(n) =>
      var d := IntToDecimal(n);
      assert NoSpace(d) by {
        if n < 0 {
          DigitsNotSpace(NatToDecimal(-n));
          assert forall i :: 0 < i < |d| ==> d[i] == NatToDecimal(-n)[i - 1];
        } else {
          DigitsNotSpace(NatToDecimal(n));
        }
      }
      StripOfNonSpace(d);
      d
  }

  /** The default only shows for a blank value: any other value is shown
      the same whatever the default. */
  lemma DisplayIgnoresDefault(v: Field, d1: string, d2: string)
    requires !IsBlank(v)
    ensures DisplayValue(v, d1) == DisplayValue(v, d2)
  {
    match v
    case Text(s) =>
    case Int(n) =>
  }

  /** Showing a shown value again changes nothing, for a default without
      surrounding whitespace. */
  lemma DisplayValueIdempotent(v: Field, default: string)
    requires Strip(default) == default
    ensures DisplayValue(Text(DisplayValue(v, default)), default) == DisplayValue(v, default)
  {
    var r := DisplayValue(v, default);
    if IsBlank(v) {
      if default != "" { assert !IsBlank(Text(r)); }
    }
  }

  /** A number is shown as text that `safe_int` reads back to it. */
  lemma DisplayedNumberReadsBack(n: int, default: string)
    ensures SafeInt(Text(DisplayValue(Int(n), default))) == n
  {
    SafeIntOfText(n);
  }

  // ------------------------------------------------------------------- bold

  /** The first code points of the bold capitals, small letters and digits
      of the Mathematical Alphanumeric Symbols block. */
  const BoldCapitalA := 0x1D400
  const BoldSmallA := 0x1D41A
  const BoldDigitZero := 0x1D7CE

  predicate IsAsciiAlnum(c: char) {
    ('A' <= c <= 'Z') || ('a' <= c <= 'z') || ('0' <= c <= '9')
  }

  /** A character of one of the three bold ranges. */
  predicate IsBoldChar(c: char) {
    || (BoldCapitalA <= c as int < BoldCapitalA + 26)
    || (BoldSmallA <= c as int < BoldSmallA + 26)
    || (BoldDigitZero <= c as int < BoldDigitZero + 10)
  }

  /** One step of `to_unicode_bold`: an ASCII letter or digit becomes its
      bold counterpart, anything else stays. */
  function BoldChar(c: char): (b: char)
    ensures IsAsciiAlnum(c) ==> IsBoldChar(b) && UnboldChar(b) == c
    ensures !IsAsciiAlnum(c) ==> b == c
  {
    if 'A' <= c <= 'Z' then (c as int - 'A' as int + BoldCapitalA) as char
    else if 'a' <= c <= 'z' then (c as int - 'a' as int + BoldSmallA) as char
    else if '0' <= c <= '9' then (c as int - '0' as int + BoldDigitZero) as char
    else c
  }

  /** The inverse of `BoldChar` on the bold ranges. */
  function UnboldChar(b: char): char {
    if BoldCapitalA <= b as int < BoldCapitalA + 26 then (b as int - BoldCapitalA + 'A' as int) as char
    else if BoldSmallA <= b as int < BoldSmallA + 26 then (b as int - BoldSmallA + 'a' as int) as char
    else if BoldDigitZero <= b as int < BoldDigitZero + 10 then (b as int - BoldDigitZero + '0' as int) as char
    else b
  }

  /** The text `to_unicode_bold` returns, character by character. */
  function BoldText(s: string): (r: string)
    ensures |r| == |s|
  {
    seq(|s|, i requires 0 <= i < |s| => BoldChar(s[i]))
  }

  function UnboldText(s: string): (r: string)
    ensures |r| == |s|
  {
    seq(|s|, i requires 0 <= i < |s| => UnboldChar(s[i]))
  }

  /** `to_unicode_bold(text)`: the loop that appends one converted
      character per input character. */
  method ToUnicodeBold(text: string) returns (r: string)
    ensures r == BoldText(text)
  {
    r := [];
    for i := 0 to |text|
      invariant |r| == i
      invariant forall k :: 0 <= k < i ==> r[k] == BoldChar(text[k])
    {
      var ch := text[i];
      if 'A' <= ch <= 'Z' {
        r := r + [(ch as int - 'A' as int + BoldCapitalA) as char];
      } else if 'a' <= ch <= 'z' {
        r := r + [(ch as int - 'a' as int + BoldSmallA) as char];
      } else if '0' <= ch <= '9' {
        r := r + [(ch as int - '0' as int + BoldDigitZero) as char];
      } else {
        r := r + [ch];
      }
    }
  }

  /** Text without bold characters comes back unchanged from bold. */
  lemma BoldRoundTrip(s: string)
    requires forall i :: 0 <= i < |s| ==> !IsBoldChar(s[i])
    ensures UnboldText(BoldText(s)) == s
  {
    var b := BoldText(s);
    forall i | 0 <= i < |s| ensures UnboldText(b)[i] == s[i] {
      assert b[i] == BoldChar(s[i]);
    }
  }

  /** Bold text has no ASCII letter or digit left, so bolding it again
      changes nothing. */
  lemma BoldIdempotent(s: string)
    ensures forall i :: 0 <= i < |s| ==> !IsAsciiAlnum(BoldText(s)[i])
    ensures BoldText(BoldText(s)) == BoldText(s)
  {
    var b := BoldText(s);
    forall i | 0 <= i < |s| ensures !IsAsciiAlnum(b[i]) {
      assert b[i] == BoldChar(s[i]);
      assert IsAsciiAlnum(s[i]) ==> IsBoldChar(b[i]);
    }
  }

  /** Bolding works character by character, so the pieces of a heading can
      be bolded apart or together. */
  lemma BoldConcat(a: string, b: string)
    ensures BoldText(a + b) == BoldText(a) + BoldText(b)
  {
    forall i | 0 <= i < |a| + |b|
      ensures BoldText(a + b)[i] == (BoldText(a) + BoldText(b))[i]
    {
      if i < |a| { assert (a + b)[i] == a[i]; } else { assert (a + b)[i] == b[i - |a|]; }
    }
  }
}
