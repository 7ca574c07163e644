/** `_extract_players_from_text` (Chatbot/actions/actions.py:2105-2119): a
    regular-expression search for `X vs Y`, then the two sides cleaned by
    `_clean_player_fragment` and kept when non-empty and distinct. */
module Players {
  import opened PyText
  import opened Extractor

  // ------------------------------------------------------------ regex engine
  // The search `(?i)(.+?)\s+(?:vs\.?|versus|contro)\s+(.+)` written out as
  // Python's backtracking matcher explores it: start positions left to
  // right, the lazy first group shortest first, the greedy whitespace runs
  // longest first, the alternatives in order. `.` matches anything but a
  // line feed; `\s` is `str.isspace`.

  /** One pattern letter under `(?i)`: the letter, its upper case, and for
      `s` also the long s (U+017F), which folds to it. */
  predicate CharMatches(c: char, lit: char) {
    c == lit || c == UpperChar(lit) || (lit == 's' && c == '\U{17f}')
  }

  /** The literal `lit` matches at position `i` of `s`, ignoring case. */
  predicate LitAt(s: string, i: nat, lit: string) {
    i + |lit| <= |s| && forall k :: 0 <= k < |lit| ==> CharMatches(s[i + k], lit[k])
  }

  /** Where the separator can end when it starts at `r`, in the order the
      alternatives `vs\.?`, `versus`, `contro` are tried. */
  function SeparatorEnds(s: string, r: nat): (ends: seq<nat>)
    ensures forall k :: 0 <= k < |ends| ==> r < ends[k] <= |s|
  {
    (if LitAt(s, r, "vs.") then [r + 3] else [])
    + (if LitAt(s, r, "vs") then [r + 2] else [])
    + (if LitAt(s, r, "versus") then [r + 6] else [])
    + (if LitAt(s, r, "contro") then [r + 6] else [])
  }

  /** The end of the run of whitespace starting at `i`. */
  function SpaceRunEnd(s: string, i: nat): (e: nat)
    requires i <= |s|
    ensures i <= e <= |s| && (e < |s| ==> !IsSpace(s[e]))
    ensures forall k :: i <= k < e ==> IsSpace(s[k])
    decreases |s| - i
  {
    if i < |s| && IsSpace(s[i]) then SpaceRunEnd(s, i + 1) else i
  }

  /** The end of the line that position `m` is on. */
  function LineEnd(s: string, m: nat): (e: nat)
    requires m <= |s|
    ensures m <= e <= |s| && (e < |s| ==> s[e] == '\n')
    ensures forall k :: m <= k < e ==> s[k] != '\n'
    decreases |s| - m
  {
    if m < |s| && s[m] != '\n' then LineEnd(s, m + 1) else m
  }

  /** The largest position in `[lo, hi)` that is not a line feed. */
  function LastNonNewline(s: string, lo: nat, hi: nat): (r: Option<nat>)
    requires hi <= |s|
    ensures r.Some? ==> (lo <= r.value < hi && s[r.value] != '\n'
                         && forall k :: r.value < k < hi ==> s[k] == '\n')
    decreases hi
  {
    if hi <= lo then None
    else if s[hi - 1] != '\n' then Some(hi - 1)
    else LastNonNewline(s, lo, hi - 1)
  }

  /** Where group 2 starts once the separator ends at `c`: `\s+` takes the
      longest run it can while `(.+)` still finds a character that is not a
      line feed after it. */
  function Group2Start(s: string, c: nat): (r: Option<nat>)
    requires c <= |s|
    ensures r.Some? ==> (c < r.value < |s| && s[r.value] != '\n'
                         && forall k :: c <= k < r.value ==> IsSpace(s[k]))
  {
    if c == |s| || !IsSpace(s[c]) then None
    else
      var e := SpaceRunEnd(s, c);
      if e < |s| then Some(e) else LastNonNewline(s, c + 1, e)
  }

  /** The first separator end, in alternative order, after which group 2
      matches; the result is group 2's start. */
  function FirstGroup2(s: string, ends: seq<nat>): (r: Option<nat>)
    requires forall k :: 0 <= k < |ends| ==> ends[k] <= |s|
    ensures r.Some? ==> exists k :: 0 <= k < |ends| && Group2Start(s, ends[k]) == r
    decreases |ends|
  {
    if ends == [] then None
    else
      match Group2Start(s, ends[0])
      case Some(m) => Some(m)
      case None =>
        var r := FirstGroup2(s, ends[1..]);
        assert forall k :: 1 <= k < |ends| ==> ends[k] == ends[1..][k - 1];
        r
  }

  /** The pattern after group 1 `s[p..j]`: the start of group 2, if the
      rest matches. */
  function MatchAfter(s: string, j: nat): (r: Option<nat>)
    requires j <= |s|
    ensures r.Some? ==> j < r.value < |s|
  {
    if j == |s| || !IsSpace(s[j]) then None
    else FirstGroup2(s, SeparatorEnds(s, SpaceRunEnd(s, j)))
  }

  /** A whole match: group 1 is `s[p..j]`, group 2 starts at `m` and runs to
      the end of its line. */
  datatype Found = Found(p: nat, j: nat, m: nat)

  /** The lazy group 1 from `p`: try ends `j`, `j + 1`, ... up to the end of
      the line. */
  function LazyFrom(s: string, p: nat, j: nat): (r: Option<Found>)
    requires p < j <= |s|
    ensures r.Some? ==> (r.value.p == p && j <= r.value.j < r.value.m < |s|
                         && MatchAfter(s, r.value.j) == Some(r.value.m))
    decreases |s| - j
  {
    match MatchAfter(s, j)
    case Some(m) => Some(Found(p, j, m))
    case None => if j < |s| && s[j] != '\n' then LazyFrom(s, p, j + 1) else None
  }

  /** `re.search`: the first start position from `p` on at which the pattern
      matches. */
  function SearchFrom(s: string, p: nat): (r: Option<Found>)
    requires p <= |s|
    ensures r.Some? ==> (p <= r.value.p < r.value.j < r.value.m < |s|
                         && MatchAfter(s, r.value.j) == Some(r.value.m))
    decreases |s| - p
  {
    if p == |s| then None
    else if s[p] == '\n' then SearchFrom(s, p + 1)
    else
      match LazyFrom(s, p, p + 1)
      case Some(f) => Some(f)
      case None => SearchFrom(s, p + 1)
  }

  /** A separator word starts at `i` right after whitespace. */
  predicate SeparatorAt(s: string, i: nat) {
    && 0 < i <= |s| && IsSpace(s[i - 1])
    && (LitAt(s, i, "vs") || LitAt(s, i, "versus") || LitAt(s, i, "contro"))
  }

  lemma MatchAfterHasSeparator(s: string, j: nat)
    requires j <= |s| && MatchAfter(s, j).Some?
    ensures SeparatorAt(s, SpaceRunEnd(s, j))
  {
    var r := SpaceRunEnd(s, j);
    var ends := SeparatorEnds(s, r);
    assert ends != [];
    if LitAt(s, r, "vs.") {
      assert forall k :: 0 <= k < 2 ==> "vs"[k] == "vs."[k];
    }
  }

  // -------------------------------------------------------------- the action

  /** The characters `candidate.strip(" ,.-")` removes. */
  const NamePunctuation: set<char> := {' ', ',', '.', '-'}

  /** One round of the final loop: keep the stripped candidate when it is
      non-empty and differs, ignoring case, from every name kept so far. */
  function AddName(results: seq<string>, candidate: string): seq<string> {
    var cleaned := StripChars(candidate, NamePunctuation);
    if cleaned != "" && forall e :: e in results ==> Lower(cleaned) != Lower(e) then results + [cleaned]
    else results
  }

  /** The two groups of the match, when there is one. */
  function Groups(text: string): Option<(string, string)> {
    match SearchFrom(text, 0)
    case None => None
    case Some(f) => Some((text[f.p..f.j], text[f.m..LineEnd(text, f.m)]))
  }

  /** Names kept by the final loop: non-empty, stripped of the punctuation,
      pairwise distinct ignoring case. */
  predicate GoodNames(names: seq<string>) {
    && (forall i :: 0 <= i < |names| ==> names[i] != "" && StripChars(names[i], NamePunctuation) == names[i])
    && (forall i, j :: 0 <= i < j < |names| ==> Lower(names[i]) != Lower(names[j]))
  }

  lemma StripCharsIdempotent(s: string, chars: set<char>)
    ensures StripChars(StripChars(s, chars), chars) == StripChars(s, chars)
  {
    var r := StripChars(s, chars);
    StripByShape(s, c => c in chars);
    if r != [] {
      assert LStripBy(r, c => c in chars) == r;
      assert RStripBy(r, c => c in chars) == r;
    }
  }

  /** The final loop over the candidates, first to last. */
  function KeepNames(candidates: seq<string>): seq<string>
    decreases |candidates|
  {
    if candidates == [] then []
    else AddName(KeepNames(candidates[..|candidates| - 1]), candidates[|candidates| - 1])
  }

  lemma AddNameGood(names: seq<string>, candidate: string)
    requires GoodNames(names)
    ensures GoodNames(AddName(names, candidate))
    ensures |AddName(names, candidate)| <= |names| + 1
  {
    var cleaned := StripChars(candidate, NamePunctuation);
    if cleaned != "" && forall e :: e in names ==> Lower(cleaned) != Lower(e) {
      StripCharsIdempotent(candidate, NamePunctuation);
      var r := names + [cleaned];
      assert AddName(names, candidate) == r;
      forall i | 0 <= i < |r| ensures r[i] != "" && StripChars(r[i], NamePunctuation) == r[i] {
        if i < |names| {
          assert r[i] == names[i];
        }
      }
      forall i, j | 0 <= i < j < |r| ensures Lower(r[i]) != Lower(r[j]) {
        assert r[i] == names[i] && names[i] in names;
      }
    }
  }

  /** At most one name per candidate; the names are non-empty, stripped of
      spaces, commas, dots and hyphens, and distinct ignoring case. */
  lemma {:induction false} KeepNamesGood(candidates: seq<string>)
    ensures |KeepNames(candidates)| <= |candidates|
    ensures GoodNames(KeepNames(candidates))
    decreases |candidates|
  {
    if candidates != [] {
      var p := candidates[..|candidates| - 1];
      KeepNamesGood(p);
      AddNameGood(KeepNames(p), candidates[|candidates| - 1]);
    }
  }

  /** `ActionMatchResult._extract_players_from_text(text)` */
  function ExtractPlayersFromText(text: Option<string>): seq<string> {
    if text.None? || text.value == "" then []
    else
      match Groups(text.value)
      case None => []
      case Some((g1, g2)) => KeepNames([CleanPlayerFragment(g1, true), CleanPlayerFragment(g2, false)])
  }

  /** `_extract_players_from_text`'s promises: at most two names, each
      non-empty and stripped of spaces, commas, dots and hyphens, and
      distinct ignoring case. */
  lemma ExtractPlayersShape(text: Option<string>)
    ensures |ExtractPlayersFromText(text)| <= 2
    ensures GoodNames(ExtractPlayersFromText(text))
  {
    if text.Some? && text.value != "" {
      match Groups(text.value)
      case None =>
      case Some((g1, g2)) =>
        KeepNamesGood([CleanPlayerFragment(g1, true), CleanPlayerFragment(g2, false)]);
    }
  }

  /** Without a `vs`, `versus` or `contro` (in any case) after whitespace,
      no names are extracted. */
  lemma NoSeparatorNoPlayers(text: string)
    requires forall i :: 0 <= i <= |text| ==> !SeparatorAt(text, i)
    ensures ExtractPlayersFromText(Some(text)) == []
  {
    match SearchFrom(text, 0)
    case None =>
    case Some(f) =>
      MatchAfterHasSeparator(text, f.j);
      assert false;
  }

  /** The loop `for candidate in (left, right)`. */
  method KeepNamesLoop(candidates: seq<string>) returns (results: seq<string>)
    ensures results == KeepNames(candidates)
  {
    results := [];
    for i := 0 to |candidates|
      invariant results == KeepNames(candidates[..i])
    {
      assert candidates[..i + 1][..i] == candidates[..i];
      var cleaned := StripChars(candidates[i], NamePunctuation);
      if cleaned != "" && forall e :: e in results ==> Lower(cleaned) != Lower(e) {
        results := results + [cleaned];
      }
    }
    assert candidates[..|candidates|] == candidates;
  }

  /** `_extract_players_from_text` with its own loops. */
  method ExtractPlayersLoop(text: Option<string>) returns (results: seq<string>)
    ensures results == ExtractPlayersFromText(text)
  {
    if text.None? || text.value == "" {
      return [];
    }
    var groups := Groups(text.value);
    if groups.None? {
      return [];
    }
    var left := CleanPlayerFragmentLoop(groups.value.0, true);
    var right := CleanPlayerFragmentLoop(groups.value.1, false);
    results := KeepNamesLoop([left, right]);
  }
}
