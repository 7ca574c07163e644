/** The heuristic player-name extractor of `ActionMatchResult`
    (Chatbot/actions/actions.py:1718-1879, 2105-2119): the word lists,
    `_tokenize`, `_clean_player_fragment`, `_candidate_aliases` and
    `_extract_players_from_text`. */
module Extractor {
  import opened PyText

  // -------------------------------------------------------------- word lists

  /** `_PREFIX_FILLERS`: articles and request words dropped before a name. */
  const PrefixFillers: set<string> := {
    "il", "lo", "la", "l", "l'", "i", "gli", "le", "un", "una", "uno",
    "dei", "degli", "delle", "del", "dello", "della", "di", "d",
    "risultato", "risultati", "punteggio", "match", "partita", "partite",
    "ultimi", "ultime", "ultimo", "ultima"
  }

  /** `_SUFFIX_FILLERS`: words dropped after a name. */
  const SuffixFillers: set<string> := {"match", "partita", "partite", "vs", "contro"}

  /** `_BREAK_TOKENS`: prepositions and separators that end a name. */
  const BreakTokens: set<string> := {
    "a", "ad", "al", "allo", "alla", "agli", "alle", "ai",
    "nel", "nello", "nella", "nei", "nelle",
    "su", "sul", "sullo", "sulla", "sui", "sugli",
    "per", "tra", "fra", "contro", "vs", "vs.", "versus", "durante",
    "da", "dal", "dallo", "dalla", "dai", "dagli", "dalle"
  }

  /** The separator words that `_tokenize` always drops. */
  const SeparatorWords: set<string> := {"vs", "vs.", "versus", "contro"}

  predicate IsPrefixFiller(w: string) { w in PrefixFillers }

  predicate IsSuffixFiller(w: string) { w in SuffixFillers }

  predicate IsBreakWord(w: string) { w in BreakTokens }

  predicate IsSeparatorWord(w: string) { w in SeparatorWords }

  // ---------------------------------------------------------------- tokenize

  /** The class `[A-Za-zÀ-ÖØ-öø-ÿ' -]` that `_tokenize` keeps. */
  predicate IsKeptChar(c: char) {
    || ('A' <= c <= 'Z') || ('a' <= c <= 'z')
    || ('\U{c0}' <= c <= '\U{d6}') || ('\U{d8}' <= c <= '\U{f6}') || ('\U{f8}' <= c <= '\U{ff}')
    || c == '\'' || c == ' ' || c == '-'
  }

  /** A character a token can hold: a letter, an apostrophe or a hyphen. */
  predicate IsNameChar(c: char) { IsKeptChar(c) && c != ' ' }

  /** `re.sub(r"[^A-Za-zÀ-ÖØ-öø-ÿ' -]", " ", text)` */
  function CleanText(text: string): (r: string)
    ensures |r| == |text|
    ensures forall i :: 0 <= i < |r| ==> IsNameChar(r[i]) || r[i] == ' '
  {
    seq(|text|, i requires 0 <= i < |text| => if IsKeptChar(text[i]) then text[i] else ' ')
  }

  /** `cleaned.split()` */
  function RawTokens(text: string): seq<string> {
    Words(CleanText(text))
  }

  /** Every raw token is a non-empty run of name characters. */
  lemma RawTokensShape(text: string)
    ensures forall w :: w in RawTokens(text) ==> w != [] && forall c :: c in w ==> IsNameChar(c)
  {
    var s := CleanText(text);
    ChunksShape(s, NotSpace);
    forall w | w in RawTokens(text) ensures w != [] && forall c :: c in w ==> IsNameChar(c) {
      forall c | c in w ensures IsNameChar(c) {
        var i :| 0 <= i < |s| && s[i] == c;
      }
    }
  }

  /** Whether `_tokenize` skips `tok`, given whether nothing was kept yet. */
  predicate SkipToken(tok: string, nothingKept: bool) {
    || IsSeparatorWord(Lower(tok))
    || IsDigitStr(tok)
    || (nothingKept && IsPrefixFiller(Lower(tok)))
  }

  /** What the loop of `_tokenize` has kept after reading `toks`. */
  function KeptTokens(toks: seq<string>): seq<string>
    decreases |toks|
  {
    if toks == [] then []
    else
      var kept := KeptTokens(toks[..|toks| - 1]);
      if SkipToken(toks[|toks| - 1], kept == []) then kept else kept + [toks[|toks| - 1]]
  }

  /** `ActionMatchResult._tokenize(text)` */
  function Tokenize(text: string): seq<string> {
    KeptTokens(RawTokens(text))
  }

  /** The loop of `_tokenize`. */
  method TokenizeLoop(text: string) returns (result: seq<string>)
    ensures result == Tokenize(text)
  {
    var tokens := RawTokens(text);
    result := [];
    for i := 0 to |tokens|
      invariant result == KeptTokens(tokens[..i])
    {
      var tok := tokens[i];
      assert tokens[..i + 1][..i] == tokens[..i];
      var lower := Lower(tok);
      if IsSeparatorWord(lower) {
        continue;
      }
      if IsDigitStr(tok) {
        continue;
      }
      if result == [] && IsPrefixFiller(lower) {
        continue;
      }
      result := result + [tok];
    }
    assert tokens[..|tokens|] == tokens;
  }

  /** Reference definitions: drop separators and digits everywhere, then
      drop prefix fillers from the front only. */
  function DropSeparatorsAndDigits(toks: seq<string>): seq<string>
    decreases |toks|
  {
    if toks == [] then []
    else
      var rest := DropSeparatorsAndDigits(toks[..|toks| - 1]);
      var t := toks[|toks| - 1];
      if IsSeparatorWord(Lower(t)) || IsDigitStr(t) then rest else rest + [t]
  }

  function DropLeadingFillers(toks: seq<string>): seq<string>
    decreases |toks|
  {
    if toks != [] && IsPrefixFiller(Lower(toks[0])) then DropLeadingFillers(toks[1..]) else toks
  }

  lemma {:induction false} DropLeadingFillersAppend(a: seq<string>, t: string)
    ensures DropLeadingFillers(a + [t]) ==
      if DropLeadingFillers(a) == [] then (if IsPrefixFiller(Lower(t)) then [] else [t])
      else DropLeadingFillers(a) + [t]
    decreases |a|
  {
    if a == [] {
      assert [t][1..] == [];
    } else {
      assert (a + [t])[0] == a[0];
      assert (a + [t])[1..] == a[1..] + [t];
      if IsPrefixFiller(Lower(a[0])) {
        DropLeadingFillersAppend(a[1..], t);
      }
    }
  }

  /** `_tokenize` drops separators and digits everywhere and prefix fillers
      only while nothing has been kept: all the leading fillers, not just
      the first one. */
  lemma {:induction false} KeptTokensIsReference(toks: seq<string>)
    ensures KeptTokens(toks) == DropLeadingFillers(DropSeparatorsAndDigits(toks))
    decreases |toks|
  {
    if toks != [] {
      var p := toks[..|toks| - 1];
      var t := toks[|toks| - 1];
      KeptTokensIsReference(p);
      if !(IsSeparatorWord(Lower(t)) || IsDigitStr(t)) {
        DropLeadingFillersAppend(DropSeparatorsAndDigits(p), t);
      }
    }
  }

  lemma {:induction false} KeptTokensShape(toks: seq<string>)
    ensures forall w :: w in KeptTokens(toks) ==> w in toks && !IsSeparatorWord(Lower(w)) && !IsDigitStr(w)
    ensures KeptTokens(toks) != [] ==> !IsPrefixFiller(Lower(KeptTokens(toks)[0]))
    decreases |toks|
  {
    if toks != [] {
      var p := toks[..|toks| - 1];
      KeptTokensShape(p);
      var kept := KeptTokens(p);
      if kept != [] {
        assert (kept + [toks[|toks| - 1]])[0] == kept[0];
      }
    }
  }

  /** `_tokenize`'s promises: every token is a non-empty run of letters,
      apostrophes and hyphens; no token is a separator word or all digits;
      the first token is not a prefix filler. */
  lemma TokenizeShape(text: string)
    ensures forall w :: w in Tokenize(text) ==>
      && w != []
      && (forall c :: c in w ==> IsNameChar(c))
      && !IsSeparatorWord(Lower(w))
      && !IsDigitStr(w)
    ensures Tokenize(text) != [] ==> !IsPrefixFiller(Lower(Tokenize(text)[0]))
  {
    RawTokensShape(text);
    KeptTokensShape(RawTokens(text));
  }

  // ---------------------------------------------------- clean player fragment

  /** `tok.lower().strip("’'")`, the form compared with the filler lists. */
  function FillerKey(tok: string): string {
    StripChars(Lower(tok), {'\U{2019}', '\''})
  }

  /** The first `while` of `_clean_player_fragment`. */
  function TrimLeading(toks: seq<string>): (r: seq<string>)
    ensures |r| <= |toks|
    decreases |toks|
  {
    if toks != [] && IsPrefixFiller(FillerKey(toks[0])) then TrimLeading(toks[1..]) else toks
  }

  /** The second `while` of `_clean_player_fragment`. */
  function TrimTrailing(toks: seq<string>): (r: seq<string>)
    ensures |r| <= |toks|
    decreases |toks|
  {
    if toks != [] && IsSuffixFiller(FillerKey(toks[|toks| - 1])) then TrimTrailing(toks[..|toks| - 1])
    else toks
  }

  /** `TrimLeading` drops prefix fillers from the front and stops at the
      first token that is not one. */
  lemma {:induction false} TrimLeadingShape(toks: seq<string>)
    ensures var r := TrimLeading(toks);
      && r == toks[|toks| - |r|..]
      && (r != [] ==> !IsPrefixFiller(FillerKey(r[0])))
      && (forall i :: 0 <= i < |toks| - |r| ==> IsPrefixFiller(FillerKey(toks[i])))
    decreases |toks|
  {
    if toks != [] && IsPrefixFiller(FillerKey(toks[0])) {
      TrimLeadingShape(toks[1..]);
      assert forall i :: 1 <= i < |toks| ==> toks[i] == toks[1..][i - 1];
    }
  }

  /** `TrimTrailing` drops suffix fillers from the back and stops at the
      last token that is not one. */
  lemma {:induction false} TrimTrailingShape(toks: seq<string>)
    ensures var r := TrimTrailing(toks);
      && r == toks[..|r|]
      && (r != [] ==> !IsSuffixFiller(FillerKey(r[|r| - 1])))
      && (forall i :: |r| <= i < |toks| ==> IsSuffixFiller(FillerKey(toks[i])))
    decreases |toks|
  {
    if toks != [] && IsSuffixFiller(FillerKey(toks[|toks| - 1])) {
      var p := toks[..|toks| - 1];
      TrimTrailingShape(p);
      var r := TrimTrailing(p);
      assert p[..|r|] == toks[..|r|];
      assert forall i :: |r| <= i < |p| ==> toks[i] == p[i];
    }
  }

  /** The tokens left once the fillers are trimmed from both ends. */
  function Trimmed(fragment: string): seq<string> {
    TrimTrailing(TrimLeading(Tokenize(fragment)))
  }

  /** A token the bounded walk stops at. */
  predicate IsBreak(tok: string) {
    IsBreakWord(Lower(tok)) || IsDigitStr(tok)
  }

  /** How many tokens the walk from the front collects: up to three, and
      none past a break token. */
  function FrontRun(toks: seq<string>): (n: nat)
    ensures n <= 3 && n <= |toks|
    ensures forall i :: 0 <= i < n ==> !IsBreak(toks[i])
    ensures n < 3 && n < |toks| ==> IsBreak(toks[n])
  {
    if toks == [] || IsBreak(toks[0]) then 0
    else if |toks| == 1 then 1
    else if IsBreak(toks[1]) then 1
    else if |toks| == 2 || IsBreak(toks[2]) then 2
    else 3
  }

  /** How many tokens the walk from the end collects. */
  function BackRun(toks: seq<string>): (n: nat)
    ensures n <= 3 && n <= |toks|
    ensures forall i :: |toks| - n <= i < |toks| ==> !IsBreak(toks[i])
    ensures n < 3 && n < |toks| ==> IsBreak(toks[|toks| - 1 - n])
  {
    var m := |toks|;
    if m == 0 || IsBreak(toks[m - 1]) then 0
    else if m == 1 then 1
    else if IsBreak(toks[m - 2]) then 1
    else if m == 2 || IsBreak(toks[m - 3]) then 2
    else 3
  }

  /** The tokens the bounded walk keeps of a non-empty trimmed list: the
      collected run, or the edge token when the walk collected nothing. */
  function Collect(toks: seq<string>, fromEnd: bool): seq<string>
    requires toks != []
  {
    if fromEnd then
      (if BackRun(toks) == 0 then [toks[|toks| - 1]] else toks[|toks| - BackRun(toks)..])
    else
      (if FrontRun(toks) == 0 then [toks[0]] else toks[..FrontRun(toks)])
  }

  /** The walk keeps one to three consecutive tokens at the chosen end, none
      of them a break token unless it is the single fallback token, and it
      stopped at three tokens, at a break token or at the other end. */
  lemma CollectShape(toks: seq<string>, fromEnd: bool)
    requires toks != []
    ensures var c := Collect(toks, fromEnd);
      && 1 <= |c| <= 3 && |c| <= |toks|
      && (fromEnd ==> c == toks[|toks| - |c|..])
      && (!fromEnd ==> c == toks[..|c|])
      && ((forall i :: 0 <= i < |c| ==> !IsBreak(c[i])) || (|c| == 1 && IsBreak(c[0])))
      && (fromEnd && |c| < 3 && |c| < |toks| && !IsBreak(c[0]) ==> IsBreak(toks[|toks| - 1 - |c|]))
      && (!fromEnd && |c| < 3 && |c| < |toks| && !IsBreak(c[|c| - 1]) ==> IsBreak(toks[|c|]))
  {
  }

  /** The tokens `_clean_player_fragment` joins. */
  function CleanedTokens(fragment: string, fromEnd: bool): seq<string> {
    var toks := Trimmed(fragment);
    if toks == [] then [] else Collect(toks, fromEnd)
  }

  /** `ActionMatchResult._clean_player_fragment(fragment, from_end)` */
  function CleanPlayerFragment(fragment: string, fromEnd: bool): string {
    Join(CleanedTokens(fragment, fromEnd), " ")
  }

  lemma TrimmedTokensNonEmpty(fragment: string)
    ensures forall i :: 0 <= i < |Trimmed(fragment)| ==> Trimmed(fragment)[i] != []
  {
    TokenizeShape(fragment);
    var t := Tokenize(fragment);
    var l := TrimLeading(t);
    var r := TrimTrailing(l);
    TrimLeadingShape(t);
    TrimTrailingShape(l);
    forall i | 0 <= i < |r| ensures r[i] != [] {
      assert r[i] == l[i] == t[|t| - |l| + i];
      assert t[|t| - |l| + i] in t;
    }
  }

  /** Joining what the walk keeps of non-empty tokens is never empty. */
  lemma CollectJoinNonEmpty(toks: seq<string>, fromEnd: bool)
    requires toks != [] && forall i :: 0 <= i < |toks| ==> toks[i] != []
    ensures Join(Collect(toks, fromEnd), " ") != ""
  {
    var c := Collect(toks, fromEnd);
    CollectShape(toks, fromEnd);
    forall i | 0 <= i < |c| ensures c[i] != [] {
      if fromEnd {
        assert c[i] == toks[|toks| - |c| + i];
      } else {
        assert c[i] == toks[i];
      }
    }
    JoinEmpty(c, " ");
  }

  /** `_clean_player_fragment` returns "" exactly when no token survives the
      filler trimming. */
  lemma CleanPlayerFragmentEmpty(fragment: string, fromEnd: bool)
    ensures CleanPlayerFragment(fragment, fromEnd) == "" <==> Trimmed(fragment) == []
  {
    var toks := Trimmed(fragment);
    if toks != [] {
      TrimmedTokensNonEmpty(fragment);
      CollectJoinNonEmpty(toks, fromEnd);
    }
  }

  /** The trimmed list starts with no prefix filler and ends with no suffix
      filler. */
  lemma TrimmedEdges(fragment: string)
    ensures var toks := Trimmed(fragment);
      toks != [] ==> !IsPrefixFiller(FillerKey(toks[0])) && !IsSuffixFiller(FillerKey(toks[|toks| - 1]))
  {
    var l := TrimLeading(Tokenize(fragment));
    var toks := TrimTrailing(l);
    TrimLeadingShape(Tokenize(fragment));
    TrimTrailingShape(l);
    if toks != [] {
      assert toks[0] == l[0];
    }
  }

  /** `BackRun` is the only count the walk from the end can stop at. */
  lemma BackRunUnique(toks: seq<string>, n: nat)
    requires n <= 3 && n <= |toks|
    requires forall i :: |toks| - n <= i < |toks| ==> !IsBreak(toks[i])
    requires n < 3 && n < |toks| ==> IsBreak(toks[|toks| - 1 - n])
    ensures n == BackRun(toks)
  {
  }

  lemma FrontRunUnique(toks: seq<string>, n: nat)
    requires n <= 3 && n <= |toks|
    requires forall i :: 0 <= i < n ==> !IsBreak(toks[i])
    requires n < 3 && n < |toks| ==> IsBreak(toks[n])
    ensures n == FrontRun(toks)
  {
  }

  /** The walk from the end: collect up to three tokens, stopping at a break
      token. */
  method CollectFromEnd(tokens: seq<string>) returns (collected: seq<string>)
    requires tokens != []
    ensures collected == Collect(tokens, true)
  {
    collected := [];
    var i := |tokens|;
    while i > 0 && !IsBreak(tokens[i - 1]) && |collected| < 3
      invariant 0 <= i <= |tokens|
      invariant collected == tokens[i..] && |collected| <= 3
      invariant forall k :: i <= k < |tokens| ==> !IsBreak(tokens[k])
      decreases i
    {
      collected := [tokens[i - 1]] + collected;
      i := i - 1;
    }
    BackRunUnique(tokens, |collected|);
    if collected == [] {
      collected := [tokens[|tokens| - 1]];
    }
  }

  /** The walk from the front. */
  method CollectFromFront(tokens: seq<string>) returns (collected: seq<string>)
    requires tokens != []
    ensures collected == Collect(tokens, false)
  {
    collected := [];
    var i := 0;
    while i < |tokens| && !IsBreak(tokens[i]) && |collected| < 3
      invariant 0 <= i <= |tokens|
      invariant collected == tokens[..i] && |collected| <= 3
      invariant forall k :: 0 <= k < i ==> !IsBreak(tokens[k])
    {
      collected := collected + [tokens[i]];
      i := i + 1;
    }
    FrontRunUnique(tokens, |collected|);
    if collected == [] {
      collected := [tokens[0]];
    }
  }

  /** The loops of `_clean_player_fragment`: pop fillers from both ends,
      then walk from the chosen end collecting tokens. */
  method CleanPlayerFragmentLoop(fragment: string, fromEnd: bool) returns (name: string)
    ensures name == CleanPlayerFragment(fragment, fromEnd)
  {
    var tokens := TokenizeLoop(fragment);
    if tokens == [] {
      return "";
    }
    while tokens != [] && IsPrefixFiller(FillerKey(tokens[0]))
      invariant TrimLeading(tokens) == TrimLeading(Tokenize(fragment))
    {
      tokens := tokens[1..];
    }
    while tokens != [] && IsSuffixFiller(FillerKey(tokens[|tokens| - 1]))
      invariant TrimTrailing(tokens) == Trimmed(fragment)
    {
      tokens := tokens[..|tokens| - 1];
    }
    if tokens == [] {
      return "";
    }
    var collected: seq<string>;
    if fromEnd {
      collected := CollectFromEnd(tokens);
    } else {
      collected := CollectFromFront(tokens);
    }
    name := Join(collected, " ");
  }

  // --------------------------------------------------------- candidate aliases

  /** The case-insensitive keys of the aliases added so far (the `seen` set
      of `_candidate_aliases`). */
  function AliasKeys(aliases: seq<string>): set<string> {
    set a | a in aliases :: Lower(a)
  }

  lemma AliasKeysAppend(aliases: seq<string>, a: string)
    ensures AliasKeys(aliases + [a]) == AliasKeys(aliases) + {Lower(a)}
  {
    var l := aliases + [a];
    assert a in l;
    forall x | x in AliasKeys(l) ensures x in AliasKeys(aliases) + {Lower(a)} {
      var y :| y in l && Lower(y) == x;
      if y != a {
        assert y in aliases;
      }
    }
    forall x | x in AliasKeys(aliases) ensures x in AliasKeys(l) {
      var y :| y in aliases && Lower(y) == x;
      assert y in l;
    }
  }

  /** The `add` closure of `_candidate_aliases`: strip, reject what is shorter
      than two characters, reject a case-insensitive repeat, else append. */
  function AddAlias(aliases: seq<string>, alias: string): seq<string> {
    var candidate := Strip(alias);
    if alias == "" || |candidate| < 2 || Lower(candidate) in AliasKeys(aliases) then aliases
    else aliases + [candidate]
  }

  function AddAll(aliases: seq<string>, sources: seq<string>): seq<string>
    decreases |sources|
  {
    if sources == [] then aliases else AddAll(AddAlias(aliases, sources[0]), sources[1..])
  }

  /** What `_candidate_aliases` offers to `add`, in order: the stripped raw
      text, the fragment cleaned from the end and from the front, the last
      two and first two tokens, the last and the first token. */
  function AliasSources(raw: string): seq<string> {
    [Strip(raw), CleanPlayerFragment(raw, true), CleanPlayerFragment(raw, false)] + TokenSources(Tokenize(raw))
  }

  function TokenSources(toks: seq<string>): (r: seq<string>)
    ensures |r| <= 4
  {
    (if |toks| >= 2 then [Join(toks[|toks| - 2..], " "), Join(toks[..2], " ")] else [])
    + (if toks != [] then [toks[|toks| - 1], toks[0]] else [])
  }

  /** `ActionMatchResult._candidate_aliases(raw)` */
  function CandidateAliases(raw: string): seq<string> {
    AddAll([], AliasSources(raw))
  }

  /** Every alias is stripped and at least two characters long, and no two
      aliases are equal ignoring case. */
  predicate GoodAliases(aliases: seq<string>) {
    && (forall i :: 0 <= i < |aliases| ==> Strip(aliases[i]) == aliases[i] && |aliases[i]| >= 2)
    && (forall i, j :: 0 <= i < j < |aliases| ==> Lower(aliases[i]) != Lower(aliases[j]))
  }

  lemma AddAliasGood(aliases: seq<string>, alias: string)
    requires GoodAliases(aliases)
    ensures GoodAliases(AddAlias(aliases, alias))
    ensures aliases <= AddAlias(aliases, alias)
    ensures |Strip(alias)| >= 2 ==> Lower(Strip(alias)) in AliasKeys(AddAlias(aliases, alias))
  {
    var c := Strip(alias);
    StripIdempotent(alias);
    if !(alias == "" || |c| < 2 || Lower(c) in AliasKeys(aliases)) {
      var l := aliases + [c];
      AliasKeysAppend(aliases, c);
      forall i | 0 <= i < |aliases| ensures Lower(aliases[i]) != Lower(c) {
        assert aliases[i] in aliases;
      }
    }
  }

  /** Adding keeps the aliases good, never removes one, and covers every
      source long enough to be added. */
  lemma {:induction false} AddAllGood(aliases: seq<string>, sources: seq<string>)
    requires GoodAliases(aliases)
    ensures GoodAliases(AddAll(aliases, sources))
    ensures aliases <= AddAll(aliases, sources)
    ensures |AddAll(aliases, sources)| <= |aliases| + |sources|
    ensures forall k :: 0 <= k < |sources| && |Strip(sources[k])| >= 2 ==>
      Lower(Strip(sources[k])) in AliasKeys(AddAll(aliases, sources))
    decreases |sources|
  {
    if sources != [] {
      var next := AddAlias(aliases, sources[0]);
      AddAliasGood(aliases, sources[0]);
      AddAllGood(next, sources[1..]);
      var r := AddAll(aliases, sources);
      forall k | 0 <= k < |sources| && |Strip(sources[k])| >= 2
        ensures Lower(Strip(sources[k])) in AliasKeys(r)
      {
        if k == 0 {
          var y :| y in next && Lower(y) == Lower(Strip(sources[0]));
          assert y in r;
        } else {
          assert sources[k] == sources[1..][k - 1];
        }
      }
    }
  }

  /** Adding a list of sources to no aliases puts the first source first
      when it is long enough. */
  lemma AddAllFirst(sources: seq<string>)
    requires sources != [] && |Strip(sources[0])| >= 2
    ensures AddAll([], sources) != [] && AddAll([], sources)[0] == Strip(sources[0])
  {
    var first := AddAlias([], sources[0]);
    StripIdempotent(sources[0]);
    assert first == [Strip(sources[0])];
    AddAllGood(first, sources[1..]);
  }

  lemma AliasSourcesShape(raw: string)
    ensures 3 <= |AliasSources(raw)| <= 7 && AliasSources(raw)[0] == Strip(raw)
  {
  }

  /** `_candidate_aliases`' promises: at most seven aliases, each stripped
      and at least two characters long, pairwise distinct ignoring case;
      the stripped raw text comes first when it is long enough; and every
      source long enough to be added is represented, ignoring case. */
  lemma CandidateAliasesSpec(raw: string)
    ensures GoodAliases(CandidateAliases(raw))
    ensures |CandidateAliases(raw)| <= 7
    ensures |Strip(raw)| >= 2 ==> CandidateAliases(raw) != [] && CandidateAliases(raw)[0] == Strip(raw)
    ensures forall s :: s in AliasSources(raw) && |Strip(s)| >= 2 ==> Lower(Strip(s)) in AliasKeys(CandidateAliases(raw))
  {
    var sources := AliasSources(raw);
    AliasSourcesShape(raw);
    AddAllGood([], sources);
    if |Strip(raw)| >= 2 {
      StripIdempotent(raw);
      AddAllFirst(sources);
    }
  }

  /** The `add` closure with its `seen` set. */
  method Add(aliases: seq<string>, seen: set<string>, alias: string) returns (aliases': seq<string>, seen': set<string>)
    requires seen == AliasKeys(aliases)
    ensures aliases' == AddAlias(aliases, alias) && seen' == AliasKeys(aliases')
  {
    aliases', seen' := aliases, seen;
    if alias == "" {
      return;
    }
    var candidate := Strip(alias);
    if |candidate| < 2 {
      return;
    }
    var key := Lower(candidate);
    if key in seen {
      return;
    }
    AliasKeysAppend(aliases, candidate);
    seen' := seen + {key};
    aliases' := aliases + [candidate];
  }

  lemma AddAllThree(a: string, b: string, c: string, rest: seq<string>)
    ensures AddAll([], [a, b, c] + rest) == AddAll(AddAlias(AddAlias(AddAlias([], a), b), c), rest)
  {
    var s := [a, b, c] + rest;
    assert s[0] == a && s[1..] == [b, c] + rest;
    AddAllTwo(AddAlias([], a), b, c, rest);
  }

  lemma AddAllTwo(aliases: seq<string>, a: string, b: string, rest: seq<string>)
    ensures AddAll(aliases, [a, b] + rest) == AddAll(AddAlias(AddAlias(aliases, a), b), rest)
  {
    var s := [a, b] + rest;
    assert s[1..] == [b] + rest;
    assert s[1..][1..] == rest;
  }

  /** The `add` calls on the tokens of the raw text. */
  method AddTokenAliases(aliases: seq<string>, seen: set<string>, tokens: seq<string>)
    returns (aliases': seq<string>, seen': set<string>)
    requires seen == AliasKeys(aliases)
    ensures aliases' == AddAll(aliases, TokenSources(tokens)) && seen' == AliasKeys(aliases')
  {
    aliases', seen' := aliases, seen;
    var edges: seq<string> := if tokens != [] then [tokens[|tokens| - 1], tokens[0]] else [];
    if |tokens| >= 2 {
      var pairs := [Join(tokens[|tokens| - 2..], " "), Join(tokens[..2], " ")];
      assert TokenSources(tokens) == [pairs[0], pairs[1]] + edges;
      AddAllTwo(aliases, pairs[0], pairs[1], edges);
      aliases', seen' := Add(aliases', seen', pairs[0]);
      aliases', seen' := Add(aliases', seen', pairs[1]);
    }
    else {
      assert TokenSources(tokens) == edges;
    }
    if tokens != [] {
      assert edges == [edges[0], edges[1]] + [];
      AddAllTwo(aliases', edges[0], edges[1], []);
      aliases', seen' := Add(aliases', seen', tokens[|tokens| - 1]);
      aliases', seen' := Add(aliases', seen', tokens[0]);
    }
  }

  /** The body of `_candidate_aliases`. */
  method CandidateAliasesLoop(raw: string) returns (aliases: seq<string>)
    ensures aliases == CandidateAliases(raw)
  {
    var seen: set<string> := {};
    aliases := [];
    aliases, seen := Add(aliases, seen, Strip(raw));
    var fromEnd := CleanPlayerFragmentLoop(raw, true);
    aliases, seen := Add(aliases, seen, fromEnd);
    var fromFront := CleanPlayerFragmentLoop(raw, false);
    aliases, seen := Add(aliases, seen, fromFront);
    var tokens := TokenizeLoop(raw);
    AddAllThree(Strip(raw), fromEnd, fromFront, TokenSources(tokens));
    aliases, seen := AddTokenAliases(aliases, seen, tokens);
  }
}
