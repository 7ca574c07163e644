/** `guess_tournament_from_text`: the phrases of one to three consecutive
    words of a message are tried, longest first, as tournament names, and
    the first that a lookup resolves is the guess. */
module Guess {
  import opened PyText
  import opened Resolvers

  /** A character of the class `[A-Za-zÀ-ÖØ-öø-ÿ']`. */
  predicate IsWordLetter(c: char) {
    || ('A' <= c <= 'Z') || ('a' <= c <= 'z')
    || ('\U{c0}' <= c <= '\U{d6}') || ('\U{d8}' <= c <= '\U{f6}') || ('\U{f8}' <= c <= '\U{ff}')
    || c == '\''
  }

  /** The words of at least three characters, in order. */
  function LongWords(ws: seq<string>): (r: seq<string>)
    ensures forall w :: w in r ==> |w| >= 3 && w in ws
  {
    if ws == [] then []
    else (if |ws[0]| >= 3 then [ws[0]] else []) + LongWords(ws[1..])
  }

  /** The tokens of the message: `re.findall` of the word class, without
      the short ones. */
  function GuessTokens(text: string): seq<string> {
    LongWords(Chunks(text, IsWordLetter))
  }

  /** `{s.strip().lower() for s in (exclude or []) if s}` */
  function ExcludeKeys(exclude: seq<string>): set<string> {
    set s | s in exclude && s != "" :: Lower(Strip(s))
  }

  /** The phrase of `n` tokens starting at token `i`. */
  function Phrase(tokens: seq<string>, i: nat, n: nat): string
    requires i + n <= |tokens|
  {
    Join(tokens[i..i + n], " ")
  }

  /** The phrases of `n` tokens that start before token `i`, in order,
      without the excluded ones. */
  function WindowsBefore(tokens: seq<string>, excl: set<string>, n: nat, i: nat): seq<string>
    requires 1 <= n <= |tokens| && i <= |tokens| - n + 1
  {
    if i == 0 then []
    else
      var p := Phrase(tokens, i - 1, n);
      WindowsBefore(tokens, excl, n, i - 1) + (if Lower(p) in excl then [] else [p])
  }

  function Windows(tokens: seq<string>, excl: set<string>, n: nat): seq<string>
    requires 1 <= n <= |tokens|
  {
    WindowsBefore(tokens, excl, n, |tokens| - n + 1)
  }

  /** The phrases of the lengths `top` down to `n + 1`, longest first. */
  function LongerThan(tokens: seq<string>, excl: set<string>, top: nat, n: nat): seq<string>
    requires n <= top <= |tokens|
    decreases top - n
  {
    if n == top then [] else LongerThan(tokens, excl, top, n + 1) + Windows(tokens, excl, n + 1)
  }

  /** `min(3, len(tokens))` */
  function MaxPhraseLength(tokens: seq<string>): (n: nat)
    ensures n <= |tokens| && n <= 3
  {
    if |tokens| < 3 then |tokens| else 3
  }

  /** The candidate list the guess tries, in order. */
  function Candidates(tokens: seq<string>, excl: set<string>): seq<string> {
    LongerThan(tokens, excl, MaxPhraseLength(tokens), 0)
  }

  lemma {:induction false} WindowsBeforeExact(tokens: seq<string>, excl: set<string>, n: nat, i: nat)
    requires 1 <= n <= |tokens| && i <= |tokens| - n + 1
    ensures forall c :: c in WindowsBefore(tokens, excl, n, i) <==>
      Lower(c) !in excl && exists j: nat :: j < i && c == Phrase(tokens, j, n)
  {
    if i > 0 {
      WindowsBeforeExact(tokens, excl, n, i - 1);
    }
  }

  /** `c` is not excluded and is a phrase of `m` consecutive tokens, for
      some `m` with `lo < m <= hi`. */
  predicate PhraseOfLength(tokens: seq<string>, excl: set<string>, c: string, lo: nat, hi: nat) {
    && Lower(c) !in excl
    && exists j: nat, m: nat :: lo < m <= hi && j + m <= |tokens| && c == Phrase(tokens, j, m)
  }

  lemma WindowsExact(tokens: seq<string>, excl: set<string>, lo: nat, n: nat)
    requires lo + 1 == n <= |tokens|
    ensures forall c :: c in Windows(tokens, excl, n) <==> PhraseOfLength(tokens, excl, c, lo, n)
  {
    WindowsBeforeExact(tokens, excl, n, |tokens| - n + 1);
    forall c | PhraseOfLength(tokens, excl, c, lo, n)
      ensures exists j: nat :: j < |tokens| - n + 1 && c == Phrase(tokens, j, n)
    {
      var j: nat, m: nat :| lo < m <= n && j + m <= |tokens| && c == Phrase(tokens, j, m);
      assert m == n;
    }
  }

  lemma PhraseOfLengthSplit(tokens: seq<string>, excl: set<string>, c: string, n: nat, top: nat)
    requires n < top
    ensures PhraseOfLength(tokens, excl, c, n, top)
      <==> PhraseOfLength(tokens, excl, c, n + 1, top) || PhraseOfLength(tokens, excl, c, n, n + 1)
  {
    if PhraseOfLength(tokens, excl, c, n, top) {
      var j: nat, m: nat :| n < m <= top && j + m <= |tokens| && c == Phrase(tokens, j, m);
      if m == n + 1 {
        assert PhraseOfLength(tokens, excl, c, n, n + 1);
      } else {
        assert PhraseOfLength(tokens, excl, c, n + 1, top);
      }
    }
    if PhraseOfLength(tokens, excl, c, n + 1, top) {
      var j: nat, m: nat :| n + 1 < m <= top && j + m <= |tokens| && c == Phrase(tokens, j, m);
      assert n < m <= top;
    }
    if PhraseOfLength(tokens, excl, c, n, n + 1) {
      var j: nat, m: nat :| n < m <= n + 1 && j + m <= |tokens| && c == Phrase(tokens, j, m);
      assert n < m <= top;
    }
  }

  lemma {:induction false} LongerThanExact(tokens: seq<string>, excl: set<string>, top: nat, n: nat)
    requires n <= top <= |tokens|
    ensures forall c :: c in LongerThan(tokens, excl, top, n) <==> PhraseOfLength(tokens, excl, c, n, top)
    decreases top - n
  {
    if n < top {
      LongerThanExact(tokens, excl, top, n + 1);
      WindowsExact(tokens, excl, n, n + 1);
      forall c ensures c in LongerThan(tokens, excl, top, n) <==> PhraseOfLength(tokens, excl, c, n, top) {
        PhraseOfLengthSplit(tokens, excl, c, n, top);
      }
    }
  }

  /** The candidates are exactly the phrases of one to `min(3, len(tokens))`
      consecutive tokens whose lower-cased form is not excluded. */
  lemma CandidatesExact(tokens: seq<string>, excl: set<string>)
    ensures forall c :: c in Candidates(tokens, excl) <==> PhraseOfLength(tokens, excl, c, 0, MaxPhraseLength(tokens))
  {
    LongerThanExact(tokens, excl, MaxPhraseLength(tokens), 0);
  }

  /** The nested loops that build the candidate list. */
  method NGramCandidates(tokens: seq<string>, excl: set<string>) returns (candidates: seq<string>)
    ensures candidates == Candidates(tokens, excl)
  {
    candidates := [];
    var maxLen := if |tokens| < 3 then |tokens| else 3;
    var length := maxLen;
    while length > 0
      invariant 0 <= length <= maxLen
      invariant candidates == LongerThan(tokens, excl, maxLen, length)
    {
      candidates := AppendWindows(tokens, excl, length, candidates);
      length := length - 1;
    }
  }

  /** The inner loop: appends each phrase of `n` tokens that is not
      excluded. */
  method AppendWindows(tokens: seq<string>, excl: set<string>, n: nat, acc: seq<string>) returns (r: seq<string>)
    requires 1 <= n <= |tokens|
    ensures r == acc + Windows(tokens, excl, n)
  {
    r := acc;
    for i := 0 to |tokens| - n + 1
      invariant r == acc + WindowsBefore(tokens, excl, n, i)
    {
      var phrase := Join(tokens[i..i + n], " ");
      if Lower(phrase) !in excl {
        r := r + [phrase];
      }
    }
  }

  // ------------------------------------------------------------------ lookup

  /** The answer of `find_best_tournament` for one phrase; an empty name
      counts as none, as `if tournament:` does. */
  function Hit(idx: TournamentIndex, phrase: string): (r: Option<string>)
    ensures r.Some? ==> r.value != ""
  {
    match FindBestTournament(idx, Some(phrase))
    case Some(t) => if t != "" then Some(t) else None
    case None => None
  }

  /** The loop over the candidates, for any lookup `answer`: a phrase whose
      lower-cased form was already tried is skipped, the first answer is
      returned. */
  function FirstHit(answer: string -> Option<string>, cands: seq<string>, tried: set<string>): Option<string> {
    if cands == [] then None
    else
      var key := Lower(cands[0]);
      if key in tried then FirstHit(answer, cands[1..], tried)
      else
        match answer(cands[0])
        case Some(t) => Some(t)
        case None => FirstHit(answer, cands[1..], tried + {key})
  }

  /** `guess_tournament_from_text(cursor, text, exclude)` */
  function GuessTournamentFromText(idx: TournamentIndex, text: string, exclude: seq<string>): Option<string> {
    if text == "" then None
    else
      var tokens := GuessTokens(text);
      if tokens == [] then None
      else FirstHit(p => Hit(idx, p), Candidates(tokens, ExcludeKeys(exclude)), {})
  }

  /** Candidate `i` is the first with its lower-cased form. */
  predicate FirstOfKey(cands: seq<string>, i: nat)
    requires i < |cands|
  {
    forall k :: 0 <= k < i ==> Lower(cands[k]) != Lower(cands[i])
  }

  /** The guess is the answer for some candidate not skipped, and it is
      None exactly when no candidate that is the first of its lower-cased
      form (and not tried before) has an answer. */
  lemma {:induction false} FirstHitSpec(answer: string -> Option<string>, cands: seq<string>, tried: set<string>)
    ensures var r := FirstHit(answer, cands, tried);
      && (r.Some? ==> exists i :: 0 <= i < |cands| && Lower(cands[i]) !in tried && answer(cands[i]) == r)
      && (r.None? <==>
            forall i :: 0 <= i < |cands| && Lower(cands[i]) !in tried && FirstOfKey(cands, i) ==> answer(cands[i]).None?)
  {
    if cands != [] {
      var key := Lower(cands[0]);
      var rest := cands[1..];
      if key in tried || answer(cands[0]).None? {
        var tried' := tried + {key};
        FirstHitSpec(answer, rest, tried');
        assert FirstHit(answer, cands, tried) == FirstHit(answer, rest, tried') by {
          if key in tried { assert tried' == tried; }
        }
        var r := FirstHit(answer, cands, tried);
        if r.Some? {
          var i :| 0 <= i < |rest| && Lower(rest[i]) !in tried' && answer(rest[i]) == r;
          assert cands[i + 1] == rest[i];
        }
        forall i | 0 < i < |cands| && Lower(cands[i]) !in tried && FirstOfKey(cands, i)
          ensures Lower(rest[i - 1]) !in tried' && FirstOfKey(rest, i - 1)
        {
          assert rest[i - 1] == cands[i];
          forall k | 0 <= k < i - 1 ensures Lower(rest[k]) != Lower(rest[i - 1]) {
            assert rest[k] == cands[k + 1];
          }
        }
        forall i | 0 <= i < |rest| && Lower(rest[i]) !in tried' && FirstOfKey(rest, i)
          ensures Lower(cands[i + 1]) !in tried && FirstOfKey(cands, i + 1)
        {
          assert rest[i] == cands[i + 1];
          forall k | 0 <= k < i + 1 ensures Lower(cands[k]) != Lower(cands[i + 1]) {
            if k > 0 { assert rest[k - 1] == cands[k]; }
          }
        }
      } else {
        assert FirstOfKey(cands, 0);
      }
    }
  }

  /** The first candidate with an answer, without skipping. */
  function PlainFirstHit(answer: string -> Option<string>, cands: seq<string>): Option<string> {
    if cands == [] then None
    else match answer(cands[0])
      case Some(t) => Some(t)
      case None => PlainFirstHit(answer, cands[1..])
  }

  /** When equal lower-cased phrases get equal answers, skipping a phrase
      already tried loses nothing: the guess is the first answer of all. */
  lemma {:induction false} SkippingTriedIsHarmless(answer: string -> Option<string>, cands: seq<string>, tried: set<string>)
    requires forall i, j :: (0 <= i < |cands| && 0 <= j < |cands| && Lower(cands[i]) == Lower(cands[j])
      ==> answer(cands[i]) == answer(cands[j]))
    requires forall i :: 0 <= i < |cands| && Lower(cands[i]) in tried ==> answer(cands[i]).None?
    ensures FirstHit(answer, cands, tried) == PlainFirstHit(answer, cands)
  {
    if cands != [] && answer(cands[0]).None? {
      var key := Lower(cands[0]);
      var rest := cands[1..];
      var tried' := tried + {key};
      forall i | 0 <= i < |rest| && Lower(rest[i]) in tried' ensures answer(rest[i]).None? {
        assert rest[i] == cands[i + 1];
      }
      forall i, j | 0 <= i < |rest| && 0 <= j < |rest| && Lower(rest[i]) == Lower(rest[j])
        ensures answer(rest[i]) == answer(rest[j])
      {
        assert rest[i] == cands[i + 1] && rest[j] == cands[j + 1];
      }
      SkippingTriedIsHarmless(answer, rest, tried');
      assert FirstHit(answer, cands, tried) == FirstHit(answer, rest, tried') by {
        if key in tried { assert tried' == tried; }
      }
    }
  }

  /** The loop of `guess_tournament_from_text`, with its `tried` set. */
  method GuessTournament(idx: TournamentIndex, text: string, exclude: seq<string>) returns (r: Option<string>)
    ensures r == GuessTournamentFromText(idx, text, exclude)
  {
    if text == "" {
      return None;
    }
    var excl := ExcludeKeys(exclude);
    var tokens := GuessTokens(text);
    if tokens == [] {
      return None;
    }
    var candidates := NGramCandidates(tokens, excl);
    var tried: set<string> := {};
    for i := 0 to |candidates|
      invariant FirstHit(p => Hit(idx, p), candidates, {}) == FirstHit(p => Hit(idx, p), candidates[i..], tried)
    {
      var phrase := candidates[i];
      var key := Lower(phrase);
      assert candidates[i..][1..] == candidates[i + 1..];
      if key in tried {
        continue;
      }
      tried := tried + {key};
      var t := FindBestTournament(idx, Some(phrase));
      if t.Some? && t.value != "" {
        return t;
      }
    }
    return None;
  }
}
