/** The tiered name lookups `find_best_tournament` and
    `validate_and_find_player`, over in-memory views of the `matches` and
    `players` tables in place of the SQL queries: each tier is the first row
    of its view, in the query's ORDER BY order, that satisfies the query's
    WHERE clause. */
module Resolvers {
  import opened PyText
  import opened SqlLike

  /** Index of the first element of `xs` that satisfies `p`. */
  function FirstWhere<T>(xs: seq<T>, p: T -> bool): (r: Option<nat>)
    ensures r.Some? ==> (r.value < |xs| && p(xs[r.value])
      && forall k :: 0 <= k < r.value ==> !p(xs[k]))
    ensures r.None? ==> forall k :: 0 <= k < |xs| ==> !p(xs[k])
  {
    if xs == [] then None
    else if p(xs[0]) then Some(0)
    else
      match FirstWhere(xs[1..], p)
      case None => None
      case Some(i) => Some(i + 1)
  }

  /** `LOWER(a) = LOWER(b)` */
  predicate FoldedEqual(a: string, b: string) {
    AsciiLower(a) == AsciiLower(b)
  }

  /** `LOWER(name) LIKE LOWER(pattern)` */
  predicate NameLike(name: string, pattern: string) {
    Like(AsciiLower(name), AsciiLower(pattern))
  }

  /** The pattern `%clean%`. */
  function ContainsPattern(clean: string): string {
    "%" + clean + "%"
  }

  /** The pattern `%` + `'%'.join(clean.split())` + `%`: the words of
      `clean` in order, anything between them. */
  function WordsPattern(clean: string): string {
    "%" + Join(Words(clean), "%") + "%"
  }

  lemma FoldedEqualContains(name: string, clean: string)
    requires FoldedEqual(name, clean)
    ensures FoldedContains(name, clean)
  {
    assert name[0..] == name;
    forall i | 0 <= i < |clean| ensures AsciiLowerChar(name[i]) == AsciiLowerChar(clean[i]) {
      assert AsciiLower(name)[i] == AsciiLower(clean)[i];
    }
  }

  lemma NameLikeContains(name: string, clean: string)
    requires NoWildcards(clean)
    ensures NameLike(name, ContainsPattern(clean)) <==> FoldedContains(name, clean)
  {
    LikeOfLowered(name, ContainsPattern(clean));
    LikeContains(name, clean);
  }

  lemma NameLikePrefix(name: string, clean: string)
    requires NoWildcards(clean)
    ensures NameLike(name, clean + "%") <==> FoldedPrefix(name, clean)
  {
    LikeOfLowered(name, clean + "%");
    LikePrefix(name, clean);
  }

  /** The words of a text without wildcards have none either. */
  lemma WordsNoWildcards(clean: string)
    requires NoWildcards(clean)
    ensures forall k :: 0 <= k < |Words(clean)| ==> NoWildcards(Words(clean)[k])
  {
    ChunksShape(clean, NotSpace);
    forall k, i | 0 <= k < |Words(clean)| && 0 <= i < |Words(clean)[k]|
      ensures Words(clean)[k][i] != '%' && Words(clean)[k][i] != '_'
    {
      var w := Words(clean)[k];
      assert w in Words(clean) && w[i] in w;
      var j :| 0 <= j < |clean| && clean[j] == w[i];
    }
  }

  /** The word pattern matches exactly the names holding the words of the
      text in order, without overlap, up to ASCII case. */
  lemma NameLikeWords(name: string, clean: string)
    requires NoWildcards(clean)
    ensures NameLike(name, WordsPattern(clean)) <==> FoldedInOrder(name, Words(clean))
  {
    LikeOfLowered(name, WordsPattern(clean));
    WordsNoWildcards(clean);
    LikeWordsInOrder(name, Words(clean));
  }

  /** A text without whitespace is a single word. */
  lemma WordsOfWord(s: string)
    requires s != [] && NoSpace(s)
    ensures Words(s) == [s]
  {
    ChunksOfRun(s, NotSpace);
  }

  /** A non-empty run of kept characters is a single chunk. */
  lemma ChunksOfRun(s: string, keep: char -> bool)
    requires s != [] && forall i :: 0 <= i < |s| ==> keep(s[i])
    ensures Chunks(s, keep) == [s]
  {
    LStripByShape(s, c => !keep(c));
    var t := LStripBy(s, c => !keep(c));
    assert t == s;
    var n := RunLength(s, keep);
    assert n == |s|;
    assert s[..n] == s;
    assert LStripBy(s[n..], c => !keep(c)) == [];
  }

  // ------------------------------------------------------------- tournaments

  /** The `matches` table as the tournament queries read it: `byDate` holds
      the tournament name of every match, most recent first; `byCount` each
      distinct name once, the name with most matches first. The order of
      ties, which SQLite leaves open, is the order of the sequences. */
  datatype TournamentIndex = TournamentIndex(byDate: seq<string>, byCount: seq<string>)

  /** Both views list the same names. */
  ghost predicate SameTournaments(idx: TournamentIndex) {
    forall n :: n in idx.byDate <==> n in idx.byCount
  }

  /** `find_best_tournament(cursor, candidate)`: None for a missing
      candidate or one shorter than three characters once stripped, else
      the exact name (any case), else the most played name containing it,
      else the most played name containing its words in order. */
  function FindBestTournament(idx: TournamentIndex, candidate: Option<string>): (r: Option<string>)
    ensures r.Some? ==> candidate.Some? && |Strip(candidate.value)| >= 3
    ensures r.Some? ==> r.value in idx.byDate || r.value in idx.byCount
  {
    if candidate.None? || candidate.value == "" then None
    else
      var clean := Strip(candidate.value);
      if |clean| < 3 then None
      else
        match FirstWhere(idx.byDate, n => FoldedEqual(n, clean))
        case Some(i) => Some(idx.byDate[i])
        case None =>
          match FirstWhere(idx.byCount, n => NameLike(n, ContainsPattern(clean)))
          case Some(i) => Some(idx.byCount[i])
          case None =>
            match FirstWhere(idx.byCount, n => NameLike(n, WordsPattern(clean)))
            case Some(i) => Some(idx.byCount[i])
            case None => None
  }

  /** An exact name wins over every partial one, and the most recent
      spelling of it is returned. */
  lemma TournamentExactFirst(idx: TournamentIndex, candidate: string, i: nat)
    requires |Strip(candidate)| >= 3
    requires i < |idx.byDate| && FoldedEqual(idx.byDate[i], Strip(candidate))
    ensures var r := FindBestTournament(idx, Some(candidate));
      && r.Some? && FoldedEqual(r.value, Strip(candidate))
      && exists j :: 0 <= j <= i && r.value == idx.byDate[j]
  {
    var clean := Strip(candidate);
    var j := FirstWhere(idx.byDate, n => FoldedEqual(n, clean));
    assert j.Some?;
    assert j.value <= i;
  }

  /** Without an exact name, a candidate without wildcards yields the most
      played name that contains it, when there is one. */
  lemma TournamentContainsNext(idx: TournamentIndex, candidate: string, i: nat)
    requires |Strip(candidate)| >= 3 && NoWildcards(Strip(candidate))
    requires forall n :: n in idx.byDate ==> !FoldedEqual(n, Strip(candidate))
    requires i < |idx.byCount| && FoldedContains(idx.byCount[i], Strip(candidate))
    ensures var r := FindBestTournament(idx, Some(candidate));
      && r.Some? && FoldedContains(r.value, Strip(candidate))
      && exists j :: (0 <= j <= i && r.value == idx.byCount[j]
        && forall k :: 0 <= k < j ==> !FoldedContains(idx.byCount[k], Strip(candidate)))
  {
    var clean := Strip(candidate);
    NameLikeContains(idx.byCount[i], clean);
    var j := FirstWhere(idx.byCount, n => NameLike(n, ContainsPattern(clean)));
    assert j.Some? && j.value <= i;
    NameLikeContains(idx.byCount[j.value], clean);
    forall k | 0 <= k < j.value ensures !FoldedContains(idx.byCount[k], clean) {
      NameLikeContains(idx.byCount[k], clean);
    }
  }

  /** With neither an exact nor a substring hit, a candidate without
      wildcards yields the most played name holding its words in order
      (so "roland garros" finds "Roland-Garros"), when there is one. */
  lemma TournamentWordsNext(idx: TournamentIndex, candidate: string, i: nat)
    requires |Strip(candidate)| >= 3 && NoWildcards(Strip(candidate))
    requires forall n :: n in idx.byDate ==> !FoldedEqual(n, Strip(candidate))
    requires forall n :: n in idx.byCount ==> !FoldedContains(n, Strip(candidate))
    requires i < |idx.byCount| && FoldedInOrder(idx.byCount[i], Words(Strip(candidate)))
    ensures var r := FindBestTournament(idx, Some(candidate));
      && r.Some? && FoldedInOrder(r.value, Words(Strip(candidate)))
      && exists j :: (0 <= j <= i && r.value == idx.byCount[j]
        && forall k :: 0 <= k < j ==> !FoldedInOrder(idx.byCount[k], Words(Strip(candidate))))
  {
    var clean := Strip(candidate);
    assert FirstWhere(idx.byDate, n => FoldedEqual(n, clean)).None?;
    var c := FirstWhere(idx.byCount, n => NameLike(n, ContainsPattern(clean)));
    if c.Some? {
      NameLikeContains(idx.byCount[c.value], clean);
      assert false;
    }
    NameLikeWords(idx.byCount[i], clean);
    var j := FirstWhere(idx.byCount, n => NameLike(n, WordsPattern(clean)));
    assert j.Some? && j.value <= i;
    NameLikeWords(idx.byCount[j.value], clean);
    forall k | 0 <= k < j.value ensures !FoldedInOrder(idx.byCount[k], Words(clean)) {
      NameLikeWords(idx.byCount[k], clean);
    }
  }

  /** For a one-word candidate the word tier repeats the substring tier, so
      the lookup fails exactly when no known tournament name contains the
      candidate. */
  lemma TournamentOneWord(idx: TournamentIndex, candidate: string)
    requires SameTournaments(idx)
    requires |Strip(candidate)| >= 3 && NoWildcards(Strip(candidate)) && NoSpace(Strip(candidate))
    ensures FindBestTournament(idx, Some(candidate)).None?
      <==> forall n :: n in idx.byCount ==> !FoldedContains(n, Strip(candidate))
  {
    var clean := Strip(candidate);
    WordsOfWord(clean);
    assert WordsPattern(clean) == ContainsPattern(clean);
    if FindBestTournament(idx, Some(candidate)).None? {
      forall n | n in idx.byCount ensures !FoldedContains(n, clean) {
        NameLikeContains(n, clean);
      }
    } else {
      var r := FindBestTournament(idx, Some(candidate)).value;
      if FirstWhere(idx.byDate, n => FoldedEqual(n, clean)).Some? {
        assert FoldedEqual(r, clean);
        FoldedEqualContains(r, clean);
        assert r in idx.byCount;
      } else {
        NameLikeContains(r, clean);
      }
    }
  }

  // ----------------------------------------------------------------- players

  /** A row of the `players` table: `id` and `player_name`. */
  datatype PlayerRow = PlayerRow(id: string, name: string)

  /** The `players` table as the three player queries read it: `rows` in
      table order (the exact query has no ORDER BY); `byRecent` ordered by
      the date of the player's last match, players without matches last;
      `byRecentCount` the same with more matches first among equal dates. */
  datatype PlayerIndex = PlayerIndex(rows: seq<PlayerRow>, byRecent: seq<PlayerRow>, byRecentCount: seq<PlayerRow>)

  /** The three views list the same rows. */
  ghost predicate SamePlayers(idx: PlayerIndex) {
    forall p :: (p in idx.rows <==> p in idx.byRecent) && (p in idx.rows <==> p in idx.byRecentCount)
  }

  /** `validate_and_find_player(player_name, cursor)`: nothing for a name
      shorter than two characters once stripped, else the exact name (any
      case), else the most recently active player whose name starts with it,
      else the one whose name contains it. */
  function ValidateAndFindPlayer(idx: PlayerIndex, playerName: string): (r: Option<PlayerRow>)
    ensures r.Some? ==> |Strip(playerName)| >= 2
    ensures r.Some? ==> r.value in idx.rows || r.value in idx.byRecent || r.value in idx.byRecentCount
  {
    if playerName == "" || |Strip(playerName)| < 2 then None
    else
      var clean := Strip(playerName);
      match FirstWhere(idx.rows, (p: PlayerRow) => FoldedEqual(p.name, clean))
      case Some(i) => Some(idx.rows[i])
      case None =>
        match FirstWhere(idx.byRecent, (p: PlayerRow) => NameLike(p.name, clean + "%"))
        case Some(i) => Some(idx.byRecent[i])
        case None =>
          match FirstWhere(idx.byRecentCount, (p: PlayerRow) => NameLike(p.name, ContainsPattern(clean)))
          case Some(i) => Some(idx.byRecentCount[i])
          case None => None
  }

  /** An exact name (any case) wins over every partial one. */
  lemma PlayerExactFirst(idx: PlayerIndex, playerName: string, i: nat)
    requires |Strip(playerName)| >= 2
    requires i < |idx.rows| && FoldedEqual(idx.rows[i].name, Strip(playerName))
    ensures var r := ValidateAndFindPlayer(idx, playerName);
      r.Some? && FoldedEqual(r.value.name, Strip(playerName))
  {
    var clean := Strip(playerName);
    assert playerName != "";
    assert FirstWhere(idx.rows, (p: PlayerRow) => FoldedEqual(p.name, clean)).Some?;
  }

  /** Without an exact name, a player whose name starts with the text is
      preferred to one whose name only contains it. */
  lemma PlayerPrefixNext(idx: PlayerIndex, playerName: string, i: nat)
    requires |Strip(playerName)| >= 2 && NoWildcards(Strip(playerName))
    requires forall p :: p in idx.rows ==> !FoldedEqual(p.name, Strip(playerName))
    requires i < |idx.byRecent| && FoldedPrefix(idx.byRecent[i].name, Strip(playerName))
    ensures var r := ValidateAndFindPlayer(idx, playerName);
      && r.Some? && FoldedPrefix(r.value.name, Strip(playerName))
      && exists j :: (0 <= j <= i && r.value == idx.byRecent[j]
        && forall k :: 0 <= k < j ==> !FoldedPrefix(idx.byRecent[k].name, Strip(playerName)))
  {
    var clean := Strip(playerName);
    assert playerName != "";
    assert FirstWhere(idx.rows, (p: PlayerRow) => FoldedEqual(p.name, clean)).None?;
    NameLikePrefix(idx.byRecent[i].name, clean);
    var j := FirstWhere(idx.byRecent, (p: PlayerRow) => NameLike(p.name, clean + "%"));
    assert j.Some? && j.value <= i;
    NameLikePrefix(idx.byRecent[j.value].name, clean);
    forall k | 0 <= k < j.value ensures !FoldedPrefix(idx.byRecent[k].name, clean) {
      NameLikePrefix(idx.byRecent[k].name, clean);
    }
  }

  /** Whatever tier answers, the name found contains the text, up to ASCII
      case. */
  lemma PlayerAnswerContains(idx: PlayerIndex, playerName: string)
    requires NoWildcards(Strip(playerName))
    ensures var r := ValidateAndFindPlayer(idx, playerName);
      r.Some? ==> FoldedContains(r.value.name, Strip(playerName))
  {
    var clean := Strip(playerName);
    var r := ValidateAndFindPlayer(idx, playerName);
    if r.Some? {
      var name := r.value.name;
      if FoldedEqual(name, clean) {
        FoldedEqualContains(name, clean);
      } else if NameLike(name, clean + "%") {
        NameLikePrefix(name, clean);
        PrefixIsContained(name, clean);
      } else {
        NameLikeContains(name, clean);
      }
    }
  }

  /** The lookup fails exactly when the name is too short or no player's
      name contains it: each tier only narrows the last one. */
  lemma PlayerNotFound(idx: PlayerIndex, playerName: string)
    requires SamePlayers(idx) && NoWildcards(Strip(playerName))
    ensures ValidateAndFindPlayer(idx, playerName).None?
      <==> |Strip(playerName)| < 2 || forall p :: p in idx.rows ==> !FoldedContains(p.name, Strip(playerName))
  {
    var clean := Strip(playerName);
    if |clean| >= 2 {
      assert playerName != "";
      var r := ValidateAndFindPlayer(idx, playerName);
      if r.None? {
        forall p | p in idx.rows ensures !FoldedContains(p.name, clean) {
          assert p in idx.byRecentCount;
          NameLikeContains(p.name, clean);
        }
      } else {
        PlayerAnswerContains(idx, playerName);
        assert r.value in idx.rows;
      }
    }
  }
}
