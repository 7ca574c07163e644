/** `make_match_signature` (Chatbot/actions/actions.py:413-440) and the three
    loops that deduplicate match rows by it: `deduplicate_matches`
    (443-452), the loop of `fetch_unique_match_dicts` (463-472) and the
    head-to-head loop over positional rows (1474-1481). */
module Signature {
  import opened PyText
  import opened Rows
  import opened FirstOccurrence

  /** The hashable key of a match: date, tournament, round, the sorted
      participant pair, match number and score. */
  datatype Sig = Sig(
    date: string, tourney: string, round: string,
    players: (string, string), matchNum: string, score: string)

  /** `tuple(sorted((a, b)))`: Python's stable sort of two strings. */
  function SortedPair(a: string, b: string): (r: (string, string))
    ensures (r.0 == a && r.1 == b) || (r.0 == b && r.1 == a)
    ensures !StrLt(r.1, r.0)
  {
    StrLtTrichotomy(a, b);
    if StrLt(b, a) then (b, a) else (a, b)
  }

  /** The order of the two arguments does not matter. */
  lemma SortedPairSymmetric(a: string, b: string)
    ensures SortedPair(a, b) == SortedPair(b, a)
  {
    StrLtTrichotomy(a, b);
  }

  /** A name as the signature keeps it: trimmed, and unchanged by
      lower-casing. */
  predicate Normalised(s: string) {
    && Lower(s) == s
    && (s != [] ==> !IsSpace(s[0]) && !IsSpace(s[|s| - 1]))
  }

  lemma LowerCharKeepsSpace(c: char)
    ensures IsSpace(LowerChar(c)) <==> IsSpace(c)
    ensures LowerChar(LowerChar(c)) == LowerChar(c)
  {
  }

  /** `s.strip().lower()` is normalised. */
  lemma StripLowerNormalised(s: string)
    ensures Normalised(Lower(Strip(s)))
  {
    var t := Strip(s);
    StripByShape(s, IsSpace);
    var r := Lower(t);
    if t != [] {
      LowerCharKeepsSpace(t[0]);
      LowerCharKeepsSpace(t[|t| - 1]);
    }
    forall i | 0 <= i < |r| ensures Lower(r)[i] == r[i] {
      LowerCharKeepsSpace(t[i]);
    }
  }

  function StripLower(s: string): (r: string)
    ensures Normalised(r)
  {
    StripLowerNormalised(s);
    Lower(Strip(s))
  }

  /** `make_match_signature(row)`: a dict is read by key, a tuple by
      position, and a position the tuple does not reach reads as empty. */
  function MakeSignature(row: Row): (r: Sig)
    ensures Normalised(r.tourney) && Normalised(r.round)
    ensures !StrLt(r.players.1, r.players.0)
  {
    match row
    case DictRow(d) =>
      Sig(OptOr(d.tourneyDate, ""),
          StripLower(OptOr(d.tourneyName, "")),
          StripLower(OptOr(d.round, "")),
          SortedPair(OptOr(d.winnerId, ""), OptOr(d.loserId, "")),
          StrOrEmpty(d.matchNum),
          Strip(OptOr(d.score, "")))
    case TupleRow(t) =>
      Sig(if |t| > TourneyDateCol then StrOrEmpty(t[TourneyDateCol]) else "",
          if |t| > TourneyNameCol then StripLower(TextOrEmpty(t[TourneyNameCol])) else StripLower(""),
          if |t| > RoundCol then StripLower(TextOrEmpty(t[RoundCol])) else StripLower(""),
          SortedPair(if |t| > WinnerIdCol then StrOrEmpty(t[WinnerIdCol]) else "",
                     if |t| > LoserIdCol then StrOrEmpty(t[LoserIdCol]) else ""),
          if |t| > MatchNumCol then StrOrEmpty(t[MatchNumCol]) else "",
          if |t| > ScoreCol then Strip(TextOrEmpty(t[ScoreCol])) else "")
  }

  /** Swapping winner and loser of a dict row keeps its signature. */
  lemma DictSignatureSymmetric(d: MatchDict)
    ensures MakeSignature(DictRow(d.(winnerId := d.loserId, loserId := d.winnerId)))
         == MakeSignature(DictRow(d))
  {
    SortedPairSymmetric(OptOr(d.winnerId, ""), OptOr(d.loserId, ""));
  }

  /** Swapping winner and loser of a positional row keeps its signature. */
  lemma TupleSignatureSymmetric(t: MatchTuple)
    requires |t| > LoserIdCol
    ensures TextColumnsOk(t[WinnerIdCol := t[LoserIdCol]][LoserIdCol := t[WinnerIdCol]])
    ensures MakeSignature(TupleRow(t[WinnerIdCol := t[LoserIdCol]][LoserIdCol := t[WinnerIdCol]]))
         == MakeSignature(TupleRow(t))
  {
    SortedPairSymmetric(StrOrEmpty(t[WinnerIdCol]), StrOrEmpty(t[LoserIdCol]));
  }

  /** A positional row too short for a column contributes "" for it. */
  lemma ShortTupleSignature(t: MatchTuple)
    ensures |t| <= TourneyNameCol ==> MakeSignature(TupleRow(t)).tourney == ""
    ensures |t| <= TourneyDateCol ==> MakeSignature(TupleRow(t)).date == ""
    ensures |t| <= MatchNumCol ==> MakeSignature(TupleRow(t)).matchNum == ""
    ensures |t| <= WinnerIdCol ==> MakeSignature(TupleRow(t)).players.0 == ""
    ensures |t| <= ScoreCol ==> MakeSignature(TupleRow(t)).score == ""
    ensures |t| <= RoundCol ==> MakeSignature(TupleRow(t)).round == ""
  {
    assert Strip("") == "";
  }

  /** The positional row `t` holds the columns of the dict `d` at the
      positions of `SELECT * FROM matches`. */
  predicate Agrees(d: MatchDict, t: MatchTuple) {
    && |t| > RoundCol
    && t[TourneyNameCol] == FromOpt(d.tourneyName)
    && t[TourneyDateCol] == FromOpt(d.tourneyDate)
    && t[MatchNumCol] == d.matchNum
    && t[WinnerIdCol] == FromOpt(d.winnerId)
    && t[LoserIdCol] == FromOpt(d.loserId)
    && t[ScoreCol] == FromOpt(d.score)
    && t[RoundCol] == FromOpt(d.round)
  }

  lemma StrOrEmptyFromOpt(o: Option<string>)
    ensures StrOrEmpty(FromOpt(o)) == OptOr(o, "")
    ensures TextOrEmpty(FromOpt(o)) == OptOr(o, "")
  {
  }

  /** The dict and tuple paths compute the same signature for the same
      match. */
  lemma DictTupleAgree(d: MatchDict, t: MatchTuple)
    requires Agrees(d, t)
    ensures MakeSignature(TupleRow(t)) == MakeSignature(DictRow(d))
  {
    StrOrEmptyFromOpt(d.tourneyName);
    StrOrEmptyFromOpt(d.tourneyDate);
    StrOrEmptyFromOpt(d.winnerId);
    StrOrEmptyFromOpt(d.loserId);
    StrOrEmptyFromOpt(d.score);
    StrOrEmptyFromOpt(d.round);
  }

  function DictSignature(d: MatchDict): Sig { MakeSignature(DictRow(d)) }

  function TupleSignature(t: MatchTuple): Sig { MakeSignature(TupleRow(t)) }

  /** `deduplicate_matches(rows)`. */
  method DeduplicateMatches(rows: seq<MatchDict>) returns (unique: seq<MatchDict>)
    ensures unique == Dedup(rows, DictSignature)
  {
    unique := DeduplicateBy(rows, DictSignature);
  }

  /** A row of `fetch_rows_as_dicts(..., include_raw=True)`: the dict and
      the tuple stored under `"__raw__"`. */
  datatype FetchedRow = FetchedRow(d: MatchDict, raw: Option<MatchTuple>)

  /** The key of `fetch_unique_match_dicts`: the raw tuple's signature when
      there is one, else the dict's. */
  function FetchKey(row: FetchedRow): Sig {
    match row.raw
    case Some(t) => TupleSignature(t)
    case None => DictSignature(row.d)
  }

  /** The dedup loop of `fetch_unique_match_dicts`. */
  method FetchUniqueMatchDicts(rows: seq<FetchedRow>) returns (unique: seq<FetchedRow>)
    ensures unique == Dedup(rows, FetchKey)
  {
    unique := DeduplicateBy(rows, FetchKey);
  }

  /** The loop over `cur.fetchall()` in the head-to-head action. */
  method DeduplicateRawRows(rows: seq<MatchTuple>) returns (unique: seq<MatchTuple>)
    ensures unique == Dedup(rows, TupleSignature)
  {
    unique := DeduplicateBy(rows, TupleSignature);
  }

  function Dicts(rows: seq<FetchedRow>): (r: seq<MatchDict>)
    ensures |r| == |rows| && forall i :: 0 <= i < |rows| ==> r[i] == rows[i].d
  {
    seq(|rows|, i requires 0 <= i < |rows| => rows[i].d)
  }

  lemma FetchKeyOfAgreeing(row: FetchedRow)
    requires row.raw.Some? ==> Agrees(row.d, row.raw.value)
    ensures FetchKey(row) == DictSignature(row.d)
  {
    if row.raw.Some? {
      DictTupleAgree(row.d, row.raw.value);
    }
  }

  /** When every raw tuple holds its dict's columns, keying by the raw tuple
      keeps the same rows as `deduplicate_matches` would keep of the
      dicts. */
  lemma FetchUniqueAgreesWithDeduplicate(rows: seq<FetchedRow>)
    requires forall i :: 0 <= i < |rows| && rows[i].raw.Some? ==> Agrees(rows[i].d, rows[i].raw.value)
    ensures Dicts(Dedup(rows, FetchKey)) == Dedup(Dicts(rows), DictSignature)
  {
    var ds := Dicts(rows);
    forall i | 0 <= i < |rows| {
      FetchKeyOfAgreeing(rows[i]);
    }
    FirstPositionsOfSameKeys(rows, ds, FetchKey, DictSignature);
    DedupIsFirstOccurrences(rows, FetchKey);
    DedupIsFirstOccurrences(ds, DictSignature);
  }
}
