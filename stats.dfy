/** The per-player statistics fold of `ActionPlayerStats.run`
    (Chatbot/actions/actions.py:1177-1267) and the head-to-head tally of
    `ActionHeadToHead.run` (1511-1541), over rows that are already
    deduplicated. */
module Stats {
  import opened PyText
  import opened Rows
  import opened Tallies

  // ------------------------------------------------------------- row fields

  /** `str(match["winner_id"]) == player_id_str` */
  predicate IsWinner(d: MatchDict, pid: string) {
    PyStr(FromOpt(d.winnerId)) == pid
  }

  /** `(value or "").strip()`, with "N/A" for an empty result. */
  function SurfaceKey(raw: string): (k: string)
    ensures k != ""
  {
    var s := Strip(raw);
    if s == "" then "N/A" else s
  }

  /** `(match.get("tourney_name") or "Sconosciuto").strip()` */
  function TournamentKey(d: MatchDict): string {
    Strip(OptOr(d.tourneyName, "Sconosciuto"))
  }

  /** `raw_date[:4]` when it is four digits. */
  function YearOf(date: string): Option<string> {
    if |date| >= 4 && IsDigitStr(date[..4]) then Some(date[..4]) else None
  }

  /** A year is four digits that start the date, and one is found whenever
      the date starts with four digits. */
  lemma YearOfSpec(date: string)
    ensures var y := YearOf(date);
      && (y.Some? ==> |y.value| == 4 && IsDigitStr(y.value) && StartsWith(date, y.value))
      && (y.None? <==> !(|date| >= 4 && forall i :: 0 <= i < 4 ==> IsAsciiDigit(date[i])))
  {
  }

  /** `"RET" in score.upper() or "W/O" in score.upper()` */
  predicate IsRetirement(score: string) {
    Contains(Upper(score), "RET") || Contains(Upper(score), "W/O")
  }

  /** `"TB" in score.upper() or "7-" in score` */
  predicate HasTieBreak(score: string) {
    Contains(Upper(score), "TB") || Contains(score, "7-")
  }

  /** `round.upper() in {"F", "FIN", "FINAL"}` */
  predicate IsFinal(round: string) {
    Upper(round) in {"F", "FIN", "FINAL"}
  }

  // --------------------------------------------------------------- counters

  /** The nine serve counters summed with `safe_int`. */
  datatype ServeTotals = ServeTotals(
    ace: int, df: int, svpt: int, firstIn: int, firstWon: int,
    secondWon: int, svGms: int, bpSaved: int, bpFaced: int)

  function SideTotals(f: ServeFields): ServeTotals {
    ServeTotals(SafeInt(f.ace), SafeInt(f.df), SafeInt(f.svpt), SafeInt(f.firstIn),
      SafeInt(f.firstWon), SafeInt(f.secondWon), SafeInt(f.svGms),
      SafeInt(f.bpSaved), SafeInt(f.bpFaced))
  }

  function NoServe(): ServeTotals { ServeTotals(0, 0, 0, 0, 0, 0, 0, 0, 0) }

  function AddServe(a: ServeTotals, b: ServeTotals): ServeTotals {
    ServeTotals(a.ace + b.ace, a.df + b.df, a.svpt + b.svpt, a.firstIn + b.firstIn,
      a.firstWon + b.firstWon, a.secondWon + b.secondWon, a.svGms + b.svGms,
      a.bpSaved + b.bpSaved, a.bpFaced + b.bpFaced)
  }

  /** The scalar results of the fold. */
  datatype Counters = Counters(
    wins: nat, serve: ServeTotals,
    minutesTotal: int, minutesCount: nat,
    retiresTotal: nat, retiresWins: nat, retiresLosses: nat,
    finals: nat, titles: nat, tieBreaks: nat)

  function NoCounters(): Counters { Counters(0, NoServe(), 0, 0, 0, 0, 0, 0, 0, 0) }

  function AddCounters(a: Counters, b: Counters): Counters {
    Counters(a.wins + b.wins, AddServe(a.serve, b.serve),
      a.minutesTotal + b.minutesTotal, a.minutesCount + b.minutesCount,
      a.retiresTotal + b.retiresTotal, a.retiresWins + b.retiresWins,
      a.retiresLosses + b.retiresLosses, a.finals + b.finals, a.titles + b.titles,
      a.tieBreaks + b.tieBreaks)
  }

  function B(c: bool): nat { if c then 1 else 0 }

  /** What the loop reads from one row before it knows the subject:
      `str(winner_id)`, both sides' serve counters, `safe_int(minutes)`,
      the retirement, final and tie-break tests and the three bucket
      keys. */
  datatype RowFacts = RowFacts(
    winner: string, w: ServeTotals, l: ServeTotals, minutes: int,
    retired: bool, final: bool, tieBreak: bool,
    surface: string, tournament: string, year: Option<string>)

  function ReadRow(d: MatchDict): RowFacts {
    var score := OptOr(d.score, "");
    RowFacts(PyStr(FromOpt(d.winnerId)), SideTotals(d.w), SideTotals(d.l), SafeInt(d.minutes),
      IsRetirement(score), IsFinal(OptOr(d.round, "")), HasTieBreak(score),
      SurfaceKey(OptOr(d.surface, "")), TournamentKey(d), YearOf(OptOr(d.tourneyDate, "")))
  }

  function ReadRows(rows: seq<MatchDict>): (fs: seq<RowFacts>)
    ensures |fs| == |rows|
    decreases |rows|
  {
    if rows == [] then [] else ReadRows(rows[..|rows| - 1]) + [ReadRow(rows[|rows| - 1])]
  }

  lemma ReadRowsSnoc(rows: seq<MatchDict>, i: nat)
    requires i < |rows|
    ensures ReadRows(rows[..i + 1]) == ReadRows(rows[..i]) + [ReadRow(rows[i])]
  {
    assert rows[..i + 1][..i] == rows[..i];
  }

  /** What one match adds for the subject `pid`: a win when the subject's
      id is the winner's, the serve counters of the side the subject
      played, minutes when non-zero, and the retirement, tie-break and
      final flags. */
  function RowCounters(f: RowFacts, pid: string): Counters {
    var won := f.winner == pid;
    Counters(B(won), if won then f.w else f.l,
      if f.minutes != 0 then f.minutes else 0, B(f.minutes != 0),
      B(f.retired), B(f.retired && won), B(f.retired && !won),
      B(f.final), B(f.final && won), B(f.tieBreak))
  }

  function TotalCounters(fs: seq<RowFacts>, pid: string): Counters
    decreases |fs|
  {
    if fs == [] then NoCounters()
    else AddCounters(TotalCounters(fs[..|fs| - 1], pid), RowCounters(fs[|fs| - 1], pid))
  }

  // ---------------------------------------------------------------- buckets

  function SurfaceBuckets(fs: seq<RowFacts>, pid: string): Buckets
    decreases |fs|
  {
    if fs == [] then []
    else
      var f := fs[|fs| - 1];
      Bump(SurfaceBuckets(fs[..|fs| - 1], pid), f.surface, f.winner == pid)
  }

  function TournamentBuckets(fs: seq<RowFacts>, pid: string): Buckets
    decreases |fs|
  {
    if fs == [] then []
    else
      var f := fs[|fs| - 1];
      Bump(TournamentBuckets(fs[..|fs| - 1], pid), f.tournament, f.winner == pid)
  }

  /** `if not year_filter`: the year buckets are only kept when no year
      filter is active. */
  function YearBuckets(fs: seq<RowFacts>, pid: string, yearFiltered: bool): Buckets
    decreases |fs|
  {
    if fs == [] then []
    else
      var f := fs[|fs| - 1];
      var b := YearBuckets(fs[..|fs| - 1], pid, yearFiltered);
      if !yearFiltered && f.year.Some? then Bump(b, f.year.value, f.winner == pid) else b
  }

  /** `not year_filter` is false */
  predicate Filtered(yearFilter: Option<string>) {
    yearFilter.Some? && yearFilter.value != ""
  }

  datatype PlayerStats = PlayerStats(
    total: nat, c: Counters, surfaces: Buckets, tournaments: Buckets, years: Buckets)

  function StatsOfFacts(fs: seq<RowFacts>, pid: string, yearFilter: Option<string>): PlayerStats {
    PlayerStats(|fs|, TotalCounters(fs, pid), SurfaceBuckets(fs, pid),
      TournamentBuckets(fs, pid), YearBuckets(fs, pid, Filtered(yearFilter)))
  }

  /** Everything the fold of `ActionPlayerStats.run` computes. */
  function PlayerStatsOf(rows: seq<MatchDict>, pid: string, yearFilter: Option<string>): PlayerStats {
    StatsOfFacts(ReadRows(rows), pid, yearFilter)
  }

  /** `losses = total - wins` */
  function Losses(st: PlayerStats): int {
    st.total - st.c.wins
  }

  // ------------------------------------------------------------------ lemmas

  /** The counters never exceed the number of matches: wins, and so losses,
      are between 0 and the total; titles never exceed finals; every
      retirement is a win or a loss. */
  lemma {:induction false} CountersBounds(fs: seq<RowFacts>, pid: string)
    ensures var c := TotalCounters(fs, pid);
      && c.wins <= |fs| && c.titles <= c.finals <= |fs|
      && c.retiresWins + c.retiresLosses == c.retiresTotal <= |fs|
      && c.tieBreaks <= |fs| && c.minutesCount <= |fs|
    decreases |fs|
  {
    if fs != [] {
      CountersBounds(fs[..|fs| - 1], pid);
    }
  }

  /** The counters of a concatenation add up: each match contributes on its
      own, whatever the order. */
  lemma {:induction false} TotalCountersAppend(a: seq<RowFacts>, b: seq<RowFacts>, pid: string)
    ensures TotalCounters(a + b, pid) == AddCounters(TotalCounters(a, pid), TotalCounters(b, pid))
    decreases |b|
  {
    if b == [] {
      assert a + b == a;
      AddNoCounters(TotalCounters(a, pid));
    } else {
      var p := b[..|b| - 1];
      var x := b[|b| - 1];
      TotalCountersAppend(a, p, pid);
      assert (a + b)[..|a + b| - 1] == a + p;
      assert (a + b)[|a + b| - 1] == x;
      AddCountersAssoc(TotalCounters(a, pid), TotalCounters(p, pid), RowCounters(x, pid));
    }
  }

  lemma AddNoCounters(x: Counters)
    ensures AddCounters(x, NoCounters()) == x
  {
  }

  lemma AddCountersAssoc(x: Counters, y: Counters, z: Counters)
    ensures AddCounters(AddCounters(x, y), z) == AddCounters(x, AddCounters(y, z))
  {
  }

  /** Adding counters field by field: the `wins` of the left operand does
      not influence the other fields. */
  lemma AddCountersIgnoresWins(x: Counters, y: Counters)
    ensures AddCounters(x.(wins := 0), y).(wins := 0) == AddCounters(x, y).(wins := 0)
  {
  }

  /** One more row read: each fold takes one more step. */
  lemma CountersSnoc(fs: seq<RowFacts>, f: RowFacts, pid: string)
    ensures TotalCounters(fs + [f], pid) == AddCounters(TotalCounters(fs, pid), RowCounters(f, pid))
  {
    assert (fs + [f])[..|fs|] == fs;
  }

  lemma BucketsSnoc(fs: seq<RowFacts>, f: RowFacts, pid: string, yearFiltered: bool)
    ensures SurfaceBuckets(fs + [f], pid) == Bump(SurfaceBuckets(fs, pid), f.surface, f.winner == pid)
    ensures TournamentBuckets(fs + [f], pid) == Bump(TournamentBuckets(fs, pid), f.tournament, f.winner == pid)
    ensures YearBuckets(fs + [f], pid, yearFiltered) ==
      if !yearFiltered && f.year.Some? then Bump(YearBuckets(fs, pid, yearFiltered), f.year.value, f.winner == pid)
      else YearBuckets(fs, pid, yearFiltered)
  {
    assert (fs + [f])[..|fs|] == fs;
  }

  /** The serve counters of both sides of every match. */
  function BothSides(fs: seq<RowFacts>): ServeTotals
    decreases |fs|
  {
    if fs == [] then NoServe()
    else
      var f := fs[|fs| - 1];
      AddServe(BothSides(fs[..|fs| - 1]), AddServe(f.w, f.l))
  }

  /** In matches that `p1` or `p2` won, each match is counted as a win for
      exactly one of them, and the serve counters attributed to the two add
      up to both sides of every match. */
  lemma {:induction false} TwoSubjectsSplit(fs: seq<RowFacts>, p1: string, p2: string)
    requires p1 != p2
    requires forall i :: 0 <= i < |fs| ==> fs[i].winner == p1 || fs[i].winner == p2
    ensures TotalCounters(fs, p1).wins + TotalCounters(fs, p2).wins == |fs|
    ensures AddServe(TotalCounters(fs, p1).serve, TotalCounters(fs, p2).serve) == BothSides(fs)
    decreases |fs|
  {
    if fs != [] {
      var p := fs[..|fs| - 1];
      var f := fs[|fs| - 1];
      TwoSubjectsSplit(p, p1, p2);
      assert f.winner == p1 || f.winner == p2;
      var t1, t2 := TotalCounters(p, p1), TotalCounters(p, p2);
      var r1, r2 := RowCounters(f, p1), RowCounters(f, p2);
      assert TotalCounters(fs, p1) == AddCounters(t1, r1);
      assert TotalCounters(fs, p2) == AddCounters(t2, r2);
      AddServeShuffle(t1.serve, r1.serve, t2.serve, r2.serve);
      AddServeComm(f.w, f.l);
    }
  }

  lemma AddServeShuffle(a: ServeTotals, x: ServeTotals, b: ServeTotals, y: ServeTotals)
    ensures AddServe(AddServe(a, x), AddServe(b, y)) == AddServe(AddServe(a, b), AddServe(x, y))
  {
  }

  lemma AddServeComm(a: ServeTotals, b: ServeTotals)
    ensures AddServe(a, b) == AddServe(b, a)
  {
  }

  /** Surface buckets: well formed, their match counts sum to the total and
      their wins to the subject's wins. */
  lemma {:induction false} SurfaceBucketsSpec(fs: seq<RowFacts>, pid: string)
    ensures BucketsOk(SurfaceBuckets(fs, pid))
    ensures MatchesSum(SurfaceBuckets(fs, pid)) == |fs|
    ensures WinsSum(SurfaceBuckets(fs, pid)) == TotalCounters(fs, pid).wins
    decreases |fs|
  {
    if fs != [] {
      var p := fs[..|fs| - 1];
      var f := fs[|fs| - 1];
      SurfaceBucketsSpec(p, pid);
      BumpOk(SurfaceBuckets(p, pid), f.surface, f.winner == pid);
      BumpSums(SurfaceBuckets(p, pid), f.surface, f.winner == pid);
    }
  }

  /** Tournament buckets: the same. */
  lemma {:induction false} TournamentBucketsSpec(fs: seq<RowFacts>, pid: string)
    ensures BucketsOk(TournamentBuckets(fs, pid))
    ensures MatchesSum(TournamentBuckets(fs, pid)) == |fs|
    ensures WinsSum(TournamentBuckets(fs, pid)) == TotalCounters(fs, pid).wins
    decreases |fs|
  {
    if fs != [] {
      var p := fs[..|fs| - 1];
      var f := fs[|fs| - 1];
      TournamentBucketsSpec(p, pid);
      BumpOk(TournamentBuckets(p, pid), f.tournament, f.winner == pid);
      BumpSums(TournamentBuckets(p, pid), f.tournament, f.winner == pid);
    }
  }

  /** The year key of every row read is four digits. */
  predicate YearsWellFormed(fs: seq<RowFacts>) {
    forall i :: 0 <= i < |fs| && fs[i].year.Some? ==> |fs[i].year.value| == 4 && IsDigitStr(fs[i].year.value)
  }

  lemma {:induction false} ReadRowsYears(rows: seq<MatchDict>)
    ensures YearsWellFormed(ReadRows(rows))
    decreases |rows|
  {
    if rows != [] {
      ReadRowsYears(rows[..|rows| - 1]);
      YearOfSpec(OptOr(rows[|rows| - 1].tourneyDate, ""));
      var fs := ReadRows(rows);
      assert fs[..|fs| - 1] == ReadRows(rows[..|rows| - 1]);
    }
  }

  /** Year buckets: empty under a year filter; otherwise well formed, keyed
      by four-digit years, and counting at most every match and win. */
  lemma {:induction false} YearBucketsSpec(fs: seq<RowFacts>, pid: string, yearFiltered: bool)
    requires YearsWellFormed(fs)
    ensures yearFiltered ==> YearBuckets(fs, pid, yearFiltered) == []
    ensures BucketsOk(YearBuckets(fs, pid, yearFiltered))
    ensures forall i :: 0 <= i < |YearBuckets(fs, pid, yearFiltered)| ==>
      |YearBuckets(fs, pid, yearFiltered)[i].0| == 4 && IsDigitStr(YearBuckets(fs, pid, yearFiltered)[i].0)
    ensures MatchesSum(YearBuckets(fs, pid, yearFiltered)) <= |fs|
    ensures WinsSum(YearBuckets(fs, pid, yearFiltered)) <= TotalCounters(fs, pid).wins
    decreases |fs|
  {
    if fs != [] {
      var p := fs[..|fs| - 1];
      var f := fs[|fs| - 1];
      var b := YearBuckets(p, pid, yearFiltered);
      assert YearsWellFormed(p) by {
        forall i | 0 <= i < |p| && p[i].year.Some? ensures |p[i].year.value| == 4 && IsDigitStr(p[i].year.value) {
          assert p[i] == fs[i];
        }
      }
      YearBucketsSpec(p, pid, yearFiltered);
      if !yearFiltered && f.year.Some? {
        BumpOk(b, f.year.value, f.winner == pid);
        BumpSums(b, f.year.value, f.winner == pid);
        BumpKeys(b, f.year.value, f.winner == pid);
      }
    }
  }

  /** The promises of the player statistics: wins plus losses is the total
      with both non-negative, the surface and tournament buckets each sum
      to the total and to the wins, no bucket has more wins than matches,
      years are only tallied without a year filter and then by four-digit
      year, titles never exceed finals. */
  lemma PlayerStatsSpec(rows: seq<MatchDict>, pid: string, yearFilter: Option<string>)
    ensures var st := PlayerStatsOf(rows, pid, yearFilter);
      && st.total == |rows| && 0 <= Losses(st) <= st.total && st.c.wins + Losses(st) == st.total
      && MatchesSum(st.surfaces) == st.total && WinsSum(st.surfaces) == st.c.wins
      && MatchesSum(st.tournaments) == st.total && WinsSum(st.tournaments) == st.c.wins
      && BucketsOk(st.surfaces) && BucketsOk(st.tournaments) && BucketsOk(st.years)
      && (Filtered(yearFilter) ==> st.years == [])
      && (forall i :: 0 <= i < |st.years| ==> |st.years[i].0| == 4 && IsDigitStr(st.years[i].0))
      && st.c.titles <= st.c.finals
  {
    var fs := ReadRows(rows);
    CountersBounds(fs, pid);
    SurfaceBucketsSpec(fs, pid);
    TournamentBucketsSpec(fs, pid);
    ReadRowsYears(rows);
    YearBucketsSpec(fs, pid, Filtered(yearFilter));
  }

  // ------------------------------------------------------------ percentages

  /** `(num / den * 100.0) if den else 0.0` */
  function Pct(num: int, den: int): real {
    if den == 0 then 0.0 else (num as real) / (den as real) * 100.0
  }

  /** A zero denominator gives 0; a share of a non-negative whole lies
      between 0 and 100, and a part and its complement add up to 100. */
  lemma PctSpec(num: int, den: int)
    ensures den == 0 ==> Pct(num, den) == 0.0
    ensures 0 <= num <= den ==> 0.0 <= Pct(num, den) <= 100.0
    ensures 0 <= num <= den && den != 0 ==> Pct(num, den) + Pct(den - num, den) == 100.0
  {
    if 0 <= num <= den && den != 0 {
      var d := den as real;
      var q := (num as real) / d;
      var q' := ((den - num) as real) / d;
      assert q * d == num as real;
      assert q' * d == d - num as real;
      assert (q + q' - 1.0) * d == 0.0;
      assert q + q' == 1.0;
      assert 0.0 <= q <= 1.0;
    }
  }

  /** The percentages of the statistics message. */
  datatype Rates = Rates(
    winRate: real, firstInPct: real, firstWonPct: real, secondWonPct: real, bpSavedPct: real)

  function RatesOf(st: PlayerStats): Rates {
    var s := st.c.serve;
    Rates(Pct(st.c.wins, st.total), Pct(s.firstIn, s.svpt), Pct(s.firstWon, s.firstIn),
      Pct(s.secondWon, s.svpt - s.firstIn), Pct(s.bpSaved, s.bpFaced))
  }

  /** The win rate is a percentage, 0 for no matches; every bucket's win
      rate is a percentage too. */
  lemma RatesSpec(rows: seq<MatchDict>, pid: string, yearFilter: Option<string>)
    ensures var st := PlayerStatsOf(rows, pid, yearFilter);
      && 0.0 <= RatesOf(st).winRate <= 100.0
      && (rows == [] ==> RatesOf(st).winRate == 0.0)
      && (forall i :: 0 <= i < |st.surfaces| ==>
            0.0 <= Pct(st.surfaces[i].1.wins, st.surfaces[i].1.matches) <= 100.0)
  {
    var st := PlayerStatsOf(rows, pid, yearFilter);
    CountersBounds(ReadRows(rows), pid);
    SurfaceBucketsSpec(ReadRows(rows), pid);
    PctSpec(st.c.wins, st.total);
    forall i | 0 <= i < |st.surfaces|
      ensures 0.0 <= Pct(st.surfaces[i].1.wins, st.surfaces[i].1.matches) <= 100.0
    {
      PctSpec(st.surfaces[i].1.wins, st.surfaces[i].1.matches);
    }
  }

  // ---------------------------------------------------------------- methods

  /** `wins = sum(1 for row in match_rows if ...)` */
  method CountWins(rows: seq<MatchDict>, pid: string) returns (wins: nat)
    ensures wins == TotalCounters(ReadRows(rows), pid).wins
  {
    wins := 0;
    for i := 0 to |rows|
      invariant wins == TotalCounters(ReadRows(rows[..i]), pid).wins
    {
      ReadRowsSnoc(rows, i);
      CountersSnoc(ReadRows(rows[..i]), ReadRow(rows[i]), pid);
      if PyStr(FromOpt(rows[i].winnerId)) == pid {
        wins := wins + 1;
      }
    }
    assert rows[..|rows|] == rows;
  }

  /** `r` is `c` with the counters of `d` added, except `wins`, which the
      loop does not count. */
  predicate AddsRow(c: Counters, d: Counters, r: Counters) {
    && r.wins == c.wins && r.serve == AddServe(c.serve, d.serve)
    && r.minutesTotal == c.minutesTotal + d.minutesTotal
    && r.minutesCount == c.minutesCount + d.minutesCount
    && r.retiresTotal == c.retiresTotal + d.retiresTotal
    && r.retiresWins == c.retiresWins + d.retiresWins
    && r.retiresLosses == c.retiresLosses + d.retiresLosses
    && r.finals == c.finals + d.finals && r.titles == c.titles + d.titles
    && r.tieBreaks == c.tieBreaks + d.tieBreaks
  }

  lemma AddsRowAdds(c: Counters, d: Counters, r: Counters)
    requires AddsRow(c, d, r)
    ensures r == AddCounters(c, d).(wins := c.wins)
  {
  }

  lemma RestoreWins(t: Counters, c: Counters, wins: nat)
    requires c == t.(wins := 0) && wins == t.wins
    ensures c.(wins := wins) == t
  {
  }

  /** One iteration of the counter updates keeps the loop invariant of
      `AggregatePlayerStats`. */
  lemma CountersStep(fs: seq<RowFacts>, f: RowFacts, pid: string, c: Counters, r: Counters)
    requires c == TotalCounters(fs, pid).(wins := 0)
    requires AddsRow(c, RowCounters(f, pid), r)
    ensures r == TotalCounters(fs + [f], pid).(wins := 0)
  {
    var d := RowCounters(f, pid);
    CountersSnoc(fs, f, pid);
    AddsRowAdds(c, d, r);
    AddCountersIgnoresWins(TotalCounters(fs, pid), d);
  }

  /** The bucket updates of one iteration, as `TallyRow` makes them. */
  predicate TalliesRow(b: (Buckets, Buckets, Buckets), f: RowFacts, pid: string, yearFiltered: bool,
                       r: (Buckets, Buckets, Buckets)) {
    && r.0 == Bump(b.0, f.surface, f.winner == pid)
    && r.1 == Bump(b.1, f.tournament, f.winner == pid)
    && r.2 == if !yearFiltered && f.year.Some? then Bump(b.2, f.year.value, f.winner == pid) else b.2
  }

  /** The three bucket folds over the rows read so far. */
  function AllBuckets(fs: seq<RowFacts>, pid: string, yearFiltered: bool): (Buckets, Buckets, Buckets) {
    (SurfaceBuckets(fs, pid), TournamentBuckets(fs, pid), YearBuckets(fs, pid, yearFiltered))
  }

  /** One iteration of the bucket updates keeps the loop invariant of
      `AggregatePlayerStats`. */
  lemma BucketsStep(fs: seq<RowFacts>, f: RowFacts, pid: string, yearFiltered: bool, r: (Buckets, Buckets, Buckets))
    requires TalliesRow(AllBuckets(fs, pid, yearFiltered), f, pid, yearFiltered, r)
    ensures r == AllBuckets(fs + [f], pid, yearFiltered)
  {
    BucketsSnoc(fs, f, pid, yearFiltered);
  }

  /** The counter updates of one iteration of the loop of
      `ActionPlayerStats.run`; `wins` is counted before the loop. */
  method CountRow(c: Counters, m: MatchDict, pid: string) returns (r: Counters)
    ensures AddsRow(c, RowCounters(ReadRow(m), pid), r)
  {
    var isWinner := PyStr(FromOpt(m.winnerId)) == pid;
    var serve := AddServe(c.serve, SideTotals(if isWinner then m.w else m.l));
    var minutesTotal, minutesCount := c.minutesTotal, c.minutesCount;
    var minutes := SafeInt(m.minutes);
    if minutes != 0 {
      minutesTotal, minutesCount := minutesTotal + minutes, minutesCount + 1;
    }
    assert minutesCount == c.minutesCount + B(minutes != 0);
    var retiresTotal, retiresWins, retiresLosses := c.retiresTotal, c.retiresWins, c.retiresLosses;
    var score := OptOr(m.score, "");
    if IsRetirement(score) {
      retiresTotal := retiresTotal + 1;
      if isWinner {
        retiresWins := retiresWins + 1;
      } else {
        retiresLosses := retiresLosses + 1;
      }
    }
    assert retiresTotal == c.retiresTotal + B(IsRetirement(score));
    assert retiresWins == c.retiresWins + B(IsRetirement(score) && isWinner);
    assert retiresLosses == c.retiresLosses + B(IsRetirement(score) && !isWinner);
    var tieBreaks := c.tieBreaks;
    if HasTieBreak(score) {
      tieBreaks := tieBreaks + 1;
    }
    assert tieBreaks == c.tieBreaks + B(HasTieBreak(score));
    var finals, titles := c.finals, c.titles;
    if IsFinal(OptOr(m.round, "")) {
      finals := finals + 1;
      if isWinner {
        titles := titles + 1;
      }
    }
    assert finals == c.finals + B(IsFinal(OptOr(m.round, "")));
    assert titles == c.titles + B(IsFinal(OptOr(m.round, "")) && isWinner);
    r := Counters(c.wins, serve, minutesTotal, minutesCount, retiresTotal, retiresWins,
      retiresLosses, finals, titles, tieBreaks);
  }

  /** The three `setdefault` updates of one iteration. */
  method TallyRow(b: (Buckets, Buckets, Buckets), m: MatchDict, pid: string, yearFiltered: bool)
    returns (r: (Buckets, Buckets, Buckets))
    ensures TalliesRow(b, ReadRow(m), pid, yearFiltered, r)
  {
    var (surfaces, tournaments, years) := b;
    var isWinner := PyStr(FromOpt(m.winnerId)) == pid;
    surfaces := SetDefaultCount(surfaces, SurfaceKey(OptOr(m.surface, "")), isWinner);
    tournaments := SetDefaultCount(tournaments, Strip(OptOr(m.tourneyName, "Sconosciuto")), isWinner);
    if !yearFiltered {
      var year := YearOf(OptOr(m.tourneyDate, ""));
      if year.Some? {
        years := SetDefaultCount(years, year.value, isWinner);
      }
    }
    r := (surfaces, tournaments, years);
  }

  /** The loop of `ActionPlayerStats.run` over the deduplicated rows. */
  method AggregatePlayerStats(rows: seq<MatchDict>, pid: string, yearFilter: Option<string>)
    returns (st: PlayerStats)
    ensures st == PlayerStatsOf(rows, pid, yearFilter)
  {
    var wins := CountWins(rows, pid);
    var c := NoCounters();
    var buckets: (Buckets, Buckets, Buckets) := ([], [], []);
    var yearFiltered := yearFilter.Some? && yearFilter.value != "";
    ghost var fs: seq<RowFacts> := [];
    for i := 0 to |rows|
      invariant fs == ReadRows(rows[..i])
      invariant c == TotalCounters(fs, pid).(wins := 0)
      invariant buckets == AllBuckets(fs, pid, yearFiltered)
    {
      ghost var f := ReadRow(rows[i]);
      ghost var c0 := c;
      c := CountRow(c, rows[i], pid);
      CountersStep(fs, f, pid, c0, c);
      buckets := TallyRow(buckets, rows[i], pid, yearFiltered);
      BucketsStep(fs, f, pid, yearFiltered, buckets);
      ReadRowsSnoc(rows, i);
      fs := fs + [f];
    }
    assert rows[..|rows|] == rows;
    RestoreWins(TotalCounters(ReadRows(rows), pid), c, wins);
    var (surfaces, tournaments, years) := buckets;
    st := PlayerStats(|rows|, c.(wins := wins), surfaces, tournaments, years);
  }


  // ----------------------------------------------------------- head-to-head

  /** A row of `SELECT * FROM matches`: long enough for every column the
      tally reads. */
  type FullTuple = t: MatchTuple | |t| > WinnerIdCol
    witness [Null, Null, Null, Null, Null, Null, Null, Null]

  /** `str(row[7]) == p1_id_str` */
  predicate P1Won(t: FullTuple, p1: string) {
    PyStr(t[WinnerIdCol]) == p1
  }

  function P1Wins(rows: seq<FullTuple>, p1: string): nat
    decreases |rows|
  {
    if rows == [] then 0
    else P1Wins(rows[..|rows| - 1], p1) + B(P1Won(rows[|rows| - 1], p1))
  }

  function H2HSurfaceBuckets(rows: seq<FullTuple>, p1: string): Buckets
    decreases |rows|
  {
    if rows == [] then []
    else
      var t := rows[|rows| - 1];
      Bump(H2HSurfaceBuckets(rows[..|rows| - 1], p1), SurfaceKey(TextOrEmpty(t[SurfaceCol])), P1Won(t, p1))
  }

  function H2HYearBuckets(rows: seq<FullTuple>, p1: string, yearFiltered: bool): Buckets
    decreases |rows|
  {
    if rows == [] then []
    else
      var t := rows[|rows| - 1];
      var b := H2HYearBuckets(rows[..|rows| - 1], p1, yearFiltered);
      var y := YearOf(StrOrEmpty(t[TourneyDateCol]));
      if !yearFiltered && y.Some? then Bump(b, y.value, P1Won(t, p1)) else b
  }

  datatype H2H = H2H(total: nat, p1Wins: nat, surfaces: Buckets, years: Buckets)

  function H2HOf(rows: seq<FullTuple>, p1: string, yearFilter: Option<string>): H2H
  {
    H2H(|rows|, P1Wins(rows, p1), H2HSurfaceBuckets(rows, p1),
      H2HYearBuckets(rows, p1, Filtered(yearFilter)))
  }

  /** `p2_wins = total_matches - p1_wins` */
  function P2Wins(h: H2H): int {
    h.total - h.p1Wins
  }

  lemma {:induction false} H2HBucketsSpec(rows: seq<FullTuple>, p1: string, yearFiltered: bool)
    ensures P1Wins(rows, p1) <= |rows|
    ensures BucketsOk(H2HSurfaceBuckets(rows, p1))
    ensures MatchesSum(H2HSurfaceBuckets(rows, p1)) == |rows|
    ensures WinsSum(H2HSurfaceBuckets(rows, p1)) == P1Wins(rows, p1)
    ensures BucketsOk(H2HYearBuckets(rows, p1, yearFiltered))
    ensures MatchesSum(H2HYearBuckets(rows, p1, yearFiltered)) <= |rows|
    ensures yearFiltered ==> H2HYearBuckets(rows, p1, yearFiltered) == []
    decreases |rows|
  {
    if rows != [] {
      var p := rows[..|rows| - 1];
      var t := rows[|rows| - 1];
      H2HBucketsSpec(p, p1, yearFiltered);
      BumpOk(H2HSurfaceBuckets(p, p1), SurfaceKey(TextOrEmpty(t[SurfaceCol])), P1Won(t, p1));
      BumpSums(H2HSurfaceBuckets(p, p1), SurfaceKey(TextOrEmpty(t[SurfaceCol])), P1Won(t, p1));
      var y := YearOf(StrOrEmpty(t[TourneyDateCol]));
      if !yearFiltered && y.Some? {
        BumpOk(H2HYearBuckets(p, p1, yearFiltered), y.value, P1Won(t, p1));
        BumpSums(H2HYearBuckets(p, p1, yearFiltered), y.value, P1Won(t, p1));
      }
    }
  }

  /** The head-to-head promises: the two players' wins are non-negative and
      add up to the total, their rates add up to 100 when there is a match,
      the surface buckets count every match and player 1's wins, and years
      are only tallied without a year filter. */
  lemma H2HSpec(rows: seq<FullTuple>, p1: string, yearFilter: Option<string>)
    ensures var h := H2HOf(rows, p1, yearFilter);
      && 0 <= P2Wins(h) && h.p1Wins + P2Wins(h) == h.total == |rows|
      && (rows != [] ==> Pct(h.p1Wins, h.total) + Pct(P2Wins(h), h.total) == 100.0)
      && BucketsOk(h.surfaces) && MatchesSum(h.surfaces) == |rows| && WinsSum(h.surfaces) == h.p1Wins
      && BucketsOk(h.years) && (Filtered(yearFilter) ==> h.years == [])
  {
    var h := H2HOf(rows, p1, yearFilter);
    H2HBucketsSpec(rows, p1, Filtered(yearFilter));
    H2HRates(h);
  }

  /** The two win rates of a tally with at least one match add up to 100. */
  lemma H2HRates(h: H2H)
    requires h.p1Wins <= h.total
    ensures h.total != 0 ==> Pct(h.p1Wins, h.total) + Pct(P2Wins(h), h.total) == 100.0
  {
    PctSpec(h.p1Wins, h.total);
  }

  lemma H2HSnoc(rows: seq<FullTuple>, p1: string, yearFiltered: bool, i: nat)
    requires i < |rows|
    ensures P1Wins(rows[..i + 1], p1) == P1Wins(rows[..i], p1) + B(P1Won(rows[i], p1))
    ensures H2HSurfaceBuckets(rows[..i + 1], p1) ==
      Bump(H2HSurfaceBuckets(rows[..i], p1), SurfaceKey(TextOrEmpty(rows[i][SurfaceCol])), P1Won(rows[i], p1))
    ensures var y := YearOf(StrOrEmpty(rows[i][TourneyDateCol]));
      H2HYearBuckets(rows[..i + 1], p1, yearFiltered) ==
        if !yearFiltered && y.Some? then Bump(H2HYearBuckets(rows[..i], p1, yearFiltered), y.value, P1Won(rows[i], p1))
        else H2HYearBuckets(rows[..i], p1, yearFiltered)
  {
    assert rows[..i + 1][..i] == rows[..i];
  }

  /** `p1_wins = sum(1 for row in match_rows if str(row[7]) == p1_id_str)` */
  method CountP1Wins(rows: seq<FullTuple>, p1: string) returns (p1Wins: nat)
    ensures p1Wins == P1Wins(rows, p1)
  {
    p1Wins := 0;
    for i := 0 to |rows|
      invariant p1Wins == P1Wins(rows[..i], p1)
    {
      H2HSnoc(rows, p1, false, i);
      if PyStr(rows[i][WinnerIdCol]) == p1 {
        p1Wins := p1Wins + 1;
      }
    }
    assert rows[..|rows|] == rows;
  }

  /** The head-to-head action: player 1's wins, then the bucket loop. */
  method H2HTally(rows: seq<FullTuple>, p1: string, yearFilter: Option<string>) returns (h: H2H)
    ensures h == H2HOf(rows, p1, yearFilter)
  {
    var p1Wins := CountP1Wins(rows, p1);
    var yearFiltered := yearFilter.Some? && yearFilter.value != "";
    var surfaces: Buckets := [];
    var years: Buckets := [];
    for i := 0 to |rows|
      invariant surfaces == H2HSurfaceBuckets(rows[..i], p1)
      invariant years == H2HYearBuckets(rows[..i], p1, yearFiltered)
    {
      H2HSnoc(rows, p1, yearFiltered, i);
      var row := rows[i];
      var won := PyStr(row[WinnerIdCol]) == p1;
      surfaces := SetDefaultCount(surfaces, SurfaceKey(TextOrEmpty(row[SurfaceCol])), won);
      if !yearFiltered {
        var year := YearOf(StrOrEmpty(row[TourneyDateCol]));
        if year.Some? {
          years := SetDefaultCount(years, year.value, won);
        }
      }
    }
    assert rows[..|rows|] == rows;
    h := H2H(|rows|, p1Wins, surfaces, years);
  }
}
