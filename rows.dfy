/** The shapes in which match rows reach the actions: named-field records
    (`fetch_rows_as_dicts`) and positional tuples (`cursor.fetchall()` of
    `SELECT * FROM matches`), and the Python coercions applied to their
    values (`str(v)`, `str(v or "")`, `safe_int`). */
module Rows {
  import opened PyText

  /** A value read from an SQLite column. */
  datatype Field = Null | Int(i: int) | Text(s: string)

  /** Python truthiness of a column value. */
  predicate Truthy(f: Field) {
    match f
    case Null => false
    case Int(n) => n != 0
    case Text(s) => s != ""
  }

  /** `str(f)` */
  function PyStr(f: Field): string {
    match f
    case Null => "None"
    case Int(n) => IntToDecimal(n)
    case Text(s) => s
  }

  /** `str(f or "")` */
  function StrOrEmpty(f: Field): (r: string)
    ensures !Truthy(f) ==> r == ""
  {
    if Truthy(f) then PyStr(f) else ""
  }

  /** `o or d` for an optional string. */
  function OptOr(o: Option<string>, d: string): (r: string)
    ensures o.Some? && o.value != "" ==> r == o.value
    ensures (o.None? || o.value == "") ==> r == d
  {
    if o.Some? && o.value != "" then o.value else d
  }

  /** A TEXT column as a positional value. */
  function FromOpt(o: Option<string>): Field {
    match o
    case None => Null
    case Some(s) => Text(s)
  }

  /** `safe_int(value)` (Chatbot/actions/actions.py:687-691): `int(value)`,
      or 0 where Python raises TypeError or ValueError. */
  function SafeInt(f: Field): int {
    match f
    case Null => 0
    case Int(n) => n
    case Text(s) => match ParseInt(s) { case Some(n) => n case None => 0 }
  }

  /** `safe_int` undoes `str` on integers and maps every missing value to 0. */
  lemma SafeIntOfText(n: int)
    ensures SafeInt(Text(IntToDecimal(n))) == n
    ensures SafeInt(Null) == 0 && SafeInt(Text("")) == 0
  {
    ParseIntOfDecimal(n);
  }

  /** The nine per-side serve counters of a match row. */
  datatype ServeFields = ServeFields(
    ace: Field, df: Field, svpt: Field, firstIn: Field, firstWon: Field,
    secondWon: Field, svGms: Field, bpSaved: Field, bpFaced: Field)

  /** A match row as a dictionary. Every key is optional (`row.get(k)` is
      None when the query did not select it); the TEXT columns of the
      `matches` table hold strings, the INTEGER columns any value. */
  datatype MatchDict = MatchDict(
    tourneyName: Option<string>,
    surface: Option<string>,
    tourneyDate: Option<string>,
    matchNum: Field,
    winnerId: Option<string>,
    loserId: Option<string>,
    score: Option<string>,
    round: Option<string>,
    minutes: Field,
    w: ServeFields,
    l: ServeFields)

  // Positions in a row of `SELECT * FROM matches`.
  const TourneyNameCol := 1
  const SurfaceCol := 2
  const TourneyDateCol := 5
  const MatchNumCol := 6
  const WinnerIdCol := 7
  const LoserIdCol := 8
  const ScoreCol := 11
  const RoundCol := 13

  predicate IsTextOrNull(f: Field) { !f.Int? }

  /** The TEXT columns that the actions call `.strip()` on hold strings. */
  predicate TextColumnsOk(t: seq<Field>) {
    && (|t| > TourneyNameCol ==> IsTextOrNull(t[TourneyNameCol]))
    && (|t| > SurfaceCol ==> IsTextOrNull(t[SurfaceCol]))
    && (|t| > ScoreCol ==> IsTextOrNull(t[ScoreCol]))
    && (|t| > RoundCol ==> IsTextOrNull(t[RoundCol]))
  }

  /** A positional row as returned by the database. */
  type MatchTuple = t: seq<Field> | TextColumnsOk(t) witness []

  /** `(f or "")` for a TEXT column value. */
  function TextOrEmpty(f: Field): string
    requires IsTextOrNull(f)
  {
    match f
    case Null => ""
    case Text(s) => s
  }

  /** `make_match_signature`'s input: `Union[Dict, Tuple]`. */
  datatype Row = DictRow(d: MatchDict) | TupleRow(t: MatchTuple)
}
