# Tennis chatbot actions — a verified model of the core

The chatbot answers Italian and English questions about ATP tennis
(player statistics, head-to-head records, match results, tournaments)
from an SQLite database, through the custom actions of a Rasa assistant
(`Chatbot/actions/actions.py`). This project models the deterministic
core of those actions in Dafny and proves what they promise:

- **Match signatures and deduplication** (`signature.dfy`, `dedup.dfy`):
  the order-independent key of a match row, read from a dictionary or
  from a positional tuple, and the three loops that keep the first row of
  each key.
- **Filters** (`filters.dfy`): the surface synonym table, the year and
  surface normalisers, `build_filter_context`'s merge of what the message
  states with the remembered slots, and the slot events that
  `FilterContext` emits.
- **Name extraction** (`extractor.dfy`, `players.dfy`): `_tokenize`,
  `_clean_player_fragment`, `_candidate_aliases` and
  `_extract_players_from_text` of `ActionMatchResult`, with the
  `X vs Y` regular-expression search written out as Python's
  backtracking matcher explores it.
- **Statistics** (`stats.dfy`, `tallies.dfy`): the per-player fold of
  `ActionPlayerStats.run`, with its counters and `setdefault` buckets, and
  the head-to-head tally.
- **Formatting** (`display.dfy`): `format_tournament_date`,
  `display_value` and `to_unicode_bold`.
- **Resolvers** (`like.dfy`, `resolvers.dfy`, `guess.dfy`): SQLite's
  `LIKE`, the tiered lookups `find_best_tournament` and
  `validate_and_find_player` over in-memory views of the tables, and the
  phrase candidates of `guess_tournament_from_text`.
- **Routing** (`routing.dfy`): the scans of the tracker's event list,
  `action_ran_after_latest_user` and `_get_last_relevant_action`.

Python's string operations (`strip`, `lower`, `split`, `join`,
`isdigit`, `int`, `str`, string `<`) are written out in `py_text.dfy`;
the shapes of match rows and `safe_int` are in `rows.dfy`.

The Rasa tracker is replaced by plain values:
- the latest message becomes its intent, text and entities;
- the slots become a map;
- `SlotSet` becomes a datatype;
- the event list becomes a sequence of events with a field reader.

Database queries are replaced by sequences of rows in the order the
query's `ORDER BY` gives. Where the source loops and updates variables,
the model is a method with a loop, proved equal to a specification
function. The properties are proved about that function.

`_tokenize` is modelled as its code reads, which drops more than a
single leading filler token: while no token has been kept, every prefix
filler is dropped (`Extractor.KeptTokensIsReference`). It also drops
`vs.` besides `vs`, `versus` and `contro`.

## Model

| member | source | states |
|---|---|---|
| Signature.SortedPair | Chatbot/actions/actions.py:432 | the pair is the two ids in some order, the smaller first |
| Signature.SortedPairSymmetric | Chatbot/actions/actions.py:432 | sorting the participants ignores which is winner and which loser |
| Signature.StripLowerNormalised | Chatbot/actions/actions.py:417-418 | `strip().lower()` yields a lower-case text with no surrounding whitespace |
| Signature.MakeSignature | Chatbot/actions/actions.py:413-440 | tournament and round are normalised and the participant pair is sorted, for both row shapes |
| Signature.DictSignatureSymmetric | Chatbot/actions/actions.py:413-440 | swapping winner and loser of a dict row keeps the signature |
| Signature.TupleSignatureSymmetric | Chatbot/actions/actions.py:423-440 | swapping positions 7 and 8 of a tuple row keeps the signature |
| Signature.ShortTupleSignature | Chatbot/actions/actions.py:423-430 | a tuple too short for a column contributes "" for it |
| Signature.StrOrEmptyFromOpt | Chatbot/actions/actions.py:417-429 | `str(v or "")` and `(v or "")` agree on a TEXT column, in both row shapes |
| Signature.DictTupleAgree | Chatbot/actions/actions.py:413-440 | a tuple holding the dict's columns at positions 1, 5, 6, 7, 8, 11 and 13 has the same signature |
| Signature.DeduplicateMatches | Chatbot/actions/actions.py:443-452 | the loop returns the first-occurrence filter of the rows by signature |
| Signature.FetchUniqueMatchDicts | Chatbot/actions/actions.py:463-472 | the loop returns the first-occurrence filter by the raw tuple's signature, else the dict's |
| Signature.DeduplicateRawRows | Chatbot/actions/actions.py:1473-1481 | the head-to-head loop returns the first-occurrence filter of the tuples |
| Signature.FetchKeyOfAgreeing | Chatbot/actions/actions.py:467 | keying by the raw tuple equals keying by the dict when they agree |
| Signature.FetchUniqueAgreesWithDeduplicate | Chatbot/actions/actions.py:443-472 | `fetch_unique_match_dicts` keeps the same rows as `deduplicate_matches` when every raw tuple agrees with its dict |
| FirstOccurrence.KeysOfMember | Chatbot/actions/actions.py:445-450 | a key is in the `seen` set exactly when some row read so far has it |
| FirstOccurrence.DedupKeys | Chatbot/actions/actions.py:443-452 | coverage: every input key appears in the output, and no other |
| FirstOccurrence.LastIsFirst | Chatbot/actions/actions.py:448-451 | a row is appended exactly when it is the first with its key |
| FirstOccurrence.DedupIsFirstOccurrences | Chatbot/actions/actions.py:443-452 | the output is the input read at its first-occurrence positions, so a subsequence of it |
| FirstOccurrence.FirstPositionsSpec | Chatbot/actions/actions.py:443-452 | those positions increase, each is a first occurrence, and every first occurrence is one of them |
| FirstOccurrence.DedupDistinct | Chatbot/actions/actions.py:443-452 | no two output rows share a key |
| FirstOccurrence.DedupOfDistinct | Chatbot/actions/actions.py:443-452 | rows with distinct keys pass unchanged |
| FirstOccurrence.FirstPositionsOfSameKeys | Chatbot/actions/actions.py:463-472 | two row lists with equal keys position by position keep the same positions |
| FirstOccurrence.DedupIdempotent | Chatbot/actions/actions.py:443-452 | deduplicating twice is deduplicating once |
| FirstOccurrence.DeduplicateBy | Chatbot/actions/actions.py:443-452 | the seen-set loop computes the first-occurrence filter |
| Rows.StrOrEmpty | Chatbot/actions/actions.py:420-421 | a falsy column value gives "" |
| Rows.OptOr | Chatbot/actions/actions.py:417-418 | `o or d` is `o` when non-empty, else `d` |
| Rows.SafeInt | Chatbot/actions/actions.py:687-691 | `safe_int`: a None field gives 0, an integer itself, a text its decimal value after stripping whitespace, or 0 when it is no integer |
| Rows.SafeIntOfText | Chatbot/actions/actions.py:687-691 | `safe_int` reads back the decimal text of any integer, and maps None and "" to 0 |
| Filters.SurfaceLabel | Chatbot/actions/actions.py:41-46 | a code outside the table is its own label |
| Filters.KeywordCodesValid | Chatbot/actions/actions.py:50-65 | every synonym maps to a valid surface code |
| Filters.FirstKeyword | Chatbot/actions/actions.py:252-254 | the first synonym, in table order, that occurs in the text |
| Filters.ExtractSurfaceFromText | Chatbot/actions/actions.py:247-255 | the result is a valid code, found exactly when a synonym occurs in the lower-cased non-empty text |
| Filters.KeywordLookup | Chatbot/actions/actions.py:262 | the exact synonym lookup returns a valid code |
| Filters.NormalizeSurfaceValue | Chatbot/actions/actions.py:258-262 | a valid code or None, and None for a missing or empty value |
| Filters.KeywordLookupOfKeyword | Chatbot/actions/actions.py:50-62 | every synonym looks up its own code |
| Filters.KeywordLookupHit | Chatbot/actions/actions.py:262 | a successful lookup names a synonym of the table |
| Filters.NoEarlierForeignKeyword | Chatbot/actions/actions.py:50-62 | no synonym contains an earlier synonym of another surface |
| Filters.NormalizeSurfaceIsScan | Chatbot/actions/actions.py:258-262 | for a non-empty value, the exact lookup never disagrees with the scan: `normalize_surface_value` equals `extract_surface_from_text` |
| Filters.FindYear | Chatbot/actions/actions.py:219-271 | the leftmost position where a 19xx/20xx year matches, word-bounded or not |
| Filters.YearSearch | Chatbot/actions/actions.py:219-271 | a found year is four digits starting 19 or 20 |
| Filters.ExtractYearFromText | Chatbot/actions/actions.py:219-224 | a found year is four digits starting 19 or 20 |
| Filters.NormalizeYearValue | Chatbot/actions/actions.py:265-271 | a year or None, and None for a missing or empty value |
| Filters.ExtractedYearNormalises | Chatbot/actions/actions.py:219-271 | a text the extractor finds a year in also normalises to a year |
| Filters.YearFixpoint | Chatbot/actions/actions.py:219-271 | both normalisers return a year unchanged |
| Filters.FirstEntityValue | Chatbot/actions/actions.py:345-354 | the value of the first entity of the kind, or none when there is no such entity |
| Filters.OrElse | Chatbot/actions/actions.py:362-364 | Python `a or b` on optional strings |
| Filters.BuildFilterContext | Chatbot/actions/actions.py:339-393 | the message and slot values it records, explicit exactly when stated, and the effective values of each branch |
| Filters.InformMerge | Chatbot/actions/actions.py:361-367 | for `inform_filters` a stated value wins, a missing one falls back to the slot, explicit iff stated |
| Filters.InformMergeOf | Chatbot/actions/actions.py:361-367 | the same merge rule for any context built that way |
| Filters.OtherIntentIgnoresSlots | Chatbot/actions/actions.py:368-374 | for other intents the slots change nothing and explicit iff the effective value is set |
| Filters.EventFor | Chatbot/actions/actions.py:300-326 | the event of a key, when the events have one |
| Filters.SlotEvents | Chatbot/actions/actions.py:300-326 | `slot_events`: under `inform_filters` one event per explicit filter with its value; otherwise one per set filter, plus a clearing event per unset one when asked to clear, in year, surface, tournament order |
| Filters.SlotEventsOrdered | Chatbot/actions/actions.py:300-326 | the events name filter keys in year, surface, tournament order |
| Filters.InformSlotEvents | Chatbot/actions/actions.py:302-309 | for `inform_filters` there is an event exactly for each explicit key, with the stated value |
| Filters.ClearingSlotEvents | Chatbot/actions/actions.py:311-326 | with `clear_unset` there is one event per key: its value if explicit, else a clear |
| Filters.KeepingSlotEvents | Chatbot/actions/actions.py:311-326 | without `clear_unset` only explicit keys get an event |
| Filters.InformNeverClears | Chatbot/actions/actions.py:300-367 | `inform_filters` never emits a clear |
| Filters.InformEventsCarryValues | Chatbot/actions/actions.py:302-309 | every inform event carries a value when explicit means stated |
| Filters.ActiveSlotEvents | Chatbot/actions/actions.py:328-336 | the active events are ordered by key |
| Filters.ApplyEventsAppend | Chatbot/actions/actions.py:328-336 | applying two event lists in turn is applying their concatenation |
| Filters.FollowUpKeepsActiveFilters | Chatbot/actions/actions.py:328-367 | after the active filters are stored, a follow-up `inform_filters` that states nothing sees the same filters |
| Filters.DescribeFilters | Chatbot/actions/actions.py:91-100 | `describe_filters`: `anno`, `superficie` (through the label table) and `torneo` lines, each only for a truthy value, in that order |
| Filters.Describe | Chatbot/actions/actions.py:297-298 | `FilterContext.describe`: the description of the context's effective year, surface and tournament |
| Filters.DescribeMatchesActive | Chatbot/actions/actions.py:91-100 | one description line per active filter, so empty exactly when no filter is active |
| Extractor.CleanText | Chatbot/actions/actions.py:1797 | the substitution keeps the length and leaves only name characters and spaces |
| Extractor.RawTokensShape | Chatbot/actions/actions.py:1797-1798 | every split token is a non-empty run of letters, apostrophes and hyphens |
| Extractor.TokenizeLoop | Chatbot/actions/actions.py:1795-1809 | the loop computes the token filter |
| Extractor.KeptTokensIsReference | Chatbot/actions/actions.py:1800-1808 | the loop drops separators and digit tokens everywhere and prefix fillers only at the front |
| Extractor.KeptTokensShape | Chatbot/actions/actions.py:1800-1808 | kept tokens come from the input, are no separator and no number, and the first is no filler |
| Extractor.Tokenize | Chatbot/actions/actions.py:1795-1809 | `_tokenize`: the split runs of name characters, without separator words and digit tokens, and without filler words while nothing has been kept |
| Extractor.TokenizeShape | Chatbot/actions/actions.py:1795-1809 | `_tokenize`'s tokens: non-empty, name characters only, no separator word, no digit token, no leading filler |
| Extractor.TrimLeadingShape | Chatbot/actions/actions.py:1818-1819 | the first loop pops exactly the leading prefix fillers |
| Extractor.TrimTrailingShape | Chatbot/actions/actions.py:1820-1821 | the second loop pops exactly the trailing suffix fillers |
| Extractor.FrontRun | Chatbot/actions/actions.py:1839-1845 | the walk from the front takes up to three tokens and stops only at a break token |
| Extractor.BackRun | Chatbot/actions/actions.py:1827-1833 | the walk from the end takes up to three tokens and stops only at a break token |
| Extractor.CollectShape | Chatbot/actions/actions.py:1825-1848 | one to three consecutive tokens at the chosen end, crossing no break token except in the single-token fallback |
| Extractor.CollectJoinNonEmpty | Chatbot/actions/actions.py:1834-1848 | the joined name of non-empty tokens is never empty |
| Extractor.CleanPlayerFragmentEmpty | Chatbot/actions/actions.py:1812-1848 | the result is "" exactly when no token survives filler trimming |
| Extractor.TrimmedEdges | Chatbot/actions/actions.py:1818-1821 | the trimmed tokens start with no prefix filler and end with no suffix filler |
| Extractor.BackRunUnique | Chatbot/actions/actions.py:1827-1833 | the loop's stopping point is the only count meeting the walk's rule |
| Extractor.FrontRunUnique | Chatbot/actions/actions.py:1839-1845 | the same for the walk from the front |
| Extractor.CollectFromEnd | Chatbot/actions/actions.py:1825-1836 | the loop over the reversed tokens computes the walk from the end |
| Extractor.CollectFromFront | Chatbot/actions/actions.py:1838-1848 | the loop computes the walk from the front |
| Extractor.CleanPlayerFragment | Chatbot/actions/actions.py:1812-1848 | `_clean_player_fragment`: the tokens trimmed of leading and trailing fillers, then up to three consecutive tokens from the chosen edge, joined by spaces |
| Extractor.CleanPlayerFragmentLoop | Chatbot/actions/actions.py:1812-1848 | the popping loops and the walk compute `_clean_player_fragment` |
| Extractor.AliasKeysAppend | Chatbot/actions/actions.py:1863-1866 | adding an alias adds its lower-cased form to the `seen` set |
| Extractor.TokenSources | Chatbot/actions/actions.py:1872-1878 | at most four token-based aliases are offered |
| Extractor.AddAliasGood | Chatbot/actions/actions.py:1856-1866 | `add` keeps the aliases stripped, long enough and distinct, and covers the new one |
| Extractor.AddAllGood | Chatbot/actions/actions.py:1856-1878 | repeated `add` keeps the aliases good, never removes one, and covers every qualifying source |
| Extractor.AddAllFirst | Chatbot/actions/actions.py:1868 | the first qualifying source is the first alias |
| Extractor.AliasSourcesShape | Chatbot/actions/actions.py:1868-1878 | three to seven sources, the stripped raw text first |
| Extractor.CandidateAliases | Chatbot/actions/actions.py:1851-1879 | `_candidate_aliases`: the raw text, its cleaned forms and its token-based forms, each added once ignoring case when at least two characters long |
| Extractor.CandidateAliasesSpec | Chatbot/actions/actions.py:1851-1879 | at most seven aliases, stripped, at least two characters, distinct ignoring case, the stripped raw text first when it qualifies, every qualifying source covered |
| Extractor.Add | Chatbot/actions/actions.py:1856-1866 | the closure with its `seen` set computes `add` |
| Extractor.AddTokenAliases | Chatbot/actions/actions.py:1872-1878 | the token-based `add` calls |
| Extractor.CandidateAliasesLoop | Chatbot/actions/actions.py:1851-1879 | the body computes `_candidate_aliases` |
| Players.SeparatorEnds | Chatbot/actions/actions.py:2109 | every end of the separator alternatives lies after its start |
| Players.SpaceRunEnd | Chatbot/actions/actions.py:2109 | `\s+` taken greedily: a maximal whitespace run |
| Players.LineEnd | Chatbot/actions/actions.py:2109 | greedy `(.+)` ends at the next line feed |
| Players.LastNonNewline | Chatbot/actions/actions.py:2109 | backtracking of the whitespace run before group 2 |
| Players.Group2Start | Chatbot/actions/actions.py:2109 | group 2 starts after whitespace, on a non-line-feed character |
| Players.FirstGroup2 | Chatbot/actions/actions.py:2109 | the first separator alternative that lets group 2 start |
| Players.MatchAfter | Chatbot/actions/actions.py:2109 | the rest of the pattern after group 1 starts group 2 inside the text |
| Players.LazyFrom | Chatbot/actions/actions.py:2109 | the lazy group 1 from a start position: shortest end first |
| Players.SearchFrom | Chatbot/actions/actions.py:2109 | `re.search`: the first start position at which the pattern matches |
| Players.MatchAfterHasSeparator | Chatbot/actions/actions.py:2109 | every match has a separator word after whitespace |
| Players.AddNameGood | Chatbot/actions/actions.py:2115-2118 | one round of the final loop keeps the names non-empty, stripped and distinct ignoring case |
| Players.KeepNamesGood | Chatbot/actions/actions.py:2114-2118 | at most one name per candidate, all good |
| Players.ExtractPlayersFromText | Chatbot/actions/actions.py:2105-2119 | `_extract_players_from_text`: [] for missing or empty text or no `X vs Y` match; otherwise the two groups, stripped of ` ,.-`, each kept when non-empty and not already kept ignoring case |
| Players.ExtractPlayersShape | Chatbot/actions/actions.py:2105-2119 | at most two names, non-empty, stripped of ` ,.-`, distinct ignoring case |
| Players.NoSeparatorNoPlayers | Chatbot/actions/actions.py:2107-2111 | without `vs`, `versus` or `contro` after whitespace there are no names |
| Players.KeepNamesLoop | Chatbot/actions/actions.py:2114-2118 | the loop over the two candidates |
| Players.ExtractPlayersLoop | Chatbot/actions/actions.py:2105-2119 | the method computes `_extract_players_from_text` |
| Tallies.Bump | Chatbot/actions/actions.py:1210-1213 | one `setdefault` step: the key's bucket gains a match, and a win for a win; a new key is appended with one match |
| Tallies.BumpSums | Chatbot/actions/actions.py:1210-1213 | a `setdefault` step adds one match, and one win for a win |
| Tallies.BumpKeys | Chatbot/actions/actions.py:1210 | the keys keep their insertion order; a new key is appended |
| Tallies.LookupIn | Chatbot/actions/actions.py:1210 | a key has a bucket exactly when it was inserted |
| Tallies.BumpOk | Chatbot/actions/actions.py:1210-1213 | keys stay distinct and every bucket has at least one match and no more wins than matches |
| Tallies.BumpLookup | Chatbot/actions/actions.py:1210-1213 | only the bumped key's bucket changes |
| Tallies.BumpAtFirst | Chatbot/actions/actions.py:1210-1213 | an existing key's bucket is updated in place |
| Tallies.BumpNew | Chatbot/actions/actions.py:1210-1213 | a missing key gets a new bucket at the end |
| Tallies.SetDefaultCount | Chatbot/actions/actions.py:1210-1213 | the setdefault-and-increment step |
| Stats.SurfaceKey | Chatbot/actions/actions.py:1207-1209 | a surface key is never empty |
| Stats.YearOfSpec | Chatbot/actions/actions.py:1222-1224 | a year is four digits starting the date, found exactly when the date starts with four digits |
| Stats.ReadRows | Chatbot/actions/actions.py:1204-1267 | one set of facts per row |
| Stats.CountersBounds | Chatbot/actions/actions.py:1177-1267 | wins, titles, finals, retirements, tie-breaks and timed matches never exceed the number of matches; titles never exceed finals; retirements split into wins and losses |
| Stats.TotalCountersAppend | Chatbot/actions/actions.py:1193-1267 | the counters of concatenated row lists add up |
| Stats.CountersSnoc | Chatbot/actions/actions.py:1204-1267 | each row adds its own contribution |
| Stats.BucketsSnoc | Chatbot/actions/actions.py:1207-1228 | each row bumps its surface, tournament and, unfiltered, year bucket |
| Stats.TwoSubjectsSplit | Chatbot/actions/actions.py:1205-1248 | when every match was won by one of two players, their wins add up to the matches and their serve counters to both sides' |
| Stats.SurfaceBucketsSpec | Chatbot/actions/actions.py:1207-1213 | surface buckets are well formed and sum to the total and to the wins |
| Stats.TournamentBucketsSpec | Chatbot/actions/actions.py:1215-1219 | tournament buckets the same |
| Stats.ReadRowsYears | Chatbot/actions/actions.py:1222-1224 | every year key read is four digits |
| Stats.YearBucketsSpec | Chatbot/actions/actions.py:1221-1228 | year buckets are empty under a year filter, else well formed, four-digit keys, at most the total and the wins |
| Stats.PlayerStatsOf | Chatbot/actions/actions.py:1177-1267 | the aggregation of `ActionPlayerStats`: total, wins, losses, the serve, return, retirement, tie-break and final counters, and the surface, tournament and (without a year filter) year buckets of the subject's matches |
| Stats.PlayerStatsSpec | Chatbot/actions/actions.py:1177-1267 | wins + losses = total, surface and tournament buckets sum to total and wins, wins ≤ matches in every bucket, years only without a year filter, titles ≤ finals |
| Stats.PctSpec | Chatbot/actions/actions.py:1269-1272 | 0 for a zero denominator; a share of a whole lies in 0..100 and complements add to 100 |
| Stats.RatesOf | Chatbot/actions/actions.py:1180-1272 | the win rate and the serve percentages, each 0 when its denominator is 0 |
| Stats.RatesSpec | Chatbot/actions/actions.py:1180 | the win rate and every surface rate are percentages; 0 with no matches |
| Stats.CountWins | Chatbot/actions/actions.py:1178 | the generator sum counts rows won by the subject |
| Stats.CountersStep | Chatbot/actions/actions.py:1230-1267 | one iteration's counter updates keep the loop invariant |
| Stats.BucketsStep | Chatbot/actions/actions.py:1207-1228 | one iteration's bucket updates keep the loop invariant |
| Stats.CountRow | Chatbot/actions/actions.py:1230-1267 | the counter updates of one row |
| Stats.TallyRow | Chatbot/actions/actions.py:1207-1228 | the three `setdefault` updates of one row |
| Stats.AggregatePlayerStats | Chatbot/actions/actions.py:1193-1267 | the loop computes the statistics |
| Stats.H2HBucketsSpec | Chatbot/actions/actions.py:1527-1541 | player 1's wins ≤ matches; surface buckets sum to matches and player 1's wins; years only without a year filter |
| Stats.H2HOf | Chatbot/actions/actions.py:1511-1541 | the head-to-head tally: total, player 1's wins, surface buckets and (without a year filter) year buckets |
| Stats.H2HSpec | Chatbot/actions/actions.py:1511-1541 | p1_wins + p2_wins = total with both non-negative, rates add to 100, buckets consistent |
| Stats.H2HRates | Chatbot/actions/actions.py:1514-1515 | the two rates of a non-empty tally add to 100 |
| Stats.H2HSnoc | Chatbot/actions/actions.py:1527-1541 | each row adds its win and bumps its buckets |
| Stats.CountP1Wins | Chatbot/actions/actions.py:1511 | the generator sum counts rows won by player 1 |
| Stats.H2HTally | Chatbot/actions/actions.py:1511-1541 | the head-to-head tally loop |
| Display.FormatTournamentDate | Chatbot/actions/actions.py:112-119 | "N/A" for a missing or empty date, an eight-digit date becomes DD/MM/YYYY, anything else is unchanged |
| Display.FormatDateRoundTrip | Chatbot/actions/actions.py:112-119 | the stored date can be read back from the displayed one |
| Display.DisplayDateOfCompact | Chatbot/actions/actions.py:112-119 | every DD/MM/YYYY date is the display of exactly one stored date |
| Display.FormatDateIdempotent | Chatbot/actions/actions.py:112-119 | formatting a formatted date changes nothing |
| Display.DisplayValue | Chatbot/actions/actions.py:701-708 | the default exactly for None or blank text, otherwise a non-empty stripped text |
| Display.DisplayIgnoresDefault | Chatbot/actions/actions.py:701-708 | a non-blank value is shown the same whatever the default |
| Display.DisplayValueIdempotent | Chatbot/actions/actions.py:701-708 | showing a shown value again changes nothing |
| Display.DisplayedNumberReadsBack | Chatbot/actions/actions.py:687-708 | a displayed number reads back through `safe_int` |
| Display.BoldChar | Chatbot/actions/actions.py:835-842 | an ASCII letter or digit becomes a bold character that maps back to it; others stay |
| Display.BoldText | Chatbot/actions/actions.py:831-843 | one character per input character |
| Display.UnboldText | Chatbot/actions/actions.py:831-843 | the inverse keeps the length |
| Display.ToUnicodeBold | Chatbot/actions/actions.py:831-843 | the loop converts character by character |
| Display.BoldRoundTrip | Chatbot/actions/actions.py:831-843 | text without bold characters comes back from bold |
| Display.BoldIdempotent | Chatbot/actions/actions.py:831-843 | bold text has no ASCII letter or digit, so bolding again changes nothing |
| Display.BoldConcat | Chatbot/actions/actions.py:831-843 | bolding the pieces of a heading apart or together gives the same text |
| SqlLike.Like | Chatbot/actions/actions.py:504-509 | SQLite `LIKE` without ESCAPE: `%` any run, `_` any character, ASCII letters case-insensitive |
| SqlLike.LikeLiteralThen | Chatbot/actions/actions.py:504-509 | a wildcard-free head of a pattern must start the text, and the rest of the pattern matches what follows |
| SqlLike.LikeWordsInOrder | Chatbot/actions/actions.py:514-528 | `LIKE '%w1%w2%…%'` holds exactly when the words occur in order, without overlap, up to ASCII case |
| SqlLike.LikeAnything | Chatbot/actions/actions.py:509 | `%` matches every name |
| SqlLike.LikePrefix | Chatbot/actions/actions.py:732-737 | `LIKE 'clean%'` holds exactly when the name starts with the text, up to ASCII case |
| SqlLike.LikeLeadingPercent | Chatbot/actions/actions.py:509 | a leading `%` tries every suffix |
| SqlLike.LikeContains | Chatbot/actions/actions.py:504-509 | `LIKE '%clean%'` holds exactly when the text occurs in the name, up to ASCII case |
| SqlLike.LikeOfLowered | Chatbot/actions/actions.py:504 | `LOWER` on both sides of `LIKE` changes nothing |
| SqlLike.PrefixIsContained | Chatbot/actions/actions.py:732-753 | a prefix is also an occurrence |
| Resolvers.FirstWhere | Chatbot/actions/actions.py:486-497 | `LIMIT 1` of an ordered query: the first row satisfying the condition |
| Resolvers.FoldedEqualContains | Chatbot/actions/actions.py:490-504 | a name equal to the text contains it |
| Resolvers.NameLikeContains | Chatbot/actions/actions.py:504-509 | the substring pattern matches exactly the names containing the text |
| Resolvers.NameLikePrefix | Chatbot/actions/actions.py:732-737 | the prefix pattern matches exactly the names starting with the text |
| Resolvers.WordsOfWord | Chatbot/actions/actions.py:524 | a text without whitespace is a single word |
| Resolvers.ChunksOfRun | Chatbot/actions/actions.py:524 | a non-empty run of kept characters is one chunk |
| Resolvers.FindBestTournament | Chatbot/actions/actions.py:475-529 | an answer needs a candidate of at least three stripped characters and is a tournament name of the table |
| Resolvers.TournamentExactFirst | Chatbot/actions/actions.py:486-497 | an exact name wins, the most recent first |
| Resolvers.TournamentContainsNext | Chatbot/actions/actions.py:499-512 | without an exact name the most played name containing the text answers |
| Resolvers.NameLikeWords | Chatbot/actions/actions.py:514-528 | the word pattern `%w1%w2%…%` matches exactly the names holding the words of the text in order, without overlap, up to ASCII case |
| Resolvers.TournamentWordsNext | Chatbot/actions/actions.py:514-528 | with no exact and no substring hit, the answer is the most played name holding the words in order, and no name earlier in that order holds them |
| Resolvers.TournamentOneWord | Chatbot/actions/actions.py:514-528 | the word tier repeats the substring tier for a one-word candidate, so there is no answer exactly when no tournament name contains the text |
| Resolvers.ValidateAndFindPlayer | Chatbot/actions/actions.py:711-759 | an answer needs at least two stripped characters and is a row of the players table |
| Resolvers.PlayerExactFirst | Chatbot/actions/actions.py:718-724 | an exact name, in any ASCII case, wins |
| Resolvers.PlayerPrefixNext | Chatbot/actions/actions.py:726-741 | without an exact name the most recently active player whose name starts with the text answers: the answer starts with the text, and no player earlier in the recency order does |
| Resolvers.PlayerAnswerContains | Chatbot/actions/actions.py:711-759 | whatever tier answers, the name contains the text up to ASCII case |
| Resolvers.PlayerNotFound | Chatbot/actions/actions.py:711-759 | no answer exactly when the text is too short or no name contains it |
| Guess.LongWords | Chatbot/actions/actions.py:542 | the kept words are input words of at least three characters |
| Guess.MaxPhraseLength | Chatbot/actions/actions.py:547 | `min(3, len(tokens))` |
| Guess.WindowsExact | Chatbot/actions/actions.py:549-553 | the phrases of one length are exactly its non-excluded windows |
| Guess.LongerThanExact | Chatbot/actions/actions.py:548-553 | the phrases of the lengths down from the top are exactly the non-excluded windows of those lengths |
| Guess.CandidatesExact | Chatbot/actions/actions.py:546-553 | the candidates are exactly the non-excluded phrases of one to `min(3, len(tokens))` tokens |
| Guess.NGramCandidates | Chatbot/actions/actions.py:546-553 | the nested loops build the candidate list |
| Guess.AppendWindows | Chatbot/actions/actions.py:549-553 | the inner loop appends the windows of one length |
| Guess.Hit | Chatbot/actions/actions.py:561-563 | a hit is a non-empty tournament name |
| Guess.GuessTournamentFromText | Chatbot/actions/actions.py:532-564 | `guess_tournament_from_text`: None for empty text or no long word; otherwise the first 1-to-3-word phrase, longest first, not excluded and not yet tried ignoring case, that `find_best_tournament` resolves |
| Guess.FirstHitSpec | Chatbot/actions/actions.py:555-564 | the guess is some tried candidate's answer; none exactly when no first-of-its-key candidate has one |
| Guess.SkippingTriedIsHarmless | Chatbot/actions/actions.py:555-560 | when phrases equal up to case get equal answers, skipping repeated keys changes nothing |
| Guess.GuessTournament | Chatbot/actions/actions.py:532-563 | the loop with its `tried` set computes the guess |
| Routing.GetAttr | Chatbot/actions/actions.py:76-88 | `getattr` finds nothing on a dictionary |
| Routing.LastUserBefore | Chatbot/actions/actions.py:76-79 | the index of the last user event, with no user event after it |
| Routing.RanAfterLatestUser | Chatbot/actions/actions.py:70-88 | `action_ran_after_latest_user`: false without a user event or when the user event is last; otherwise whether an action event after it has the name |
| Routing.ActionRanAfterLatestUser | Chatbot/actions/actions.py:70-88 | the two loops compute whether the action ran after the last user event |
| Routing.UserMessageResets | Chatbot/actions/actions.py:81-82 | right after a user message nothing has run yet |
| Routing.ActionAfterUserSeen | Chatbot/actions/actions.py:84-86 | an action run after a user message is seen |
| Routing.LastUserBeforePrefix | Chatbot/actions/actions.py:76-79 | the scan depends only on the events read |
| Routing.RanAfterLatestUserBlindToDicts | Chatbot/actions/actions.py:70-88 | as written, on dictionary events the result is always false |
| Routing.RanAfterLatestUserExample | Chatbot/actions/actions.py:70-88 | on a user message then the stats action, `getattr` misses the action and reading dictionary keys finds it |
| Routing.LastRelevantBefore | Chatbot/actions/actions.py:2455-2473 | `_get_last_relevant_action`: the name of the last action event that is not ignored and not an `utter_` action, else None |
| Routing.LastRelevantSpec | Chatbot/actions/actions.py:2455-2473 | the result names a relevant action with none after it; none exactly when there is no relevant action |
| Routing.GetLastRelevantAction | Chatbot/actions/actions.py:2455-2473 | the reverse loop computes the last relevant action |
| Routing.LastRelevantBlindToDicts | Chatbot/actions/actions.py:2455-2473 | as written, on dictionary events no action is ever found |
| Routing.CorrectedReaderSeesAction | Chatbot/actions/actions.py:70-88 | with a reader of both event forms, an action that follows a user message is seen |
| Routing.CorrectedReaderFindsAction | Chatbot/actions/actions.py:2455-2473 | with a reader of both event forms, a relevant last action is found |

## Left out

- SQLite access is not modelled: connections, cursors, `fetch_rows_as_dicts`, `get_player_name_by_id` and `get_match_display_info`'s name lookups. The queries are replaced by sequences of rows in `ORDER BY` order. Ties within an `ORDER BY` and the grouping of `COUNT(*)` are fixed by those sequences, not by the query.
- Chatbot/db_create.py is not part of this model. It downloads CSV files and loads them into SQLite. Only its schema was used: `tourney_date` and the ids are TEXT columns.
- `find_similar_names` is left out. It depends on `difflib`'s similarity ratios.
- The Rasa plumbing is left out:
  - dispatcher messages and buttons;
  - `make_intent_payload`'s JSON;
  - `FollowupAction`;
  - the reset events;
  - the bodies of `Action.run` around the modelled loops.
- Output formatting is left out:
  - the `:.1f`/`:.2f` formatting of floats (percentages are `real`);
  - `format_match_details`;
  - `ioc_to_flag`;
  - `normalize_year_field`;
  - the sorting and top-5 cut of the displayed buckets.
- Python's `lower()` is exact for ASCII and Latin-1 letters only. `upper()`, `isdigit()`, the `\d` of the year patterns and the digits `int()` accepts in `safe_int` are exact for ASCII only: Python also takes any Unicode decimal digit ("20٢٤" is a year to `extract_year_from_text`), and `int()` also takes `_` between digits. SQLite's `LOWER` and `LIKE` fold ASCII letters, as SQLite does.
- The regular expressions are written out as character predicates and matchers:
  - `\w` in the year pattern is exact up to U+00FF;
  - the letter classes of `_tokenize` and `guess_tournament_from_text` are written out;
  - `(?i)` in the player pattern folds ASCII letters and the Latin-1 letters of its literals.
- Resolvers.TournamentContainsNext: requires the stripped text to hold no `%` or `_`. A wildcard in user text makes the query match more than the substring.
- Resolvers.PlayerPrefixNext: the same wildcard assumption.
- Resolvers.PlayerAnswerContains: the same wildcard assumption.
- Resolvers.PlayerNotFound: the same wildcard assumption.
- Resolvers.TournamentOneWord: the same wildcard assumption.
- Resolvers.NameLikeWords: the same wildcard assumption.
- Resolvers.TournamentWordsNext: the same wildcard assumption.
- Guess.SkippingTriedIsHarmless: assumes equal answers for phrases that are equal after Python's `lower()`. The `tried` set uses Python's `lower()`, but the lookup uses SQLite's `LOWER`, so two phrases that differ only in a non-ASCII letter's case can get different answers.
- Stats: `minutes` and the nine serve counters are read with `safe_int`. A text column that `int()` cannot parse counts 0.

## Findings

| source | as written | input that shows it | evidently intended | confidence | as-written member | corrected member |
|---|---|---|---|---|---|---|
| Chatbot/actions/actions.py:70-88 | `action_ran_after_latest_user` reads the event fields with `getattr(event, key, None)`, which never finds the keys of a dictionary | the Rasa SDK's `tracker.events` as dictionaries: `[{"event": "user"}, {"event": "action", "name": "action_player_stats"}]` gives False | read `event.get(key)` for a dictionary, so that the follow-up of the stats action is recognised | medium, not executed; depends on the SDK handing events over as dictionaries | Routing.RanAfterLatestUserExample | Routing.CorrectedReaderSeesAction |
| Chatbot/actions/actions.py:2455-2473 | `_get_last_relevant_action` reads the event fields with `getattr(event, key, None)` | `[{"event": "action", "name": "action_player_stats"}]` gives None | read `event.get(key)` for a dictionary, so that a filter update returns to the last action | medium, not executed; depends on the SDK handing events over as dictionaries | Routing.LastRelevantBlindToDicts | Routing.CorrectedReaderFindsAction |
