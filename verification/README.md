# A verified model of the compiler's supporting algorithms and protocols

The repository compiles SPARQL 1.1 to AQL. Around its compiler stand small algorithms and
protocols that promise a lot: which triples a result row proves, that a reordered query keeps its
meaning, that a date sum is the standard's, that a cached resolution warns like a fresh one, that
a formatter moves only white space, that a background worker never loses a request. These files
model them in Dafny and prove what is promised, or say exactly when it holds.

AQL and SPARQL are small syntax trees with evaluators; text is reasoned about only where a printer
or a lexer is the subject. Code that changes state is a class or a loop; what its methods do is
tied to specification functions, and the laws are lemmas about those.

| file | subject |
|---|---|
| GraphShape.dfy, GraphShapeSoundness.dfy, GraphShapeWitness.dfy, GraphShapeConverse.dfy, GraphShapeListing.dfy, GraphShapeLoops.dfy, GraphShapeLimits.dfy | which triple patterns a result row proves, against section 18.5 of SPARQL 1.1 Query Language |
| AqlQuery.dfy | the AQL clauses, their evaluation, and `finalize` |
| AqlNames.dfy, BuilderNames.dfy | attribute names, bind names and aliases as text |
| QueryBuilder.dfy | the mutable builder tree: counters, children, absorption |
| OptionalScan.dfy, OptionalRows.dfy | the left-join emission for a cross-subject OPTIONAL, for one row and over all rows of a query |
| Calendar.dfy, DateShift.dfy, DurationText.dfy | date and duration arithmetic, against Appendix E of XML Schema Part 2 and section 9.7 of XPath and XQuery Functions and Operators 3.1 |
| Advisories.dfy | the capture and replay of resolution warnings |
| ExpressionErrors.dfy | the certain-error analysis, against section 17.2 of SPARQL 1.1 |
| EditorLexer.dfy, EditorTokens.dfy, EditorTokenRuns.dfy, EditorScan.dfy | the editor's lexer, and how a text must be divided into tokens |
| EditorLayout.dfy, EditorLines.dfy, EditorFormat.dfy, BraceGroups.dfy | the editor's formatter and brace groups |
| SeedRows.dfy | the VALUES printer and a reader for it (sections 10.2 and 19.8 of SPARQL 1.1) |
| RateLimit.dfy | the token bucket, called once at a time |
| RateThreads.dfy, RateOverlap.dfy, RateSafety.dfy, RatePatient.dfy | the same bucket without a lock, over all interleavings of its calls |
| SchemaWarm.dfy | the background schema worker, over all interleavings |
| SchemaCache.dfy, SchemaCacheReturn.dfy | the two-tier schema cache, over all interleavings |
| Collections.dfy, Decimals.dfy | options, lists without repeats, decimal numerals |

`dafny verify dfyconfig.toml` checks the whole project.

## How the code is read

- A *graph* is a set of facts, a *dataset* an active graph and named ones, a *solution* a map from
  variables to terms. Filters, BIND expressions and OPTIONAL conditions are arbitrary functions of
  the active graph and the solution, so the theorems hold for every expression language. A row
  *takes* a group when its solution comes about with the group matched.
- A *token* of the editor is a blank, an escape, a comment, an IRI, a literal, a less-than, a word or
  any other mark. Which it is depends on the text and on the tokens before it: the last operand, the
  brackets still open, the last keyword or name, and whether a VALUES block is due.
- A *run* of the builder is any sequence of calls in which a child is opened, used and absorbed or
  dropped while its parent stays idle.
- The resolver is the memo table its advisories are for: a miss resolves under a capture, a hit
  replays. What each resolution raises, and which others it needs, is a parameter.
- A *step* of the schema worker and of the schema cache is one lock-guarded block, or one piece of
  work between two such blocks coming to its end. A run is any legal sequence of steps of any number
  of threads.
- The token bucket has no lock, and its sync dependency runs in a thread pool. A call is five steps
  there: it reads the clock, reads the key's last refill, reads its tokens, writes the one and writes
  the other. Two calls of a key *overlap* when one begins while the other has not been answered.
- Cache entries are references into a heap, because the code compares them with `is`. Stamps number
  the analyses in the order they were put.
- Token amounts and clock readings are real numbers; clock readings are parameters.
- The keyword sets of AQL and of the lexer are parameters; `AqlNames.KEYWORDS` and
  `EditorLexer.NOT_OPERAND` list the code's own.

## Where the code does less than it says

- The witness analysis says a row binds one of a group's own variables exactly when the group
  matched. A bound witness shows that, unless a VALUES block outside the group binds it
  (`ValuesBindsAWitness`). A pattern listed from a sub-SELECT that hides one of its variables is
  read with another variable of that name, or with none (`SubSelectHidesAVariable`,
  `HiddenIsNotDrawn`). A match shows a bound witness exactly for the groups whose shape always binds
  one (`ExactWhenAlwaysBound`): a triple or GRAPH with a witness outside nested OPTIONALs, or one in
  both branches of a UNION. The rows of any other group can lose its facts
  (`MatchedGroupWithoutAWitness`).
- A name ending in a newline passes the identifier pattern, because Python's `$` matches before a
  final newline; the newline is then lost (`PathRoundTrip`).
- An IN with an empty list is called an error wherever what it tests is certainly one; read as an
  empty disjunction it is false (`EmptyListIsNoError`). What is an error under either reading is
  `FailsEitherWay` (`EitherReadingErrors`). Of a single operator the analysis leaves out nothing else
  but an IN none of whose members has a value, and COALESCE without choices (`CertainExactly`).
- A cross-subject OPTIONAL is the LeftJoin over all tables only for rows that leave its object and
  predicate variables unbound, and only when these are two (`LeftJoinExactlyWhenFresh`). The gate
  tests neither: a variable the required part has already bound is overwritten
  (`BoundVariableIsOverwritten`), and lost where nothing matches; a variable used twice is not
  joined with itself (`RepeatedVariableIsNotJoined`). With an unbound subject nothing is found (`UnboundSubject`).
- 9999-12-31T24:00:00 is accepted, and its clock stands in year 10000: the year filter then gives
  null for every day-time duration that leads back into range (`ShiftIsStandardSum`,
  `MidnightIsLost`). 24:00:00 with a fraction, which is no time, is read as the midnight
  (`FractionIsDropped`). DATE_ADD of a day is read as the calendar's next day there; what a server makes
  of dates past year 9999 is not part of this model.
- Month shifts reverse the order of two dateTimes exactly where both are clamped to one day and the
  later has the earlier time (`MonthShiftOrder`).
- The formatter takes U+0000, digits and then U+0000 or a span for one of its own marks. Of
  the texts it formats exactly those lose characters (`FormatSparql`, `FalseHoleIsLost`). It also deletes white space next
  to a parenthesis even when that parenthesis is escaped, so what is proved kept is the characters
  that are not white space, not the tokens.
- The VALUES printer checks neither the keys, nor language tags, nor control characters in IRIs,
  nor that a float is a number. What it prints reads back exactly where all of them are well-formed
  (`BlockRoundTrip`, `CellRoundTrip`, `IriRoundTrip`, `KeyIsNotChecked`).
- A rebuild asked for after a revalidation's check is accepted and dropped (`LateRequestIsDropped`).
- Once an entry is out of the cache an older analysis can come back into it exactly where an older
  one is left somewhere: as the stored copy, or with a call about to install or to store it
  (`OlderComesBackExactly`). No race is needed: after a put without a handle and an invalidation, a
  get hydrates the stored copy the put never replaced (`OlderAfterPut`; `OlderAfterInvalidation` is
  the instance of a read already under way).
- The rate limit holds for calls one at a time, and for threads wherever no two calls of the key
  overlap (`RateThreads.WindowBoundInterleaved`). Where calls overlap there is no bound: any number
  of calls of one instant can be granted, whatever the capacity (`OverlapsHaveNoBound`). An overlap
  makes it possible to exceed the bound exactly where it gains: while the first call has not written
  its date, if there is a token for both to take or an earning for both to count; after that, if the
  second finds more by the old tokens than by the new ones, or its grant is written over
  (`RateSafety.OverlapIsTheCondition`). A patient client is never refused without overlaps
  (`RatePatient.PatientIsNeverRefused`) and can be refused with them (`PatientCanBeRefused`).
- Two puts that overlap can reach the stored copy in the wrong order (`PersistsCanCross`); without
  an overlap it never becomes older, and each overlap can make it so (`SchemaCache.OverlapIsTheCondition`).

## Model

| member | source | states |
|---|---|---|
| `GraphShapeLoops.BindingSites` | arango_sparql/translate/graph_shape.py:147-173 | the stack loop counts, for every variable, the triples it is in, the BINDs and the GRAPHs that bind it; its keys are exactly the variables with a site |
| `GraphShapeLoops.PatternWalk.Emit` | arango_sparql/translate/graph_shape.py:105-116 | appends an emittable triple under its groups unless that key is already listed |
| `GraphShapeLoops.PatternWalk.VisitGroup` | arango_sparql/translate/graph_shape.py:118-123 | walks a group exactly when some variable has all its sites in it, with those variables as the witness list |
| `GraphShapeLoops.PatternWalk.Visit` | arango_sparql/translate/graph_shape.py:125-144 | adds, in order, the patterns of the recursive walk; which those are, and in which order, is `GraphShapeListing.ListedExactly` and `ListedInOrder` |
| `GraphShapeLoops.QueryPatterns` | arango_sparql/translate/graph_shape.py:92-144 | each pattern once; a pattern is listed if and only if its triple can be drawn and stands somewhere in the query with these witnesses around it, none of them empty; and every listed pattern that a row witnesses is a fact of the dataset, for every dataset and every solution |
| `GraphShapeListing.ListedExactly` | arango_sparql/translate/graph_shape.py:92-144 | for every query: what is listed is exactly the triples that can be drawn, wherever they stand outside the right side of a MINUS, each with the witnesses of the OPTIONAL bodies and UNION branches on the way to it, as long as no group there is without one |
| `GraphShapeListing.ListedInOrder` | arango_sparql/translate/graph_shape.py:105-144 | the list is in document order: of two patterns the first stands somewhere before every place of the second |
| `GraphShapeListing.WitnessIsOwn` | arango_sparql/translate/graph_shape.py:118-123 | a group's witnesses are the variables that something in the group can bind and nothing outside it |
| `GraphShape.BoundNeedsASite` | arango_sparql/translate/graph_shape.py:147-173 | a solution binds a variable only where a counted site, or a VALUES block, can bind it |
| `GraphShapeSoundness.BoundWitnessTook` | arango_sparql/translate/graph_shape.py:118-123 | through every operator, for every dataset and solution: a row that binds a variable only the group can bind came about with the group matched |
| `GraphShapeSoundness.TookDraws` | arango_sparql/translate/graph_shape.py:105-143 | a row that came about with a group matched has, as facts with all their variables bound, the triples the group requires |
| `GraphShapeSoundness.ListedPatternIsAFact` | arango_sparql/translate/graph_shape.py:92-144 | for every dataset, solution and query whose sub-SELECTs hide no variable of a listed triple: a listed pattern is a fact as soon as the row binds one witness of the innermost group around it that no VALUES block outside that group can bind |
| `GraphShapeSoundness.HiddenIsNotDrawn` | arango_sparql/translate/graph_shape.py:125-144 | the projection is walked through: a row of a sub-SELECT draws a triple its body requires if and only if the sub-SELECT hides none of the triple's variables |
| `GraphShapeSoundness.ActiveIsWitnessed` | arango_sparql/translate/graph_shape.py:92-144 | so it is for every listed pattern whose last witness list has a bound variable that is in no VALUES block |
| `GraphShapeSoundness.ProjectionListsTheSame` | arango_sparql/translate/graph_shape.py:125-144 | a SELECT around the pattern changes nothing in the list, so the theorem is about solutions before projection |
| `GraphShapeSoundness.ListedForEveryRow` | arango_sparql/translate/graph_shape.py:105-143 | a triple is listed without any group exactly when it can be emitted and stands outside every OPTIONAL body, UNION branch and MINUS right side |
| `GraphShapeLimits.ValuesBindsAWitness` | arango_sparql/translate/graph_shape.py:147-173 | a VALUES block is no site: a query, graph and solution where a witness is bound although the row did not take the group |
| `GraphShapeLimits.SubSelectHidesAVariable` | arango_sparql/translate/graph_shape.py:125-144 | the walk goes into a sub-SELECT: a query, graph and solution for which a pattern listed for every row is no fact |
| `GraphShapeWitness.MatchedExactlyWhenWitnessed` | arango_sparql/translate/graph_shape.py:92-123 | the docstring's promise, for every dataset and solution: a row binds one of the group's witnesses exactly when the group matched it, wherever the shape of the group always binds one, no VALUES block outside it binds one and no sub-SELECT hides one |
| `GraphShapeConverse.ExactWhenAlwaysBound` | arango_sparql/translate/graph_shape.py:92-123 | and only there, for queries with VALUES blocks and full sub-SELECTs too: with conditions and expressions left open, the promise holds in all datasets if and only if the shape always binds a witness |
| `GraphShapeLimits.MatchedGroupWithoutAWitness` | arango_sparql/translate/graph_shape.py:92-123 | one query where it fails: a group that matched although the row binds none of its witnesses, its facts left out |
| `GraphShapeLimits.NeverMatchedIsExact` | arango_sparql/translate/graph_shape.py:92-123 | the promise holds of every group that never matches, in every query that holds it |
| `GraphShapeLimits.MinusMatchesNothing` | arango_sparql/translate/graph_shape.py:92-123 | so a MINUS that takes everything away makes the condition unnecessary: the promise holds of the query and the group need not bind a witness |
| `QueryBuilder.AqlQueryBuilder.constructor` | arango_sparql/translate/builder.py:278-330 | a seeded builder: counters at zero, the seeds as its only parameters |
| `QueryBuilder.Seeded` | arango_sparql/translate/builder.py:323-327 | a seed with a reserved name is refused, any other set of seeds is taken |
| `QueryBuilder.AqlQueryBuilder.FreshAlias` | arango_sparql/translate/builder.py:332-337 | the prefix with the next counter; an invalid prefix is refused and counts nothing |
| `QueryBuilder.AqlQueryBuilder.Bind` | arango_sparql/translate/builder.py:339-353 | a name never used before stands for the value; a refused hint still advances the counter |
| `QueryBuilder.AqlQueryBuilder.BindCollection` | arango_sparql/translate/builder.py:355-382 | a valid collection (not empty, no slash, 256 bytes of UTF-8 at most, printable) gets one name per builder, bound to it; earlier parameters keep their values |
| `QueryBuilder.AqlQueryBuilder.Take` | arango_sparql/translate/builder.py:1013-1058 | one call takes the draft to its next, or is refused, a second LIMIT or RETURN, with the draft unchanged; what any run of calls comes to is `AqlQuery.DraftIsCollected` |
| `QueryBuilder.AqlQueryBuilder.For` | arango_sparql/translate/builder.py:395-407 | the scan clause is added and its collection bound, or nothing is added |
| `QueryBuilder.AqlQueryBuilder.Finalize` | arango_sparql/translate/builder.py:1154-1244 | refused without RETURN or FOR; otherwise the finalized query, minting exactly the two wrapping aliases when it wraps |
| `QueryBuilder.AqlQueryBuilder.CreateChild` | arango_sparql/translate/builder.py:708-748 | a child with the parent's counters and nothing else |
| `QueryBuilder.AqlQueryBuilder.AbsorbChild` | arango_sparql/translate/builder.py:750-781 | the child's parameters are merged and its counters taken over; refused exactly on an incomplete child or a name with two values, which cannot happen while the parent stays idle, and then with some of the names merged and the counters unmoved |
| `QueryBuilder.AqlQueryBuilder.Perform` | arango_sparql/translate/builder.py:323-382 | over every stack-disciplined run of nested builders: no collision, no bind name and no alias number twice, every placeholder still resolves to its registered value, seeds kept |
| `QueryBuilder.AqlQueryBuilder.PerformSub` | arango_sparql/translate/builder.py:708-781 | the same for one nested builder, absorbed or dropped as a probe |
| `QueryBuilder.AliasesDiffer` | arango_sparql/translate/builder.py:332-337 | the aliases of a run are pairwise distinct texts when no prefix is another followed by a numeral |
| `QueryBuilder.InterleavedBindsCollide` | arango_sparql/translate/builder.py:750-781 | without the stack discipline a parent and its open child take one name, and absorbing is refused |
| `BuilderNames.BindNameNumber` | arango_sparql/translate/builder.py:339-353 | the counter can be read off a bind name, whatever the hint, so names of different counts differ |
| `BuilderNames.CollectionNameNumber` | arango_sparql/translate/builder.py:370-382 | the counter can be read off a collection's bind name, so names that sanitize alike stay distinct |
| `BuilderNames.PrefixClash` | arango_sparql/translate/builder.py:332-337 | two prefixes can mint one alias at two counts if and only if one is the other followed by a numeral without leading zero |
| `BuilderNames.OnlyHour24EndsInADigit` | arango_sparql/translate/date_arithmetic.py:132-137 | prefixes of which only `h24` ends in a digit never clash, as long as `h` is none of them |
| `AqlNames.AttributePathRef` | arango_sparql/translate/builder.py:236-250 | prints exactly the non-empty paths of printable segments, each segment on its own, and refuses the first that cannot be passed |
| `AqlNames.PathRoundTrip` | arango_sparql/translate/builder.py:182-250 | a name lexer reads back the alias and exactly the path, bare, reserved, dotted or quoted, if and only if no segment is a bare name followed by a newline |
| `AqlNames.SegmentPrinted` | arango_sparql/translate/builder.py:210-233 | a segment prints bare or backtick-quoted when it can be passed, and is refused otherwise |
| `AqlNames.KeywordsAreWords` | arango_sparql/translate/builder.py:38-79 | the reserved names the code lists are lower-case words, as the round trip needs |
| `QueryBuilder.LogRises` | arango_sparql/translate/builder.py:339-353 | the bind names of a run are pairwise distinct |
| `AqlQuery.FinalizedMeans` | arango_sparql/translate/builder.py:1154-1244 | the finalized query evaluates to Slice(Distinct(Project(OrderBy(body)))), the grouped fallback one empty row before the slice, ASK whether it is non-empty, whatever aliases are minted |
| `AqlQuery.WrappedRows` | arango_sparql/translate/builder.py:1186-1227 | a sub-query looped over by a fresh alias yields its rows, each once and in order, and the LIMIT slices those |
| `AqlQuery.RefusedExactly` | arango_sparql/translate/builder.py:1027-1056 | a run of builder calls is refused exactly when it sets a second LIMIT or RETURN |
| `AqlQuery.DraftIsCollected` | arango_sparql/translate/builder.py:1013-1058 | every run of calls: the clauses put first in reverse and then those appended in order, the sort keys in the order of the calls, the one LIMIT and the one RETURN, ASK if it was called, the last fallback mode; or the refusal |
| `AqlQuery.RunMeans` | arango_sparql/translate/builder.py:1013-1244 | so of every run with one RETURN: the rows of those clauses, sorted by those keys, returned, one empty row for none in the fallback mode, sliced, and for ASK whether any are left |
| `AqlQuery.InterleavingIsIrrelevant` | arango_sparql/translate/builder.py:1168-1232 | two runs with the same calls of each kind in the same order, interleaved in any way, come to the same query or are both refused; so only the orders that `DraftIsCollected` names count |
| `OptionalScan.Emit` | arango_sparql/translate/optional_crosssubject.py:90-160 | the clauses appended, the aliases minted and the variables rebound; nothing is emitted for a constant object or another predicate |
| `OptionalScan.OptionalRows` | arango_sparql/translate/optional_crosssubject.py:110-157 | the emitted LET and FOR turn an outer row into one row per matching document, or one with a null row |
| `OptionalScan.OptionalIsLeftJoin` | arango_sparql/translate/optional_crosssubject.py:110-160 | for every pattern, table of distinct triples and outer row with a bound subject: each solution comes exactly as often as SPARQL's LeftJoin has it if and only if every selected triple joins the row, or none is selected and the row leaves the variables written unbound, or a single one is selected and adds nothing |
| `OptionalScan.LeftJoinExactlyWhenFresh` | arango_sparql/translate/optional_crosssubject.py:56-160 | over all tables: the emission is the LeftJoin of a row if and only if the row leaves the object and predicate variables unbound and they are not the same variable |
| `OptionalRows.EmittedAreFresh` | arango_sparql/translate/optional_crosssubject.py:111-160 | under the prefix condition the three aliases an emission mints occur in no earlier expression, and the next emission starts the same way |
| `OptionalRows.QueryIsLeftJoin` | arango_sparql/translate/optional_crosssubject.py:56-160 | over all the rows of a query whose aliases its builder minted: every solution comes exactly as often as in the LeftJoin of all the rows, wherever the emission can be that of each row |
| `OptionalScan.BoundVariableIsOverwritten` | arango_sparql/translate/optional_crosssubject.py:158-160 | an object variable the row already binds: over one matching triple with another object the LeftJoin keeps the row once, the emission yields it zero times |
| `OptionalScan.EmissionIsLeftJoin` | arango_sparql/translate/optional_crosssubject.py:110-160 | the same equivalence for the emitted clauses, evaluated |
| `OptionalScan.MultiplicityIsTriples` | arango_sparql/translate/optional_crosssubject.py:110-160 | each solution comes as often as triples of the graph contribute it |
| `OptionalScan.OuterRowAppears` | arango_sparql/translate/optional_crosssubject.py:153-160 | an outer row appears max(1, matches) times |
| `OptionalScan.UnboundSubject` | arango_sparql/translate/optional_crosssubject.py:120-123 | with an unbound subject the emission is the LeftJoin if and only if no triple joins the row and the row leaves the variables written unbound |
| `OptionalScan.RepeatedVariableIsNotJoined` | arango_sparql/translate/optional_crosssubject.py:128-160 | a variable used as predicate and object is not joined with itself: one triple whose predicate and object differ breaks the equivalence |
| `Calendar.CivilDate` | arango_sparql/translate/date_arithmetic.py:150-160 | the date of a day number: valid, and of exactly that number |
| `Calendar.MomentOf` | arango_sparql/translate/date_arithmetic.py:161-164 | the civil moment of an epoch millisecond: valid, and of exactly that millisecond |
| `Calendar.MomentRoundTrip` | arango_sparql/translate/date_arithmetic.py:161-164 | civil moment and epoch milliseconds are inverse, over all years |
| `Calendar.DayNumberOrders` | arango_sparql/translate/date_arithmetic.py:150-162 | day numbers order dates as the calendar does and name each once |
| `Calendar.InstantRange` | arango_sparql/translate/date_arithmetic.py:63-65 | the two range constants are exactly the ends of the years 0 to 9999 |
| `Calendar.FirstInstantIsYearZero` | arango_sparql/translate/date_arithmetic.py:63-65 | the first constant is 0000-01-01T00:00:00.000 |
| `Calendar.LastInstantEndsYear9999` | arango_sparql/translate/date_arithmetic.py:63-65 | the last is 9999-12-31T23:59:59.999 |
| `DateShift.CarryDays` | arango_sparql/translate/date_arithmetic.py:105-117 | the standard's loop that carries days into months ends at a valid date and keeps the day it names |
| `DateShift.StandardMillis` | arango_sparql/translate/date_arithmetic.py:156-162 | the field-by-field sum of Appendix E is the clamped month step followed by adding milliseconds |
| `DateShift.ShiftIsStandardSum` | arango_sparql/translate/date_arithmetic.py:105-168 | for every date and dateTime of the accepted shape: the standard's sum in the input's own form and zone, and null for a day the month does not have or a sum outside the years 0 to 9999; and null for a time of hour 24 that is not 24:00:00; if and only if it is not 9999-12-31T24:00:00 with a day-time duration that leads back into range, which gives null, nor 24:00:00 with a fraction, which is read as the midnight |
| `DateShift.MidnightIsLost` | arango_sparql/translate/date_arithmetic.py:152-157 | for one: 9999-12-31T24:00:00 less one day is 9999-12-31T00:00:00, and the code gives null |
| `DateShift.FractionIsDropped` | arango_sparql/translate/date_arithmetic.py:150-157 | 24:00:00 with a fraction is no time to the standard, and the code gives the next day's midnight |
| `DateShift.EarlyFilterLoses` | arango_sparql/translate/date_arithmetic.py:156-163 | of the sums in range the year filter after the month step drops exactly those that start at the midnight ending year 9999 and have no month part; both parts share a sign |
| `DateShift.PartsShareASign` | arango_sparql/translate/date_arithmetic.py:81-102 | the months and the milliseconds of a duration never have opposite signs |
| `DateShift.RealDayTest` | arango_sparql/translate/date_arithmetic.py:150-151 | the day test passes exactly the days the month has |
| `DateShift.WrittenReadsBack` | arango_sparql/translate/date_arithmetic.py:164-167 | the written result reads back as the sum, a date as a date, in the same zone; what its fields name is `WrittenIsNamed` |
| `DateShift.ClockIsNamed` | arango_sparql/translate/date_arithmetic.py:154-155 | the clock an input is read as stands at the milliseconds its fields name: hours, minutes, seconds and the fraction by its digits, 24:00:00 being the midnight that follows |
| `DateShift.WrittenIsNamed` | arango_sparql/translate/date_arithmetic.py:164-167 | the fields of the result name the moment, to the millisecond, or its day for a date |
| `DateShift.DayTimeShiftMoves` | arango_sparql/translate/date_arithmetic.py:105-168 | a day-time duration moves the milliseconds the fields name by exactly its own, and a date to the day on which the sum falls |
| `DateShift.MonthShiftMoves` | arango_sparql/translate/date_arithmetic.py:105-168 | a year-month duration moves the month the fields name by exactly its own, limits the day to that month, and leaves the clock |
| `DateShift.MonthShiftIsSum` | arango_sparql/translate/date_arithmetic.py:156-160 | the emitted floor and clamp are the standard's addition of a year-month duration |
| `DateShift.MonthShiftsCompose` | arango_sparql/translate/date_arithmetic.py:156-160 | two month shifts reach the one shift's month, the day further limited by the month between; exactly the one shift up to day 28 |
| `DateShift.MonthShiftMonotone` | arango_sparql/translate/date_arithmetic.py:156-160 | month shifts keep the order of dates |
| `DateShift.MonthShiftOrder` | arango_sparql/translate/date_arithmetic.py:156-160 | dateTimes change their order if and only if they lie in one month, both days are at or past the end of the month reached, and the later day has the earlier time |
| `DateShift.ShiftedTogether` | arango_sparql/translate/date_arithmetic.py:156-160 | two dates reach the same date if and only if they are the same, or of one month with both days at or past the end of the month reached |
| `DateShift.MonthShiftReordersDateTimes` | arango_sparql/translate/date_arithmetic.py:156-160 | for one: January 30 23:00 and January 31 01:00 of any year swap |
| `DateShift.DayTimeShiftUndone` | arango_sparql/translate/date_arithmetic.py:105-168 | adding then subtracting a day-time duration gives the dateTime back, whenever the first gives a result |
| `DurationText.TextIsMatched` | arango_sparql/translate/date_arithmetic.py:48-51 | the duration pattern matches every written duration into exactly its fields, digits and leading zeros as written |
| `DurationText.WrittenDurationIsRead` | arango_sparql/translate/date_arithmetic.py:81-102 | `duration_parts` of any written duration is that of its fields; what that is, is `WrittenDurationMeans` and `TooFineExactly` |
| `DurationText.WrittenDurationMeans` | arango_sparql/translate/date_arithmetic.py:93-102 | for every written duration: twelve months to a year and the months; days, hours, minutes and seconds by their lengths and the fraction by its place, in milliseconds; both with the sign |
| `DurationText.TooFineExactly` | arango_sparql/translate/date_arithmetic.py:95-100 | refused exactly when no whole number of milliseconds is the fraction its digits mean |
| `DurationText.UnitsAreRead` | arango_sparql/translate/date_arithmetic.py:48-51 | the letters: what each field written alone is read as |
| `DurationText.ReadDurationIsWritten` | arango_sparql/translate/date_arithmetic.py:81-102 | and of nothing else: a text that is not refused is the text of the fields read from it |
| `DurationText.TimezoneIsTheOffset` | arango_sparql/translate/filter_builtins.py:506-545 | for every dateTime, whatever the length of its year: TIMEZONE is null exactly without a zone, and otherwise reads as no months and exactly the signed offset |
| `Advisories.AdvisoryLog.Record` | arango_sparql/translate/advisories.py:47-53 | an entry is appended exactly when no entry of the list has both its code and its IRI |
| `Advisories.AdvisoryLog.WarnSchema` | arango_sparql/translate/advisories.py:33-45 | every open capture hears the entry, the list records it once |
| `Advisories.AdvisoryLog.Replay` | arango_sparql/translate/advisories.py:66-71 | a hit reports what the entry's resolution raised, to the list and to the open captures |
| `Advisories.AdvisoryLog.ResolveMiss` | arango_sparql/translate/advisories.py:54-64 | a miss remembers exactly what a cold resolution raises, nested resolutions included, also when it fails |
| `Advisories.AdvisoryLog.Perform` | arango_sparql/translate/advisories.py:54-110 | any sequence of resolutions, hits, quiet surveys and nested scopes reports what it raises from cold |
| `Advisories.AdvisoryLog.CollectingWarnings` | arango_sparql/translate/advisories.py:90-110 | whatever was resolved or surveyed before, the yielded list is the first occurrences, by code and IRI, of a cold run, in order; on exit the outer list is the first occurrences of outer then collected |
| `Advisories.FirstsIdempotent` | arango_sparql/translate/advisories.py:90-110 | recording a list already stripped of repeats is recording the whole list |
| `ExpressionErrors.CertainErrorsAreErrors` | arango_sparql/translate/expression_errors.py:34-55 | an expression found certainly an error is one in every solution without the out-of-scope variables, for any operators and any answer of BOUND and EXISTS; an empty IN list needs the tested value evaluated first |
| `ExpressionErrors.EmptyListIsNoError` | arango_sparql/translate/expression_errors.py:51-54 | an empty IN list over any certain error is reported an error, and is one, in every solution in scope, if and only if the tested value is evaluated first |
| `ExpressionErrors.EitherReadingErrors` | arango_sparql/translate/expression_errors.py:34-55 | what is an error whether or not the tested value of an empty list is evaluated first: also beside an empty list in a disjunction or conjunction |
| `ExpressionErrors.NoEmptyListFails` | arango_sparql/translate/expression_errors.py:34-55 | without empty lists that is everything the analysis reports |
| `ExpressionErrors.SmallerScopeKeepsErrors` | arango_sparql/translate/expression_errors.py:34-55 | shrinking the scope never turns the answer false |
| `ExpressionErrors.UnboundVariables` | arango_sparql/translate/expression_errors.py:58-66 | exactly the out-of-scope variables the expression reads, each once, in the order first read |
| `ExpressionErrors.CertainExactly` | arango_sparql/translate/expression_errors.py:34-55 | for one operator over variables and constants the analysis is exact: it reports an error if and only if every choice of operators and every solution in scope gives one, but for an IN none of whose members has a value and COALESCE without choices |
| `ExpressionErrors.CertainByOperators` | arango_sparql/translate/expression_errors.py:34-55 | and for every expression it is exact of the outermost operator, its operands counting as unbound variables where they are certainly errors |
| `ExpressionErrors.CertainErrorNamesAVariable` | arango_sparql/translate/expression_errors.py:34-66 | a certain error always has an out-of-scope variable to report |
| `EditorTokenRuns.SpansAreTokens` | arango_sparql/editor/sparql_editor_core.js:119-232 | for every text and keyword set: the lexer's spans are the comments, IRIs and literals of the one way to divide the text into tokens, each `<` being less-than or not by the operand and the brackets before it |
| `EditorTokens.OneTokenization` | arango_sparql/editor/sparql_editor_core.js:119-232 | a text can be divided in one way only: every token, and where it ends, is fixed by the text and the tokens before it |
| `EditorTokenRuns.LessThanExactly` | arango_sparql/editor/sparql_editor_core.js:142-166 | a `<` that starts a token is a less-than if and only if it stands right after an operand in the parentheses of an expression, or no IRI can be read there; otherwise it is the complete IRI, or else the one being typed |
| `EditorTokenRuns.ReferenceSpansExactly` | arango_sparql/editor/sparql_editor_core.js:142-166 | so no IRI span starts at such a `<`, and at every other the lexer has exactly the IRI that can be read |
| `EditorTokenRuns.AngleToken` | arango_sparql/editor/sparql_editor_core.js:131-229 | every `<` starts a token of its own, is escaped, or lies in a comment or a literal |
| `EditorScan.Lex` | arango_sparql/editor/sparql_editor_core.js:119-232 | the loop returns exactly the specified spans: those of the text's one tokenization; ordered, disjoint, non-empty, each of its kind's shape, and outside them every `#` and quote is escaped by a backslash |
| `EditorScan.ReadToken` | arango_sparql/editor/sparql_editor_core.js:131-229 | one round of the loop does what the specified step does, and that step reads the one token that can stand there (`EditorTokenRuns.SpansAreTokens`) |
| `EditorLexer.SpansAreLexed` | arango_sparql/editor/sparql_editor_core.js:119-232 | from any text the specified lexer ends with ordered spans of their shapes and misses no comment or literal opener |
| `EditorLexer.IrisAreFound` | arango_sparql/editor/sparql_editor_core.js:142-166 | every complete IRI is in a span, unless it is escaped or follows an opening parenthesis, where `<` can be less-than |
| `EditorLexer.ScanString` | arango_sparql/editor/sparql_editor_core.js:167-183 | a literal ends at the first quoting of its own kind, one or three quotes, that no backslash escapes; without one it is open to the line's end, or with three quotes to the text's |
| `EditorLexer.ReadAngle` | arango_sparql/editor/sparql_editor_core.js:142-166 | a complete IRI reference, one still being typed, or a less-than |
| `EditorScan.Blank` | arango_sparql/editor/sparql_editor_core.js:239-248 | same length; spans of the given kinds become spaces, newlines and everything else unchanged |
| `EditorLayout.RespacedWords` | arango_sparql/editor/sparql_editor_core.js:676-682 | the four replacements, the trim and the split keep the words, braces set apart |
| `EditorLayout.LayoutFits` | arango_sparql/editor/sparql_editor_core.js:683-701 | the lines hold the words in order, each unbroken, with only white space between |
| `EditorLines.LinesAreCut` | arango_sparql/editor/sparql_editor_core.js:683-700 | for every list of words: lines break after each brace, dot and semicolon, before each closing brace and before PREFIX and SELECT outside braces; each is two spaces deep for every brace open there, and two more where it goes on after a semicolon, unless it begins with FILTER, OPTIONAL or VALUES |
| `EditorLines.LineBegins` | arango_sparql/editor/sparql_editor_core.js:685-690 | a line begins with exactly that many spaces, unless its first word begins with a closing parenthesis |
| `EditorLines.LineTight` | arango_sparql/editor/sparql_editor_core.js:688 | no line has a space right after an opening parenthesis or right before a closing one |
| `EditorFormat.RestoredShows` | arango_sparql/editor/sparql_editor_core.js:701 | filling the holes shows each stored span in its place and every other character once, in order, where nothing else reads as a hole |
| `EditorFormat.OnlySpaceMoves` | arango_sparql/editor/sparql_editor_core.js:650-702 | the source and the formatted text show the same characters and the same spans, verbatim and in order, with nothing but white space between, for every text without U+0000, digits and then U+0000 or a span |
| `EditorFormat.FalseHoleIsLost` | arango_sparql/editor/sparql_editor_core.js:667-701 | and for no other text that is formatted: what reads as a hole is not shown any more |
| `EditorFormat.NulIsTakenForAHole` | arango_sparql/editor/sparql_editor_core.js:670-701 | for one: U+0000, 0, U+0000 becomes `undefined` |
| `EditorFormat.Substitute` | arango_sparql/editor/sparql_editor_core.js:667-675 | the text with one numbered hole per span, and the spans in order |
| `EditorFormat.LayOut` | arango_sparql/editor/sparql_editor_core.js:683-700 | the layout loop places every word and flushes the last line: its text is the lines of `EditorLines.LinesAreCut` |
| `EditorFormat.FormatSparql` | arango_sparql/editor/sparql_editor_core.js:661-702 | unchanged when a comment, an open literal or an open IRI with `#` is there; otherwise the formatted text; in it only white space moved if and only if it is unchanged or nothing else reads as a hole |
| `BraceGroups.ClosedGroups` | arango_sparql/editor/sparql_editor_core.js:512-517 | exactly the pairs of braces that open and close a group, for any text, unmatched braces included |
| `BraceGroups.CountsExactly` | arango_sparql/editor/sparql_editor_core.js:518-524 | a declaration is in no closed group if and only if every group around it is still open at the caret |
| `BraceGroups.SubjectClasses` | arango_sparql/editor/sparql_editor_core.js:504-527 | the known classes with a declaration that counts, each once, in the order first declared |
| `BraceGroups.TextBefore` | arango_sparql/editor/sparql_editor_core.js:567 | the braces of the text before the caret are exactly those outside comments and strings |
| `SeedRows.FiveIsOnePass` | arango_sparql/partition.py:268-276 | the five replacements, one after the other, are one pass over the characters |
| `SeedRows.LiteralReadBack` | arango_sparql/partition.py:268-276 | a printed literal is read back to its text, and never starts a long literal |
| `SeedRows.IriRoundTrip` | arango_sparql/partition.py:260-265 | an IRI the guard accepts reads back if and only if it has no control character |
| `SeedRows.PrintedExactly` | arango_sparql/partition.py:217-257 | a cell prints exactly when it stands for a term and its IRI passes the guard |
| `SeedRows.CellRoundTrip` | arango_sparql/partition.py:217-257 | a printed cell reads back as the term it stands for, and what follows is left, if and only if its IRI has no control character, its language tag is well-formed and its float is a number |
| `SeedRows.IntegersAreNumerals` | arango_sparql/partition.py:249-252 | every integer prints as a numeral, and no two alike |
| `SeedRows.HeaderIsUnion` | arango_sparql/partition.py:203-205 | the header holds each variable some row names, once, in code point order |
| `SeedRows.BlockRoundTrip` | arango_sparql/partition.py:194-214 | a printed VALUES block reads back to its header and to what every cell means, a missing cell to UNDEF, if and only if every key is a VARNAME and every cell's term is well-formed |
| `SeedRows.KeyIsNotChecked` | arango_sparql/partition.py:203-205 | for one: the key `a b` prints a block that does not read back |
| `SeedRows.RefusedExactly` | arango_sparql/partition.py:209-213 | the rows are refused exactly when some cell stands for no term or has an unsafe IRI |
| `SeedRows.ValuesClause` | arango_sparql/partition.py:194-214 | empty for no rows, an error for no variable, the first cell's error, or the whole block |
| `RateLimit.TokenBucket.Allow` | arango_sparql/service/security.py:463-474 | the refill, the answer and the key's new entry |
| `RateLimit.TokenBucket.Reset` | arango_sparql/service/security.py:476-485 | every key starts full again |
| `RateLimit.Conserved` | arango_sparql/service/security.py:463-474 | what a key is granted and has left never exceeds what it had and what it earned, over every run of calls one at a time |
| `RateLimit.WindowBound` | arango_sparql/service/security.py:463-474 | in every run of calls one at a time, the grants to one key in a window of T seconds are at most capacity + T * capacity / 60, and none without capacity |
| `RateLimit.NewKeyIsFull` | arango_sparql/service/security.py:463-468 | a key not seen before has the whole capacity |
| `RateLimit.RefillIsExact` | arango_sparql/service/security.py:463-474 | after a call a key has what it had, less a token if it was granted, and a capacity each minute since, up to the capacity |
| `RateLimit.NewKeyBurst` | arango_sparql/service/security.py:463-474 | of calls of a new key at one instant the first `capacity` are granted, and no more |
| `RateLimit.BurstMeetsTheBound` | arango_sparql/service/security.py:463-474 | of calls at one instant a key is granted exactly as many as it has tokens |
| `RateLimit.PatientIsNeverRefused` | arango_sparql/service/security.py:463-474 | in every run of calls one at a time a client spacing its calls by 60 / capacity seconds is never refused, whatever other keys do |
| `RateThreads.UndisturbedIsCalled` | arango_sparql/service/security.py:463-474 | the five steps of a call with no other between them are the sequential call |
| `RateThreads.WindowBoundInterleaved` | arango_sparql/service/security.py:463-474 | over every interleaving of threads in which no two calls of the key overlap, the window bound holds |
| `RateOverlap.OverlapsHaveNoBound` | arango_sparql/service/security.py:463-474 | any number of calls of one instant can be granted, whatever the capacity: all read before any writes |
| `RateSafety.GainIsTheCondition` | arango_sparql/service/security.py:463-474 | for any earnings that flow: from a state of a run without overlaps, a step makes it possible to exceed the bound without further overlap if and only if it overlaps and gains |
| `RateSafety.OverlapIsTheCondition` | arango_sparql/service/security.py:463-474 | so it is after every such run of the bucket, whatever its capacity |
| `RatePatient.PatientIsNeverRefused` | arango_sparql/service/security.py:463-474 | over every interleaving in which no two calls of the key overlap, the patient client is never refused |
| `RatePatient.PatientCanBeRefused` | arango_sparql/service/security.py:463-474 | with overlaps it can be refused, whatever the capacity and however long it waits between calls |
| `SchemaWarm.WarmService.ScheduleWarm` | arango_sparql/service/schema_warm.py:95-152 | starts a warm, forgetting the last failure, exactly when the database has a name and none is in flight |
| `SchemaWarm.WarmService.RequestRebuild` | arango_sparql/service/schema_warm.py:84-92 | queued exactly behind a revalidation in flight |
| `SchemaWarm.WarmService.TakeError` | arango_sparql/service/schema_warm.py:74-81 | pops the database's last failure |
| `SchemaWarm.WarmService.IsWarming` | arango_sparql/service/schema_warm.py:68-71 | true exactly when some worker of the database is at work |
| `SchemaWarm.WarmService.CheckQueue` | arango_sparql/service/schema_warm.py:133-140 | the check takes a queued rebuild and turns the mode to rebuild |
| `SchemaWarm.WarmService.LeaveInFlight` | arango_sparql/service/schema_warm.py:146-149 | the worker leaves in-flight and drops what is still queued |
| `SchemaWarm.WarmService.Interleave` | arango_sparql/service/schema_warm.py:68-152 | any interleaving of the lock-guarded blocks keeps the invariant |
| `SchemaWarm.StepKeeps` | arango_sparql/service/schema_warm.py:84-149 | every step keeps: one worker for each database in flight, rebuilds queued only behind revalidations, failures of workers past recording |
| `SchemaWarm.OneWarmPerDatabase` | arango_sparql/service/schema_warm.py:111-152 | in every interleaving a database has at most one worker, and is in flight exactly while it has one |
| `SchemaWarm.WorkersFinish` | arango_sparql/service/schema_warm.py:121-149 | a worker moves only by its own steps, always forward, and can always take one |
| `SchemaWarm.RequestedRebuild` | arango_sparql/service/schema_warm.py:84-149 | a rebuild asked for during a revalidation is done if and only if the worker had not passed its check and the revalidation does not fail |
| `SchemaWarm.LateRequestIsDropped` | arango_sparql/service/schema_warm.py:133-149 | a request between the check and the leaving is accepted, then forgotten |
| `SchemaWarm.FailureTakenOnce` | arango_sparql/service/schema_warm.py:74-81 | over every run no worker's failure is handed out twice |
| `SchemaWarm.FailureIsTaken` | arango_sparql/service/schema_warm.py:74-81 | the first request hands out the recorded failure, a second none |
| `SchemaWarm.FailureWaits` | arango_sparql/service/schema_warm.py:74-81 | a recorded failure stays until it is taken or a new warm of its database starts |
| `SchemaCache.StepKeeps` | arango_sparql/schema/cache.py:181-361 | every block of every call keeps: locks held by those inside, one lock per database, no dangling entry, gets judged rightly |
| `SchemaCache.OneReaderPerDatabase` | arango_sparql/schema/cache.py:188-199 | in every interleaving at most one call per database is inside its hydration lock |
| `SchemaCache.WaitersGetTheLock` | arango_sparql/schema/cache.py:189-199 | a waiting call can take the lock, or the call inside can go on |
| `SchemaCache.GetsReturnUnexpired` | arango_sparql/schema/cache.py:205-228 | in every interleaving a get returns no entry that has reached its time to live |
| `SchemaCache.ExpiredExactly` | arango_sparql/schema/cache.py:127-139 | a get gives up an entry from its time and the time to live on, and not before; a peek and a time to live of zero never do |
| `SchemaCache.PutReachesBothTiers` | arango_sparql/schema/cache.py:288-325 | an uninterrupted put: the newest analysis, dated now, in the map and, if storing works, as the stored copy; nothing else changes |
| `SchemaCache.RevalidationReachesBothTiers` | arango_sparql/schema/cache.py:327-350 | an uninterrupted revalidation: the map's analysis dated now, and the stored copy's date |
| `SchemaCache.OnlyExpiredIsEvicted` | arango_sparql/schema/cache.py:205-228 | only invalidation, clearing, or a get that judged that very entry expired takes an entry out |
| `SchemaCache.StepNeverOlder` | arango_sparql/schema/cache.py:197-199 | a stored copy is installed only where the map is empty, and no step makes an entry older |
| `SchemaCache.PutIsNeverReplacedByOlder` | arango_sparql/schema/cache.py:288-325 | over every run that does not take it out, what was put makes way only for what was put later |
| `SchemaCache.PutStaysWithoutExpiry` | arango_sparql/schema/cache.py:205-228 | so it is over every run without an invalidation of the database and without clearing, when there is no time to live |
| `SchemaCache.PutStaysUntilExpiry` | arango_sparql/schema/cache.py:205-228 | with a time to live: so it is until a get of the database at or past the entry's time and that time to live |
| `SchemaCache.MissesShareOneRead` | arango_sparql/schema/cache.py:181-199 | while the entry is not taken out, all calls that miss share one successful read of the stored copy |
| `SchemaCache.OlderAfterInvalidation` | arango_sparql/schema/cache.py:194-199 | after an invalidation a read begun before the put installs the older copy |
| `SchemaCacheReturn.OlderComesBackExactly` | arango_sparql/schema/cache.py:181-361 | once the entry is out, some run brings an older analysis back into the cache if and only if an older one is the stored copy or is with a call about to install or to store it |
| `SchemaCacheReturn.OlderAfterPut` | arango_sparql/schema/cache.py:288-325 | after a put and an invalidation, an older one can come back if and only if there is a stored copy, or a call about to install or to store one |
| `SchemaCache.StoredNeverOlder` | arango_sparql/schema/cache.py:321-324 | over every run in which no put with a handle, and no store by another process, begins while a call is about to store, the stored copy never becomes older |
| `SchemaCache.OverlapIsTheCondition` | arango_sparql/schema/cache.py:321-324 | and exactly then: from a state of such a run a step makes it possible for the stored copy to become older if and only if it begins such an overlap |
| `SchemaCache.PersistsCanCross` | arango_sparql/schema/cache.py:321-324 | two overlapping puts can reach the stored copy in the other order, leaving it older than the map |
| `SchemaCache.SchemaCache.LookBlock` | arango_sparql/schema/cache.py:184-188 | the first block: found, given up without a handle, or waiting at the database's one lock |
| `SchemaCache.SchemaCache.InstallBlock` | arango_sparql/schema/cache.py:197-199 | installs unless a put landed meanwhile, and answers what is in the map |
| `SchemaCache.SchemaCache.EvictBlock` | arango_sparql/schema/cache.py:223-227 | evicts exactly the entry that was judged |
| `SchemaCache.SchemaCache.PutBlock` | arango_sparql/schema/cache.py:288-325 | a new entry, newer than all, in the map |
| `SchemaCache.SchemaCache.RevalidateBlock` | arango_sparql/schema/cache.py:327-350 | the same analysis in a new entry with the new time, or nothing when there is none |
| `SchemaCache.SchemaCache.Get` | arango_sparql/schema/cache.py:205-228 | an uninterrupted get: the entry of the map or the stored copy, installed; or none, an expired one taken out |

## Left out

- GraphShapeLoops.QueryPatterns: the sorted order of a witness list (lists are sets here); query modifiers other than projection, whose nodes are walked the same way; FROM clauses.
- `widen_projection` in graph_shape.py: regular expressions over query text.
- GraphShapeConverse.ExactWhenAlwaysBound: queries in which two VALUES blocks share a variable, a VALUES block is empty or names a graph, a sub-SELECT hides a variable, or a MINUS shares variables with its left side: there the group may never match, so the condition is sufficient but need not be necessary (see `MinusMatchesNothing`); conditions, expressions and property paths are left open, so a query whose own FILTER forces a binding is not told apart.
- QueryBuilder.AqlQueryBuilder.AbsorbChild: the order of a dict; on a collision which names are already merged is left open.
- QueryBuilder.AqlQueryBuilder.Finalize: the WITH clause of sharded families, the text of the query and its indentation, and `return_triples`.
- QueryBuilder.AqlQueryBuilder.BindCollection: which characters `str.isprintable` accepts (a parameter here); lone surrogates, whose encoding fails.
- AqlNames.PathRoundTrip: the characters an alias may have are those of an identifier, as the builder mints them.
- AqlQuery.FinalizedMeans: AQL's SORT, LIMIT and RETURN DISTINCT are small definitions (an arbitrary function of the keys and the rows, slice, first occurrences), not the server; that SORT sorts, and is stable, is not used.
- OptionalRows.QueryIsLeftJoin: rows that do not meet the condition of `OptionalIsLeftJoin`, whose errors could make up for each other in the total.
- OptionalScan.Emit: the tenant refusal, and the choice of the class whose table is scanned; rows that are not well-formed triples.
- DateShift.ShiftIsStandardSum: fractions finer than a millisecond; times the shape test lets through that are none, with an hour from 25 to 99 or, before hour 24, a minute or second from 60 to 99, where the result is what the server's date functions make of such a text; and the regular expressions that split the text (a lexical form comes as its fields).
- `instant` and `compare_instants` in date_arithmetic.py: the same conversions without an addition.
- DurationText.WrittenDurationIsRead: digits outside ASCII, and a text ending in a newline, which the pattern's `$` lets through and rdflib marks ill-typed.
- Advisories.AdvisoryLog.Perform: what a resolution computes; only what it raises, what it needs, and whether it fails.
- ExpressionErrors.CertainByOperators: that an expression is an error because two of its operands cannot both have a value, as where two IFs share a condition, is not looked for, by the code or here.
- ExpressionErrors.CertainErrorsAreErrors: the rdflib expression nodes are one small tree; every other operator is strict in its operands.
- EditorLexer.IrisAreFound: after an opening parenthesis it does not say which `<` is less-than; `EditorTokenRuns.ReferenceSpansExactly` does. The one-entry cache of the last result is left out.
- BraceGroups.SubjectClasses: the regular expression that finds declarations; their positions are given.
- EditorFormat.FormatSparql: whether formatting a text twice is formatting it once, and whether the lexer finds the same spans in the formatted text, is not stated.
- SeedRows.BlockRoundTrip: the codepoint escapes of section 19.2 of SPARQL 1.1, which a parser replaces before it reads the block; floats come as the text Python gives them.
- RateLimit.WindowBound: the rounding of floating-point arithmetic, and a clock that goes back; calls one at a time only, see `RateThreads.WindowBoundInterleaved`.
- RateThreads.WindowBoundInterleaved: `reset` is no step of these runs.
- SchemaWarm.RequestedRebuild: a thread that fails to start, which would leave its database in flight.
- SchemaCache.StepKeeps: an exception while the stored copy is read, and what a bundle holds; entries are a stamp and a time.
- SchemaCache.PutIsNeverReplacedByOlder: nothing is said once the entry has been taken out, see `SchemaCacheReturn.OlderComesBackExactly`; `PutStaysWithoutExpiry` and `PutStaysUntilExpiry` name the steps that take it out.
- STRBEFORE and STRAFTER in filter_builtins.py, object keys, type predicates, the wire format of warnings: easy members.
- The visitor, the resolver, parsing, OWL, routes, connections, the natural-language pipeline, the command line and the user interface: I/O, plumbing, or code that is not part of this model.
