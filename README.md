# Survey analytics core, modelled in Dafny

This project models the data-handling core of a survey analytics web application. Administrators use it to manage companies, survey sets and their questions. They distribute survey sets to companies, upload or download answers as CSV, and import question sets from spreadsheets. The result pages analyse the answers by item, by category, cross-tabulated between two categories, by demographic group and by correlation. The application is a Next.js/React front end over a hosted Postgres database.

Everything the application fetches from the database is an input of the model. Each Dafny module follows one source file, or one concern shared by several files:

- `CorrelationAnalysis`: the Pearson coefficient and the simple correlation loop, as exact sums with the square root kept symbolic. It also covers the strength and sign labels, the numeric reading of answers, the participant join and the point aggregation.
- `CrossTab`: the cross analysis of two categories over one answer list and over two separate lists. It covers the contingency table, the row totals, the marginal distributions and the stacked items.
- `DemographicAnalysis`: the per-option buckets, in JavaScript key order, and the cross grid between two demographic questions.
- `ItemStats` and `ItemAnalysis`: the item statistics page (answer processing, per-question and per-category statistics, respondent counts, chunking) and the item table component (stats lookup, the synthetic scale distribution, percentages).
- `AdminResults`, `AdminUpload` and `AdminTemplate`: the results administration page. This covers the CSV line parser and its preprocessing, UUID extraction, the wide-to-long upload transform, the CSV template writer and its answer escaping.
- `SurveyImport`: the spreadsheet import endpoint. It normalises question types, coerces `is_required`, maps rows to questions and guesses the set type.
- `Distribute`, `DistributionList`, `ResultsIndex` and `Dashboard`: the distribution form and its two lock-step selection lists; the distribution status machine and progress figures; the results index aggregates, filters and paging; and the home page's status counts and activity feed.
- `SurveySetTable`, `QuestionTable`, `CompanyTable` and `ListChange`: the administration tables' form rules and the list reducers of the company and survey-set pages.
- `SetIds`: the decodings of a distribution's `survey_set_ids` column that several pages re-implement. The JSON reader is a parameter.
- `AnalysisSets`, `AnalysisHooks` and `ResultPages`: set-id comparisons, the choice of the demographic set and of the other set, category and participant lists, the four analysis hooks and the three analysis pages. `ResultPages` includes the pages' response paging loop.
- `SchemaDetail` and `SchemaSimple`: the two schema-check scripts. They cover the `schema.sql` line parser, the sample-value type classification and the expected/actual column differences.
- `Seqs`, `JsCore` and `JsObject` are shared helpers:
  - `Seqs`: sums, counts, first-seen de-duplication, filters and sorting by a key.
  - `JsCore`: JavaScript values and their truthiness, `String(..)`, `trim`, `split`/`join`, ASCII `toLowerCase`, and `Number`/`parseInt`/`parseFloat` over signed decimal literals only (see "Left out"), read as exact decimals.
  - `JsObject`: plain objects as dictionaries that keep JavaScript's own-key order.

Code that works step by step is modelled by methods with loops, each proved against a specification function. Examples are the CSV parser, the Pearson sums, the contingency-table loops, the paging loop and the schema parser. Classes stand for the state the source updates in place, and their methods update its fields: the distribution form's selection, a stored distribution's status, the statistics record the item table completes, the results index's paging state, and the fetched set objects the correlations page decorates. Expression-only code is modelled by functions and lemmas.

## Model

| member | source | states |
|---|---|---|
| CorrelationAnalysis.Strength | src/components/results/CorrelationAnalysis.js:78-85 | the label depends on the absolute value of c alone, with bands closed at 0.9, 0.7, 0.5 and 0.3, each an if-and-only-if |
| CorrelationAnalysis.StrengthMonotone | src/components/results/CorrelationAnalysis.js:78-85 | equal absolute values give the same label, and a larger absolute value never gets a weaker one |
| CorrelationAnalysis.Kind | src/components/results/CorrelationAnalysis.js:88-92 | '양의' iff c > 0, '음의' iff c < 0, '무' iff c = 0 |
| CorrelationAnalysis.KindNegate | src/components/results/CorrelationAnalysis.js:88-92 | negating c swaps the positive and negative labels and keeps '무' |
| CorrelationAnalysis.MeanOf | src/components/results/CorrelationAnalysis.js:52-53 | the reduce loop yields the sum divided by the length |
| CorrelationAnalysis.Mean | src/components/results/CorrelationAnalysis.js:52-53 | the mean of a constant series is that constant |
| CorrelationAnalysis.DeviationProducts | src/components/results/CorrelationAnalysis.js:55-60 | the first loop accumulates the sum of deviation products |
| CorrelationAnalysis.DeviationSquares | src/components/results/CorrelationAnalysis.js:62-67 | the second loop accumulates both sums of squared deviations |
| CorrelationAnalysis.CalculateCorrelation | src/components/results/CorrelationAnalysis.js:48-75 | 0 for unequal or empty series; otherwise Pearson's coefficient, which is 0 when the denominator product is 0 |
| CorrelationAnalysis.Pearson | src/components/results/CorrelationAnalysis.js:48-75 | the coefficient is 0 whenever either series is constant, because its sum of squares, and so the denominator, vanishes |
| CorrelationAnalysis.ConstantSeriesZero | src/components/results/CorrelationAnalysis.js:61-72 | a constant x or y series makes the denominator product 0, so the coefficient is 0 |
| CorrelationAnalysis.DeviationsAboutConstant | src/components/results/CorrelationAnalysis.js:55-67 | deviations of a constant series about its constant add nothing to a sum of products |
| CorrelationAnalysis.SumConstant | src/components/results/CorrelationAnalysis.js:52-53 | a series of n copies of c sums to n times c |
| CorrelationAnalysis.CrossSumSymmetric | src/components/results/CorrelationAnalysis.js:302-309 | the deviation-product sum is symmetric in the two series |
| CorrelationAnalysis.CauchySchwarzStep | src/components/results/CorrelationAnalysis.js:302-309 | adding one term to each sum keeps numerator² ≤ xDenominator·yDenominator |
| CorrelationAnalysis.CrossSumDot | src/components/results/CorrelationAnalysis.js:302-309 | the loop's sums are dot products of the deviation vectors |
| CorrelationAnalysis.DotSquaresNonNegative | src/components/results/CorrelationAnalysis.js:307-308 | a sum of squared deviations is never negative |
| CorrelationAnalysis.DotCauchySchwarz | src/components/results/CorrelationAnalysis.js:302-309 | (Σ d·e)² ≤ (Σ d²)·(Σ e²) for any two deviation vectors |
| CorrelationAnalysis.CauchySchwarz | src/components/results/CorrelationAnalysis.js:302-312 | numerator² ≤ xDenominator·yDenominator, for any centres |
| CorrelationAnalysis.PearsonSymmetric | src/components/results/CorrelationAnalysis.js:286-315 | swapping the two series leaves the coefficient unchanged |
| CorrelationAnalysis.RatioBounded | src/components/results/CorrelationAnalysis.js:312-314 | a quotient n / √p with n² ≤ p lies in [-1, 1] |
| CorrelationAnalysis.PearsonAtBounded | src/components/results/CorrelationAnalysis.js:294-314 | whatever the centres, the number the coefficient stands for lies in [-1, 1] |
| CorrelationAnalysis.PearsonBounded | src/components/results/CorrelationAnalysis.js:286-315 | Pearson's coefficient stands for a number in [-1, 1], the range the strength bands classify |
| CorrelationAnalysis.CalculatePearsonCorrelation | src/components/results/CorrelationAnalysis.js:286-315 | null iff fewer than two points; otherwise the coefficient of the extracted x and y values, or NaN when a value is NaN |
| CorrelationAnalysis.PearsonOfSeries | src/components/results/CorrelationAnalysis.js:294-314 | the means, the single accumulation loop and the quotient compute Pearson's coefficient |
| CorrelationAnalysis.Deviations | src/components/results/CorrelationAnalysis.js:297-310 | the loop yields the numerator and both denominators as deviation sums |
| CorrelationAnalysis.SwapValues | src/components/results/CorrelationAnalysis.js:290-291 | swapping x and y in every point swaps the extracted value lists |
| CorrelationAnalysis.PearsonOfPointsSymmetric | src/components/results/CorrelationAnalysis.js:286-315 | swapping x and y in every point leaves the result unchanged |
| CorrelationAnalysis.FindIndex | src/components/results/CorrelationAnalysis.js:249 | the index of the first option equal to the answer, or -1 when there is none |
| CorrelationAnalysis.NumericValue | src/components/results/CorrelationAnalysis.js:238-254 | falsy gives null; a numeric string gives its number; a non-numeric scale answer gives NaN; null otherwise only for non-scale types |
| CorrelationAnalysis.NumericValueOption | src/components/results/CorrelationAnalysis.js:248-251 | a non-numeric single-choice answer is coerced to its 0-based option index |
| CorrelationAnalysis.Label | src/components/results/CorrelationAnalysis.js:256-264 | every branch gives the answer text back |
| CorrelationAnalysis.RecordLookup | src/components/results/CorrelationAnalysis.js:180-185 | recording a row stores its answer under its participant and question and keeps every other answer |
| CorrelationAnalysis.JoinLastRowWins | src/components/results/CorrelationAnalysis.js:178-185 | after the grouping loop a participant's answer to a question is the one in the last row for that pair |
| CorrelationAnalysis.PointsOf | src/components/results/CorrelationAnalysis.js:191-211 | at most one point per participant group, each with count 1 |
| CorrelationAnalysis.AddPoint | src/components/results/CorrelationAnalysis.js:192-210 | a participant's turn appends exactly one point or none |
| CorrelationAnalysis.AggregateDataPoints | src/components/results/CorrelationAnalysis.js:266-284 | returns the values of the aggregated object the tally loop builds |
| CorrelationAnalysis.TallyAll | src/components/results/CorrelationAnalysis.js:269-281 | the forEach loop computes the tally of all points |
| CorrelationAnalysis.TallyPoint | src/components/results/CorrelationAnalysis.js:270-280 | creating a missing cell with count 0 and then bumping it is one tally step |
| CorrelationAnalysis.TallyCounts | src/components/results/CorrelationAnalysis.js:270-280 | a tally raises the point's cell count by one, keeps every other count, and appends a new key to the insertion order |
| CorrelationAnalysis.TallySum | src/components/results/CorrelationAnalysis.js:269-281 | a tally adds one to the total of the cell counts |
| CorrelationAnalysis.AggregateCounts | src/components/results/CorrelationAnalysis.js:269-281 | after n points the cell counts total n |
| CorrelationAnalysis.AggregateTotal | src/components/results/CorrelationAnalysis.js:266-284 | the aggregated cells' counts sum to the number of points |
| CorrelationAnalysis.HyphenatedLabelsMerge | src/components/results/CorrelationAnalysis.js:270 | label pairs ("a-b", "c") and ("a", "b-c") share the key "a-b-c" and so one cell |
| CorrelationAnalysis.FindQuestion | src/components/results/CorrelationAnalysis.js:164-170 | the first question with the id, or none when no question has it |
| CorrelationAnalysis.FromPoints | src/components/results/CorrelationAnalysis.js:214-227 | a coefficient iff at least two points; a heat map iff either question is single choice |
| CorrelationAnalysis.CalculateCorrelationData | src/components/results/CorrelationAnalysis.js:156-235 | the method with its loops computes the outcome function, including the three error messages |
| CorrelationAnalysis.BuildDataPoints | src/components/results/CorrelationAnalysis.js:191-211 | the loop over participant groups builds the point list, or fails when a coercion throws |
| CorrelationAnalysis.GroupByParticipant | src/components/results/CorrelationAnalysis.js:178-185 | the forEach loop builds the participant join |
| CorrelationAnalysis.RecordRow | src/components/results/CorrelationAnalysis.js:181-184 | the loop body is one join step |
| CorrelationAnalysis.PointsOfNoneStays | src/components/results/CorrelationAnalysis.js:191-211 | once a coercion has thrown, the whole pass fails |
| CorrelationAnalysis.AtMostOnePointPerParticipant | src/components/results/CorrelationAnalysis.js:178-227 | scatter points, and heat-map counts in total, never outnumber the participants |
| CorrelationAnalysis.MissingParticipantIdsMerge | src/components/results/CorrelationAnalysis.js:180-185 | rows without participant_id all fall under "undefined", so the coefficient stays null |
| CorrelationAnalysis.FewGroupsNoCoefficient | src/components/results/CorrelationAnalysis.js:214-219 | with at most one participant group there is no coefficient |
| CorrelationAnalysis.JoinOneKey | src/components/results/CorrelationAnalysis.js:180-185 | rows without participant_id produce the single key "undefined" |
| CorrelationAnalysis.JoinValid | src/components/results/CorrelationAnalysis.js:178-185 | the participant join keeps its key order and its map in agreement |
| CorrelationAnalysis.AggregateValid | src/components/results/CorrelationAnalysis.js:269-281 | the aggregated object keeps its key order and its map in agreement |
| CrossTab.ForQuestion | src/components/results/CategoryAnalysis.js:151-152 | exactly the rows of the question, never more rows than the input |
| CrossTab.WithSide | src/components/results/CategoryAnalysis.js:161 | setting `category1` (or `category2`) of a user's record leaves the other side as it was |
| CrossTab.AssignAllValid | src/components/results/CategoryAnalysis.js:157-169 | a grouping pass keeps the `userResponses` object's key order and map in agreement |
| CrossTab.UserResponsesValid | src/components/results/CategoryAnalysis.js:155-169 | the two grouping passes build a well-formed object |
| CrossTab.GroupBySide | src/components/results/CategoryAnalysis.js:157-162 | the `forEach` loop over one side's rows computes the grouping fold |
| CrossTab.AssignAllLastWins | src/components/results/CategoryAnalysis.js:157-169 | a pass gives a user a record iff they had one or have a row, sets their side to their last row's answer and leaves the other side alone |
| CrossTab.UserResponsesLastRowWins | src/components/results/CategoryAnalysis.js:155-169 | a user has a record iff some row of either side is theirs, and each side holds the answer of that side's last row |
| CrossTab.BumpCounts | src/components/results/CategoryAnalysis.js:186-192 | after a bump every cell equals the number of tabulated pairs with its keys |
| CrossTab.ValuesSnoc | src/components/results/CategoryAnalysis.js:182-183 | `Set.add` of a pair's key keeps the value list the duplicate-free first-seen list of keys |
| CrossTab.ValuesStep | src/components/results/CategoryAnalysis.js:176-194 | after one more record the value list is still the first-seen list of tabulated keys |
| CrossTab.CrossStep | src/components/results/CategoryAnalysis.js:177-193 | a record with both answers truthy bumps the cell of its trimmed key pair; any other record changes nothing |
| CrossTab.TabulateStepKeeps | src/components/results/CategoryAnalysis.js:176-194 | one loop step keeps the table and both value sets equal to their meaning over the records seen |
| CrossTab.TabulateUpToMeaning | src/components/results/CategoryAnalysis.js:176-194 | after any prefix of the records, the table and value sets mean what the loop claims |
| CrossTab.Tabulate | src/components/results/CategoryAnalysis.js:171-194 | each cell counts the users with that key pair, and each value set is the first-seen list of trimmed keys of users with both answers |
| CrossTab.RowOf | src/components/results/CategoryAnalysis.js:200-213 | a row has the row value's label and, per column value, the number of users with that key pair |
| CrossTab.BuildRow | src/components/results/CategoryAnalysis.js:200-213 | the row keeps its label and total apart from the column cells, and its total is the sum of its cells |
| CrossTab.BuildChart | src/components/results/CategoryAnalysis.js:200-213 | one chart row per row value, in order |
| CrossTab.StackedItems | src/components/results/CategoryAnalysis.js:227-230 | one stacked item per column value, with that value as data key and name |
| CrossTab.Distribution | src/components/results/CategoryAnalysis.js:216-224 | one entry per value, counting the side's rows whose trimmed answer is that value |
| CrossTab.Chart | src/components/results/CategoryAnalysis.js:196-213 | one chart row per distinct row value |
| CrossTab.TableOf | src/components/results/CategoryAnalysis.js:150-245 | the stored result has one chart row and one distribution entry per row value, and one stacked item and one distribution entry per column value |
| CrossTab.CrossAnalysis | src/components/results/CategoryAnalysis.js:141-148 | the error message iff either category has no question; only the first question of each category is used |
| CrossTab.PerformCrossAnalysis | src/components/results/CategoryCrossAnalysis.js:95-224 | the method, with one response list per side, computes the cross analysis; its rows are the corrected `Row` values that keep label and total apart from the cells (see Findings), not the as-written `RowObject` |
| CrossTab.PerformCategoryAnalysis | src/components/results/CategoryAnalysis.js:138-248 | the method filters both sides from the same response list and computes the cross analysis; its rows are the corrected `Row` values that keep label and total apart from the cells (see Findings), not the as-written `RowObject` |
| CrossTab.CellsCover | src/components/results/CategoryAnalysis.js:200-209 | summing a row's cells over all column values counts the users with the row's key |
| CrossTab.RowTotalCounts | src/components/results/CategoryAnalysis.js:200-213 | each row total is the number of tabulated users whose first answer has the row's value |
| CrossTab.ColumnTotalCounts | src/components/results/CategoryAnalysis.js:200-213 | summing one column over the rows counts the tabulated users whose second answer has the column's value |
| CrossTab.GrandTotal | src/components/results/CategoryAnalysis.js:176-213 | the row totals add up to the number of users with both answers present |
| CrossTab.StackedItemsFollowColumns | src/components/results/CategoryAnalysis.js:227-230 | `stackedItems` follows the column values one to one, in order |
| CrossTab.TabulatedValues | src/components/results/CategoryAnalysis.js:176-184 | a value list has no duplicates, and a value is in it iff it is the trimmed answer on that side of some user with both answers truthy |
| CrossTab.TabulatedByCountSnoc | src/components/results/CategoryAnalysis.js:176-194 | one more record adds its hit to the count of a key |
| CrossTab.TabulatedByUser | src/components/results/CategoryAnalysis.js:176-194 | counting tabulated keys is counting user by user |
| CrossTab.LastAnswerCounted | src/components/results/CategoryAnalysis.js:157-162 | a truthy last answer is one of the user's own rows with that trimmed answer |
| CrossTab.CountKeyByUser | src/components/results/CategoryAnalysis.js:216-219 | the rows with a trimmed answer, counted user by user |
| CrossTab.SideCountBound | src/components/results/CategoryAnalysis.js:176-224 | the users tabulated with a key are at most the raw rows with that trimmed answer |
| CrossTab.DistributionCoversRow | src/components/results/CategoryAnalysis.js:200-219 | a category-1 distribution entry counts at least the users in its chart row |
| CrossTab.DistributionCoversColumn | src/components/results/CategoryAnalysis.js:200-224 | a category-2 distribution entry counts at least the users in its chart column |
| CrossTab.AddColumn | src/components/results/CategoryAnalysis.js:206-209 | the step stores the cell under the column value and then adds the value stored there to `total` |
| CrossTab.AddColumnPlain | src/components/results/CategoryAnalysis.js:206-209 | for a column value other than "total" the step stores the cell and raises the total by it |
| CrossTab.RowObject | src/components/results/CategoryAnalysis.js:200-213 | the `dataPoint` object keeps `name` and a numeric `total` in the same key space as the column values |
| CrossTab.AgreesStep | src/components/results/CategoryAnalysis.js:206-209 | without a clash, one more column keeps the object in agreement with the row |
| CrossTab.AddColumnAgrees | src/components/results/CategoryAnalysis.js:206-209 | a column value other than "name" and "total" keeps the object in agreement with the row |
| CrossTab.RowObjectAgrees | src/components/results/CategoryAnalysis.js:200-213 | without a clash the object holds the label, one cell per column value and their sum as the total |
| CrossTab.TotalColumnDoublesTotal | src/components/results/CategoryAnalysis.js:206-209 | a column value "total" overwrites the running total: one user answering "yes" / "total" gives a total of 2 |
| CrossTab.NameColumnReplacesLabel | src/components/results/CategoryAnalysis.js:201-209 | a column value "name" replaces the row label with a count |
| DemographicAnalysis.FindQuestion | src/components/results/DemographicAnalysis.js:72-75 | a found question is in the list and matches the category and set; none found means no question matches |
| DemographicAnalysis.FindQuestionFirst | src/components/results/DemographicAnalysis.js:72-75 | `find` returns the first matching question |
| DemographicAnalysis.ForQuestion | src/components/results/DemographicAnalysis.js:81 | exactly the rows of the question |
| DemographicAnalysis.TrimAll | src/components/results/DemographicAnalysis.js:85-86 | each option trimmed, in order |
| DemographicAnalysis.CountedKey | src/components/results/DemographicAnalysis.js:91-96 | a response is counted under at most one key |
| DemographicAnalysis.TruthyKeys | src/components/results/DemographicAnalysis.js:91-96 | the counted keys are at most the rows |
| DemographicAnalysis.InitCountsValid | src/components/results/DemographicAnalysis.js:84-88 | zeroing the options builds a well-formed object |
| DemographicAnalysis.InitCountsOrder | src/components/results/DemographicAnalysis.js:84-88 | the object's keys are the trimmed options, first occurrence first |
| DemographicAnalysis.InitCountsZero | src/components/results/DemographicAnalysis.js:84-88 | every count starts at 0 |
| DemographicAnalysis.CountAllValid | src/components/results/DemographicAnalysis.js:91-96 | the counting pass keeps the object well formed |
| DemographicAnalysis.CountAllOrder | src/components/results/DemographicAnalysis.js:91-96 | a new counted value is appended to the key order |
| DemographicAnalysis.CountAllCounts | src/components/results/DemographicAnalysis.js:91-96 | each key's count grows by the number of truthy values equal to it |
| DemographicAnalysis.CountsShape | src/components/results/DemographicAnalysis.js:80-96 | after zeroing and counting, keys and counts agree with the options and the truthy values |
| DemographicAnalysis.BucketsShape | src/components/results/DemographicAnalysis.js:80-96 | every trimmed option and then every counted value gets one bucket, holding the number of rows with that value |
| DemographicAnalysis.NoQuestionNoData | src/components/results/DemographicAnalysis.js:77 | without a question of that category in the set, the result is empty |
| DemographicAnalysis.DemographicEntries | src/components/results/DemographicAnalysis.js:99-102 | the entries follow JavaScript key order over the trimmed options then the counted values, each name once, each value its count |
| DemographicAnalysis.DeclaredOptionsHaveBuckets | src/components/results/DemographicAnalysis.js:84-88 | every declared option, trimmed, gets a bucket even when no row chose it |
| DemographicAnalysis.CountedValuesHaveBuckets | src/components/results/DemographicAnalysis.js:91-96 | a truthy value outside the declared options gets a bucket of its own |
| DemographicAnalysis.TruthyKeysCover | src/components/results/DemographicAnalysis.js:91-96 | every truthy value is counted |
| DemographicAnalysis.BucketNamed | src/components/results/DemographicAnalysis.js:99-102 | a key of the object is one of the entry names |
| DemographicAnalysis.BucketsSumToTruthyRows | src/components/results/DemographicAnalysis.js:80-102 | the bucket values add up to the number of rows with a truthy value |
| DemographicAnalysis.CalculateDemographicData | src/components/results/DemographicAnalysis.js:70-103 | the method with its loops computes the demographic data |
| DemographicAnalysis.ZeroOptions | src/components/results/DemographicAnalysis.js:84-88 | the `split(',').forEach` loop sets each trimmed option to 0 |
| DemographicAnalysis.CountResponses | src/components/results/DemographicAnalysis.js:91-96 | the `forEach` loop computes the counting fold |
| DemographicAnalysis.ZeroGrid | src/components/results/DemographicAnalysis.js:148-153 | the grid has a row exactly for each primary option |
| DemographicAnalysis.ZeroRow | src/components/results/DemographicAnalysis.js:150-152 | a grid row has a cell exactly for each secondary option |
| DemographicAnalysis.CrossCountAllThrows | src/components/results/DemographicAnalysis.js:156-161 | the pass throws exactly when a complete record's primary answer is not a declared primary option; otherwise the grid keeps its rows |
| DemographicAnalysis.CellBump | src/components/results/DemographicAnalysis.js:157-160 | bumping one cell raises it by one and keeps every other cell |
| DemographicAnalysis.CrossCountAllCell | src/components/results/DemographicAnalysis.js:156-161 | without a throw, each cell grows by the number of complete records with its key pair |
| DemographicAnalysis.ZeroGridCell | src/components/results/DemographicAnalysis.js:148-167 | every cell of the initial grid reads 0, declared or not |
| DemographicAnalysis.RowItemFields | src/components/results/DemographicAnalysis.js:164-170 | the row object holds `name` and exactly the secondary options, each with its cell; `name` is the primary option unless an option is spelled "name" |
| DemographicAnalysis.RowItemValid | src/components/results/DemographicAnalysis.js:165-168 | the row object is well formed |
| DemographicAnalysis.RowItemOrder | src/components/results/DemographicAnalysis.js:165-168 | the row object's keys are `name`, then each new secondary option |
| DemographicAnalysis.MissingQuestionNoRows | src/components/results/DemographicAnalysis.js:117 | without both questions in the set there is nothing to chart |
| DemographicAnalysis.CrossThrowsIff | src/components/results/DemographicAnalysis.js:106-170 | with both questions present the analysis throws exactly when a complete record's primary answer is not a declared primary option |
| DemographicAnalysis.GridRows | src/components/results/DemographicAnalysis.js:156-170 | after a pass that did not throw, each row's cells are the counts of the complete records with that pair |
| DemographicAnalysis.CrossCells | src/components/results/DemographicAnalysis.js:106-170 | otherwise one row per declared primary option in order, each cell counting the participants whose complete record has that pair |
| DemographicAnalysis.ThrowSticks | src/components/results/DemographicAnalysis.js:156-161 | once a record has thrown, the rest of the pass does not run |
| DemographicAnalysis.CalculateCrossAnalysisData | src/components/results/DemographicAnalysis.js:106-171 | the method with its loops computes the cross analysis |
| DemographicAnalysis.InitGrid | src/components/results/DemographicAnalysis.js:148-153 | the nested `forEach` builds the zero grid |
| DemographicAnalysis.CountCross | src/components/results/DemographicAnalysis.js:156-161 | the counting loop computes the counting fold or the throw |
| DemographicAnalysis.BuildRows | src/components/results/DemographicAnalysis.js:164-170 | the `map` builds one row object per primary option |
| DemographicAnalysis.BuildItem | src/components/results/DemographicAnalysis.js:165-169 | the inner loop builds the row object |
| ItemStats.DropBreaks | src/pages/results/dist/items.js:211 | the text loses its leading run of CR/LF characters and starts with neither |
| ItemStats.CollapseBreaks | src/pages/results/dist/items.js:211 | the result holds no CR or LF and is never longer than the text |
| ItemStats.CollapseBreaksNone | src/pages/results/dist/items.js:211 | a text without line breaks is left as it is |
| ItemStats.ProcessAnswer | src/pages/results/dist/items.js:198-216 | null iff the answer is null or undefined or a NaN scale answer; scale answers become numbers, choice answers trimmed text, other types text |
| ItemStats.BlankScaleAnswerIsNaN | src/pages/results/dist/items.js:204-205 | a blank scale answer passes the `isNaN` guard but `parseFloat` makes it NaN |
| ItemStats.OtherTypesKeepText | src/pages/results/dist/items.js:212-213 | any other type keeps the answer's text unchanged |
| ItemStats.FindById | src/pages/results/dist/items.js:225 | a found question has the id; none found means no question has it |
| ItemStats.AnswersFor | src/pages/results/dist/items.js:222-239 | a question's kept answers are at most its responses |
| ItemStats.CollectAllValid | src/pages/results/dist/items.js:222-239 | the collecting pass builds a well-formed `newStats` |
| ItemStats.CollectAllEntry | src/pages/results/dist/items.js:222-239 | a question has an entry iff one of its answers was kept; the entry holds every kept answer in order and the question's type, text and category |
| ItemStats.Collect | src/pages/results/dist/items.js:222-239 | adding a response never leaves an entry without answers |
| ItemStats.CollectAll | src/pages/results/dist/items.js:222-239 | every collected entry holds at least one answer |
| ItemStats.Finite | src/pages/results/dist/items.js:257 | the non-NaN answers are at most all answers |
| ItemStats.Average | src/pages/results/dist/items.js:256-262 | an average exists iff some answer is not NaN |
| ItemStats.Finish | src/pages/results/dist/items.js:243-279 | an entry with answers is replaced by statistics whose count is its number of answers; an empty one is kept |
| ItemStats.Summarized | src/pages/results/dist/items.js:243-279 | the statistics pass keeps the keys and their order |
| ItemStats.QuestionStatsEntry | src/pages/results/dist/items.js:186-281 | a question gets statistics iff one of its answers survives `processAnswer`, and its `count` is the number of those answers |
| ItemStats.QuestionStats | src/pages/results/dist/items.js:186-281 | every entry returned is finished statistics whose `count` is its positive number of answers |
| ItemStats.KeptCounted | src/pages/results/dist/items.js:222-239 | each kept response is one of its question's answers |
| ItemStats.CountSegmentsTotal | src/pages/results/dist/items.js:269-271 | counting options adds their number to the frequency total |
| ItemStats.FrequenciesTotal | src/pages/results/dist/items.js:265-277 | the frequencies count every `;`-separated segment of every answer once |
| ItemStats.Frequencies | src/pages/results/dist/items.js:265-273 | every `;`-separated segment of every answer is a key, and every key is counted at least once |
| ItemStats.CountSegmentsKeys | src/pages/results/dist/items.js:268-271 | counting an answer's segments keeps the keys there were and adds each segment, every count at least one |
| ItemStats.CountedAfter | src/pages/results/dist/items.js:266-272 | counting one more answer keeps every count positive and makes every segment of every answer so far a key |
| ItemStats.SegmentTotalOfTexts | src/pages/results/dist/items.js:267-268 | an answer has one segment more than it has `;` characters, so there are at least as many segments as answers |
| ItemStats.FinishFrequencies | src/pages/results/dist/items.js:265-277 | a choice entry gets frequencies totalling its segments |
| ItemStats.ChoiceFrequenciesSum | src/pages/results/dist/items.js:186-281 | a choice question's frequencies add up to its segments, at least its `count` |
| ItemStats.AnswerShape | src/pages/results/dist/items.js:198-216 | a collected answer is numeric exactly when the question is a scale |
| ItemStats.SumRealBounds | src/pages/results/dist/items.js:259 | a sum of values within bounds lies within n times the bounds |
| ItemStats.AverageWithin | src/pages/results/dist/items.js:256-262 | the average lies within any bounds on the answers (1..5 on a 5-point scale) |
| ItemStats.MeanBounds | src/pages/results/dist/items.js:260 | a total of n bounded values divided by n stays within the bounds |
| ItemStats.CalculateQuestionStats | src/pages/results/dist/items.js:186-281 | the method computes the collected and summarised statistics |
| ItemStats.CollectAnswers | src/pages/results/dist/items.js:222-239 | the `forEach` loop computes the collecting fold |
| ItemStats.FinishAll | src/pages/results/dist/items.js:243-279 | the `Object.entries` loop computes the statistics pass |
| ItemStats.FinishEntry | src/pages/results/dist/items.js:244-278 | the loop body computes one entry's statistics |
| ItemStats.CountFrequencies | src/pages/results/dist/items.js:265-272 | the nested loop computes the frequencies of all answers |
| ItemStats.CountOptions | src/pages/results/dist/items.js:269-271 | the inner loop computes the count of one answer's options |
| ItemStats.GroupTotal | src/pages/results/dist/items.js:296-302 | filing one question raises the sizes of the groups by one |
| ItemStats.GroupedTotal | src/pages/results/dist/items.js:294-302 | the groups partition the questions: their sizes add up to the number of questions |
| ItemStats.GroupedMembers | src/pages/results/dist/items.js:296-302 | each question sits in the group of its own category, and only there |
| ItemStats.Grouped | src/pages/results/dist/items.js:294-302 | no category has an empty group |
| ItemStats.GroupedKeys | src/pages/results/dist/items.js:294-311 | a table over the groups has an entry exactly for each category of the questions |
| ItemStats.Shorten | src/pages/results/dist/items.js:347 | at most 33 characters; a text of at most 30 is kept, a longer one is cut to 30 plus "..." |
| ItemStats.NoInputNoCategories | src/pages/results/dist/items.js:289-292 | no questions or no statistics give `{}` |
| ItemStats.CategoryStats | src/pages/results/dist/items.js:283-378 | every entry is the category of some question, and with statistics present every question's category has an entry |
| ItemStats.CategoryMembers | src/pages/results/dist/items.js:294-372 | every category of the roll-up lists exactly the questions filed under it |
| ItemStats.RollupSum | src/pages/results/dist/items.js:311-372 | summing a figure of the roll-up over its keys is summing it over the groups |
| ItemStats.CategoryQuestionTotal | src/pages/results/dist/items.js:283-378 | the categories' `questionCount`s add up to the number of questions |
| ItemStats.GroupResponsesStep | src/pages/results/dist/items.js:321-328 | filing one question adds its responses to its category |
| ItemStats.GroupedResponses | src/pages/results/dist/items.js:311-328 | the groups' responses add up to all questions' responses |
| ItemStats.CategoryResponseTotal | src/pages/results/dist/items.js:283-378 | the categories' `totalResponses` add up to the responses of all questions |
| ItemStats.TypeDistributionTotal | src/pages/results/dist/items.js:353-368 | a category's type distribution adds up to its question count |
| ItemStats.ScaleStatsMembers | src/pages/results/dist/items.js:333-350 | `scaleStats` holds one entry per scale question of the category and no other, each text at most 33 characters |
| ItemStats.CalculateCategoryStats | src/pages/results/dist/items.js:283-378 | the method computes the category roll-up |
| ItemStats.GroupByCategory | src/pages/results/dist/items.js:296-302 | the `forEach` loop builds the grouping |
| ItemStats.BuildCategoryStats | src/pages/results/dist/items.js:311-372 | the `Object.keys` loop builds one statistic per category |
| ItemStats.SummarizeCategory | src/pages/results/dist/items.js:312-371 | the loop body computes one category's statistic |
| ItemStats.SumResponses | src/pages/results/dist/items.js:321-328 | the loop adds up the counts of the category's questions that have statistics |
| ItemStats.FormatQuestionType | src/pages/results/dist/items.js:135-156 | never empty; a type the map does not know is returned as given |
| ItemStats.FormatIgnoresCase | src/pages/results/dist/items.js:155 | the lookup ignores the case of ASCII letters |
| ItemStats.LabelsLowercase | src/pages/results/dist/items.js:138-153 | the labels hold no ASCII capitals |
| ItemStats.LabelsAreFinal | src/pages/results/dist/items.js:138-155 | no label is itself a type name, so formatting a label keeps it |
| ItemStats.FormatIdempotent | src/pages/results/dist/items.js:135-156 | formatting twice is formatting once |
| ItemStats.FrequencyRows | src/pages/results/dist/items.js:53-56 | no rows for a missing object; otherwise one row per key in key order |
| ItemStats.FrequencyRowsTotal | src/pages/results/dist/items.js:53-56 | the rows list each answer value once and carry the whole frequency total |
| ItemStats.ChoiceRowsTotal | src/pages/results/dist/items.js:53-56 | the rows of a choice question's card add up to its segment total |
| ItemStats.RespondentCountsTotal | src/pages/results/dist/items.js:607-614 | each response counts for one respondent; the object's insertion order (`order`) is the order of the unique respondents, and each count is that user's responses; `Object.entries` reads them in JavaScript key order (`Keys`), array-index ids first |
| ItemStats.RespondentCounts | src/pages/results/dist/items.js:609-612 | a well-formed object whose counts add up to the number of responses |
| ItemStats.LowResponders | src/pages/results/dist/items.js:616-619 | exactly the respondents with fewer than 80% of the question count, with their counts |
| ItemStats.LowAmong | src/pages/results/dist/items.js:617-619 | the filter keeps exactly the entries below the threshold |
| ItemStats.ChunkArray | src/pages/results/dist/items.js:647-653 | the chunks concatenate to the array, are non-empty, and all but the last have the chunk size |
| ItemStats.FlattenSnoc | src/pages/results/dist/items.js:650-651 | pushing one chunk appends its elements |
| ItemAnalysis.QuestionTypeLabel | src/components/results/ItemAnalysis.js:28-47 | a known type gets one of the table's labels; any other type is returned as given |
| ItemAnalysis.LabelsAgreeOnLowercase | src/components/results/ItemAnalysis.js:28-47 | on every non-empty type without capitals it agrees with `formatQuestionType` of items.js |
| ItemAnalysis.LabelsDiffer | src/components/results/ItemAnalysis.js:28-47 | it differs from `formatQuestionType` on a missing type and on a capitalised known type |
| ItemAnalysis.QuestionIdOf | src/components/results/ItemAnalysis.js:50-52 | `id` when truthy, `question_id` otherwise |
| ItemAnalysis.StatsRecord.constructor | src/components/results/ItemAnalysis.js:56-58 | a statistics object holds the given count, average, frequencies and list |
| ItemAnalysis.ScaleOf | src/components/results/ItemAnalysis.js:82 | seven buckets for a 7-point question, five otherwise |
| ItemAnalysis.Bucket | src/components/results/ItemAnalysis.js:85-88 | every generated bucket holds at least 1 |
| ItemAnalysis.InitialCounts | src/components/results/ItemAnalysis.js:84-94 | one bucket per scale point, each at least 1 |
| ItemAnalysis.Rescaled | src/components/results/ItemAnalysis.js:99-103 | rescaling keeps one count per bucket |
| ItemAnalysis.MaxOf | src/components/results/ItemAnalysis.js:109 | the largest count, which is one of the counts |
| ItemAnalysis.FirstIndexOf | src/components/results/ItemAnalysis.js:108-110 | the first index holding the value |
| ItemAnalysis.Corrected | src/components/results/ItemAnalysis.js:105-112 | the correction keeps one count per bucket |
| ItemAnalysis.Synthetic | src/components/results/ItemAnalysis.js:84-113 | one generated count per scale point |
| ItemAnalysis.CorrectedSum | src/components/results/ItemAnalysis.js:105-112 | after the correction the counts add up to exactly `count` |
| ItemAnalysis.SyntheticSum | src/components/results/ItemAnalysis.js:84-113 | however `Math.round` rounds, the generated buckets add up to exactly `count` |
| ItemAnalysis.InitialAtLeastScale | src/components/results/ItemAnalysis.js:84-94 | the first pass's total is at least the number of scale points |
| ItemAnalysis.ScaleRows | src/components/results/ItemAnalysis.js:90-93 | the rows are labelled "1", "2", ... with the generated counts |
| ItemAnalysis.PresentRowsKept | src/components/results/ItemAnalysis.js:66-79 | a list that is already there is never touched |
| ItemAnalysis.CompletedScale | src/components/results/ItemAnalysis.js:76-114 | a list is generated exactly under its guard, with one bucket per scale point labelled "1".."5" or "1".."7", adding up to `count` |
| ItemAnalysis.CompletedIdempotent | src/components/results/ItemAnalysis.js:55-117 | completing twice is completing once, so a second call changes nothing |
| ItemAnalysis.GetStatsForQuestion | src/components/results/ItemAnalysis.js:55-117 | null iff the table has no entry under the question's id; otherwise that same object, with its list completed in place and every other object unchanged |
| ItemAnalysis.GenerateDistribution | src/components/results/ItemAnalysis.js:84-113 | the loops compute the generated distribution |
| ItemAnalysis.CorrectTotal | src/components/results/ItemAnalysis.js:105-112 | the correction adds the difference to the first largest bucket |
| ItemAnalysis.GenerateBuckets | src/components/results/ItemAnalysis.js:84-94 | the `for` loop pushes one bucket per scale point |
| ItemAnalysis.Percent | src/components/results/ItemAnalysis.js:195 | a shown percentage is 0 when the count total is 0 |
| ItemAnalysis.PercentBounds | src/components/results/ItemAnalysis.js:195 | with a monotone rounding, a count between 0 and the total shows between 0 and 100 |
| AdminResults.ParseCsvLine | src/pages/admin/results.js:359-385 | the character loop computes the line's fields as the scan function defines them |
| AdminResults.ParseLine | src/pages/admin/results.js:359-385 | a line gives at least one field and at most one more than it has characters |
| AdminResults.NoQuotesComma | src/pages/admin/results.js:376-379 | outside quotes a comma ends the field being read |
| AdminResults.NoQuotesChar | src/pages/admin/results.js:380-383 | outside quotes any other character joins the field being read |
| AdminResults.ScanNoQuotes | src/pages/admin/results.js:364-385 | without quotes the scan is a plain split on every comma |
| AdminResults.ParseLineNoQuotes | src/pages/admin/results.js:359-385 | a line without `"` parses exactly like `line.split(',')`, one more field than it has commas |
| AdminResults.ReplacementsCommute | src/pages/admin/results.js:272-274 | the quote doubling and the comma widening commute |
| AdminResults.ReplaceCharRemoves | src/pages/admin/results.js:274 | after the widening no ASCII comma is left |
| AdminResults.ReplaceCharSame | src/pages/admin/results.js:273 | the doubling keeps a quote exactly where there was one |
| AdminResults.SafeAnswer | src/pages/admin/results.js:272-274 | an escaped answer holds no comma, and holds a quote exactly when the answer does |
| AdminResults.FormatAnswer | src/pages/admin/results.js:272-278 | a written answer holds no comma; an answer with a quote is quoted, and any other is written with its commas made full-width and nothing else changed |
| AdminResults.ScanPlain | src/pages/admin/results.js:380-383 | a run of plain text joins the field as it is |
| AdminResults.ScanEscapedQuote | src/pages/admin/results.js:369-371 | inside quotes, `""` stands for one `"` |
| AdminResults.ScanChar | src/pages/admin/results.js:380-383 | any character other than `"`, and other than `,` outside quotes, joins the field |
| AdminResults.ScanClose | src/pages/admin/results.js:372-374 | a closing quote not followed by another one ends quoting |
| AdminResults.ScanQuoted | src/pages/admin/results.js:366-375 | inside quotes, a doubled text followed by a closing quote reads back as the text |
| AdminResults.ScanOpen | src/pages/admin/results.js:372-374 | an opening quote outside quotes is dropped and starts quoting |
| AdminResults.ScanComma | src/pages/admin/results.js:376-379 | a comma outside quotes ends the field |
| AdminResults.EscapedField | src/pages/admin/results.js:270-278 | an escaped answer reads back as the answer with its commas made full-width |
| AdminResults.ReplaceCharKeeps | src/pages/admin/results.js:272-274 | a replacement neither adds nor removes any other character |
| AdminResults.ReplaceCharAbsent | src/pages/admin/results.js:272-274 | replacing a character that does not occur changes nothing |
| AdminResults.EscapedThenComma | src/pages/admin/results.js:278-283 | an escaped answer and its separating comma make one finished field |
| AdminResults.ScanJoinedOne | src/pages/admin/results.js:283 | the last answer of a line reads back as the last field |
| AdminResults.ScanFieldThen | src/pages/admin/results.js:283 | one escaped answer and a comma in front of the rest of a line read back as one field more |
| AdminResults.ScanJoined | src/pages/admin/results.js:269-283 | the escaped answers joined with commas read back field by field |
| AdminResults.ParseFormattedRow | src/pages/admin/results.js:269-283 | reading a line of escaped answers gives back every answer with its commas made full-width: writer and reader agree |
| AdminUpload.StripBomOfDownload | src/pages/admin/results.js:339-342 | the byte-order mark the download writes is dropped again when reading |
| AdminUpload.CrLfToLf | src/pages/admin/results.js:345 | the CRLF replacement never makes the text longer |
| AdminUpload.NoCarriageReturns | src/pages/admin/results.js:345 | after the newline normalisation no carriage return is left |
| AdminUpload.NewlinesUnchanged | src/pages/admin/results.js:345 | a text without carriage returns is left as it is |
| AdminUpload.CrLfUnchanged | src/pages/admin/results.js:345 | a text without carriage returns is left as it is by the CRLF replacement |
| AdminUpload.NonCommentLines | src/pages/admin/results.js:348 | exactly the lines that do not start with `#`, never more |
| AdminUpload.TextLinesClean | src/pages/admin/results.js:339-348 | no line the reader looks at holds a line break or starts a comment |
| AdminUpload.NonCommentConcat | src/pages/admin/results.js:348 | the comment filter distributes over concatenation |
| AdminUpload.AllComments | src/pages/admin/results.js:348 | comment lines only: nothing is kept |
| AdminUpload.NoComments | src/pages/admin/results.js:348 | no comment line: everything is kept |
| AdminUpload.ReadBack | src/pages/admin/results.js:339-348 | a byte-order mark, comment lines and content lines joined by line feeds read back as exactly the content lines |
| AdminUpload.SplitPartIn | src/pages/admin/results.js:348 | a part of a split holds no separator |
| AdminUpload.ContentLines | src/pages/admin/results.js:354 | exactly the lines that are not blank |
| AdminUpload.ParsedRowsAreLines | src/pages/admin/results.js:353-392 | one row per non-blank line, holding that line's fields |
| AdminUpload.ParseRows | src/pages/admin/results.js:353-392 | the reading loop with its character loop computes the rows |
| AdminUpload.FirstUuidFrom | src/pages/admin/results.js:430 | the leftmost index at or after a start where a UUID begins, or none |
| AdminUpload.IsValidUuid | src/pages/admin/results.js:425-439 | `isValidUUID` holds exactly for the strings holding a UUID somewhere |
| AdminUpload.ExtractOrGenerate | src/pages/admin/results.js:442-453 | a string holding a UUID gives a string of the UUID shape; any other gives the generated id |
| AdminUpload.ExtractLeftmost | src/pages/admin/results.js:442-453 | when there is a UUID the leftmost one is extracted, and it has the UUID shape |
| AdminUpload.InvalidIdsAreGenerated | src/pages/admin/results.js:536-541 | the upload converts only ids `isValidUUID` rejects, so a generated id is always used |
| AdminUpload.FindHeaderFrom | src/pages/admin/results.js:418-419 | the first header from an index on whose lower case is the name, or -1 |
| AdminUpload.FindHeader | src/pages/admin/results.js:418-419 | the first header whose lower case is the name, or -1 iff none is |
| AdminUpload.IdMap | src/pages/admin/results.js:467-470 | the question-id map is a well-formed object |
| AdminUpload.LastRow | src/pages/admin/results.js:467-470 | the last database row with a question id, or none |
| AdminUpload.IdMapLast | src/pages/admin/results.js:467-470 | the map holds exactly the listed question ids, each with the id of its last row |
| AdminUpload.ColumnTarget | src/pages/admin/results.js:477-493 | a column's target, when there is one, is non-empty |
| AdminUpload.QuestionIndicesValid | src/pages/admin/results.js:474-495 | `questionIndices` is a well-formed object |
| AdminUpload.MappedColumnsSound | src/pages/admin/results.js:474-495 | every mapped question sits in a column other than the respondent and timestamp columns, under its trimmed header, with that column's target |
| AdminUpload.SoundStep | src/pages/admin/results.js:475-494 | the last column either maps a question itself or leaves its entry as it was |
| AdminUpload.QuestionIndicesStep | src/pages/admin/results.js:475-494 | one column of the loop: a column other than the respondent and timestamp columns with a target is stored under its trimmed header, replacing any earlier entry of that header; any other column leaves the mapping unchanged |
| AdminUpload.MappedColumnsComplete | src/pages/admin/results.js:474-495 | every other column with a target is mapped under its trimmed header, to it or to a later column |
| AdminUpload.MappedQuestions | src/pages/admin/results.js:474-495 | the mapping is a well-formed object |
| AdminUpload.MapColumns | src/pages/admin/results.js:474-495 | the `for` loop builds the mapping |
| AdminUpload.CleanAnswer | src/pages/admin/results.js:551-554 | the cleaned answer holds no control character |
| AdminUpload.RespondentIds | src/pages/admin/results.js:528-541 | a kept row's respondent id is its trimmed cell when that holds a UUID, and the generated id otherwise |
| AdminUpload.Reached | src/pages/admin/results.js:547-549 | the entries whose column the row reaches are at most all entries |
| AdminUpload.RowRecords | src/pages/admin/results.js:547-574 | every record of a row carries the distribution, the row's respondent, the submission time and a non-empty question id |
| AdminUpload.RowRecordsShape | src/pages/admin/results.js:547-574 | a kept row yields one record per reached column, holding that column's target and cleaned cell |
| AdminUpload.TransformCount | src/pages/admin/results.js:507-578 | a skipped row contributes nothing, a kept row one record per reached column |
| AdminUpload.Transform | src/pages/admin/results.js:507-578 | every record carries the distribution, the submission time and a non-empty question id |
| AdminUpload.TransformRows | src/pages/admin/results.js:507-578 | the transform loop keeps rows in order and, in each kept row, the entries in order |
| AdminUpload.RowResponses | src/pages/admin/results.js:547-575 | the inner loop builds one row's records |
| AdminUpload.EntriesHaveTargets | src/pages/admin/results.js:561-564 | every mapped entry has a non-empty target, so the `!uuidId` skip never fires |
| AdminUpload.HandleUpload | src/pages/admin/results.js:330-578 | the handler's steps compute the upload outcome |
| AdminUpload.UploadOf | src/pages/admin/results.js:330-578 | every stored record carries the distribution, the submission time and a non-empty question id |
| AdminUpload.UploadTooFewRows | src/pages/admin/results.js:395-398 | the upload stops with too few rows exactly when fewer than two non-blank, non-comment lines remain |
| AdminUpload.UploadNoRespondent | src/pages/admin/results.js:418-424 | the upload stops for a missing respondent column exactly when no header reads `respondent_id` in any letter case |
| AdminUpload.UploadCount | src/pages/admin/results.js:507-578 | the records number the sum of what each data row contributes |
| AdminTemplate.QuestionList | src/pages/admin/results.js:180-188 | never empty: the sample question stands in for an empty list, and a non-empty list is kept |
| AdminTemplate.InstructionsAreComments | src/pages/admin/results.js:245-252 | every instruction line is a comment line, which the reader drops |
| AdminTemplate.ColumnTitle | src/pages/admin/results.js:196-201 | a title is 2 to 35 characters, quoted at both ends |
| AdminTemplate.TitleCells | src/pages/admin/results.js:195-202 | two fixed titles, then one title per question |
| AdminTemplate.AddResponse | src/pages/admin/results.js:210-229 | the loop body is one grouping step for answers and times |
| AdminTemplate.GroupResponses | src/pages/admin/results.js:208-230 | the `forEach` loop computes the answer and time groupings |
| AdminTemplate.LastResponse | src/pages/admin/results.js:220-221 | the last response of a user to a question, or none |
| AdminTemplate.AnsweredIff | src/pages/admin/results.js:216-218 | a user is answered exactly when some response is theirs |
| AdminTemplate.UserAnswersUsers | src/pages/admin/results.js:216-218 | a user is listed exactly when they have a response |
| AdminTemplate.UserAnswersLast | src/pages/admin/results.js:220-221 | per user and question the template keeps the answer of the last response, and only answered questions |
| AdminTemplate.UserTimesUsers | src/pages/admin/results.js:224-226 | a user has a stored time exactly when they have a response |
| AdminTemplate.UserTimesFrom | src/pages/admin/results.js:224-226 | a user's stored time is the time of one of their responses |
| AdminTemplate.UserTimesLatest | src/pages/admin/results.js:224-226 | with readable times, the stored time is at least every time of the user's responses: the latest is kept |
| AdminTemplate.TimeCell | src/pages/admin/results.js:261-263 | a user without a stored time gets the placeholder, and no cell is written only when a stored time cannot be converted to ISO form |
| AdminTemplate.DataLine | src/pages/admin/results.js:265-283 | a respondent line starts with the id and a comma |
| AdminTemplate.DataLines | src/pages/admin/results.js:256-284 | one line per user, in order, unless a time cannot be written; when every time can be written, the lines are written |
| AdminTemplate.UserAnswersValid | src/pages/admin/results.js:208-230 | the grouping is a well-formed object |
| AdminTemplate.DownloadTemplate | src/pages/admin/results.js:95-304 | the writer computes the template text: instructions, header, titles, then the user lines or the sample lines |
| AdminTemplate.TemplateOf | src/pages/admin/results.js:95-304 | without stored responses, or when every stored time can be written, a template is produced |
| AdminTemplate.WriteDataLines | src/pages/admin/results.js:256-284 | the loop over the users computes their lines, and a time that cannot be written stops it |
| AdminTemplate.DataLinesStop | src/pages/admin/results.js:256-284 | once a prefix of the users fails, so does the whole list |
| AdminTemplate.PlainCell | src/pages/admin/results.js:272-278 | a cell without `,` and `"` is written and read back as it is |
| AdminTemplate.DataLineFields | src/pages/admin/results.js:262-283 | a respondent line reads back as the id, the time and every answer with its commas made full-width, two more fields than questions |
| AdminTemplate.DigitsOnly | src/pages/admin/results.js:289 | a number's text holds only digits |
| AdminTemplate.ZerosOnly | src/pages/admin/results.js:289 | the padding holds only zeros |
| AdminTemplate.SampleIdPlain | src/pages/admin/results.js:287-290 | sample ids hold neither `,` nor `"` |
| AdminTemplate.EmptyCells | src/pages/admin/results.js:293-294 | empty cells are written and read back as empty cells |
| AdminTemplate.SampleLineFields | src/pages/admin/results.js:292-295 | a sample line reads back as its id, the time placeholder and one empty field per question |
| SurveyImport.NormalizeQuestionType | src/pages/api/surveys/upload.js:50-58 | a type found among the table's own entries is one of the five canonical types; anything else is rejected |
| SurveyImport.PlainKey | src/pages/api/surveys/upload.js:54 | a key of plain lower-case letters, digits and `_` is its own normal form |
| SurveyImport.RemoveNone | src/pages/api/surveys/upload.js:54 | removing white space from a text without any leaves it as it is |
| SurveyImport.NormalizeSome | src/pages/api/surveys/upload.js:50-58 | only a non-empty string whose normal form is in the table has a type |
| SurveyImport.CanonicalFixed | src/pages/api/surveys/upload.js:35-58 | every canonical type normalises to itself |
| SurveyImport.CanonicalAlias | src/pages/api/surveys/upload.js:35-47 | every canonical type is an alias of itself |
| SurveyImport.CanonicalKey | src/pages/api/surveys/upload.js:54 | every canonical type is its own normal form |
| SurveyImport.CanonicalPlain | src/pages/api/surveys/upload.js:35-47 | the canonical types are plain lower-case words |
| SurveyImport.NormalizeIdempotent | src/pages/api/surveys/upload.js:50-58 | normalising twice is normalising once |
| SurveyImport.Alias | src/pages/api/surveys/upload.js:35-47 | every alias stands for one of the five canonical types, and each canonical type for itself |
| SurveyImport.LookupAsWritten | src/pages/api/surveys/upload.js:57 | the property lookup as written agrees with the own-entry lookup on every own entry |
| SurveyImport.InheritedTypeAccepted | src/pages/api/surveys/upload.js:50-58 | the type `constructor` is accepted as written, since the lookup finds the inherited `constructor` function, while the own-entry lookup rejects it |
| SurveyImport.ConstructorKey | src/pages/api/surveys/upload.js:54 | `constructor` is its own normal form |
| SurveyImport.AliasLength | src/pages/api/surveys/upload.js:35-47 | no alias is eleven characters long |
| SurveyImport.InheritedLookup | src/pages/api/surveys/upload.js:57 | a normal form outside the table that names an inherited member is found as that member |
| SurveyImport.IsRequired | src/pages/api/surveys/upload.js:155-166 | a boolean is kept; a number is required iff it is 1; a string iff it reads `true` or `yes` in any case or is `1`; anything else, and a missing cell, is required |
| SurveyImport.RequiredIgnoresCase | src/pages/api/surveys/upload.js:162-164 | the string coercion ignores letter case |
| SurveyImport.OptionsText | src/pages/api/surveys/upload.js:180 | a falsy `options` cell gives "" |
| SurveyImport.QuestionOf | src/pages/api/surveys/upload.js:153-183 | a row gives a question iff its type normalises; the question has a canonical type and the new set's id |
| SurveyImport.QuestionOfFields | src/pages/api/surveys/upload.js:153-183 | a row is kept exactly when its type is known; the question has the canonical type, the new set's id, the coerced flag and the options as text |
| SurveyImport.QuestionsSucceed | src/pages/api/surveys/upload.js:153-183 | the mapping succeeds exactly when every row has a known type |
| SurveyImport.QuestionsInOrder | src/pages/api/surveys/upload.js:153-183 | a successful mapping yields one question per row, in order |
| SurveyImport.Questions | src/pages/api/surveys/upload.js:153-183 | a successful mapping has one question per row, each with the new set's id and a canonical type |
| SurveyImport.Classify | src/pages/api/surveys/upload.js:237-251 | always one of the five set types, with the keyword rules in their order of priority |
| SurveyImport.CategoryKeys | src/pages/api/surveys/upload.js:218-223 | the keys counted are those of the truthy categories, in order |
| SurveyImport.FirstMax | src/pages/api/surveys/upload.js:229-234 | the scan keeps an index of the entries, if any |
| SurveyImport.FirstMaxIsMax | src/pages/api/surveys/upload.js:226-234 | nothing exactly when no count is positive; otherwise an entry with the largest count, the earliest of several such |
| SurveyImport.CategoryCounts | src/pages/api/surveys/upload.js:216-223 | the category tally is a well-formed object |
| SurveyImport.GuessTypeRange | src/pages/api/surveys/upload.js:214-252 | the guess is one of the five set types, and `organizational` when no row has a category |
| SurveyImport.GuessType | src/pages/api/surveys/upload.js:214-252 | the guess is one of the five set types |
| SurveyImport.NoKeys | src/pages/api/surveys/upload.js:218-223 | no truthy category, no key |
| SurveyImport.MostFrequentKey | src/pages/api/surveys/upload.js:226-234 | the kept key is counted at least as often as every other key, and more often than every key before it |
| SurveyImport.KeyEntry | src/pages/api/surveys/upload.js:229 | a stored key has an entry |
| SurveyImport.GuessTypeMostFrequent | src/pages/api/surveys/upload.js:214-252 | a guess from a category comes from one that occurs at least as often as every other, and more often than every category before it in key order |
| SurveyImport.ScanMax | src/pages/api/surveys/upload.js:226-234 | the `for` loop computes the scan |
| SurveyImport.GuessTypeFromQuestions | src/pages/api/surveys/upload.js:214-252 | the method computes the guess |
| SurveyImport.MissingFields | src/pages/api/surveys/upload.js:110-111 | exactly the required fields the first row lacks, in the listed order |
| SurveyImport.StripExcelSuffix | src/pages/api/surveys/upload.js:125 | a trailing `.xlsx` or `.xls` is removed, and any other name is kept |
| SurveyImport.FirstBadRow | src/pages/api/surveys/upload.js:168-172 | the first row whose type is unknown |
| SurveyImport.ImportOutcome | src/pages/api/surveys/upload.js:104-205 | missing fields iff the first row lacks a required field; on success one question per row in order; aborted, after the set was created, iff some row's type is unknown |
| SurveyImport.ImportOf | src/pages/api/surveys/upload.js:104-205 | no data iff there are no rows; an import has one question per row; a given form name and type are kept, and a guessed type is one of the five set types |
| Distribute.Find | src/pages/admin/distribute.js:176 | a found set is known and has the id; none found iff no known set has it |
| Distribute.Without | src/pages/admin/distribute.js:186 | exactly the other ids remain |
| Distribute.SetsWithout | src/pages/admin/distribute.js:187 | no remaining set has the id |
| Distribute.FiltersAgree | src/pages/admin/distribute.js:185-188 | filtering the sets by id and filtering their ids leave the same ids |
| Distribute.WithoutNoDups | src/pages/admin/distribute.js:186 | removing an id keeps a duplicate-free list duplicate-free |
| Distribute.WithoutAbsent | src/pages/admin/distribute.js:186 | removing an absent id changes nothing |
| Distribute.WithoutAt | src/pages/admin/distribute.js:186 | removing a present id drops exactly its position and keeps the rest in order |
| Distribute.Swap | src/pages/admin/distribute.js:197-198 | the destructuring swap exchanges two positions and keeps the rest |
| Distribute.Move | src/pages/admin/distribute.js:191-209 | a move keeps the length |
| Distribute.MovePermutes | src/pages/admin/distribute.js:191-209 | a move only reorders the list |
| Distribute.MoveAtEnds | src/pages/admin/distribute.js:195-201 | up at the top and down at the bottom change nothing |
| Distribute.UpThenDown | src/pages/admin/distribute.js:191-209 | moving an entry up and then down again restores the list |
| Distribute.MoveLockstep | src/pages/admin/distribute.js:191-209 | moving the same position in the set list and the id list keeps them in lockstep |
| Distribute.Selection.constructor | src/pages/admin/distribute.js:174-188 | the selection starts empty and in lockstep |
| Distribute.Selection.Select | src/pages/admin/distribute.js:174-183 | a known set not chosen yet goes to the end of both lists; otherwise nothing changes |
| Distribute.Selection.Remove | src/pages/admin/distribute.js:185-188 | the id leaves both lists and the rest stay in order |
| Distribute.Selection.MoveSet | src/pages/admin/distribute.js:191-212 | both lists swap the same two positions, and the ids are only reordered |
| Distribute.MoveKeepsNoDups | src/pages/admin/distribute.js:191-209 | a move keeps a duplicate-free list duplicate-free |
| Distribute.SubmitOf | src/pages/admin/distribute.js:214-239 | refused iff the title is blank, no company is chosen or no set is chosen; otherwise the title is stored trimmed, with status `active` and 0 responses |
| Distribute.SubmitReadBack | src/pages/admin/distribute.js:113-123 | the stored ids read back through the page's own decoding as the chosen list, when no id holds a comma or surrounding white space and the joined text is not JSON |
| DistributionList.Toggled | src/components/admin/DistributionList.js:87-100 | `paused` becomes `active` and every other status `paused`; the result always offers the buttons |
| DistributionList.Offered | src/components/admin/DistributionList.js:310-330 | the buttons are offered only for a known status other than `stopped` |
| DistributionList.ToggleTwice | src/components/admin/DistributionList.js:87-100 | pressing pause/restart twice from a status that offers it restores the status |
| DistributionList.Apply | src/components/admin/DistributionList.js:310-330 | without buttons nothing changes; stop writes `stopped`; pause/restart writes a different status that still offers the buttons |
| DistributionList.RunReach | src/components/admin/DistributionList.js:310-330 | completed, stopped and expired are terminal; from any status only itself, the two offered ones and `stopped` are reachable |
| DistributionList.Run | src/components/admin/DistributionList.js:310-330 | any sequence of presses keeps a known status known, and the buttons are offered at the end only if they were at the start |
| DistributionList.StopIsFinal | src/components/admin/DistributionList.js:108-116 | once stopped, always stopped |
| DistributionList.StoredDistribution.constructor | src/components/admin/DistributionList.js:87-116 | a stored distribution holds its status |
| DistributionList.StoredDistribution.TogglePause | src/components/admin/DistributionList.js:87-100 | the stored status becomes the toggled status |
| DistributionList.StoredDistribution.Stop | src/components/admin/DistributionList.js:108-116 | the stored status becomes `stopped`, whatever it was |
| DistributionList.StoredDistribution.Press | src/components/admin/DistributionList.js:310-330 | a press writes what the page's buttons write, and nothing for a status without buttons |
| DistributionList.Progress | src/components/admin/DistributionList.js:162-166 | never above 100, and 0 for a target that is not positive |
| DistributionList.ProgressFull | src/components/admin/DistributionList.js:162-166 | for a positive target the progress is 100 exactly when the target is reached, and never negative |
| DistributionList.ProgressMonotone | src/components/admin/DistributionList.js:162-166 | more responses never show less progress |
| DistributionList.PieData | src/components/admin/DistributionList.js:169-177 | two entries, `완료` with the responses so far (missing is 0) and `미완료` with the rest, never negative, together the larger of target and responses |
| DistributionList.StatusText | src/components/admin/DistributionList.js:205-214 | a known status gets its label; any other status is shown as it is |
| DistributionList.StatusTextDistinct | src/components/admin/DistributionList.js:205-214 | different known statuses get different labels |
| DistributionList.StatusColor | src/components/admin/DistributionList.js:43-49 | a known status gets its colour, any other grey |
| ResultsIndex.RateBounds | src/pages/results/index.js:113-115 | a row whose responses lie between none and its target has a rate between 0 and 100 |
| ResultsIndex.RateSumBounds | src/pages/results/index.js:116 | the rates of such rows add up to at most 100 per row |
| ResultsIndex.AverageRate | src/pages/results/index.js:113-116 | when no row has more responses than its target, the average completion rate lies between 0 and 100 |
| ResultsIndex.MeanBounds | src/pages/results/index.js:116 | dividing a bounded total by the row count keeps the bound |
| ResultsIndex.Total | src/pages/results/index.js:112 | when no row has negative responses the total is non-negative and at least each row's responses |
| ResultsIndex.StatusCounts | src/pages/results/index.js:119-122 | every row counts once under its status: the counts add up to the rows, each count is that status's rows, and only statuses that occur are keys |
| ResultsIndex.FindDate | src/pages/results/index.js:127 | the position of the entry with the date, or none iff no entry has it |
| ResultsIndex.AddToDates | src/pages/results/index.js:127-132 | adding to a day keeps the dates, or appends a new day |
| ResultsIndex.AddToSum | src/pages/results/index.js:127-132 | adding to a day adds the row's responses to the total |
| ResultsIndex.DailyDates | src/pages/results/index.js:125-133 | one entry per distinct day, in the order the days first occur |
| ResultsIndex.DailySum | src/pages/results/index.js:125-133 | the entries add up to the total number of responses |
| ResultsIndex.DayTotalAbsent | src/pages/results/index.js:125-133 | a day on which no row was created has no responses |
| ResultsIndex.DailyEntries | src/pages/results/index.js:125-133 | each entry holds the responses of exactly the rows of its day |
| ResultsIndex.SortedDates | src/pages/results/index.js:134 | the sort keeps a duplicate-free date list duplicate-free with the same dates |
| ResultsIndex.SameEntriesDistinct | src/pages/results/index.js:134 | two positions of the sorted list hold different dates |
| ResultsIndex.DailyShape | src/pages/results/index.js:125-134 | the list is ascending by date, one entry per distinct day, each entry its day's responses, all of them the total |
| ResultsIndex.DailyPerDay | src/pages/results/index.js:125-134 | each entry of the sorted list holds the responses of exactly the rows of its day |
| ResultsIndex.AddDay | src/pages/results/index.js:126-133 | the reduce body adds to the day's entry or pushes a new one |
| ResultsIndex.DailyResponses | src/pages/results/index.js:125-134 | the reduce and the sort compute the daily list |
| ResultsIndex.Filtered | src/pages/results/index.js:157-165 | exactly the rows matching the search and the status filter, never more |
| ResultsIndex.Matches | src/pages/results/index.js:157-164 | a matching row passes the status filter, and with an empty search a row matches iff it passes the status filter |
| ResultsIndex.FilterNothing | src/pages/results/index.js:157-165 | an empty search with the `all` status keeps every row, in order |
| ResultsIndex.FilterConcat | src/pages/results/index.js:157-165 | the filter keeps order: filtering a concatenation filters each part |
| ResultsIndex.CurrentPage | src/pages/results/index.js:167-169 | the first `(page + 1) * 20` rows, or all of them |
| ResultsIndex.PagesGrow | src/pages/results/index.js:167-169 | each further page extends the list shown before |
| ResultsIndex.Paging.constructor | src/pages/results/index.js:70-73 | paging starts at page 0 with more to load and no load pending |
| ResultsIndex.Paging.LoadMore | src/pages/results/index.js:172-184 | nothing while a load is pending; otherwise the next page, `hasMore` as computed, and no load pending |
| ResultsIndex.HasMoreMeans | src/pages/results/index.js:172-184 | after a load, `hasMore` is off only when the page shows every row, and on whenever rows remain hidden |
| ResultsIndex.Categories | src/pages/results/index.js:75-78 | `전체` first, then every category once in first-seen order, with a missing category as `미분류` |
| ResultsIndex.CategoryOf | src/pages/results/index.js:75 | never empty; a row's own category is kept and a missing one becomes `미분류` |
| Dashboard.StatusChart | src/pages/index.js:107-116 | every row counts once under its status, and the chart holds the `active` and the `completed` counts, in that order |
| Dashboard.ChartWithinRows | src/pages/index.js:113-116 | the two bars never count more rows than there are |
| Dashboard.Merged | src/pages/index.js:141-157 | responses first, then distributions, each turned into its feed item; a failed fetch contributes nothing |
| Dashboard.SortActivities | src/pages/index.js:159 | the sort loop computes the newest-first order |
| Dashboard.RecentActivity | src/pages/index.js:141-161 | the merge, the sort and the cut compute the feed |
| Dashboard.TopShape | src/pages/index.js:159-161 | at most five items, all from the list, newest first |
| Dashboard.Feed | src/pages/index.js:124-161 | five of the merged items, or all of them when there are fewer, each one of the merged items, newest first |
| Dashboard.TopNewest | src/pages/index.js:159-161 | none of the items left out is newer than an item kept |
| Dashboard.FeedShape | src/pages/index.js:124-161 | the five newest of the merged responses and distributions, newest first; the items of each date are the first merged items of that date, in merged order, so a response stays ahead of a distribution of the same date |
| Dashboard.FeedTies | src/pages/index.js:141-161 | the feed's items of one date are a prefix of the merged items of that date, with responses before distributions |
| Dashboard.MergedResponsesFirst | src/pages/index.js:141-157 | in the merged list, the responses of a date precede its distributions |
| Seqs.SortStable | src/pages/index.js:159 | the sort is stable: for every date, the items of that date keep their relative order |
| Seqs.InsertWithKey | src/pages/index.js:159 | inserting an item into a newest-first list puts it after every item of its date |
| Dashboard.ResponseLinked | src/pages/index.js:142-148 | a response item links to its distribution's results |
| Dashboard.MergedLinked | src/pages/index.js:141-157 | every merged item carries the link of its kind |
| Dashboard.FeedLinks | src/pages/index.js:141-161 | every item of the feed carries the link of its kind |
| SurveySetTable.QuestionCounts | src/components/admin/SurveySetTable.js:79-82 | every fetched question row counts once, under its own set: each count is that set's rows and the counts add up to the rows |
| SurveySetTable.TypeLabel | src/components/admin/SurveySetTable.js:371-374 | a suggested type gets a label different from it; anything else is shown as it is |
| SurveySetTable.AllTypes | src/components/admin/SurveySetTable.js:377-381 | every type in use and every suggested type, each exactly once |
| SurveySetTable.AllTypesShape | src/components/admin/SurveySetTable.js:377-381 | every type in use and every suggested type is offered exactly once, the types in use first, in first-seen order |
| SurveySetTable.Rows | src/components/admin/SurveySetTable.js:638-639 | the rows are a permutation of the sets, newest first, and sets created at the same time keep their given order (the sort is stable) |
| SurveySetTable.AddForm | src/components/admin/SurveySetTable.js:184-193 | refused iff the name or the type is blank; both are stored trimmed and non-empty |
| SurveySetTable.UpdateForm | src/components/admin/SurveySetTable.js:208-217 | refused iff the name or the type is blank or no set is open; the stored row keeps its id and gets the trimmed name and type |
| SurveySetTable.UpdatedRow | src/components/admin/SurveySetTable.js:222 | the row handed to the page keeps its id and gets the trimmed name, but the type as typed |
| SurveySetTable.UpdatedRowKeepsSpaces | src/components/admin/SurveySetTable.js:208-222 | a type with surrounding white space is stored trimmed but kept untrimmed in the page's list |
| SurveySetTable.CopyName | src/components/admin/SurveySetTable.js:134-137 | the proposed copy name is the original name followed by ` (복사본)` |
| SurveySetTable.CopyForm | src/components/admin/SurveySetTable.js:262-272 | refused iff no set is chosen or the name is blank; the copy gets the trimmed name and the original's type as it is |
| SurveySetTable.CopyQuestions | src/components/admin/SurveySetTable.js:287-296 | one copied question per question of the original set |
| SurveySetTable.CopyKeepsFields | src/components/admin/SurveySetTable.js:287-296 | only the set id changes, and copying the copy back restores the original questions |
| SurveySetTable.SurveySetChange | src/pages/admin/surveys/index.js:40-57 | `add` appends, `update` replaces the rows with the id in place, `delete` keeps exactly the other rows, and any other action changes nothing |
| QuestionTable.DefaultQuestionId | src/components/admin/QuestionTable.js:62 | the proposed id of a new question is 'Q' followed by at least one character |
| QuestionTable.DefaultQuestionIdValue | src/components/admin/QuestionTable.js:62 | the digits after 'Q' read back as one more than the number of questions listed |
| QuestionTable.DefaultQuestionIdDistinct | src/components/admin/QuestionTable.js:62 | lists of different lengths propose different ids |
| QuestionTable.DefaultOptions | src/components/admin/QuestionTable.js:133-145 | a choice type keeps the options typed, text gets none, and a scale type gets its points starting at 1 |
| QuestionTable.StoredOptions | src/components/admin/QuestionTable.js:133-156 | a choice question stores its options trimmed; a text question stores no options |
| QuestionTable.ScaleOptionsFixed | src/components/admin/QuestionTable.js:133-156 | a 5- or 7-point scale question stores its scale points whatever was typed |
| QuestionTable.Savable | src/components/admin/QuestionTable.js:148 | a savable form has a non-blank id and text; blank options refuse every type but text, and a text question is savable whatever its options |
| QuestionTable.AddQuestion | src/components/admin/QuestionTable.js:147-167 | a record is stored iff the id and text are not blank and, unless the type is text, the options are not blank; id, category and text are stored trimmed, type and required flag as given, options as the save rule says |
| QuestionTable.UpdateQuestion | src/components/admin/QuestionTable.js:181-203 | an update is saved iff a question is open for editing and the same save rule holds |
| QuestionTable.ScaleNeedsOptions | src/components/admin/QuestionTable.js:148 | a scale question with blank options is refused, although its options would be replaced by the scale points |
| QuestionTable.QuestionTypeLabel | src/components/admin/QuestionTable.js:237-240 | each of the five listed types gets a label different from it; any other type is shown as it is |
| QuestionTable.PreviewChips | src/components/admin/QuestionTable.js:346-359 | no chips iff the type is text or no options are typed; otherwise one chip more than there are commas |
| QuestionTable.PreviewChipsShape | src/components/admin/QuestionTable.js:346-359 | there is one preview chip more than there are commas; each chip is its part trimmed and holds no comma |
| CompanyTable.Filtered | src/components/admin/CompanyTable.js:72-75 | the list shown holds exactly the companies whose name, or non-empty description, contains the lower-cased search term, and no more of them than were given |
| CompanyTable.Matches | src/components/admin/CompanyTable.js:72-75 | an empty search matches every company; without a description a company matches iff its lower-cased name contains the lower-cased term |
| CompanyTable.EmptySearchKeepsAll | src/components/admin/CompanyTable.js:72-75 | an empty search keeps every company, in order |
| CompanyTable.FilterConcat | src/components/admin/CompanyTable.js:72-75 | the search keeps the companies' order: filtering a concatenation filters each part |
| CompanyTable.SearchIgnoresCase | src/components/admin/CompanyTable.js:72-75 | the case of ASCII letters in the search term does not change what is kept |
| CompanyTable.StatsOf | src/components/admin/CompanyTable.js:94-101 | nothing fetched gives zero figures; otherwise the total is the number of distributions and the active and completed figures count those statuses |
| CompanyTable.StatsWithinTotal | src/components/admin/CompanyTable.js:94-101 | active plus completed distributions are never more than the total |
| CompanyTable.AddForm | src/components/admin/CompanyTable.js:153-161 | refused iff the name is blank; name and description are stored trimmed, the name non-empty |
| CompanyTable.UpdateForm | src/components/admin/CompanyTable.js:175-193 | refused iff the name is blank or no company is open; the row keeps its id and gets the trimmed name and description |
| CompanyTable.SelectionAfterDelete | src/components/admin/CompanyTable.js:202-222 | the selection is cleared iff a delete of the selected company went through; otherwise it is kept |
| CompanyTable.StatusColor | src/components/admin/CompanyTable.js:227-234 | the default colour is given iff the status is none of active, completed and cancelled |
| CompanyTable.CompanyChange | src/pages/admin/companies.js:40-56 | 'add' appends the company, 'update' replaces every row with its id and keeps the length, 'delete' keeps exactly the rows with another id, any other action changes nothing |
| ListChange.Drop | src/pages/admin/companies.js:51 | deleting keeps exactly the rows with another id, and never more rows than there were |
| ListChange.Replace | src/pages/admin/companies.js:47 | updating keeps the length and puts the new row at every position whose row has its id, leaving the others |
| ListChange.Change | src/pages/admin/surveys/index.js:40-57 | 'add' appends, 'update' replaces by id, 'delete' drops by id, any other action changes nothing |
| ListChange.DropConcat | src/pages/admin/companies.js:51 | deleting keeps the other rows in their order: it distributes over concatenation |
| ListChange.DropAbsent | src/pages/admin/companies.js:51 | deleting an id no row carries changes nothing |
| ListChange.DropKeeps | src/pages/admin/companies.js:51 | every row with another id is kept as many times as it was there |
| ListChange.AddThenDelete | src/pages/admin/surveys/index.js:40-57 | deleting a row just added removes it again, together with every earlier row of the same id |
| ListChange.UpdateThenDelete | src/pages/admin/surveys/index.js:40-57 | after an update only the new row carries its id, and deleting it then gives what deleting at once gives |
| SetIds.ArraysKept | src/pages/admin/results.js:895-924 | every decoding of the set-id column, and the options decoding, keeps a non-empty array as it is |
| SetIds.StringsAgree | src/hooks/useSurveyAnalysisData.js:41-62 | on non-empty text the results page, the analysis hook, the categories page and the demographics/correlations pages decode the ids the same way |
| SetIds.FalsyValues | src/pages/admin/results.js:895-924 | a falsy column still gives `parseIds` a one-element list of its text, while every guarded decoding gives no ids |
| SetIds.NumbersDiffer | src/hooks/useSurveyAnalysisData.js:41-62 | a non-zero number gives no ids in the analysis hook and on the distribution page, and the one-element list of its text everywhere else |
| SetIds.ObjectsDiffer | src/pages/results/dist/categories.js:94-121 | a plain object is kept by the analysis hook and the categories page but becomes the list holding "[object Object]" on the other pages |
| SetIds.GuardedIsParseIds | src/pages/results/dist/correlations.js:67-91 | on a truthy column the demographics and correlations decoding is the results page's `parseIds` |
| SetIds.OptionsSplitMore | src/pages/admin/results.js:873-892 | options text not starting with '[' is always split and trimmed, even when it starts with '{' or has no comma, where the id decoding behaves differently |
| SetIds.SplitTrimJoin | src/pages/admin/results.js:111-113 | ids without commas or surrounding white space survive joining by commas, splitting and trimming |
| SetIds.DistributeReadBack | src/pages/admin/distribute.js:113-130 | such ids, stored joined by commas, read back unchanged on the distribution page when the JSON reader refuses the text |
| SetIds.ParseIdsReadBack | src/pages/admin/results.js:895-924 | at least two such ids, not starting like JSON, read back unchanged through `parseIds` whatever the JSON reader does |
| SetIds.ParseIds | src/pages/admin/results.js:895-924 | an array is kept; text is decoded to an array unless it starts like JSON and the JSON reader returns another value; any other value, falsy ones included, is the one-element list of its text |
| SetIds.DistributeIds | src/pages/admin/distribute.js:113-130 | an array, or whatever the JSON reader makes of the text; a value that is neither text nor array gives no ids |
| SetIds.AnalysisIds | src/hooks/useSurveyAnalysisData.js:41-62 | a falsy value, a number or a boolean gives no ids; otherwise an array, the object itself, or what the JSON reader makes of JSON-looking text |
| SetIds.CategoriesIds | src/pages/results/dist/categories.js:94-121 | a falsy value gives no ids and a truthy number or boolean the list of its text; otherwise an array, the object itself, or what the JSON reader makes of JSON-looking text |
| SetIds.GuardedIds | src/pages/results/dist/correlations.js:67-91 | a falsy value gives no ids; otherwise an array or what the JSON reader makes of JSON-looking text |
| AnalysisSets.StrictIsStrongest | src/components/results/DemographicAnalysis.js:74 | set ids that are strictly equal are also equal as text and loosely equal |
| AnalysisSets.StrictEq | src/components/results/DemographicAnalysis.js:74 | two set ids are strictly equal iff they are of one type and read the same as text |
| AnalysisSets.StringEq | src/hooks/useCorrelationAnalysis.js:60 | comparing the texts of two ids of one type is comparing the ids |
| AnalysisSets.LooseEq | src/pages/results/dist/categories.js:65 | on two ids of one type the loose comparison is the strict one |
| AnalysisSets.TextAndNumber | src/pages/results/dist/categories.js:65 | the text "7" and the number 7 are loosely equal and equal as text but not strictly equal, so the three comparisons the pages use differ |
| AnalysisSets.Links | src/hooks/useSurveyAnalysisData.js:75-80 | one link per fetched set, in order, holding its position as id text and display order and the set itself |
| AnalysisSets.LinkIds | src/hooks/useSurveyAnalysisData.js:75-80 | a link's id reads back as its display order, so no two links share an id |
| AnalysisSets.ChooseSets | src/hooks/useCorrelationAnalysis.js:39-76 | a demographic set and another set are chosen iff there is at least one set |
| AnalysisSets.ChooseSetsShape | src/hooks/useCorrelationAnalysis.js:39-76 | the demographic set is the first demographic-typed one; the other set differs from it iff some set has another id, and is then the first such; without a demographic-typed set the first and the second (or the first again) are taken |
| AnalysisSets.LinksChooseAlike | src/pages/results/dist/correlations.js:137-162 | choosing among the hook's links and among the page's fetched sets gives the same two ids |
| AnalysisSets.CategoryList | src/hooks/useCorrelationAnalysis.js:79-81 | the category list has no duplicates and no empty label, and holds exactly the non-empty labels of the kept questions |
| AnalysisSets.CategoryListPrefix | src/hooks/useCorrelationAnalysis.js:79-81 | the category list keeps first-seen order: the categories of a prefix of the questions come first |
| AnalysisSets.Participants | src/hooks/useCorrelationAnalysis.js:31 | the participants are the distinct user ids of the answers, each once |
| AnalysisSets.ParticipantsPrefix | src/hooks/useCorrelationAnalysis.js:31 | participants keep first-seen order: those of earlier answers come first |
| AnalysisHooks.InitialSelection | src/hooks/useSurveyAnalysisData.js:84-89 | a set already selected is kept; otherwise, with some links, the id from the address or else the first link's set is selected |
| AnalysisHooks.InitialSelectionStable | src/hooks/useSurveyAnalysisData.js:84-89 | loading again once a set is selected keeps the selection |
| AnalysisHooks.AnalysisCategory | src/hooks/useSurveyAnalysisData.js:105 | a question's category is never empty, and is the unclassified label iff both category fields are empty or the first non-empty one is that label |
| AnalysisHooks.AnalysisCategories | src/hooks/useSurveyAnalysisData.js:102-108 | the categories are set iff some question came back; they have no duplicates and are exactly the categories of the selected set's questions |
| AnalysisHooks.SetQuestions | src/hooks/useSurveyAnalysisData.js:216-218 | the questions exposed are exactly those whose set id reads as the selected id |
| AnalysisHooks.SetResponses | src/hooks/useSurveyAnalysisData.js:220-222 | the answers exposed are exactly those whose set id reads as the selected id |
| AnalysisHooks.CategoriesOfExposed | src/hooks/useSurveyAnalysisData.js:102-108 | the categories offered are exactly those of the questions the hook exposes |
| AnalysisHooks.CountOf | src/hooks/useSurveyAnalysisData.js:154 | a response count that does not parse as an integer counts as 0 |
| AnalysisHooks.CountOfDigits | src/hooks/useSurveyAnalysisData.js:154 | a count written in decimal digits reads back as that count |
| AnalysisHooks.AverageOf | src/hooks/useSurveyAnalysisData.js:158 | a missing average reads as 0 |
| AnalysisHooks.StatOf | src/hooks/useSurveyAnalysisData.js:153-161 | an item's entry holds its parsed count and average |
| AnalysisHooks.StatFrequencies | src/hooks/useSurveyAnalysisData.js:148-151 | missing frequencies give no rows; otherwise one row per key of the frequencies object, holding that key's count |
| AnalysisHooks.BuildStatsMap | src/hooks/useSurveyAnalysisData.js:145-162 | the loop builds exactly the statistics map that `StatsMap` defines over the items |
| AnalysisHooks.StatsMapKeys | src/hooks/useSurveyAnalysisData.js:145-162 | the statistics object has one entry per question id of the items and no other |
| AnalysisHooks.StatsMapLast | src/hooks/useSurveyAnalysisData.js:153 | each entry holds the last item with its question id |
| AnalysisHooks.CorrelationDerived | src/hooks/useCorrelationAnalysis.js:28-85 | over the lists it is given: nothing is derived unless sets, questions and answers are all there; then the participants are the distinct user ids, the two sets are the choice rule's, and demographic categories are set iff a demographic-typed set was found |
| AnalysisHooks.FirstSelection | src/hooks/useSurveyAnalysisData.js:84-88 | the analysis hooks pass no initial id and cannot change the selection, so with some links the selected set is the first link's |
| AnalysisHooks.CorrelationHookFirstSetOnly | src/hooks/useSurveyAnalysisData.js:216-230 | the correlation hook as wired gets only the first set's questions and answers: every category and participant it lists comes from that set, and a demographic set other than the first offers no category at all |
| AnalysisHooks.DemographicsAmongCategories | src/hooks/useCorrelationAnalysis.js:59-83 | every demographic category offered is also among all categories |
| AnalysisHooks.DemographicDerived | src/hooks/useDemographicAnalysis.js:25-50 | nothing is derived unless sets and questions are there |
| AnalysisHooks.HooksAgree | src/hooks/useDemographicAnalysis.js:25-50 | with answers present, the demographic hook and the correlation hook pick the same demographic set and offer the same demographic categories |
| AnalysisHooks.CategoryQuestions | src/hooks/useCategoryAnalysis.js:43-47 | the questions of a category are exactly those whose category is it |
| AnalysisHooks.CategoryResponsesMeaning | src/hooks/useCategoryAnalysis.js:49-56 | an answer is kept iff it answers a question of the category |
| AnalysisHooks.CategoriesDisjoint | src/hooks/useCategoryAnalysis.js:43-47 | two different categories never share a question |
| AnalysisHooks.NoQuestionsNoResponses | src/hooks/useCategoryAnalysis.js:49-56 | a category without questions has no answers |
| ResultPages.PageSelection | src/pages/results/dist/categories.js:145-147 | a set already selected is kept; otherwise, with some links, the first link's set is selected |
| ResultPages.PageCategories | src/pages/results/dist/categories.js:65-68 | the categories listed have no duplicates and no empty label, and are exactly the categories of the questions whose set id equals the selection loosely |
| ResultPages.QueriedQuestions | src/pages/results/dist/categories.js:178-179 | the questions queried for are exactly those whose set id equals the selection strictly |
| ResultPages.FetchAll | src/pages/results/dist/categories.js:186-208 | the paging loop returns every selected answer, in order, after one query more than the number of full pages |
| ResultPages.FetchResponses | src/pages/results/dist/categories.js:169-212 | no query is made and no answer kept when no question of the set matches strictly; otherwise every selected answer is fetched, in order |
| ResultPages.LooseOnly | src/pages/results/dist/categories.js:178 | a question whose set id equals the selection only loosely lists its category but is not queried |
| ResultPages.LooseCategoriesStrictFetch | src/pages/results/dist/categories.js:65-71 | a set id kept as the text "7" and selected as the number 7 lists the questions' categories, yet their answers are never fetched |
| ResultPages.DemographicSetId | src/pages/results/dist/demographics.js:110-118 | a demographic set is chosen iff there is at least one set |
| ResultPages.DemographicCategories | src/pages/results/dist/demographics.js:131-141 | demographic categories are listed iff some set is demographic-typed |
| ResultPages.DemographicSetAgrees | src/pages/results/dist/demographics.js:110-118 | the demographics page picks the set the correlation choice calls demographic |
| ResultPages.QuestionsOf | src/pages/results/dist/correlations.js:113 | a set's questions are exactly those whose set id equals its id strictly |
| ResultPages.Organize | src/pages/results/dist/correlations.js:111-115 | every fetched set object gets its questions, and its display order is the last position at which the same object is listed |
| ResultPages.CorrelationsPage | src/pages/results/dist/correlations.js:129-183 | the participants are the distinct user ids, the two sets are the choice rule's, and demographic categories are set iff a demographic-typed set was found |
| ResultPages.PageDemographicsAmongCategories | src/pages/results/dist/correlations.js:165-183 | every demographic category of the page is among all its categories |
| ResultPages.PageMatchesHook | src/pages/results/dist/correlations.js:129-183 | on sets and questions with text ids and no legacy category field, with answers present, the page and the correlation hook run over the whole lists (the corrected hook of the Findings row) derive the same participants, choice and category lists |
| ResultPages.PageMatchesWiredHook | src/hooks/useCorrelationAnalysis.js:11-19 | the hook as wired agrees with the page when every question and answer belongs to the first set, as with a distribution of one set |
| ResultPages.HookMissesDemographics | src/hooks/useCorrelationAnalysis.js:59-67 | with the demographic set listed second, the hook as wired offers no demographic category while the page offers every category of that set (the as-written half of the Findings row) |
| ResultPages.SecondSetChosen | src/hooks/useCorrelationAnalysis.js:39-44 | a demographic set listed second, after a set of another type, is the demographic choice of both the page and the hook |
| ResultPages.PageDemographicsOf | src/pages/results/dist/correlations.js:166-175 | the page offers every non-empty category of the demographic set's questions |
| SchemaDetail.WhiteRun | table-detail-check.js:38 | the greedy white-space run of the pattern takes only white space and stops at the first other character |
| SchemaDetail.WordRun | table-detail-check.js:38 | the greedy word run of the pattern takes only word characters and stops at the first other character |
| SchemaDetail.MatchHere | table-detail-check.js:38 | a match at the start of a line captures a non-empty word |
| SchemaDetail.TableName | table-detail-check.js:38-42 | the captured table name, when there is one, is a non-empty word |
| SchemaDetail.MatchHereNeedsIfNotExists | table-detail-check.js:38 | a match always contains the words IF NOT EXISTS |
| SchemaDetail.NameNeedsIfNotExists | table-detail-check.js:38-42 | a CREATE TABLE line without IF NOT EXISTS yields no table name |
| SchemaDetail.HeaderName | table-detail-check.js:38-42 | the header form the pattern is written for captures exactly its table name |
| SchemaDetail.DropTrailingComma | table-detail-check.js:53 | the text loses at most one comma, and only at its end |
| SchemaDetail.ColumnText | table-detail-check.js:53-56 | a column is collected only when non-empty, not a `--` comment and not `(`, and is the line without its trailing comma, trimmed |
| SchemaDetail.ParseSchemaFile | table-detail-check.js:18-66 | the loop over the lines builds exactly the tables the line-by-line `Parse` function gives, and an unreadable file gives no tables |
| SchemaDetail.Step | table-detail-check.js:45-50 | no line stores a table, because the closing line has no space |
| SchemaDetail.Run | table-detail-check.js:31-59 | no run over any lines changes the tables |
| SchemaDetail.Parse | table-detail-check.js:18-66 | as written, the parser returns no tables for every file |
| SchemaDetail.PlainCreateKeepsTable | table-detail-check.js:35-43 | a CREATE TABLE line without IF NOT EXISTS starts collecting but keeps the previous table name and its columns |
| SchemaDetail.NoSpaceNoColumn | table-detail-check.js:45 | a line with no space that opens nothing changes nothing |
| SchemaDetail.RunColumnsClean | table-detail-check.js:53-56 | every collected column stays non-empty, free of `--` comments and not `(` over any run |
| SchemaDetail.ClosingLine | table-detail-check.js:47-50 | on a closing line the written parser does nothing, while the intended one stores the table under its name with the columns read and stops collecting |
| SchemaDetail.FixedRunValid | table-detail-check.js:31-59 | the intended parser keeps the tables a valid dictionary |
| SchemaDetail.OneTableBlock | table-detail-check.js:35-58 | the intended parser stores a block of header, one column line and closing line under its name with that one column |
| SchemaDetail.OneTableBlockLost | table-detail-check.js:35-58 | the written parser loses that same block |
| SchemaDetail.ColumnKind | table-detail-check.js:103-121 | the reported type is never "object": it is the `typeof` of non-objects, "unknown (null)" exactly for null and "array" exactly for arrays |
| SchemaDetail.Describe | table-detail-check.js:103-121 | one column per key of the sample, in key order, each with the kind of its value |
| SchemaDetail.DescribeNames | table-detail-check.js:103 | the columns name every key of the sample exactly once |
| SchemaDetail.TableStructure | table-detail-check.js:69-127 | no structure iff the probe fails; an error iff the probe succeeds and the sample query fails; a sample, the first row, iff both succeed and a row came back; columns only with a sample |
| SchemaSimple.ExpectedSchemaShape | table-simple-check.js:17-58 | every expected table has one type per column, and its primary and foreign keys are among its columns |
| SchemaSimple.Missing | table-simple-check.js:89 | the missing columns are exactly the expected ones the table lacks |
| SchemaSimple.Extra | table-simple-check.js:97 | the extra columns are exactly the table's ones not expected |
| SchemaSimple.NoDiffIffSameColumns | table-simple-check.js:88-100 | both differences are empty iff the expected and the actual columns are the same set |
| SchemaSimple.MissingConcat | table-simple-check.js:89 | the missing columns keep the expected order |
| SchemaSimple.ExtraConcat | table-simple-check.js:97 | the extra columns keep the table's own order |
| SchemaSimple.AllMissing | table-simple-check.js:89 | against a table sharing no column, every expected column is missing, in order |
| SchemaSimple.CheckTable | table-simple-check.js:61-112 | inaccessible iff the query fails; empty iff it succeeds with no row; otherwise compared against the first row, whose keys are the actual columns, each once, with the missing and extra columns as the two differences define them |

## Left out

- Database access: every query, insert, update, delete and remote call is left out. Its result is an input of the model. This includes the chunked inserts with retries, the response pagination as network calls and the calls to the results API.
- Console output, alerts, success messages and their `setTimeout` clearing are left out; where they mark an outcome, the model keeps the outcome only.
- React scheduling is left out: when effects run, stale closures, and the leaked `setInterval` of the item statistics page. Each effect is modelled as a function of the state it reads. This covers the categories page's effect that copies the address's set id into the selection.
- File and request plumbing are foreign library calls and are left out: `FileReader`, `Blob` and the anchor download of `downloadCSV`, multer and the spreadsheet reader, and the request handlers of the upload endpoint.
- Randomness is left out: `createUUID`, `generateRandomResponses`, `generateToken`, the random chips and rates of the company table, and the generate branch of `extractOrGenerateUUID`. The generated UUID is a parameter.
- Floating point is not modelled. Means and ratios are exact reals or exact decimals, `Math.sqrt` is kept symbolic, and `Math.round`, `toFixed` and date formatting are parameters or left out. NaN is modelled as a value of its own, where `Number`, `parseFloat` and `isNaN` give it; Infinity is not modelled, and a division by zero is excluded by a precondition or left out.
- Dates are the integer times they denote. `calculateRemainingDays` and the default end dates depend on the clock and date-fns, and are left out.
- `toLowerCase` is modelled for ASCII letters only.
- `JSON.parse` is the parameter `parse`; a text it refuses is `None`.
- `sort` calls are modelled as stable sorts that return the sorted sequence; the in-place reordering of the JavaScript array is not modelled.
- Dead code is left out: `normalizeResponse` calls an undefined function and is never invoked. The empty statistics stubs of the analysis-data hook and of the item table return `{}`. The `totalResponses` sum of the hook's `fetchItemsData` is never used.
- The error paths of the response paging loop and the outer `catch` branches that only log are left out. In `getTableStructure` the outer `catch` returns `exists: false` only when a call throws.
- `compareSchemaWithDatabase` and `checkAllTables` only print the comparisons of the two schema-check scripts, and are left out. So is `check-schema.js`, which is pure I/O.
- The chart components, the layout, navigation and dialog components, and the fetch-only cross-category page are left out. They only render or fetch what the modelled code computes.
- Functions that read `response_value` or `participant_id` where the stored answers carry `answer` and `user_id` are modelled with the fields they actually read, as parameters.
- ItemStats.ChunkArray: requires a positive chunk size for a non-empty array, because with a size of 0 or less the source's loop never ends.
- ItemStats.Average: gives the exact mean; the two-decimal string that `toFixed(2)` makes of it is not modelled.
- `questionResponseRates` in items.js only feeds a percentage string for display, and is not modelled.
- ItemAnalysis.QuestionTypeLabel: looks up only the table's own keys; a type spelled like an inherited `Object` property (`constructor`) would give a function in JavaScript.
- ItemStats.FormatQuestionType: looks up only the table's own keys, like `QuestionTypeLabel`.
- DistributionList.StatusColor: looks up only the table's own keys; a status spelled like an inherited `Object` property (`constructor`, `toString`) would give that function in JavaScript instead of grey.
- ItemStats.Shorten: strings are sequences of Unicode scalar values, while JavaScript's `length` and `substring` count UTF-16 code units, so a text with characters outside the Basic Multilingual Plane (emoji) is cut at a different place and the bound of 33 holds in scalar values, not in code units.
- AdminTemplate.ColumnTitle: counts the title in Unicode scalar values, like `ItemStats.Shorten`, where `substring(0, 30)` counts UTF-16 code units; the bounds of 2 to 35 hold in scalar values.
- ItemAnalysis: `Math.round` is a parameter (`round`), and the weights are exact reals, not floating point.
- The upload handler's database work is not modelled: fetching the questions (its list is the parameter `db`, and its error path is left out), the delete call, `validateResponse` and the chunked insert. The generated ids and the submission time are parameters.
- The "no mapped questions" stop in the upload handler only raises an alert, so the model keeps it as an outcome and leaves out the alert.
- The template writer's database reads are not modelled. That covers the question query and the paged response query; their results are the parameters `qs` and `rs`. `downloadCSV` and the file download are left out too.
- Date parsing (`new Date(..)`) and `toISOString` are the parameters `time` and `iso` of the template writer; an ISO conversion that throws is `None`, which ends the download.
- The survey upload endpoint's request handling is not modelled: multer, the method and file checks, reading the workbook and the database inserts. The rows are given as already-read objects, and the new set's id is a parameter. The question-insert error path, with its rollback delete, is also left out.
- ResultsIndex.AverageRate: holds only for a non-empty list with positive targets; JavaScript's NaN and Infinity for an empty list or a zero target are not modelled.
- ResultsIndex.Paging.LoadMore: treats the 500 ms `setTimeout` as run to completion; a second call before the timer fires is the pending case.
- ResultsIndex: `format(new Date(..), 'yyyy-MM-dd')` and the date comparison of the sort are the parameters `dayOf` and `rank`.
- Dashboard: the count queries of the home page's statistics cards are database reads only, and are not modelled. Dates are the integer times they denote; an unreadable date (NaN in the comparator) is not modelled.

- The number grammar of `Number`, `parseFloat` and `parseInt` covers signed decimal literals with an optional fraction and exponent. Hexadecimal, octal and binary literals (`0x1A`, `0o17`, `0b11`) and `Infinity` are not recognised; in the model `Number` gives NaN for them, and `parseInt` reads only the leading `0` of a `0x` literal.
- ItemStats.ProcessAnswer: a scale answer such as `0x10` or `Infinity` passes `isNaN` in JavaScript and is kept, as `parseFloat` reads it (0 and Infinity); the model treats it as NaN and drops it.
- CorrelationAnalysis.NumericValue: a value such as `0x10` or `Infinity` is numeric for `Number` in JavaScript; the model treats it as not numeric.
- AnalysisSets.LooseEq: a text id such as `0x10` compared with the number 16 is loosely equal in JavaScript; the model compares only decimal texts.
- AnalysisHooks.CountOf: `parseInt` of a `0x` text reads it as hexadecimal in JavaScript; the model reads the leading `0` only.
- JsCore.NumToString: writes every number in plain decimal notation. JavaScript switches to exponent notation at 1e21 and below 1e-6 (`String(1e21)` is `1e+21`).
- Distribute.Move: an index outside the list leaves it unchanged. In the source an `up` move with an index beyond the end, or a `down` move with a negative index, would write past the end or at index -1 of the copy; the page passes only indices of listed sets.
- Counting objects (`obj[key] = (obj[key] || 0) + 1`) are modelled as dictionaries with only their own keys. In JavaScript a key spelled like an inherited `Object.prototype` member (`constructor`, `toString`, `__proto__`, …) first reads the inherited value, so the count becomes a string or the assignment changes the prototype. The members below count such keys like any other key.
- CrossTab.Tabulate: the cross-tabulation objects of src/components/results/CategoryAnalysis.js:184-192 and src/components/results/CategoryCrossAnalysis.js:162 find an inherited member for a value such as `constructor`; the model starts that cell at zero.
- ItemStats.Frequencies: the option counts of src/pages/results/dist/items.js:270 count an inherited key from zero in the model.
- ItemStats.TypeCounts: the `typeDistribution` counts of src/pages/results/dist/items.js:357 count an inherited key from zero in the model.
- DemographicAnalysis.CountAll: the answer counts of src/components/results/DemographicAnalysis.js:94 count an inherited key from zero in the model.
- SurveyImport.CategoryCounts: the category tally of src/pages/api/surveys/upload.js:221 counts an inherited key from zero in the model.
- SurveyImport.GuessType: never sees the string count JavaScript makes for a category such as `constructor`, which the scan for the largest count then compares as a string.
- AdminUpload.IdMap: the question-id map of src/pages/admin/results.js:466-468 has only its own keys in the model.
- AdminUpload.ColumnTarget: finds no target for a header such as `constructor`, where JavaScript finds the inherited function in the question-id map and maps the column to it.
- ResultsIndex.StatusCounts: the status counts of src/pages/results/index.js:120 count an inherited key from zero in the model.
- Dashboard.StatusChart: the status counts of src/pages/index.js:109 count an inherited key from zero in the model.
- SurveySetTable.QuestionCounts: the per-set counts of src/components/admin/SurveySetTable.js:81 count an inherited key from zero in the model.

## Findings

| source | as written | input that shows it | evidently intended | confidence | as-written member | corrected member |
|---|---|---|---|---|---|---|
| table-detail-check.js:45-50 | the closing test `trimmedLine === ');'` sits inside the branch that requires a space, so no table is ever stored and the parser returns `{}` for every file | the lines `CREATE TABLE IF NOT EXISTS t (`, `id UUID,`, `);` | the closing line stores the collected columns under the table name | not executed | SchemaDetail.OneTableBlockLost | SchemaDetail.OneTableBlock |
| src/pages/api/surveys/upload.js:57 | the alias table is looked up as an object property, so a type spelled like an inherited `Object` member is accepted and yields a function instead of a type | the question type `constructor` | only the table's own aliases are accepted, and any other type is rejected | not executed | SurveyImport.InheritedTypeAccepted | SurveyImport.NormalizeQuestionType |
| src/components/results/CategoryAnalysis.js:200-213 | the column cells are written into the same object as `name` and `total`, so a column value `total` overwrites the running total, and a value `name` overwrites the row label; src/components/results/CategoryCrossAnalysis.js:176-186 builds its rows the same way | one user answering `yes` in the first category and `total` in the second: the row reports a total of 2 | the row keeps its label and total apart from its cells | not executed | CrossTab.TotalColumnDoublesTotal | CrossTab.BuildRow |
| src/hooks/useSurveyAnalysisData.js:216-230 | the data hook hands `useCorrelationAnalysis` only the questions and answers of the selected set, which is the first set and cannot be changed from that hook, so the demographic categories are looked up among the first set's questions only | two sets listed as B (no type) then A (`demographic`), with a question of A in category `age`, a question of B and answers to both: the hook offers no demographic category, while the correlations page offers `age` | the hook derives its participants and categories from all questions and answers of the distribution, as the correlations page does | not executed | ResultPages.HookMissesDemographics | ResultPages.PageMatchesHook |
