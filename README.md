# Road-site safety pipeline: a Dafny model

This project models the core of the road-site safety monitor. The monitor has three stages:

1. **Ingestion** (`test.py`). Site photographs go to a vision service in batches. The service's text reply is cleaned of markdown fences and split into JSON blocks. Each block is paired with an image by position and normalised into a record filed under the image's file name. Every record is then written to two SQLite tables:
   - `Sites`: one row per distinct site name, with an autoincrement `Site_ID`;
   - `Violations`: one row per detection.
2. **Analytics** (`app.py`). These are the Python post-processing steps of three Flask endpoints:
   - `/high_risk_areas`: per-site counts and a risk score;
   - `/violation_trends`: counts per time-of-day slot;
   - `/compliance_rates`: per-site compliance rate.
3. **Dashboard** (`ppe-dashboard/src/App.js`). These are the data computations of the React dashboard:
   - the bar and pie counters;
   - the weighted site compliance score;
   - the per-day trend;
   - the filter chain;
   - the lists of distinct values for the selectors.

Modules, one per concern:

- `TextOps` (textops.dfy) covers the string operations of the parser:
  - `re.sub` fence removal as one left-to-right scan;
  - `str.strip`;
  - `re.split` on a literal separator;
  - `os.path.basename`.
- `Json` and `Dicts` give JSON values and Python dicts. A dict is an insertion-ordered association list, because iteration order decides which site gets which id. Its operations are `get`, `d[k] = v`, `update` and the `d[k] = d.get(k, 0) + c` idiom.
- `ResponseParser` models `parse_json_responses`:
  - the specification function is `ParseSpec`;
  - the loop is the method `ParseBlocks`;
  - `json.loads` is a parameter `decode`.
- `BatchAnalysis` models `analyze_images`:
  - `Analyze` is a left fold over the batches;
  - the loop is the method `AnalyzeImages`;
  - image encoding, the vision service and `json.loads` are parameters (`Services`).
- `SiteStore` models `insert_violations`:
  - the tables are the class `Database`, whose methods append to its `sites` and `rows` fields;
  - the value-level function `InsertSpec` specifies those methods;
  - `Valid` states what the schema and the inserts keep true.
- `HighRiskAreas`, `ViolationTrends` and `ComplianceRates` model the three endpoints:
  - the SQL query is a function over the rows;
  - the Python loop is a method proved equal to a specification function.
- `Dashboard` models the dashboard computations. Each `forEach` loop is a method proved equal to a left fold. The filter chain and the distinct lists are functions.

Where the system's documented intent and the code disagree, the model follows the code:

- The parser does not lower-case or validate `risk_level`; values are stored as the reply gives them.
- A block that decodes to a JSON value other than an object (an array of objects, say) is not split. Calling `.get` on it raises, and the whole parse returns `{}`.
- Batch results are merged with `dict.update`, so a later batch overwrites an earlier batch's key.
- Batches are not isolated from each other. The first exception ends `analyze_images` with `{"error": message}`, and the results of earlier batches are discarded.
- `insert_violations` commits once, at the end. One image that cannot be stored rolls back every image of the run (`SiteStore.Database.InsertViolations`); the other images are not stored on their own.
- Normalisation is not idempotent. A record that is normalised, written back and normalised again loses its location details (`ResponseParser.RenormalizeLosesLocation`).
- Fence removal is a single pass. It does not remove every fence, because deleting one can join the text around it into a new one (`TextOps.FenceCanSurvive`).
- In `/violation_trends`, a parsed row whose risk level is not `compliant`, `medium`, `high` or `total` raises `KeyError`. The request then fails; there is no "unknown" bucket. A row whose level is `total` counts twice in its slot's total.
- `/compliance_rates` keys its result by site name. Two sites with the same name, which happens for sites whose name is NULL, are merged into one entry (see Findings).

## Model

| member | source | states |
|---|---|---|
| TextOps.StripFences | test.py:142 | fence removal never lengthens the text |
| TextOps.StripFencesWrapped | test.py:142 | a JSON text wrapped in an opening and a closing fence comes back bare when no fence starts inside it |
| TextOps.StripFencesNoFence | test.py:142 | text in which no fence starts is left unchanged |
| TextOps.FenceCanSurvive | test.py:142 | the single pass can leave an opening fence behind: "```j\n```son\n" + x becomes "```json\n" + x |
| TextOps.Strip | test.py:142 | the result is the slice of the input after its leading whitespace, with no whitespace at either end, and everything after it is whitespace; all-whitespace text gives "" |
| TextOps.Split | test.py:145 | splitting gives at least one block |
| TextOps.SplitJoin | test.py:145 | joining the blocks with the separator gives the text back |
| TextOps.SplitPartsFree | test.py:145 | no block contains the separator |
| TextOps.SplitNoSeparator | test.py:145 | text without the separator is a single block |
| TextOps.SplitFirstCut | test.py:145 | the first block ends at the leftmost occurrence of the separator and the rest is the split of what follows it; there is one block iff the separator does not occur |
| TextOps.SplitOverlappingSeparator | test.py:145 | the separator overlaps itself in "\njson\njson\n", which splits into "" and "json\n" |
| TextOps.Basename | test.py:156 | the basename is a suffix of the path, contains no '/', and is preceded by '/' when shorter than the path |
| ResponseParser.Blocks | test.py:141-145 | the blocks, joined with "\njson\n", are the cleaned and stripped reply |
| ResponseParser.ParseJsonResponses | test.py:137-181 | the returned dict is `ParseSpec` of the reply's blocks and the paths |
| ResponseParser.ParseBlocks | test.py:148-178 | the loop over the zipped pairs computes `ParseSpec`, returning `{}` at the first non-object block |
| ResponseParser.ParseFilesUnderImageId | test.py:156-172 | every stored record's image id equals the key it is filed under |
| ResponseParser.ParseKeys | test.py:151-172 | without non-object blocks, a basename is a key iff some position pairs a path with that basename with a block that decodes |
| ResponseParser.ParseKeysFromPaths | test.py:151-172 | every key is the basename of one of the paths |
| ResponseParser.ParseBound | test.py:151 | there are no more keys than paths and no more than blocks |
| ResponseParser.ParseValue | test.py:151-172 | the record under a key is the one from the last pair that files an object under it |
| ResponseParser.ParseNonObjectEmpties | test.py:179-181 | one paired block decoding to a non-object empties the whole result |
| ResponseParser.NormalizeDefaults | test.py:159-170 | a reply object without the expected keys gets "unknown", "unknown", "", "unavailable" and [] |
| ResponseParser.NormalizeViolationsList | test.py:167-170 | a `violations` value that is not a list becomes [] |
| ResponseParser.RenormalizeLosesLocation | test.py:164 | normalising a written-back record again loses its location details |
| BatchAnalysis.Batches | test.py:190-191 | the batches are non-empty, concatenate to the path list and have `batch_size` paths each, except possibly the last |
| BatchAnalysis.SentPaths | test.py:193-196 | the sent paths are a subsequence of the batch holding exactly the paths whose image encodes, each as many times as in the batch |
| BatchAnalysis.AnalyzeImages | test.py:184-228 | the result is `Analyze`: an error for batch size 0, `{}` for a negative size, otherwise the fold of the batches |
| BatchAnalysis.CallBatch | test.py:190-220 | one batch: no call when nothing encodes, the call's error, or the parsed reply merged with `update` |
| BatchAnalysis.FailureDiscards | test.py:226-228 | a failing call ends the run with its error, discarding earlier batches |
| BatchAnalysis.SkippedBatchMakesNoCall | test.py:198-200 | a batch none of whose images encodes leaves the result unchanged, whatever the service would answer |
| BatchAnalysis.LaterBatchOverwrites | test.py:219-220 | after a batch, a key it files holds its record; every other key keeps its earlier record |
| BatchAnalysis.AnalyzeKeys | test.py:184-224 | every key of the result is the basename of one of the paths |
| BatchAnalysis.UnsentImageFiled | test.py:219 | as written: with two paths where only the second encodes, the reply is filed under the first, unsent image, and the sent image gets no record |
| BatchAnalysis.SentKeys | test.py:193-219 | corrected: every key names an image that was sent |
| BatchAnalysis.DefaultBatchSizeUnaffected | test.py:184 | with `batch_size=1`, the code as written and the corrected pairing agree |
| SiteStore.Bind | test.py:349-358 | binding succeeds iff the value is not a list or dict and any integer fits in 64 bits; strings are stored as given, `None` as NULL |
| SiteStore.Subscript | test.py:356-357 | `v[key]` succeeds iff `v` is a dict holding the key, and then yields that value |
| SiteStore.Lookup | test.py:335-336 | a name is found iff it is not NULL and some site has it; the id returned belongs to such a site |
| SiteStore.Database.constructor | test.py:22-49 | a new database has empty tables and zero counters |
| SiteStore.Database.FindOrInsertSite | test.py:334-343 | the new state and id are `ResolveSite` of the old state |
| SiteStore.Database.InsertImage | test.py:332-358 | succeeds iff `ImageSpec` does; on success the tables are `ImageSpec` of the old tables |
| SiteStore.Database.AppendRows | test.py:346-358 | succeeds iff `AddRows` does; on success the tables are `AddRows` of the old tables |
| SiteStore.Database.InsertViolations | test.py:324-362 | commits iff `InsertSpec` succeeds; on failure the tables are as before the run |
| SiteStore.MakeRowFields | test.py:349-358 | a detection yields a row iff it is insertable; the row carries the next id, the site id, the file name, the timestamp, reason and risk level |
| SiteStore.AddRowsOk | test.py:346-358 | step 3 succeeds iff every detection is insertable |
| SiteStore.AddRowsAppends | test.py:347-358 | step 3 appends exactly one row per detection, leaving the sites alone |
| SiteStore.AddRowsRow | test.py:349-358 | the row appended for detection j is its `MakeRow` under id lastRowId + j + 1 |
| SiteStore.ResolveExisting | test.py:335-339 | an existing name resolves to its own site and inserts nothing |
| SiteStore.ResolveFresh | test.py:340-343 | NULL or an absent name gets a new site whose id exceeds all earlier ids |
| SiteStore.ResolveValid | test.py:334-343 | resolving keeps the tables valid, keeps rows and existing sites, and yields the id of a site with that name |
| SiteStore.ResolveTwice | test.py:334-343 | two lookups give the same id iff the names are the same non-NULL text |
| SiteStore.AddRowsValid | test.py:345-358 | appending an image's rows for an existing site keeps the tables valid |
| SiteStore.ImageValid | test.py:332-358 | storing one image keeps the tables valid |
| SiteStore.ImageAppends | test.py:332-358 | one image adds at most one site and exactly one row per detection, and only appends |
| SiteStore.ImageRows | test.py:347-358 | row j of an image is detection j, with its file name, timestamp, resolved site id, reason and risk level |
| SiteStore.ImageWithoutDetections | test.py:334-346 | an image without detections still registers its site and adds no row |
| SiteStore.ImageOk | test.py:332-358 | storing an image succeeds iff its site name and each detection can be stored |
| SiteStore.InsertAllOk | test.py:328-358 | the loop succeeds iff every image can be stored |
| SiteStore.InsertCommits | test.py:324-361 | the run commits iff the analysis succeeded and every image can be stored |
| SiteStore.InsertAllValid | test.py:328-360 | a committed run keeps the tables valid and only appends to them |
| SiteStore.InsertValid | test.py:324-361 | the same for `insert_violations` on an analysis result |
| HighRiskAreas.LevelsWithinTotal | app.py:66-69 | compliant + medium + high never exceeds the site's row count |
| HighRiskAreas.SummariesCoverRows | app.py:64-72 | in valid tables the groups' totals add up to the number of violation rows: each row is counted once, under its own site |
| HighRiskAreas.SortByHigh | app.py:73 | the order is non-increasing in `high` and a permutation of the groups |
| HighRiskAreas.GetHighRiskAreas | app.py:80-105 | one entry per site: entry i is the area built from query row i |
| HighRiskAreas.RiskScoreMonotoneInHigh | app.py:88-91 | with the other counts fixed, one more high-risk row never lowers the score |
| HighRiskAreas.HighRowRaisesScore | app.py:64-91 | recording one more high-risk row for a site never lowers that site's score |
| HighRiskAreas.RiskScoreRange | app.py:88-91 | the unrounded score lies in [0, 100]; it is 0 without medium or high rows and 100 iff every row is high |
| HighRiskAreas.AreasScoreRange | app.py:80-103 | every entry's score lies in [0, 100] |
| HighRiskAreas.AreasPerSite | app.py:64-74 | the response is a permutation of the per-site groups, non-increasing in `high` |
| HighRiskAreas.SiteWithoutRows | app.py:71-91 | a site without rows is listed with all counts 0 and score 0 |
| ViolationTrends.SlotOf | app.py:141-149 | each hour lies in exactly one slot, the one chosen |
| ViolationTrends.Bump | app.py:152-153 | incrementing succeeds iff the key is one of the four counters; the named counter then grows by one and the other three keep their values |
| ViolationTrends.GetViolationTrends | app.py:113-155 | the loop computes `Tally`, stopping at the first exception |
| ViolationTrends.TallyOkIff | app.py:131-153 | the request succeeds iff every row's timestamp is a string and, when it parses, its level is a counter name |
| ViolationTrends.TallyCounts | app.py:151-153 | each slot's counter counts that slot's rows at that level; the total counts every parsed row of the slot, plus rows whose level is "total" |
| ViolationTrends.SlotsPartitionRows | app.py:141-149 | the four slots together count every parsed row once |
| ViolationTrends.TotalsCountParsedRows | app.py:136-153 | when no level is "total", the four totals add up to the rows whose timestamp parses |
| ComplianceRates.SiteOf | app.py:166 | a row joins iff some site has its Site_ID |
| ComplianceRates.JoinKeys | app.py:164-167 | the keys are exactly the (Site_ID, Risk_Level) pairs of the rows that join |
| ComplianceRates.Groups | app.py:163-168 | one group per distinct key of the joining rows, in first-row order; each counts the rows with its key (at least one) and carries its site's name; every joining row has its group |
| ComplianceRates.GetComplianceRates | app.py:170-194 | the result is `ComplianceSpec` of the tables |
| ComplianceRates.CollectGroups | app.py:175-186 | the first loop computes `Collect` of the groups |
| ComplianceRates.AddRates | app.py:189-192 | the second loop gives every entry its rate |
| ComplianceRates.CollectKeys | app.py:182-183 | the keys of `site_data` are the groups' site names |
| ComplianceRates.ListedIffViolations | app.py:163-186 | a name is listed iff some row joins with a site of that name |
| ComplianceRates.RatesInRange | app.py:189-192 | every unrounded rate lies in [0, 100] |
| ComplianceRates.QueryNameLevelsDistinct | app.py:164-167 | with distinct site names, no two groups share a name and a level |
| ComplianceRates.CollectLevels | app.py:186 | the levels under a name are those of the groups with that name |
| ComplianceRates.CollectTotals | app.py:185-186 | when no two groups share a name and a level, each total is the sum of its level counts |
| ComplianceRates.AllCompliantRate | app.py:185-192 | under the same condition, a name all of whose groups are compliant has rate 100 |
| ComplianceRates.TablesAllCompliantRate | app.py:163-192 | from the tables, under the schema's unique names: a listed non-NULL name all of whose joining rows are compliant has rate 100, however many NULL-named sites exist |
| ComplianceRates.TotalCountsJoinedRows | app.py:163-185 | from the tables: a listed name's `Total_Violations` is the number of rows that join with a site of that name, even when sites share the name |
| ComplianceRates.SharedNameUnderReports | app.py:182-186 | as written: two NULL-named sites with 3 and 1 compliant rows report total 4 and rate 25 |
| ComplianceRates.CollectSummedTotals | app.py:185-186 | corrected: each total is the sum of its level counts, whatever the groups |
| ComplianceRates.SummedAllCompliant | app.py:185-192 | corrected: a name all of whose rows are compliant has rate 100, whatever the groups |
| Dicts.AddTo | ppe-dashboard/src/App.js:34 | the key's count grows by c and every other key keeps its count; the sum of the counts grows by c |
| Dashboard.BarCounts | ppe-dashboard/src/App.js:32-35 | the loop computes `BarSpec` |
| Dashboard.BarCountsExact | ppe-dashboard/src/App.js:32-35 | each key's count is the number of rows whose exact risk level is that key |
| Dashboard.BarCountsSum | ppe-dashboard/src/App.js:32-35 | the counts add up to the number of rows |
| Dashboard.ToLower | ppe-dashboard/src/App.js:151 | the length is kept, no capital letter remains, each capital becomes its small letter and every other character is unchanged |
| Dashboard.ToLowerIdempotent | ppe-dashboard/src/App.js:151 | lowering twice is lowering once |
| Dashboard.PieCounts | ppe-dashboard/src/App.js:147-155 | the loop computes `PieSpec`, throwing on a NULL level |
| Dashboard.PieOkIff | ppe-dashboard/src/App.js:151 | the pie is computed iff no row has a NULL level |
| Dashboard.PieCountsExact | ppe-dashboard/src/App.js:147-155 | each slice counts the rows whose lowered level is its level |
| Dashboard.PieSlicesCover | ppe-dashboard/src/App.js:152-154 | the slices count exactly the rows with one of the three lowered levels; all rows iff every level is one of them |
| Dashboard.SiteComplianceScores | ppe-dashboard/src/App.js:65-103 | the loop computes `SiteScoresSpec`; an empty input gives an empty list |
| Dashboard.SiteScoresExact | ppe-dashboard/src/App.js:65-103 | the chart lists each site once, in order of first appearance, scored from that site's own rows at the three lowered levels |
| Dashboard.ScoreRange | ppe-dashboard/src/App.js:91-102 | the score is 0 without counted rows and otherwise in [100/3, 100]; 100 iff all compliant, 100/3 iff all high |
| Dashboard.SitesListed | ppe-dashboard/src/App.js:76-90 | the sites are listed once each, in order of first appearance |
| Dashboard.SiteCountsExact | ppe-dashboard/src/App.js:76-87 | each site's counts are its rows at each lowered level |
| Dashboard.SortAsc | ppe-dashboard/src/App.js:204-206 | the sorted days are strictly increasing and are the same days |
| Dashboard.TrendChart | ppe-dashboard/src/App.js:187-209 | the loop computes `TrendSpec`; an empty input gives an empty chart |
| Dashboard.TrendOkIff | ppe-dashboard/src/App.js:195-201 | the chart is computed iff every row's date is valid |
| Dashboard.DayKeysUnique | ppe-dashboard/src/App.js:200 | each day is counted under one key |
| Dashboard.DayTallyExact | ppe-dashboard/src/App.js:194-201 | each day's count is the number of rows on that day, and the keys are the rows' days |
| Dashboard.TrendExact | ppe-dashboard/src/App.js:193-209 | the labels are the rows' days, strictly increasing, each with its row count; the counts sum to the number of rows |
| Dashboard.FilterIsKeep | ppe-dashboard/src/App.js:268-287 | the chain equals one filter by the conjunction of the set conditions |
| Dashboard.FilterSubsequence | ppe-dashboard/src/App.js:268-289 | the shown rows are a subsequence of the fetched rows; a row is shown iff it satisfies every set filter |
| Dashboard.NoFiltersShowAll | ppe-dashboard/src/App.js:268-289 | with no filter set, every row is shown |
| Dashboard.UniqueValues | ppe-dashboard/src/App.js:248-250 | the result has no duplicates, holds exactly the truthy values, and keeps first-occurrence order |
| Dashboard.RiskLevelsListed | ppe-dashboard/src/App.js:248 | the offered levels are each non-empty level of some row, once, in order of first appearance |
| Dashboard.SiteNamesListed | ppe-dashboard/src/App.js:249-250 | the offered site names are each non-empty name of some row, once, in order of first appearance |

## Left out

- The OpenAI chat-completion call is a parameter `vision` of `BatchAnalysis.Services`. The message layout, the model name and `max_tokens` are not modelled.
- `process_image` and image validity (PIL, base64, file system) are a parameter `encode`.
- `process_image` runs twice per path (test.py:193-196): once in the filter and once for the value. The model calls the deterministic `encode` once, so a file that changes between the two calls is not modelled.
- `json.loads` is a parameter `decode` returning a decoding error or a JSON value.
- JSON fractional numbers are not modelled: `Json` has integer numbers only. A reply whose `timestamp`, `reason` or `risk_level` is a float, which SQLite would bind as REAL and store as text, cannot be represented.
- `time.sleep`, logging and `print` are not modelled; they carry no data.
- The dead code after `process_image`'s return (test.py:93-135) is not part of this model.
- The SQLite connection, schema creation and `/violations` query are not modelled. The tables are in-memory sequences.
- Foreign keys are not enforced by SQLite here, because `PRAGMA foreign_keys` is off. `SiteStore.Valid` states the reference as an invariant the inserts keep.
- SQLite's order among rows tied by `ORDER BY high DESC` is not specified. `HighRiskAreas.SortByHigh` fixes one order: table order among ties.
- The order of `GROUP BY` output is not modelled. `ComplianceRates.Groups` lists groups in the order of their first row.
- `site_data` in `/compliance_rates` is a map, so the key order of the JSON response is not modelled.
- Flask routing, CORS, `jsonify`, `serve_image` and the unit tests over HTTP are not modelled.
- HighRiskAreas.RiskScore: Python's `round(..., 1)` is left out. Scores are exact rationals before rounding.
- ComplianceRates.Rate: Python's `round(..., 2)` is left out. Rates are exact rationals before rounding.
- Dashboard.ComplianceScore: JavaScript `toFixed(2)`/`parseFloat` is left out. Scores are exact rationals before rounding.
- `strptime` with `.hour` is a parameter `parseHour` returning an hour in 0..23 or a parse failure. The exact timestamp grammar is not modelled.
- `new Date(...)` with `format(..., "yyyy-MM-dd")` is a parameter `dayOf` giving a day number. Labels are day numbers rather than date strings, so the chronological sort is numeric order.
- Filter dates are a parameter `instant`. The filter compares instants as integers.
- Dashboard.ToLower: lowers ASCII letters only. Unicode case mapping is not modelled.
- JavaScript objects are modelled without a prototype. Keys such as "constructor" or "__proto__", which would reach inherited properties, are not modelled. Nor is the ordering JavaScript gives to integer-like keys in `Object.keys`.
- Exception messages are indicative texts. Only whether an error occurs, and where, is modelled.
- React rendering, Chart.js, react-table, the axios fetch and the DatePicker and select state hooks are not modelled.
- `detect_violations.py` is not part of this model.

## Findings

| source | as written | input that shows it | evidently intended | confidence | as-written member | corrected member |
|---|---|---|---|---|---|---|
| test.py:219 | the reply is parsed against the whole batch, `batch`, although only the images in `processed_images` were sent | `batch_size=2`, paths [a, b] where only b encodes, reply of one JSON object about b | parse against the paths of the images that were sent, so the record is filed under b | not executed | BatchAnalysis.UnsentImageFiled | BatchAnalysis.SentKeys |
| app.py:182-186 | entries are keyed by `Site_Name`, and `Risk_Level_Counts[risk_level] = count` replaces the count | two sites named NULL, each created by `insert_violations` for an image whose `site_name` is null, with 3 and 1 compliant rows: total 4, compliant count 1, rate 25 | add the counts (`+= count`), so the total is the sum of the level counts and an all-compliant name rates 100 | not executed | ComplianceRates.SharedNameUnderReports | ComplianceRates.SummedAllCompliant |
