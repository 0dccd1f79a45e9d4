# DataScrapeInsights server core in Dafny

A model of the data-processing and state-keeping core of the DataScrapeInsights
server, with proofs of what each part promises.

- **Data pipelines** (`Pipelines`, `PipelineSteps`, `Aggregation`, `Joins`,
  `Deduplication`). A pipeline folds its steps over a batch of records. The
  step kinds are filter, transform, aggregate (group by the `|`-joined group-by
  values), join (inner or left, through a target map), sort (stable), dedupe
  (first wins) and enrich. A record is an object whose own keys keep their
  insertion order, modelled as a sequence of key/value fields (`Values`).
- **Data quality** (`Quality`, `Cleaning`, `Outliers`). `validateDataQuality`
  makes one counting pass. It counts repeated records, missing values, the
  `typeof` tally per field, rule failures and z-score outliers. It then lists
  suggestions and computes a score. `cleanData`, `mode`, `normalizeData` and
  `standardizeData` rewrite batches.
- **Versioning** (`Versioning`). Each resource has a version history numbered
  1, 2, 3, …, with field differences, revert, compare and tags. An audit trail
  is capped at 100000 entries and answers filtered queries newest first.
- **A/B testing** (`ABTesting`). Covers sticky variant assignment, audience
  targeting by hash percentile, cumulative-weight buckets, the cartesian
  product of multivariate factors, and feature flags with rollouts.
- **Real-time collaboration** (`Collaboration`). Covers the user and presence
  registry, document locks that go stale after five minutes, cursors,
  comments, an activity feed capped at 100 (newest first) and sessions. The
  module-level maps shared by `PresenceManager` and `CollaborationManager`
  are one class, `Workspace`.
- **Middleware** (`Middleware`). Each path keeps a window of its last 100
  request durations, summarised with percentiles. Each route has an error
  counter that keeps its last ten distinct messages. Also covered: the CORS
  allow-list decision.
- **Dashboards** (`Dashboards`). A map-backed store with create, update
  (shallow merge), get, delete, a permission-based listing, share and clone.

Supporting modules model the JavaScript built-ins the core relies on:

- `Common`: `Option`/`Result` and `slice`.
- `Text`: `split`, `join`, `indexOf`, `replace` with a string pattern,
  case mapping of the ASCII letters, `trim`, `substring`, number text,
  `parseFloat` of decimal literals and `Number()` of decimal and prefixed
  `0x`/`0o`/`0b` literals.
- `Values`: `typeof`, truthiness, `String()`, `===`, `<` and the
  `JSON.stringify` canonical form.
- `Numbers`: sums, `Math.min`, `Math.max` and `Math.round`.
- `OrderedMaps`: a `Map` with insertion order.
- `Sorting`: the stable `Array.prototype.sort`.

The clock, random ids, the md5 and sha256 hashes, `Math.sqrt` and
`new Date(v)` are parameters. Numbers are exact reals.

Where the source changes state, the model does too. The module-level maps and
arrays become fields of a class (`VersionStore`, `ABTestStore`,
`FeatureFlags`, `Workspace`, `CursorManager`, `CommentManager`,
`ActivityFeed`, `SessionManager`, `RequestMetrics`, `ErrorTracker`,
`DashboardStore`), and their methods state the whole new state. Each loop
is a method proved against a specification function, and the properties
are proved about those functions.

## Model

| member | source | states |
|---|---|---|
| `Pipelines.ExecutePipeline` | server/data-pipelines.ts:18-63 | The loop over the steps yields exactly `Run`: each step applied in order to the previous step's batch. An error from the hash enrichment ends the run. |
| `Pipelines.ExecuteStep` | server/data-pipelines.ts:26-58 | Each step's own method computes exactly what `Apply` says that step does to the batch. |
| `Pipelines.RunErrorSticks` | server/data-pipelines.ts:23-60 | Once a prefix of the steps fails, no later step changes the error. |
| `Pipelines.RunAppend` | server/data-pipelines.ts:23-60 | Running `a + b` is running `a` and then `b` on its result. |
| `Pipelines.UnknownStepSkipped` | server/data-pipelines.ts:55-56 | An unknown step type can be removed from anywhere in the list without changing the result, and the steps after it still run. |
| `PipelineSteps.Filter` | server/data-pipelines.ts:66-89 | The output is a subsequence of the input holding each record that passes the operator as many times as the input does, and no other record. |
| `PipelineSteps.FilterOtherKeepsAll` | server/data-pipelines.ts:85-86 | An unknown operator keeps the whole batch. |
| `PipelineSteps.Pow10Real` | server/data-pipelines.ts:135 | `10^d` is positive for every whole `d`, so rounding never divides by zero. |
| `PipelineSteps.Transform` | server/data-pipelines.ts:92-147 | Length and order are kept. Each output record holds the transformed value at the output key and its input's value at every other key. Its keys are unchanged when the input already had the output key. |
| `PipelineSteps.ParseNumIntText` | server/data-pipelines.ts:118-120 | `parse_number` on the text of a whole number gives that number. |
| `PipelineSteps.RoundWholeNumber` | server/data-pipelines.ts:134-136 | `round` to 0 decimals leaves a whole number unchanged. |
| `PipelineSteps.SortRecords` | server/data-pipelines.ts:238-247 | The sorted batch is a permutation of the input. |
| `PipelineSteps.ComparableStrictOrder` | server/data-pipelines.ts:243-245 | On a field holding only numbers or only strings, the comparator is a strict order in either direction. |
| `PipelineSteps.SortRecordsOrdered` | server/data-pipelines.ts:238-247 | On such a field the output is ascending for `'asc'` and descending for any other direction. |
| `PipelineSteps.SortRecordsStable` | server/data-pipelines.ts:238-247 | Records with equal field values keep their input order. |
| `PipelineSteps.Enrich` | server/data-pipelines.ts:268-299 | Enrichment fails exactly when it hashes and some record lacks the hashed field (an absent field name reads the key `undefined`). Otherwise it keeps the length, and record `i` is the enrichment of input record `i`. |
| `PipelineSteps.EnrichTimestamp` | server/data-pipelines.ts:269-273 | `'timestamp'` writes the current time's text into the chosen field (default `enriched_at`) of every record and changes nothing else. |
| `PipelineSteps.EnrichHash` | server/data-pipelines.ts:275-287 | When every record has the hashed field, `'hash'` writes the digest of that field's JSON text into the output field (default `hash`), changes nothing else, and gives records that agree on the field the same digest. |
| `PipelineSteps.EnrichSequence` | server/data-pipelines.ts:290-294 | `'sequence'` writes `i + 1` into the chosen field (default `sequence`) of record `i` and changes nothing else. |
| `PipelineSteps.EnrichOtherUnchanged` | server/data-pipelines.ts:296-297 | An unknown enrichment returns the batch unchanged. |
| `Aggregation.AggregateStep` | server/data-pipelines.ts:150-211 | Filling the `groups` map and then emitting gives exactly `AggregateSpec`. |
| `Aggregation.GroupRecords` | server/data-pipelines.ts:151-160 | After the `groups` loop, its keys are the group keys in first-seen order and each key holds exactly the records with that key, in input order. |
| `Aggregation.GroupStep` | server/data-pipelines.ts:154-160 | One pass of the grouping loop keeps the map's keys equal to the first-appearance keys and each group equal to its members so far. |
| `Aggregation.AggregateSpec` | server/data-pipelines.ts:165-208 | There is one output record per distinct group key. |
| `Aggregation.GroupKeysExact` | server/data-pipelines.ts:154-160 | The group keys are pairwise distinct and are exactly the keys of the input records. |
| `Aggregation.MembersExact` | server/data-pipelines.ts:157-159 | A group holds, in input order, exactly the records with its key. |
| `Aggregation.MembersOfAbsentKey` | server/data-pipelines.ts:154-160 | A key no record has has no members. |
| `Aggregation.GroupingSnoc` | server/data-pipelines.ts:154-160 | A new record joins the group of its key, and adds that key at the end when it is new. |
| `Aggregation.GroupSizesTotal` | server/data-pipelines.ts:154-160 | Every record falls into exactly one group, so the group sizes add up to the input length. |
| `Aggregation.NumericValues` | server/data-pipelines.ts:175 | The parsed numbers of a group are at most as many as its records. |
| `Aggregation.AggregateValue` | server/data-pipelines.ts:177-204 | `sum` is the total of the numbers parsed from the field (0 without numbers). `avg` is NaN exactly without numbers and otherwise the total over their count. `min` and `max` are null exactly without numbers and otherwise the least and the greatest of them. `count` is the group size. An unknown operation writes null. Every value written is a number, NaN or null. |
| `Aggregation.GroupRecordAggregate` | server/data-pipelines.ts:173-205 | Aggregation `j`'s value survives in the group record when no later aggregation writes the same field. |
| `Aggregation.GroupRecordKeyPart` | server/data-pipelines.ts:169-171 | A group-by field that no aggregation overwrites holds piece `i` of the split key. |
| `Aggregation.KeyPartRoundTrip` | server/data-pipelines.ts:155-171 | When no group-by value's text contains the bar separator, splitting the key gives back each value's text. |
| `Aggregation.CountsSumToInput` | server/data-pipelines.ts:194-196 | A `count` that is not overwritten is a number in every output record, and these counts sum to the input length. |
| `Aggregation.CountIsGroupSize` | server/data-pipelines.ts:194-196 | `count` is the number of records in the group. |
| `Aggregation.CountTotalIsGroupSizes` | server/data-pipelines.ts:194-196 | Summing per-group counts over a prefix of the groups gives the sum of those groups' sizes. |
| `Aggregation.SumBounds` | server/data-pipelines.ts:178-184 | A non-empty list's sum lies between `n·min` and `n·max`. |
| `Aggregation.MeanBounds` | server/data-pipelines.ts:182-184 | A bound on a total bounds the mean. |
| `Aggregation.AvgBetweenMinAndMax` | server/data-pipelines.ts:182-192 | For a group with numbers, the `avg`, `min` and `max` it writes are numbers, and `min ≤ avg ≤ max`. |
| `Aggregation.DistinctCountBounds` | server/data-pipelines.ts:198-200 | `count_distinct` is at most `count`, and positive for a non-empty group. |
| `Joins.BuildIndex` | server/data-pipelines.ts:215-219 | The target map built in one pass answers every key with the last target record holding it. |
| `Joins.LastMatchNone` | server/data-pipelines.ts:215-219 | There is no match exactly when no target record holds the key. |
| `Joins.LastMatchAt` | server/data-pipelines.ts:215-219 | The last `set` wins: the match is the target record at the last position holding the key. |
| `Joins.LastMatchMember` | server/data-pipelines.ts:215-219 | A match is one of the target records. |
| `Joins.JoinStep` | server/data-pipelines.ts:214-235 | The join method yields exactly `JoinSpec`. |
| `Joins.JoinSpec` | server/data-pipelines.ts:221-233 | A left join keeps the length. An inner join has one record per matched input record. |
| `Joins.MatchedExact` | server/data-pipelines.ts:221-227 | An inner join keeps, in order and with their multiplicity, exactly the records whose source value is a key of the target map. |
| `Joins.JoinedFields` | server/data-pipelines.ts:224-231 | In a joined record the target's fields win on collision, and every other field keeps the input's value. |
| `Joins.LeftJoinUnmatched` | server/data-pipelines.ts:228-233 | A left join keeps every record in place, and an unmatched record comes through unchanged. |
| `Deduplication.DedupeStep` | server/data-pipelines.ts:250-265 | The `seen`-set filter yields exactly `Dedupe` under the step's key. |
| `Deduplication.DedupeShape` | server/data-pipelines.ts:250-265 | The output is a subsequence of the input whose keys are pairwise distinct. |
| `Deduplication.DedupeKeepsFirst` | server/data-pipelines.ts:258-263 | First wins: every record whose key no earlier record had is kept. |
| `Deduplication.DedupeKeysFrom` | server/data-pipelines.ts:250-265 | Every output key is the key of some input record. |
| `Deduplication.DedupeDistinctUnchanged` | server/data-pipelines.ts:250-265 | A batch with distinct keys passes through unchanged. |
| `Deduplication.DedupeIdempotent` | server/data-pipelines.ts:250-265 | Deduplicating twice is deduplicating once. |
| `Quality.ValidateDataQuality` | server/data-quality.ts:21-116 | Empty input gives all counts 0, score 0 and only the "no data" suggestion. Otherwise the report holds the counts defined record by record: repeats, valid and invalid records, and per first-record field the missing count and the `typeof` tally, both in field order. It also holds the outliers per field, the suggestions made while the score is still 0 (so the last one is always the low-quality one), and the score. |
| `Quality.CountRecords` | server/data-quality.ts:52-89 | The record loop computes the duplicate, valid and invalid counts and both tables over the whole batch. |
| `Quality.CheckRecord` | server/data-quality.ts:53-88 | One record: a repeat is one whose JSON text was seen before, and a record is valid iff it is not a repeat, misses no field and passes every rule. |
| `Quality.InitCounters` | server/data-quality.ts:46-49 | Both tables start with every field at zero or empty, in field order. |
| `Quality.CountFields` | server/data-quality.ts:65-73 | The field loop counts each missing value and tallies each present value's type, and reports whether nothing was missing. |
| `Quality.CountField` | server/data-quality.ts:66-72 | One field adds one to its missing count or to its value's type tally. |
| `Quality.RuleOutcomes` | server/data-quality.ts:119-142 | `'required'` rejects exactly null, undefined and `''`. `'type'` passes iff the value's `typeof` is the named type. `'range'` passes exactly the numbers `x` with `min ≤ x ≤ max`, the bounds read as numbers, so a NaN value or bound fails. `'pattern'` passes only strings. An unknown rule passes everything. |
| `Quality.CheckRules` | server/data-quality.ts:76-82 | The rule loop answers whether every rule passes. |
| `Quality.CollectOutliers` | server/data-quality.ts:92-107 | The outlier loop collects each field's outliers, in field order. |
| `Quality.SeenStep` | server/data-quality.ts:56-62 | A record's JSON text is in the seen set exactly when the record repeats an earlier one. |
| `Quality.ValidPlusInvalid` | server/data-quality.ts:84-88 | Valid plus invalid records make up all records. |
| `Quality.DuplicatesAreInvalid` | server/data-quality.ts:57-59 | Duplicates never exceed the invalid records. |
| `Quality.MissingPlusTyped` | server/data-quality.ts:65-73 | For every field, its missing count plus its type tally's total is the number of records. |
| `Quality.BumpSum` | server/data-quality.ts:71 | Tallying a value adds exactly one to the tally's total. |
| `Quality.TallyNamesAreTypes` | server/data-quality.ts:70-71 | Every name in a type tally is the `typeof` of some present value of the field. |
| `Quality.NumberValuesExact` | server/data-quality.ts:93-95 | Those values are exactly the field's values of type `'number'`, in record order and as often as they occur. |
| `Quality.FieldOutliersExact` | server/data-quality.ts:92-107 | An outlier is reported for a field iff it has more than 10 numbers, none NaN, and the value is one of them lying beyond two population deviations. |
| `Quality.FieldOutliersFew` | server/data-quality.ts:97-106 | Fewer than a quarter of a field's numbers are reported. |
| `Quality.GenerateSuggestions` | server/data-quality.ts:163-204 | Suggestions are appended in a fixed order: missing rate above 20% per field, duplicates, mixed types per field, outliers, low score. |
| `Quality.SuggestionsInOrder` | server/data-quality.ts:163-204 | The pieces appended in turn make up the suggestions the report calls for. |
| `Quality.ScoreFrom` | server/data-quality.ts:207-231 | The score is NaN exactly when there are records but no fields (the missing rate is `0/0`). Otherwise it is a whole number in [0, 100], and 100 for a clean batch. |
| `Quality.RawScore` | server/data-quality.ts:210-228 | The score before rounding never exceeds 100. |
| `Quality.Share` | server/data-quality.ts:213-227 | Each penalty rate is non-negative. |
| `Quality.ScoreMonotone` | server/data-quality.ts:207-231 | More invalid records, duplicates, missing values or outliers never raise the score. |
| `Outliers.DetectOutliers` | server/data-quality.ts:145-160 | Computing the mean and deviation and then one pass yields exactly `NumberOutliers`, where a NaN among the values reports nothing. |
| `Outliers.RealsExact` | server/data-quality.ts:145-149 | Without NaN, the numbers are the values in order. |
| `Outliers.FlaggedExact` | server/data-quality.ts:151-157 | A value is reported iff it is one of the values and `(v - mean)² > 4·variance`, in input order. |
| `Outliers.SquaredDeviationNonNegative` | server/data-quality.ts:147-149 | The sum of squared deviations is non-negative. |
| `Outliers.FlaggedWeight` | server/data-quality.ts:151-157 | The sum of squared deviations is more than `4·variance` times the number of reported values, whenever any is reported. |
| `Outliers.OutliersFewerThanQuarter` | server/data-quality.ts:145-160 | Chebyshev: fewer than a quarter of the values are reported. |
| `Outliers.ConstantHasNoOutliers` | server/data-quality.ts:145-160 | A constant list has no outliers. |
| `Cleaning.CleanData` | server/data-quality.ts:234-292 | The method yields exactly `CleanSpec`: deduplicate if asked, then `'remove'` or the per-field fill. |
| `Cleaning.FillMissing` | server/data-quality.ts:264-287 | The field loop fills the fields one after the other, each from the batch the previous ones left. |
| `Cleaning.FillMissingField` | server/data-quality.ts:265-286 | One field is filled from its own present values. |
| `Cleaning.CleanDuplicatesIdempotent` | server/data-quality.ts:242-252 | Removing duplicates keeps a subsequence, and doing it twice is doing it once. |
| `Cleaning.RemoveIncompleteExact` | server/data-quality.ts:256-259 | `'remove'` keeps, in order and with their multiplicity, exactly the records with no null, undefined or empty value. |
| `Cleaning.FillField` | server/data-quality.ts:282-285 | Filling keeps the length. |
| `Cleaning.FillFieldGet` | server/data-quality.ts:282-285 | Filling replaces only null and undefined in the filled field; an empty string stays, and other fields are kept. |
| `Cleaning.MeanNeedsNumbers` | server/data-quality.ts:273-274 | `'mean'` fills a field iff all its present values are numbers, and, when none is NaN, fills it with their mean. |
| `Cleaning.MedianFillsNothing` | server/data-quality.ts:273-279 | `'median'` fills nothing. |
| `Cleaning.Mode` | server/data-quality.ts:295-311 | The counting loop returns undefined for no values. Otherwise it returns the value at which a `String` count first rose above every earlier count. |
| `Cleaning.CountsStep` | server/data-quality.ts:301-302 | Bumping the count of a value's text keeps the count table equal to the counts so far. |
| `Cleaning.ModeIsMostFrequent` | server/data-quality.ts:300-308 | The mode's text is a most frequent one. |
| `Cleaning.ModeExists` | server/data-quality.ts:300-308 | A non-empty list has a mode position. |
| `Cleaning.ModeMoves` | server/data-quality.ts:304-307 | A value whose count passes the current maximum becomes the mode. |
| `Cleaning.ModeStays` | server/data-quality.ts:304-307 | Otherwise the mode stays. |
| `Cleaning.ModeUnique` | server/data-quality.ts:300-308 | The mode position is unique. |
| `Cleaning.ModeOf` | server/data-quality.ts:295-311 | The mode is one of the values, at a mode position. |
| `Cleaning.MapNumbers` | server/data-quality.ts:325-330 | Rewriting a field's numbers keeps the length. |
| `Cleaning.MapNumbersAt` | server/data-quality.ts:325-330 | Only numbers of the field change; every other value and field is kept. |
| `Cleaning.Normalize` | server/data-quality.ts:314-331 | Normalising keeps the length. |
| `Cleaning.NormalizeOthers` | server/data-quality.ts:325-330 | Normalising changes no other field and no non-number. |
| `Cleaning.NormalizeNumber` | server/data-quality.ts:319-330 | Each number moves into [0, 1] by `(x - min)/(max - min)`; the least goes to 0 and the greatest to 1. |
| `Cleaning.NormalizeFlat` | server/data-quality.ts:321-323 | With a zero range the data is returned unchanged. |
| `Cleaning.WithinExtremes` | server/data-quality.ts:319-320 | Every number of the field lies between the least and the greatest. |
| `Cleaning.NumberCollected` | server/data-quality.ts:315 | Every number of the field is among the collected values. |
| `Cleaning.UnitInterval` | server/data-quality.ts:328 | `(x - lo)/(hi - lo)` lies in [0, 1], is 0 at `lo` and 1 at `hi`. |
| `Cleaning.RescaleWithoutNumbers` | server/data-quality.ts:317 | Without numbers in the field, both normalising and standardising return the data unchanged. |
| `Cleaning.Standardize` | server/data-quality.ts:334-352 | Standardising keeps the length. |
| `Cleaning.NumberValuesMapped` | server/data-quality.ts:346-351 | After a rewrite, the field's numbers are the old numbers, each rewritten. |
| `Cleaning.StandardizedMeanZero` | server/data-quality.ts:339-351 | When the standard deviation is not 0, the standardised numbers still have no NaN and sum to 0, so their mean is 0. |
| `Cleaning.ScaledSumZero` | server/data-quality.ts:339-351 | The z-scores of a list sum to 0. |
| `Cleaning.SumOfScaled` | server/data-quality.ts:348-350 | The scaled values sum to the total deviation divided by the scale. |
| `Cleaning.DeviationSum` | server/data-quality.ts:339 | The total deviation from `m` is the sum less `n·m`. |
| `Cleaning.NoDeviation` | server/data-quality.ts:339 | With the mean as centre, the total deviation `sum - n·mean` is 0, whatever the scale. |
| `Versioning.VersionStore.SaveVersion` | server/data-versioning.ts:22-57 | A save appends one version to the resource's history, numbered one more than the last (1 for the first). It holds a deep copy of the data and its changes from the latest version (none for the first), and changes no other resource. Saving `undefined` fails. |
| `Versioning.NextVersion` | server/data-versioning.ts:29-49 | The new version is numbered one more than the history length in a consecutive history, has no changes when it is the first, and has no tags. |
| `Versioning.NextVersionGood` | server/data-versioning.ts:22-57 | Appending keeps the history consecutive, deep-copied and free of repeated tags. |
| `Versioning.VersionStore.History` | server/data-versioning.ts:90-93 | A stored history is consecutive, deep-copied and free of repeated tags. |
| `Versioning.CalculateChanges` | server/data-versioning.ts:59-81 | The loop over the union of the keys yields exactly `Changes`. |
| `Versioning.Unique` | server/data-versioning.ts:62-65 | `new Set` keeps each key once, and exactly the keys of both sides. |
| `Versioning.ChangesExact` | server/data-versioning.ts:59-81 | Each field is named at most once. The fields named are exactly those whose serialised values differ. Each change holds the values read from both sides. |
| `Versioning.ChangeListFields` | server/data-versioning.ts:67-78 | The changes name exactly the keys whose values differ. |
| `Versioning.ChangeListValues` | server/data-versioning.ts:72-76 | Each change holds the old and new values. |
| `Versioning.ChangeListDistinct` | server/data-versioning.ts:67-78 | Distinct keys give changes naming distinct fields. |
| `Versioning.ChangesSelf` | server/data-versioning.ts:59-81 | Data compared with itself has no changes. |
| `Versioning.PropertyAbsent` | server/data-versioning.ts:68-69 | A key that is not an own key reads as undefined. |
| `Versioning.CanonIdempotent` | server/data-versioning.ts:43 | Copying through JSON twice is copying once. |
| `Versioning.FindVersion` | server/data-versioning.ts:87 | `find` gives a version with that number, or none iff no version has it. |
| `Versioning.FindConsecutive` | server/data-versioning.ts:83-88 | In a consecutive history, version `n` is at position `n - 1`, and there is none outside 1 to the history length. |
| `Versioning.VersionStore.GetVersion` | server/data-versioning.ts:83-88 | `getVersion` returns history entry `n - 1` for n from 1 to the history length and null otherwise. |
| `Versioning.VersionStore.RevertToVersion` | server/data-versioning.ts:95-112 | A missing version is an error and changes nothing. Otherwise, when the latest data is truthy, one version is appended holding the latest data, not the target's. The target's data is returned. |
| `Versioning.RevertCopiesLatest` | server/data-versioning.ts:102-109 | The version a revert appends holds the latest data, has no changes and takes the next number. |
| `Versioning.VersionStore.CompareVersions` | server/data-versioning.ts:114-127 | Both lookups are returned. The differences are the changes between them when both exist, and empty otherwise. |
| `Versioning.VersionStore.TagVersion` | server/data-versioning.ts:129-135 | A tag is appended only to an existing version that lacks it, so tags never repeat and re-tagging changes nothing. |
| `Versioning.VersionStore.RecordAudit` | server/data-versioning.ts:153-170 | The entry is appended, the entry at index 0 is dropped past 100000 (the oldest, unless an unfiltered `getAuditTrail` has left the trail newest first), and the new id is returned. |
| `Versioning.CappedKeepsNewest` | server/data-versioning.ts:162-167 | The trail never exceeds 100000 entries, the new entry is last, and below the cap nothing is dropped. |
| `Versioning.VersionStore.GetAuditTrail` | server/data-versioning.ts:172-215 | The result is the query over the trail. With no filter that applies, the in-place sort leaves the stored trail newest first. |
| `Versioning.AuditQueryExact` | server/data-versioning.ts:181-214 | Only trail entries passing every filter are returned, newest first, drawn from those entries without repeats. With no limit or a limit of 0 all of them are returned; a positive limit returns `min(limit, n)` of them and a negative one `max(n + limit, 0)`, as `slice(0, limit)` does. No matching entry left out is newer than one returned. |
| `Versioning.SelectExact` | server/data-versioning.ts:183-205 | The filters keep, in order and with their multiplicity, exactly the matching entries. |
| `Versioning.SelectAll` | server/data-versioning.ts:181-205 | With no filter that applies, the whole trail is kept. |
| `Versioning.NewestFirst` | server/data-versioning.ts:208 | Sorting keeps the length. |
| `Versioning.NewestFirstOrdered` | server/data-versioning.ts:208 | Sorting is a permutation with timestamps in descending order. |
| `Versioning.NewestFirstStable` | server/data-versioning.ts:208 | Entries with equal timestamps keep their order. |
| `Versioning.VersionStore.constructor` | server/data-versioning.ts:20 | The store starts with no versions and an empty trail. |
| `ABTesting.ABTestStore.GetVariantForUser` | server/ab-testing.ts:50-88 | A missing or not-running test gives null and records nothing. Otherwise the answer and the new assignments are those of `Decide`. |
| `ABTesting.Decide` | server/ab-testing.ts:57-87 | A lookup only adds to the user's assignments. A recorded variant is answered as it is. Anything new it records is this test's variant. A new user outside the audience percentage gets null and nothing is recorded. |
| `ABTesting.DecideKeepsValid` | server/ab-testing.ts:83-85 | A lookup only ever records variants of the test looked up. |
| `ABTesting.StickyAssignment` | server/ab-testing.ts:64-66 | Once a variant is recorded, every later lookup for that user and test answers it and records nothing, even under another hash or test state. |
| `ABTesting.Percentile` | server/ab-testing.ts:72 | The percentile is below 100. |
| `ABTesting.AssignVariant` | server/ab-testing.ts:90-105 | The accumulating loop yields exactly `Assigned` at the user's percentile. |
| `ABTesting.Assigned` | server/ab-testing.ts:90-105 | No variant iff the list is empty; otherwise one of the variants. |
| `ABTesting.FirstCovering` | server/ab-testing.ts:97-102 | The search result is an index inside the list. |
| `ABTesting.FirstCoveringExact` | server/ab-testing.ts:97-102 | The search stops at the first running sum above the percentile, and finds none when no running sum is. |
| `ABTesting.CumulativeMonotone` | server/ab-testing.ts:98 | With non-negative weights the running sums never decrease. |
| `ABTesting.Bucket` | server/ab-testing.ts:95-102 | With non-negative weights, variant `j` is found exactly for the percentiles in `[Cumulative(j), Cumulative(j+1))`. |
| `ABTesting.BucketExists` | server/ab-testing.ts:95-102 | With non-negative weights adding up to more than the percentile, the percentile lies in some variant's bucket. |
| `ABTesting.BucketUnique` | server/ab-testing.ts:95-102 | With non-negative weights, no percentile lies in two variants' buckets. |
| `ABTesting.AssignedByBucket` | server/ab-testing.ts:90-105 | A percentile in variant `j`'s bucket gets variant `j`. |
| `ABTesting.AssignedFallback` | server/ab-testing.ts:104 | When the weights sum to at most the percentile, the first variant is the fallback. |
| `ABTesting.ABTestStore.TrackMetric` | server/ab-testing.ts:112-124 | A result is appended only when the lookup gives a variant with a non-empty id. |
| `ABTesting.ABTestStore.StopTest` | server/ab-testing.ts:188-194 | The test is completed with an end date, so later lookups give null. |
| `ABTesting.ABTestStore.CreateABTest` | server/ab-testing.ts:36-48 | The test is stored under the new id with its creation time. |
| `ABTesting.ABTestStore.constructor` | server/ab-testing.ts:32-34 | The store starts empty. |
| `ABTesting.GenerateCombinations` | server/ab-testing.ts:227-248 | There is one config per path of the recursion, in push order. |
| `ABTesting.Choices` | server/ab-testing.ts:230-243 | Every path picks one variant for each remaining factor. |
| `ABTesting.PrefixMember` | server/ab-testing.ts:240-242 | A path through `v` is `v` followed by a path of the rest. |
| `ABTesting.ChoicesCount` | server/ab-testing.ts:230-243 | The number of paths is the product of the remaining factors' variant counts. |
| `ABTesting.CombinationsCount` | server/ab-testing.ts:227-248 | There are as many combinations as the product of the variant counts. |
| `ABTesting.ChoicesExact` | server/ab-testing.ts:230-243 | The paths are exactly the choices of one listed variant per factor. |
| `ABTesting.CombinationsExact` | server/ab-testing.ts:227-248 | The combinations are exactly the configs of such choices. |
| `ABTesting.ExpandBlock` | server/ab-testing.ts:240-242 | Block `j` of the paths holds, in order, the paths taking the factor's `j`-th variant. |
| `ABTesting.CombinationsOrder` | server/ab-testing.ts:227-248 | Nested-loop order: position `j·P + m` holds the first factor's `j`-th variant followed by the `m`-th combination of the others. |
| `ABTesting.FlagDecision` | server/ab-testing.ts:262-275 | A flag is off when unknown or disabled. With a rollout and a non-empty user id it is on iff the percentile is below the rollout. Otherwise it is on. |
| `ABTesting.RolloutMonotone` | server/ab-testing.ts:268-272 | Raising a rollout never turns a flag off for anyone. |
| `ABTesting.RolloutBounds` | server/ab-testing.ts:268-272 | A rollout of 100 or more reaches every user; one of 0 or less reaches no user with an id. |
| `ABTesting.FeatureFlags.Set` | server/ab-testing.ts:258-260 | The new configuration replaces the old one in place, and `isEnabled` follows it. |
| `ABTesting.FeatureFlags.IsEnabled` | server/ab-testing.ts:262-275 | `isEnabled` is the flag decision on the stored configuration. |
| `ABTesting.FeatureFlags.GetAll` | server/ab-testing.ts:277-283 | The result has one key per flag, in insertion order, holding its `enabled`; other keys are undefined. |
| `ABTesting.FeatureFlags.constructor` | server/ab-testing.ts:252-256 | There are no flags at the start. |
| `Collaboration.Workspace.UserJoined` | server/realtime-collaboration.ts:40-60 | The user is stored online and active now, and the active users are returned. |
| `Collaboration.Workspace.UserLeft` | server/realtime-collaboration.ts:63-88 | A known user is removed with its presence and every lock it holds; other users' locks stay. An unknown user changes nothing. |
| `Collaboration.ReleasedLocksHolders` | server/realtime-collaboration.ts:71-78 | Releasing a user's locks leaves no live lock of theirs and keeps everyone else's live holders. |
| `Collaboration.Workspace.UpdatePresence` | server/realtime-collaboration.ts:91-117 | The presence (or a default on `/`) is patched. A known user is active now, on the new page when one is given. |
| `Collaboration.Workspace.ActiveUsers` | server/realtime-collaboration.ts:120-122 | The users are listed in the order they first joined. |
| `Collaboration.Workspace.UsersOnPage` | server/realtime-collaboration.ts:125-129 | The result is exactly the online users on the page, in joining order, each as often as it is stored. |
| `Collaboration.OnPage` | server/realtime-collaboration.ts:126-128 | The result is a subsequence holding each online user on the page as often as the input does, and no other user. |
| `Collaboration.Workspace.UserPresence` | server/realtime-collaboration.ts:132-134 | The stored presence, or null. |
| `Collaboration.Workspace.SetUserStatus` | server/realtime-collaboration.ts:137-147 | Only a known user's status changes. |
| `Collaboration.Workspace.LockDocument` | server/realtime-collaboration.ts:153-182 | The lock is granted iff nobody else holds a live lock, and afterwards the caller holds it. A refusal, or a request by the live holder, changes nothing. |
| `Collaboration.Workspace.UnlockDocument` | server/realtime-collaboration.ts:185-203 | Only the recorded holder releases a lock, stale or not. Otherwise nothing changes. |
| `Collaboration.Workspace.IsDocumentLocked` | server/realtime-collaboration.ts:206-223 | It reports the live holder. A stale lock is deleted, which changes no document's live holder. |
| `Collaboration.Workspace.DocumentLocks` | server/realtime-collaboration.ts:232-234 | The lock table is returned as it is. |
| `Collaboration.Workspace.constructor` | server/realtime-collaboration.ts:33-35 | No users, presences or locks at the start. |
| `Collaboration.CursorManager.UpdateCursor` | server/realtime-collaboration.ts:242-252 | The user's cursor is set, keeping its place in insertion order. |
| `Collaboration.CursorManager.CursorsOnPage` | server/realtime-collaboration.ts:255-265 | The loop over the cursors in insertion order yields exactly `PointersOn`. |
| `Collaboration.PointersOnExact` | server/realtime-collaboration.ts:255-265 | Exactly the users whose cursor is on the page are reported, each once, with that cursor's position. |
| `Collaboration.CursorManager.RemoveCursor` | server/realtime-collaboration.ts:268-274 | The user's cursor is removed. |
| `Collaboration.CursorManager.constructor` | server/realtime-collaboration.ts:239 | There are no cursors at the start. |
| `Collaboration.CommentManager.AddComment` | server/realtime-collaboration.ts:289-320 | A new unresolved comment goes at the end of the document's list, and its id is returned. |
| `Collaboration.FindComment` | server/realtime-collaboration.ts:330 | `find` gives the first comment with the id, or none iff no comment has it. |
| `Collaboration.CommentManager.ResolveComment` | server/realtime-collaboration.ts:323-347 | False for an unknown document or comment id, changing nothing. Otherwise only the first comment with the id becomes resolved. |
| `Collaboration.ResolveFirst` | server/realtime-collaboration.ts:330-336 | Resolving marks the first comment with the id and keeps every other comment. |
| `Collaboration.CommentManager.GetComments` | server/realtime-collaboration.ts:350-352 | The document's comments, or none. |
| `Collaboration.CommentManager.constructor` | server/realtime-collaboration.ts:279-286 | There are no comments at the start. |
| `Collaboration.Unshift` | server/realtime-collaboration.ts:381-386 | The new activity comes first, followed by at most 99 earlier ones in order. |
| `Collaboration.ActivityFeed.AddActivity` | server/realtime-collaboration.ts:366-392 | The activity is put first, the feed keeps at most 100, and the activity is returned. |
| `Collaboration.UnshiftAll` | server/realtime-collaboration.ts:366-392 | After adding at most 100 activities, they come first, newest first, ahead of the earlier feed. |
| `Collaboration.ActivityFeed.RecentActivities` | server/realtime-collaboration.ts:394-396 | The result is a prefix of the feed: `min(limit, n)` activities, 20 by default, with negative limits counting back from the end. |
| `Collaboration.ActivityFeed.constructor` | server/realtime-collaboration.ts:357-364 | The feed starts empty. |
| `Collaboration.SessionManager.StartSession` | server/realtime-collaboration.ts:409-417 | A fresh session with no page views or actions replaces any session with the same id. |
| `Collaboration.SessionManager.UpdateSession` | server/realtime-collaboration.ts:419-425 | A live session gains one action and the activity time; an unknown id changes nothing. |
| `Collaboration.SessionManager.EndSession` | server/realtime-collaboration.ts:427-434 | The session is removed. |
| `Collaboration.SessionManager.ActiveSessionCount` | server/realtime-collaboration.ts:436-438 | The count is the number of live sessions. |
| `Collaboration.SessionCounts` | server/realtime-collaboration.ts:409-438 | Starting a new session adds one to the count, and ending a live one removes one. |
| `Collaboration.SessionManager.constructor` | server/realtime-collaboration.ts:401-407 | There are no sessions at the start. |
| `Middleware.RequestMetrics.RecordTiming` | server/middleware.ts:51-66 | The path's list becomes the window after pushing the duration. The list is created when missing, and the other paths are unchanged. |
| `Middleware.PushTiming` | server/middleware.ts:59-65 | The push and the shift past 100 give exactly `Window`. |
| `Middleware.Window` | server/middleware.ts:59-65 | The list ends with the new duration and holds the last 100 durations. |
| `Middleware.WindowKeepsLatest` | server/middleware.ts:47-74 | From no timings, a path's list is exactly its last 100 durations, oldest first. |
| `Middleware.SetTwice` | server/middleware.ts:55-60 | Creating the empty list and then storing the new one is one store. |
| `Middleware.RequestMetrics.PerformanceMetrics` | server/middleware.ts:77-101 | The loop over the paths yields exactly `Reports`. |
| `Middleware.ReportsExact` | server/middleware.ts:80-98 | A path is reported iff it has timings, and then with their summary. |
| `Middleware.Reports` | server/middleware.ts:80-98 | There are at most as many reports as paths. |
| `Middleware.SummaryOrdered` | server/middleware.ts:83-97 | `requests` is the count. `min ≤ p50 ≤ p95 ≤ p99 ≤ max`. Every duration lies between `min` and `max`, and all five are durations. |
| `Middleware.PercentileIndices` | server/middleware.ts:85-87 | The three percentile indices are ordered and lie in `[0, n)`. |
| `Middleware.AscendingExact` | server/middleware.ts:83 | The sorted copy is a permutation in ascending order. |
| `Middleware.AscendingMembers` | server/middleware.ts:83 | The sorted copy has the same members. |
| `Middleware.AscendingBounds` | server/middleware.ts:95-96 | The first sorted element is the least, and the last the greatest. |
| `Middleware.RequestMetrics.constructor` | server/middleware.ts:45 | There are no timings at the start. |
| `Middleware.ErrorTracker.TrackError` | server/middleware.ts:112-138 | The route's count goes up by exactly one. Its time becomes now. Its message list remembers the message. Other routes are unchanged. |
| `Middleware.ErrorMessage` | server/middleware.ts:127 | The recorded message is never empty. |
| `Middleware.Remember` | server/middleware.ts:128-133 | The message is kept; one already kept changes nothing. Otherwise it is pushed and the oldest dropped past ten, keeping the messages distinct and at most ten. |
| `Middleware.PushMessage` | server/middleware.ts:128-133 | The push and the shift past ten give exactly `Remember`. |
| `Middleware.ErrorTracker.ErrorReport` | server/middleware.ts:140-152 | One entry per route in first-error order, with its count, its last time and at most its last five messages. |
| `Middleware.ErrorTracker.constructor` | server/middleware.ts:110 | There are no error stats at the start. |
| `Middleware.CorsConfig` | server/middleware.ts:167-184 | `Access-Control-Allow-Origin` is set iff the request has a non-empty origin on the allow-list, and then to that origin. OPTIONS is answered 200 without calling `next`. |
| `Middleware.DefaultAllowList` | server/middleware.ts:168-173 | Without `ALLOWED_ORIGINS`, only `http://localhost:5000` is allowed. |
| `Middleware.ListedOrigins` | server/middleware.ts:168-173 | With a comma-separated list, the allowed origins are exactly the listed ones. |
| `Dashboards.DashboardStore.CreateDashboard` | server/custom-dashboards.ts:41-52 | The dashboard is stored under `dashboard_<now>`, replacing one created in the same millisecond, and `getDashboard` then returns it. |
| `Dashboards.Stamp` | server/custom-dashboards.ts:44-49 | The stored dashboard carries the id and both timestamps, and its other fields are exactly the draft's. |
| `Dashboards.DashboardStore.UpdateDashboard` | server/custom-dashboards.ts:54-61 | False and no change for an unknown id. Otherwise the named fields are merged in and `updatedAt` is now. |
| `Dashboards.Assign` | server/custom-dashboards.ts:59 | Each of the ten fields is stated: a named field is overwritten, an unnamed one is kept, and `updatedAt` is the update time. |
| `Dashboards.AssignLaws` | server/custom-dashboards.ts:59 | An empty update touches only `updatedAt`, and repeating an update changes nothing more. |
| `Dashboards.DashboardStore.GetDashboard` | server/custom-dashboards.ts:63-65 | The stored dashboard, or null iff there is none. |
| `Dashboards.DashboardStore.DeleteDashboard` | server/custom-dashboards.ts:67-69 | Returns true iff the id was present. Afterwards `getDashboard` gives null, and the others keep their order. |
| `Dashboards.DashboardStore.ListDashboards` | server/custom-dashboards.ts:71-78 | Exactly the stored dashboards where the user is owner, editor or viewer, or that are public, in insertion order and with their multiplicity. |
| `Dashboards.VisibleTo` | server/custom-dashboards.ts:72-77 | The filter keeps a subsequence holding each visible dashboard as often as the input does, and no other. |
| `Dashboards.VisibleToKeeps` | server/custom-dashboards.ts:72-77 | The filter keeps every visible dashboard. |
| `Dashboards.DashboardStore.ShareDashboard` | server/custom-dashboards.ts:189-201 | False and no change for an unknown id. Otherwise the users are appended to the editors for `'edit'` and to the viewers otherwise, and nothing else changes. |
| `Dashboards.Share` | server/custom-dashboards.ts:194-198 | The users are appended to exactly one list; the other list is untouched. |
| `Dashboards.ShareGrants` | server/custom-dashboards.ts:189-201 | Sharing never takes access away, and gives it to every user shared with. |
| `Dashboards.DashboardStore.CloneDashboard` | server/custom-dashboards.ts:204-221 | An unknown id is the "Dashboard not found" error. Otherwise a copy is stored under the new name, owned by the caller, with no editors or viewers and not public. |
| `Dashboards.CloneDraft` | server/custom-dashboards.ts:211-220 | The clone's draft has the new name and the caller as sole owner, and keeps the original's content. |
| `Dashboards.CloneVisibility` | server/custom-dashboards.ts:204-221 | A clone is visible to its maker and to nobody else. |
| `Dashboards.DashboardStore.constructor` | server/custom-dashboards.ts:39 | There are no dashboards at the start. |
| `Values.Put` | server/data-pipelines.ts:142-145 | `{...r, [k]: v}`: `k` holds `v`, every other key is unchanged, an existing key keeps its position and a new key goes last. |
| `Values.MergeGet` | server/data-pipelines.ts:224-226 | `{...r, ...t}`: the keys of `t` take its values and the others keep theirs. |
| `Values.MergeKeys` | server/data-pipelines.ts:224-226 | A merge has exactly the keys of both records. |
| `Values.PutAllLast` | server/data-pipelines.ts:174-205 | With assignments in turn, a key holds its last assignment. |
| `Values.PutAllUntouched` | server/data-pipelines.ts:174-205 | A key no assignment names keeps its value. |
| `Values.KeyIndex` | server/data-pipelines.ts:68 | `record[k]` reads the first field with key `k`, and finds none iff the key is absent. |
| `Text.Split` | server/middleware.ts:168 | `split` always yields at least one piece. |
| `Text.SplitJoin` | server/data-pipelines.ts:155-171 | Joining parts that do not contain the separator and splitting again gives the parts back. |
| `Text.IndexOf` | server/data-pipelines.ts:76 | `indexOf` finds the first occurrence, and none iff the text does not occur. |
| `Text.FirstAtIndexOf` | server/data-pipelines.ts:110-112 | An occurrence with none before it is the one `indexOf` finds. |
| `Text.ReplaceFirst` | server/data-pipelines.ts:110-112 | Text that does not occur changes nothing; otherwise the first occurrence alone is replaced by the replacement with its `$` patterns substituted, and the text before and after it is kept. |
| `Text.ExpandPlain` | server/data-pipelines.ts:110-112 | A replacement without `$` is inserted as written. |
| `Text.ExpandPatterns` | server/data-pipelines.ts:110-112 | `$&`, `` $` `` and `$'` stand for the matched text, the text before it and the text after it. |
| `Text.ExpandEscapes` | server/data-pipelines.ts:110-112 | `$$` is one dollar sign, and `$1` stays as written because a string pattern has no groups. |
| `Text.Upper` | server/data-pipelines.ts:98-100 | Upper-casing keeps the length and maps each ASCII letter to its capital. |
| `Text.Lower` | server/data-pipelines.ts:102-104 | Lower-casing keeps the length and maps each ASCII capital to its small letter. |
| `Text.Trim` | server/data-pipelines.ts:106-108 | The trimmed text is a piece of the input with only white space or line terminators around it, and it neither starts nor ends with one. |
| `Text.TrimUnique` | server/data-pipelines.ts:106-108 | Any piece with both properties is the trimmed text. |
| `Text.Substring` | server/data-pipelines.ts:114-116 | `substring` returns the text between the smaller and the larger of the two clamped indices; an absent end is the length. |
| `Text.SubstringSwap` | server/data-pipelines.ts:114-116 | Swapping the two indices gives the same text. |
| `Text.SubstringInRange` | server/data-pipelines.ts:114-116 | Indices in order and in range select exactly that slice. |
| `Text.ExponentDigits` | server/data-pipelines.ts:118-120 | Digits, `e` and digits read as the first number times ten to the second, over the whole text, and `parseFloat` returns that value. |
| `Text.ExponentIncomplete` | server/data-pipelines.ts:118-120 | An `e` with no digits after it is not part of the number. |
| `Text.ParseFloatIntText` | server/data-pipelines.ts:118-120 | `parseFloat(String(i))` is `i` for every whole number. |
| `Text.NumberRadixLiteral` | server/data-pipelines.ts:77-80 | `Number()` reads an unsigned `0x`, `0o` or `0b` literal (either case) as its digits' value in base 16, 8 or 2, as a string operand of `>`/`<` is converted. |
| `Text.NumberSignedRadix` | server/data-pipelines.ts:77-80 | A sign in front of such a literal makes `Number()` NaN. |
| `Common.TakeLast` | server/middleware.ts:147 | `slice(-k)` is the last `min(k, n)` elements. |
| `Numbers.MinMaxExact` | server/data-quality.ts:319-320 | `Math.min` and `Math.max` of a non-empty list are its least and greatest elements. |
| `Numbers.RoundHalfUp` | server/data-quality.ts:230 | `Math.round` is within one half, with halves rounded up. |
| `OrderedMaps.Set` | server/middleware.ts:55-60 | `Map.set` updates the entry, keeping an existing key's place and putting a new key last. |
| `OrderedMaps.Remove` | server/custom-dashboards.ts:67-69 | `Map.delete` removes the key and keeps the order of the others. |
| `Sorting.SortByPermutes` | server/data-pipelines.ts:238-247 | The sorted copy is a permutation of the input. |
| `Sorting.SortBySorted` | server/data-pipelines.ts:238-247 | Under a strict order, the sorted copy is in order. |
| `Sorting.SortByStable` | server/data-pipelines.ts:238-247 | The sort is stable: elements with equal keys keep their input order. |

## Left out

- Floating-point arithmetic: numbers are exact reals, and Infinity is not a
  value. A `min`/`max` aggregate over a group with no numbers writes null
  where the source writes `Infinity`/`-Infinity` (server/data-pipelines.ts:186-192).
- `toFixed` text and the wording of suggestions: a suggestion carries the
  figures its text reports.
- `Math.sqrt`: an outlier is decided by `(v - mean)² > 4·variance`, which equals
  the z-score test for a positive deviation. A zero deviation divides by zero
  in the source (`0/0` is NaN, never `> 2`), and the squared test reports
  nothing there either. `standardizeData` takes `sqrt` as a parameter.
- Regular-expression `'pattern'` rules and `'custom'` rule functions: each is
  an opaque predicate.
- `removeOutliers` in `cleanData`: the source never reads it.
- Object keys that look like array indices, which JavaScript enumerates
  first: a record keeps plain insertion order. Prototype keys are not
  modelled.
- `ResourceKey`: two resources whose `type:id` texts collide share a history,
  as in the source; the model does not single this out.
- Random ids (`randomUUID`, `Date.now()` ids, `Math.random()` comment ids),
  the clock and the md5/sha256 hashes are parameters. `CreateABTest` asks
  for an id not in use, where the source relies on `randomUUID` being fresh.
- The ISO text of the `'timestamp'` enrichment and `parse_date` (`new Date(v)`)
  come from the environment parameter.
- `recordAudit`'s spread lets caller fields named `id` or `timestamp` override
  the generated ones; the model's input has no such fields.
- Snapshots (`createSnapshot`, `restoreSnapshot`, `getSnapshots`) are not
  part of this model.
- `getTestResults`, a floating-point mean/σ/winner report, and
  `createMultivariateTest` are not part of this model; its
  `generateCombinations` is.
- Socket broadcasts (`getIO`, `broadcastEvent`) and `broadcastEdit`, which
  only emits, are left out.
- `getSessionStats` is left out: it is float averaging, and its duration
  reduce ignores its accumulator.
- Aliasing of stored objects handed out to callers. `userJoined` stores a
  spread copy (server/realtime-collaboration.ts:41-45), but its result,
  `getActiveUsers` and `getUsersOnPage` (lines 120-129) return the stored
  user objects themselves, which `userLeft`, `updateUserPresence` and
  `setUserStatus` then change in place (lines 67, 107-108, 140): a caller
  holding a user sees its status become `'offline'`. Likewise `getDashboard`
  and `listDashboards` return stored dashboards that `updateDashboard`'s
  `Object.assign` and `shareDashboard`'s `push` later change
  (server/custom-dashboards.ts:59, 63-65, 195-197), and a caller's reference
  to a history array sees later versions. Here every result is a value
  taken at the time of the call.
- A `Partial` update whose property is present but `undefined` is treated
  as absent.
- The rate limiters, `requestLogger`, the slow-request and console logs, and
  the `next(err)` forwarding of `errorTracker` are left out.
- A NaN audience percentage, rollout or limit: the model's numbers are never
  NaN.
- The dashboard JSON export/import, widget templates and themes are left
  out. Widgets and filters are opaque values.
- `PipelineTemplates` and the mock `PipelineStorage` are left out.
- `Text.Upper`: only the ASCII letters are mapped. JavaScript maps every
  letter with a case, and some mappings change the length (`"ß"` becomes
  `"SS"`), so the length is not kept there.
- `Text.Lower`: only the ASCII capitals are mapped, for the same reason.
- `Text.NumText`: `String(n)` is plain decimal text for every number. JavaScript
  switches to exponent notation for |n| ≥ 1e21 and for 0 < |n| < 1e-6
  (`String(1e21)` is `"1e+21"`, `String(1e-7)` is `"1e-7"`), where the model
  writes all the digits, and it writes the shortest digits that round-trip
  the double, where the model writes at most sixteen fractional digits. This
  reaches `contains`, the text transforms, the `String` counting keys of the
  mode and string comparisons.
- The text `Infinity` (with or without a sign) reads as NaN in `parseFloat`
  and `Number()` here, since Infinity is not a value.
- `documentLocks` is an unordered map: the insertion order of the `Map`
  that `getDocumentLocks` copies is not modelled.
- `PipelineSteps.EnrichTimestamp`: one instant, `env.now`, stands for every
  record's clock read. The source calls `new Date().toISOString()` once per
  record inside `data.map` (server/data-pipelines.ts:271-273), so records
  stamped across a millisecond tick get different texts; the lemma's "every
  record gets the same text" holds only for the single read modelled.
- Strings outside the Basic Multilingual Plane. A `char` here is a Unicode
  scalar value, while JavaScript strings are UTF-16 code units: `"😀".length`
  is 2 in JavaScript and 1 here, so `length`, `substring` and `indexOf`
  indices differ past such a character. String order differs too: JavaScript's `<` puts
  `"😀"` (code unit 0xD83D) before `"Ａ"` (0xFF21), the model after. Lone
  surrogates cannot be written.
- A missing `params` object. `transformStep` declares `params?` optional
  (server/data-pipelines.ts:92, 144), yet `replace`, `substring`, `concat`,
  `multiply` and `round` read `config.params.from`/`.start`/`.fields`/`.factor`/`.decimals`
  (lines 111, 115, 127, 131, 135). `enrichStep` reads `config.params.field` and
  `.outputField` (lines 273, 281, 286, 293), and `validateField` destructures a
  `'range'` rule's `params` (server/data-quality.ts:129). Without `params` the
  source throws a TypeError and `executePipeline` rejects; the model's
  `Transformation`, `Enrichment` and `RuleKind` always carry their parameters,
  so that error is not modelled.
- Reference identity. In JavaScript `===`, `Set` and `Map` treat the same
  array or object reference as equal; here arrays and objects carry no
  identity, so they are never strictly equal and each counts once in
  `count_distinct`. This shows in a join: `{...record, ...match}` shares the
  target's nested objects across every record it matches
  (server/data-pipelines.ts:221-234), so a later `count_distinct` over such a
  field is 1 in the source and one per record in the model (lines 197-198).
- `Aggregation.AggregateValue`: an `avg` is the exact quotient, not the
  floating-point one.
