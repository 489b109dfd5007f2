# NYC schools data pipeline, modelled in Dafny

The NYC schools app shows New York City high schools with their SAT results. Two lists come
from the NYC Open Data REST API: schools, and SAT results. Both are loosely typed: every field
may be null, and numbers arrive as strings. The repository validates the records and joins
every school to its SAT result by the school's `dbn` (its district-borough number). It caches
the joined records in a SQLite table and answers from that table whenever it is populated.

The repository exists in three successive snapshots. All three are modelled, together with the
mapping from table row to domain record.

| file | snapshot |
|---|---|
| `data/Repository.kt` | the latest one: validation, join, test-taker percentage, store in one transaction, answer from the table |
| `data/NycOpenDataRepository.kt` | the same validation and join, with no percentage; answers on a miss with the list it built |
| `NycOpenDataRepository.kt` (package root) | the earliest one: no validation, a plain left join |
| `data/domain/HighSchoolWithSatScores.kt` | the record, and the mapping from a table row to it |

Modules:

- `Kotlin` (kotlin.dfy): the Kotlin/JVM primitives the code relies on.
  - Nullable values (`Option`) and the exceptions that can escape (`Result`).
  - `Char.isWhitespace` and `String?.isNullOrBlank`.
  - `String.toLongOrNull`, proved to read back every `Long` written by `toString`.
  - `Double.roundToLong` on an exact quotient, including the zero-divisor cases.
- `KotlinCollections` (collections.dfy): `map`, `filter`, `mapNotNull` (with the positions it keeps), `associateBy` (the last element with a key wins), and a `mapNotNull` whose lambda throws.
- `Store` (store.dfy): the SQLDelight table as a class.
  - Its rows are a `seq` field. `executeAsList` returns them in an unspecified order, stated as a permutation.
  - `executeAsOne` fails unless exactly one row matches.
  - `insert` may be refused.
  - A transaction rolls back to its start.
- `RestApi` (rest_api.dfy): the API records, and a service whose two endpoints answer with a response body that may be null. The service counts its requests, which is how "the API is not called" is stated.
- `Validation` (validation.dfy): the SAT and school validation. `data/Repository.kt` and `data/NycOpenDataRepository.kt` contain it word for word, so it is defined once.
- `Domain` (domain.dfy): `data/domain/HighSchoolWithSatScores.kt`.
- `Repository` (repository.dfy): `data/Repository.kt`: pure validation and join functions, then a `Repository` class holding the service and the table.
- `DataNycOpenDataRepository` (data_nyc_open_data_repository.dfy): `data/NycOpenDataRepository.kt`, with its own record and row types.
- `NycOpenDataRepository` (nyc_open_data_repository.dfy): the package-root `NycOpenDataRepository.kt`, with its own record and row types.

How the code's state and effects are modelled:

- **Table.** The table's rows are a field that `insert` extends. A `transaction { … }` is `BeginTransaction`, one `Insert` per record in a `for` loop, then `Commit`. If an insert is refused, `Rollback` runs and the save method returns `Failure(SqlInsertFailed)`.
- **API.** The API's answers are fixed when the service is constructed, as in the fake service the tests use.
- **Exceptions.** An exception is a `Failure` that the callers propagate.

## Model

| member | source | states |
|---|---|---|
| Kotlin.ToLongOrNull | app/src/main/java/com/franklinharper/jpmc/nycschools/data/Repository.kt:101-104 | a parsed value is always a `Long`, and a string with any whitespace in it never parses |
| Kotlin.ToLongOrNullRoundTrip | app/src/main/java/com/franklinharper/jpmc/nycschools/data/Repository.kt:101-104 | every `Long`, written as `toString` writes it, parses back to itself |
| Kotlin.ToLongOrNullRejectsMalformed | app/src/main/java/com/franklinharper/jpmc/nycschools/data/Repository.kt:101-104 | the empty string, a lone sign, two signs, and a leading or trailing space give null |
| Kotlin.ToLongOrNullRejectsOverflow | app/src/main/java/com/franklinharper/jpmc/nycschools/data/Repository.kt:132 | a well-formed numeral outside the `Long` range gives null |
| Kotlin.RoundToLong | app/src/main/java/com/franklinharper/jpmc/nycschools/data/Repository.kt:149-151 | `roundToLong` throws exactly on 0/0 (NaN); every other result is a `Long` |
| Kotlin.RoundToLongIsNearest | app/src/main/java/com/franklinharper/jpmc/nycschools/data/Repository.kt:151 | within the `Long` range, the result is the integer nearest the quotient, with halves rounding up |
| Kotlin.ClampToLong | app/src/main/java/com/franklinharper/jpmc/nycschools/data/Repository.kt:151 | the saturation of `roundToLong`: a value above the `Long` range gives `Long.MAX_VALUE`, one below gives `Long.MIN_VALUE`, and one in range is unchanged |
| Kotlin.IsWhitespace | app/src/main/java/com/franklinharper/jpmc/nycschools/data/Repository.kt:106 | definition, no contract: the characters `Char.isWhitespace` accepts |
| Kotlin.IsNullOrBlank | app/src/main/java/com/franklinharper/jpmc/nycschools/data/Repository.kt:106 | definition, no contract: null, or made of whitespace only (the empty string included) |
| Kotlin.OrEmpty | app/src/main/java/com/franklinharper/jpmc/nycschools/data/Repository.kt:225-228 | definition, no contract: `?: emptyList()` |
| KotlinCollections.MapSeq | app/src/main/java/com/franklinharper/jpmc/nycschools/data/Repository.kt:88-94 | `map` keeps the length and applies the lambda position by position |
| KotlinCollections.MapSeqPermutation | app/src/main/java/com/franklinharper/jpmc/nycschools/data/Repository.kt:88-94 | mapping a reordering of the rows gives a reordering of the mapped records |
| KotlinCollections.MapSeqInverse | app/src/main/java/com/franklinharper/jpmc/nycschools/data/Repository.kt:172-192 | mapping with a function and then with its left inverse gives back the list |
| KotlinCollections.KeptIndices | app/src/main/java/com/franklinharper/jpmc/nycschools/data/Repository.kt:131-167 | the positions `mapNotNull` keeps: all positions whose image is non-null, in increasing order, each once |
| KotlinCollections.MapNotNull | app/src/main/java/com/franklinharper/jpmc/nycschools/data/Repository.kt:131-167 | `mapNotNull` gives one non-null image per kept position, in input order |
| KotlinCollections.KeptIndicesAgree | app/src/main/java/com/franklinharper/jpmc/nycschools/data/NycOpenDataRepository.kt:153-167 | two lambdas that are non-null on the same elements keep the same positions |
| KotlinCollections.TryMapNotNull | app/src/main/java/com/franklinharper/jpmc/nycschools/data/Repository.kt:131-167 | `mapNotNull` with a throwing lambda succeeds exactly when no element throws, and then equals the plain `mapNotNull`; otherwise the first element's exception escapes |
| KotlinCollections.AssociateBy | app/src/main/java/com/franklinharper/jpmc/nycschools/NycOpenDataRepository.kt:101-103 | every element's key is present, and each key maps to the last element with that key |
| KotlinCollections.AssociateByMapNotNullKeys | app/src/main/java/com/franklinharper/jpmc/nycschools/data/Repository.kt:100-129 | after `mapNotNull` then `associateBy`, the key of every kept element is present |
| KotlinCollections.AssociateByMapNotNullLastWins | app/src/main/java/com/franklinharper/jpmc/nycschools/data/Repository.kt:124-129 | after `mapNotNull` then `associateBy`, each key maps to the image of the last kept element with that key |
| Store.Table.SelectAll | app/src/main/java/com/franklinharper/jpmc/nycschools/data/Repository.kt:88-91 | `executeAsList` returns exactly the stored rows, in an order left open |
| Store.Table.SelectOne | app/src/main/java/com/franklinharper/jpmc/nycschools/data/Repository.kt:26-29 | `executeAsOne` returns the one matching row; it throws when no row matches or when several do |
| Store.Table.Insert | app/src/main/java/com/franklinharper/jpmc/nycschools/data/Repository.kt:175-187 | `insert` appends the row, or is refused and changes nothing |
| Store.Table.BeginTransaction | app/src/main/java/com/franklinharper/jpmc/nycschools/data/Repository.kt:173 | opening a transaction records the rows as they are |
| Store.Table.Commit | app/src/main/java/com/franklinharper/jpmc/nycschools/data/Repository.kt:189-190 | the transaction's writes stay |
| Store.Table.Rollback | app/src/main/java/com/franklinharper/jpmc/nycschools/data/Repository.kt:173-190 | the rows return to what they were when the transaction began |
| KotlinCollections.Filter | app/src/main/java/com/franklinharper/jpmc/nycschools/data/Repository.kt:26-29 | the matches of a query: every result row is stored and matches, and each stored row that matches occurs in the result exactly as often as it is stored; non-matching rows never occur |
| KotlinCollections.FilterNone | app/src/main/java/com/franklinharper/jpmc/nycschools/data/Repository.kt:26-29 | a query that no stored row satisfies selects nothing, so `executeAsOne` throws `NullResultSet` |
| RestApi.ApiService.GetSchoolList | app/src/main/java/com/franklinharper/jpmc/nycschools/data/Repository.kt:211-216 | returns the school-list body, null included, and counts one school-list request |
| RestApi.ApiService.GetSatScoreList | app/src/main/java/com/franklinharper/jpmc/nycschools/data/Repository.kt:217-222 | returns the SAT-list body, null included, and counts one SAT request |
| Validation.ParseField | app/src/main/java/com/franklinharper/jpmc/nycschools/data/Repository.kt:101-104 | `field?.toLongOrNull()`: a null field gives null, and a present field gives exactly what `toLongOrNull` gives for its text |
| Validation.IsValidSatScore | app/src/main/java/com/franklinharper/jpmc/nycschools/data/Repository.kt:105-112 | definition, no contract: the six checks, non-blank `dbn` and `schoolName` and four numbers that parse; `Validation.ValidateSatScore` states what it selects |
| Validation.ValidateSatScore | app/src/main/java/com/franklinharper/jpmc/nycschools/data/Repository.kt:100-123 | a SAT record survives exactly when `dbn` and `schoolName` are not blank and all four numbers parse; the survivor carries that `dbn` and those parsed numbers |
| Validation.ValidatedSatScoreMapKeys | app/src/main/java/com/franklinharper/jpmc/nycschools/data/Repository.kt:100-129 | a `dbn` is a key of the SAT map exactly when some valid SAT record carries it |
| Validation.ValidatedSatScoreMapLastWins | app/src/main/java/com/franklinharper/jpmc/nycschools/data/Repository.kt:124-129 | each key maps to the parsed form of the last valid SAT record with that `dbn` |
| Validation.ValidatedSatScoreMap | app/src/main/java/com/franklinharper/jpmc/nycschools/data/Repository.kt:100-129 | definition, no contract: `mapNotNull` of the SAT lambda, then `associateBy` on `dbn`; its keys and values are stated by `Validation.ValidatedSatScoreMapKeys` and `Validation.ValidatedSatScoreMapLastWins` |
| Validation.NegativeTestTakerCountAccepted | app/src/main/java/com/franklinharper/jpmc/nycschools/data/Repository.kt:101-122 | there is no sign check: a record with -29 test takers is accepted with count -29 |
| Validation.ValidatedTotalStudents | app/src/main/java/com/franklinharper/jpmc/nycschools/data/Repository.kt:132-142 | a school survives exactly when `dbn` and `schoolName` are not blank and `totalStudents` parses; its result is the parsed `totalStudents` |
| Validation.IsValidSchool | app/src/main/java/com/franklinharper/jpmc/nycschools/data/Repository.kt:134-142 | definition, no contract: non-blank `dbn` and `schoolName`, and a `totalStudents` that parses |
| Validation.Lookup | app/src/main/java/com/franklinharper/jpmc/nycschools/data/Repository.kt:133 | `satScoreMap[dbn]` is non-null exactly when the `dbn` is a key, and is then the entry |
| Domain.ToHighSchoolWithSatScores | app/src/main/java/com/franklinharper/jpmc/nycschools/data/domain/HighSchoolWithSatScores.kt:22-35 | nine columns are copied unchanged; `satTestTakerCount` becomes `countOfSatTakers` and `satTestTakerPercentage` becomes `percentageOfSatTakers` |
| Domain.ToHighSchoolWithSatScoresInjective | app/src/main/java/com/franklinharper/jpmc/nycschools/data/domain/HighSchoolWithSatScores.kt:22-35 | two rows that map to the same record are the same row, since every column reaches the record |
| Repository.PercentageWithinRange | app/src/main/java/com/franklinharper/jpmc/nycschools/data/Repository.kt:146-152 | for 0 <= takers <= students and students > 0, the percentage is between 0 and 100 and is the nearest integer to 100·takers/students |
| Repository.PercentageOfEmptySchool | app/src/main/java/com/franklinharper/jpmc/nycschools/data/Repository.kt:149-151 | with 0 students: 0 takers throws (NaN); a positive count saturates to `Long.MAX_VALUE`; a negative count saturates to `Long.MIN_VALUE` |
| Repository.PercentageExamples | app/src/test/java/com/franklinharper/jpmc/nycschools/data/RepositoryEndToEndTest.kt:92-105 | 100 of 100 gives 100; 264 of 598 gives 44 |
| Repository.PercentageOfSatTakers | app/src/main/java/com/franklinharper/jpmc/nycschools/data/Repository.kt:146-152 | definition, no contract: `(100·count / total).roundToLong()`; stated by `Repository.PercentageWithinRange`, `Repository.PercentageOfEmptySchool` and `Repository.PercentageExamples` |
| Repository.MergeSchool | app/src/main/java/com/franklinharper/jpmc/nycschools/data/Repository.kt:146-165 | Details below the table |
| Repository.ValidateSchool | app/src/main/java/com/franklinharper/jpmc/nycschools/data/Repository.kt:131-145 | the school lambda returns a record exactly for a valid school; it throws only on a valid school, and only the NaN exception |
| Repository.ValidationKeepsValidSchoolsInOrder | app/src/main/java/com/franklinharper/jpmc/nycschools/data/Repository.kt:131-169 | the validated list has exactly one record per valid school, in input order; each record is that school merged with the SAT map |
| Repository.ValidationFailsOnlyOnNaN | app/src/main/java/com/franklinharper/jpmc/nycschools/data/Repository.kt:146-152 | validation throws exactly when a valid school has 0 students and its SAT entry has 0 takers; the exception is the NaN one |
| Repository.ScoresComeFromLastValidSatScore | app/src/main/java/com/franklinharper/jpmc/nycschools/data/Repository.kt:124-165 | Details below the table |
| Repository.ValidateApiDataAndLogAnomalies | app/src/main/java/com/franklinharper/jpmc/nycschools/data/Repository.kt:96-170 | definition, no contract: the school lambda mapped over the schools with `mapNotNull`, against the validated SAT map; stated by `Repository.ValidationKeepsValidSchoolsInOrder`, `Repository.ValidationFailsOnlyOnNaN` and `Repository.ScoresComeFromLastValidSatScore` |
| Repository.SingleSchoolExample | app/src/test/java/com/franklinharper/jpmc/nycschools/data/RepositoryTest.kt:45-98 | the test's one school and one SAT record give total 100, math 101, writing 102, reading 100, count 100 and percentage 100 |
| Repository.RecordRoundTrip | app/src/main/java/com/franklinharper/jpmc/nycschools/data/Repository.kt:175-187 | inserting a record's columns and mapping the row back gives the record |
| Repository.RowOf | app/src/main/java/com/franklinharper/jpmc/nycschools/data/Repository.kt:175-187 | definition, no contract: the columns `insert` binds for a record; `Repository.RecordRoundTrip` and `Repository.RowRoundTrip` state that it inverts the row-to-record mapping |
| Repository.RowRoundTrip | app/src/main/java/com/franklinharper/jpmc/nycschools/data/domain/HighSchoolWithSatScores.kt:22-35 | mapping a row to its record and binding the insert columns gives the row back |
| Repository.RecordsRoundTrip | app/src/main/java/com/franklinharper/jpmc/nycschools/data/Repository.kt:172-192 | the rows of a saved list, mapped back, are that list |
| Repository.Repository.LoadSchoolWithSatScores | app/src/main/java/com/franklinharper/jpmc/nycschools/data/Repository.kt:26-30 | succeeds exactly when one row has the `dbn`, and returns that row's record; no such row throws `NullResultSet` |
| Repository.Repository.GetHighSchoolsWithSatFromDb | app/src/main/java/com/franklinharper/jpmc/nycschools/data/Repository.kt:88-94 | returns every stored row's record once, in the order the query returns them |
| Repository.Repository.LoadFromApi | app/src/main/java/com/franklinharper/jpmc/nycschools/data/Repository.kt:194-229 | one request to each endpoint; a null body becomes an empty list |
| Repository.Repository.SaveDataToDb | app/src/main/java/com/franklinharper/jpmc/nycschools/data/Repository.kt:172-192 | in one transaction, appends every record's row in list order and returns true; if an insert throws, the table is as before |
| Repository.Repository.LoadSchoolsWithSatScores | app/src/main/java/com/franklinharper/jpmc/nycschools/data/Repository.kt:36-86 | Details below the table |
| Repository.Repository.LoadIntoEmptyTable | app/src/main/java/com/franklinharper/jpmc/nycschools/data/Repository.kt:63-85 | the cache-miss path: fetch once, validate, save, and answer with the table's contents |
| DataNycOpenDataRepository.MergeSchool | app/src/main/java/com/franklinharper/jpmc/nycschools/data/NycOpenDataRepository.kt:168-180 | copies the school's fields including `subway`; the count and three scores come from the map entry for the `dbn`, or are all null without one |
| DataNycOpenDataRepository.ValidateSchool | app/src/main/java/com/franklinharper/jpmc/nycschools/data/NycOpenDataRepository.kt:153-167 | the school lambda returns a record exactly for a valid school |
| DataNycOpenDataRepository.ValidateApiSchoolsAndLogAnomalies | app/src/main/java/com/franklinharper/jpmc/nycschools/data/NycOpenDataRepository.kt:149-184 | exactly one record per valid school, in input order, each merged with the SAT map |
| DataNycOpenDataRepository.MergeScoresComeFromLastValidSatScore | app/src/main/java/com/franklinharper/jpmc/nycschools/data/NycOpenDataRepository.kt:113-180 | the SAT fields are present exactly when a valid SAT record has the school's `dbn`; they are the last such record's parsed numbers |
| DataNycOpenDataRepository.MergeApiData | app/src/main/java/com/franklinharper/jpmc/nycschools/data/NycOpenDataRepository.kt:109-146 | definition, no contract: null bodies read as empty, the validated SAT map, then the school validation; stated by `DataNycOpenDataRepository.MergeScoresComeFromLastValidSatScore` |
| DataNycOpenDataRepository.FromDbCopiesEveryColumn | app/src/main/java/com/franklinharper/jpmc/nycschools/data/NycOpenDataRepository.kt:192-206 | the row-to-record copy and the insert binding are inverse to each other, so all 11 columns are copied |
| DataNycOpenDataRepository.FromDbToHighSchoolWithSatScores | app/src/main/java/com/franklinharper/jpmc/nycschools/data/NycOpenDataRepository.kt:192-206 | definition, no contract: the column-for-field copy from row to record; `DataNycOpenDataRepository.FromDbCopiesEveryColumn` states that it is inverse to the insert binding |
| DataNycOpenDataRepository.RowOf | app/src/main/java/com/franklinharper/jpmc/nycschools/data/NycOpenDataRepository.kt:61-73 | definition, no contract: the columns `insert` binds for a record; its partner is `DataNycOpenDataRepository.FromDbCopiesEveryColumn` |
| DataNycOpenDataRepository.NycOpenDataRepository.LoadSchoolWithSatFromDb | app/src/main/java/com/franklinharper/jpmc/nycschools/data/NycOpenDataRepository.kt:187-190 | succeeds exactly when one row has the `dbn`; no such row throws `NullResultSet` |
| DataNycOpenDataRepository.NycOpenDataRepository.LoadFromApi | app/src/main/java/com/franklinharper/jpmc/nycschools/data/NycOpenDataRepository.kt:78-147 | one request to each endpoint; the result is the validated merge of the two lists, a null body read as empty |
| DataNycOpenDataRepository.NycOpenDataRepository.SaveDataToDb | app/src/main/java/com/franklinharper/jpmc/nycschools/data/NycOpenDataRepository.kt:58-76 | in one transaction, appends every record's row in list order; if an insert throws, the table is as before |
| DataNycOpenDataRepository.NycOpenDataRepository.LoadSchoolsWithSatScores | app/src/main/java/com/franklinharper/jpmc/nycschools/data/NycOpenDataRepository.kt:26-55 | Details below the table |
| NycOpenDataRepository.MergeApiDataLeftJoin | app/src/main/java/com/franklinharper/jpmc/nycschools/NycOpenDataRepository.kt:101-119 | Details below the table |
| NycOpenDataRepository.MergeSchool | app/src/main/java/com/franklinharper/jpmc/nycschools/NycOpenDataRepository.kt:104-119 | definition, no contract: the `map` lambda, one record from a school and its optional SAT entry; stated by `NycOpenDataRepository.MergeApiDataLeftJoin` |
| NycOpenDataRepository.MergeApiData | app/src/main/java/com/franklinharper/jpmc/nycschools/NycOpenDataRepository.kt:99-119 | definition, no contract: `associateBy` on the SAT list, then `map` over the schools; stated by `NycOpenDataRepository.MergeApiDataLeftJoin` |
| NycOpenDataRepository.NycOpenDataRepository.LoadFromApi | app/src/main/java/com/franklinharper/jpmc/nycschools/NycOpenDataRepository.kt:68-120 | one request to each endpoint; the result is the unvalidated merge, a null body read as empty |
| NycOpenDataRepository.NycOpenDataRepository.SaveDataToDb | app/src/main/java/com/franklinharper/jpmc/nycschools/NycOpenDataRepository.kt:48-66 | in one transaction, appends every record as it is; if an insert throws, the table is as before |
| NycOpenDataRepository.NycOpenDataRepository.LoadSchoolsWithSatScores | app/src/main/java/com/franklinharper/jpmc/nycschools/NycOpenDataRepository.kt:20-46 | Details below the table |

Details of the longer contracts (the rows above that say "Details below the table"):

- `Repository.MergeSchool`:
  - `dbn`, `name`, `startTime`, `zipCode` and `website` are copied. `totalStudents` is the parsed count.
  - The four score fields and the percentage are all non-null exactly when the `dbn` is a key of the SAT map. They are then that entry's values and the rounded percentage.
  - It throws exactly on 0 takers of 0 students.
- `Repository.ScoresComeFromLastValidSatScore`: stated directly on the API lists.
  - A validated record's scores are present exactly when some valid SAT record has its `dbn`.
  - They are then the parsed numbers of the last such record.
- `Repository.Repository.LoadSchoolsWithSatScores`:
  - A populated table: no request, no write. The answer is the table's records.
  - An empty table: one request per endpoint. There are three outcomes:
    - validation throws, and the table stays empty;
    - the table holds the validated records' rows, and the answer is those records in the order the table returns them;
    - an insert throws, and the table stays empty.
- `DataNycOpenDataRepository.NycOpenDataRepository.LoadSchoolsWithSatScores`:
  - A populated table: the answer is its rows, copied, with no request and no write.
  - An empty table: one request per endpoint. Either the answer is exactly the merged list and the table holds its rows, or an insert throws and the table stays empty.
- `NycOpenDataRepository.MergeApiDataLeftJoin`:
  - There is one record per school, in order. Its fields are copied, with `zip` going into `zipCode`.
  - The scores are the last SAT record with the `dbn`, with reading taken from `satCriticalReadingAvgScore`. They are all null when no SAT record has the `dbn`.
- `NycOpenDataRepository.NycOpenDataRepository.LoadSchoolsWithSatScores`:
  - A populated table: the query's rows are returned as they are, with no request and no write.
  - An empty table: either the answer is exactly the merged list and the table holds it, or an insert throws and the table stays empty.

## Left out

- Coroutines (`async`/`await`, `withContext`, dispatchers, cancellation): the two fetches are modelled as two sequential calls, because their results do not depend on the order.
- Timber logging: it has no effect on any result.
- The Android UI layer, Retrofit/Gson wiring and dependency injection: outside the data pipeline.
- HTTP errors: an error response is modelled as a null body, since `body()` returns null for it.
- RestApi.ApiService.GetSchoolList, RestApi.ApiService.GetSatScoreList: they always answer. In the code, a network or JSON-conversion failure makes the suspend call throw. The exception then leaves `loadSchoolsWithSatScores` with the table untouched. No load method's contract covers that outcome.
- The SQL schema is not part of this model. What follows from that:
  - The order `getAllSchools`/`selectAllSchools` imposes is stated only as "some permutation of the rows".
  - Primary-key and other constraints are stated only as "an insert may be refused".
  - `getSchoolByDbn` is taken to select the rows whose `dbn` equals the argument.
- The line-81 re-read in `data/Repository.kt`: it only feeds a log line, so the model reads the table once more, at line 85.
- The record and row types of the package-root snapshot (`HighSchool` and the generated `HighSchoolWithSatScores`) are not part of this model. They are taken to have a non-null `dbn` and name, and nullable other fields, as `SatScore.kt` and the calls suggest.
- Kotlin.ToLongOrNull: accepts ASCII digits only. The JVM's `Character.digit` also accepts other Unicode decimal digits.
- Kotlin.IsWhitespace: follows current Unicode. U+180E, a space separator in old Unicode versions, is not whitespace here.
- Repository.PercentageWithinRange: states the exact rational rounding. The code rounds a `Double` quotient multiplied by 100, which can differ from the exact value next to a .5 boundary.
- The record of the `data/NycOpenDataRepository.kt` snapshot has `subway` and `satTestTakerCount` fields, because its constructor call at lines 168-180 passes them. The `data/domain/HighSchoolWithSatScores.kt` class has neither; its test-taker field is `countOfSatTakers`. The model therefore gives that snapshot its own record type in `DataNycOpenDataRepository`, not the one in `Domain`.
- The `RepositoryTest` expectation passes a `subway` argument that the `HighSchoolWithSatScores` data class does not have. The model follows the data class.
