/** data/Repository.kt: the cache-first repository. On an empty table it fetches both API lists,
    validates and joins them (with the derived test-taker percentage), stores the result in one
    transaction and answers from the table; on a populated table it answers from the table
    without touching the API. */
module Repository {
  import opened Kotlin
  import opened KotlinCollections
  import opened Store
  import opened RestApi
  import opened Validation
  import opened Domain

  /** `(satTestTakerCount.toDouble() / totalStudents.toDouble() * 100).roundToLong()`, taken on
      the exact quotient. */
  function PercentageOfSatTakers(count: int, total: int): Result<int>
  {
    RoundToLong(100 * count, total)
  }

  /** For a school with at least one student and at most all of them taking the test, the
      percentage is the whole number nearest to 100 * count / total, halves rounding up, and
      lies between 0 and 100. */
  lemma PercentageWithinRange(count: int, total: int)
    requires 0 <= count <= total && total > 0
    ensures PercentageOfSatTakers(count, total).Success?
    ensures var p := PercentageOfSatTakers(count, total).value;
      && 0 <= p <= 100
      && (2 * p - 1) * total <= 200 * count < (2 * p + 1) * total
  {
    assert 200 * count <= 200 * total;
    assert 0 <= 200 * count;
    assert 200 * total < (2 * LONG_MAX + 1) * total;
    assert (2 * LONG_MIN - 1) * total < 0;
    RoundToLongIsNearest(100 * count, total);
    var p := PercentageOfSatTakers(count, total).value;
    LessByPositiveFactor(2 * p - 1, 201, total);
    LessByPositiveFactor(-1, 2 * p + 1, total);
  }

  /** The code has no guard for a school of zero students: the quotient is an infinity, which
      saturates, unless nobody took the test, when it is NaN and `roundToLong` throws. */
  lemma PercentageOfEmptySchool(count: int)
    ensures count == 0 ==> PercentageOfSatTakers(count, 0) == Failure(CannotRoundNaN)
    ensures count > 0 ==> PercentageOfSatTakers(count, 0) == Success(LONG_MAX)
    ensures count < 0 ==> PercentageOfSatTakers(count, 0) == Success(LONG_MIN)
  {
  }

  /** The two cases the tests check: 100 of 100 students gives 100, 264 of 598 gives 44. */
  lemma PercentageExamples()
    ensures PercentageOfSatTakers(100, 100) == Success(100)
    ensures PercentageOfSatTakers(264, 598) == Success(44)
  {
  }

  /** The `else` branch of the school lambda: a valid school joined with its SAT entry, if any. */
  function MergeSchool(satMap: map<string, SatScores>, school: ApiHighSchool, total: int): (r: Result<HighSchoolWithSatScores>)
    requires school.dbn.Some? && school.schoolName.Some?
    ensures var dbn := school.dbn.value;
      r.Failure? <==> dbn in satMap && satMap[dbn].satTestTakerCount == 0 && total == 0
    ensures r.Failure? ==> r.error == CannotRoundNaN
    ensures r.Success? ==> var rec := r.value;
      && rec.dbn == school.dbn.value && rec.name == school.schoolName.value
      && rec.startTime == school.startTime && rec.zipCode == school.zipCode
      && rec.website == school.website && rec.totalStudents == Some(total)
    ensures r.Success? ==> var rec, dbn := r.value, school.dbn.value;
      && (dbn !in satMap ==>
            && rec.countOfSatTakers.None? && rec.percentageOfSatTakers.None? && rec.mathSatAverageScore.None?
            && rec.writingSatAverageScore.None? && rec.readingSatAverageScore.None?)
      && (dbn in satMap ==>
            && rec.countOfSatTakers == Some(satMap[dbn].satTestTakerCount)
            && rec.mathSatAverageScore == Some(satMap[dbn].mathSatAverageScore)
            && rec.writingSatAverageScore == Some(satMap[dbn].writingSatAverageScore)
            && rec.readingSatAverageScore == Some(satMap[dbn].readingSatAverageScore)
            && rec.percentageOfSatTakers.Some?
            && Success(rec.percentageOfSatTakers.value) == PercentageOfSatTakers(satMap[dbn].satTestTakerCount, total))
  {
    var sat := Lookup(satMap, school.dbn.value);
    var percentage :- match sat
      case None => Success(None)
      case Some(s) => (
        match PercentageOfSatTakers(s.satTestTakerCount, total)
        case Success(p) => Success(Some(p))
        case Failure(e) => Failure(e));
    Success(HighSchoolWithSatScores(
      dbn := school.dbn.value,
      name := school.schoolName.value,
      startTime := school.startTime,
      zipCode := school.zipCode,
      website := school.website,
      totalStudents := Some(total),
      countOfSatTakers := if sat.Some? then Some(sat.value.satTestTakerCount) else None,
      percentageOfSatTakers := percentage,
      mathSatAverageScore := if sat.Some? then Some(sat.value.mathSatAverageScore) else None,
      writingSatAverageScore := if sat.Some? then Some(sat.value.writingSatAverageScore) else None,
      readingSatAverageScore := if sat.Some? then Some(sat.value.readingSatAverageScore) else None))
  }

  /** The lambda given to `mapNotNull` over the school list: null for a rejected school,
      otherwise the joined record; it throws when the percentage cannot be rounded. */
  function ValidateSchool(satMap: map<string, SatScores>, school: ApiHighSchool): (r: Result<Option<HighSchoolWithSatScores>>)
    ensures r.Success? ==> (r.value.Some? <==> IsValidSchool(school))
    ensures r.Failure? ==> IsValidSchool(school) && r.error == CannotRoundNaN
  {
    match ValidatedTotalStudents(school)
    case None => Success(None)
    case Some(total) =>
      var rec :- MergeSchool(satMap, school, total);
      Success(Some(rec))
  }

  function SchoolValidator(satMap: map<string, SatScores>): ApiHighSchool -> Result<Option<HighSchoolWithSatScores>>
  {
    school => ValidateSchool(satMap, school)
  }

  /** `validateApiDataAndLogAnomalies(apiHighSchoolList, apiSatScoreList)`; the log lines are
      not modelled. */
  function ValidateApiDataAndLogAnomalies(schools: seq<ApiHighSchool>, sats: seq<ApiSatScore>): Result<seq<HighSchoolWithSatScores>>
  {
    TryMapNotNull(schools, SchoolValidator(ValidatedSatScoreMap(sats)))
  }

  /** The result is a left join over the valid schools: one record per valid school, in input
      order, each the join of that school with its SAT entry. */
  lemma ValidationKeepsValidSchoolsInOrder(schools: seq<ApiHighSchool>, sats: seq<ApiSatScore>)
    requires ValidateApiDataAndLogAnomalies(schools, sats).Success?
    ensures var out, ks := ValidateApiDataAndLogAnomalies(schools, sats).value, KeptIndices(schools, ValidatedTotalStudents);
      && |out| == |ks|
      && forall t :: 0 <= t < |ks| ==>
           Success(out[t]) == MergeSchool(ValidatedSatScoreMap(sats), schools[ks[t]], ValidatedTotalStudents(schools[ks[t]]).value)
  {
    var f := SchoolValidator(ValidatedSatScoreMap(sats));
    var out := ValidateApiDataAndLogAnomalies(schools, sats).value;
    KeptIndicesAgree(schools, OrNone(f), ValidatedTotalStudents);
    var ks := KeptIndices(schools, ValidatedTotalStudents);
    forall t | 0 <= t < |ks|
      ensures Success(out[t]) == MergeSchool(ValidatedSatScoreMap(sats), schools[ks[t]], ValidatedTotalStudents(schools[ks[t]]).value)
    {
      assert OrNone(f)(schools[ks[t]]) == Some(out[t]);
    }
  }

  /** Loading throws exactly when a valid school with no students has a SAT entry with no test
      takers, and then with the exception `roundToLong` throws on NaN. */
  lemma ValidationFailsOnlyOnNaN(schools: seq<ApiHighSchool>, sats: seq<ApiSatScore>)
    ensures var m := ValidatedSatScoreMap(sats);
      ValidateApiDataAndLogAnomalies(schools, sats).Failure? <==>
        exists i :: 0 <= i < |schools| && ValidatedTotalStudents(schools[i]) == Some(0) &&
          schools[i].dbn.value in m && m[schools[i].dbn.value].satTestTakerCount == 0
    ensures ValidateApiDataAndLogAnomalies(schools, sats).Failure? ==>
      ValidateApiDataAndLogAnomalies(schools, sats).error == CannotRoundNaN
  {
    var m := ValidatedSatScoreMap(sats);
    var f := SchoolValidator(m);
    var r := ValidateApiDataAndLogAnomalies(schools, sats);
    if r.Failure? {
      var i :| 0 <= i < |schools| && f(schools[i]) == Failure(r.error);
      assert ValidateSchool(m, schools[i]).Failure?;
    }
    if exists i :: 0 <= i < |schools| && ValidatedTotalStudents(schools[i]) == Some(0) &&
         schools[i].dbn.value in m && m[schools[i].dbn.value].satTestTakerCount == 0 {
      var i :| 0 <= i < |schools| && ValidatedTotalStudents(schools[i]) == Some(0) &&
         schools[i].dbn.value in m && m[schools[i].dbn.value].satTestTakerCount == 0;
      assert f(schools[i]).Failure?;
    }
  }

  /** Stated on the API lists themselves: a kept school's score fields are present exactly when
      some valid SAT record has its `dbn`, and then they are the numbers of the last such record. */
  lemma ScoresComeFromLastValidSatScore(schools: seq<ApiHighSchool>, sats: seq<ApiSatScore>, t: int)
    requires ValidateApiDataAndLogAnomalies(schools, sats).Success?
    requires 0 <= t < |KeptIndices(schools, ValidatedTotalStudents)|
    ensures var out := ValidateApiDataAndLogAnomalies(schools, sats).value;
      |out| == |KeptIndices(schools, ValidatedTotalStudents)|
    ensures var rec, school := ValidateApiDataAndLogAnomalies(schools, sats).value[t], schools[KeptIndices(schools, ValidatedTotalStudents)[t]];
      && (rec.mathSatAverageScore.Some? <==>
            exists i :: 0 <= i < |sats| && IsValidSatScore(sats[i]) && sats[i].dbn == school.dbn)
      && (rec.mathSatAverageScore.Some? ==>
            exists j :: IsLastValidSatScore(sats, school.dbn.value, j)
              && ParseField(sats[j].mathAvgScore) == rec.mathSatAverageScore
              && ParseField(sats[j].writingAvgScore) == rec.writingSatAverageScore
              && ParseField(sats[j].readingAvgScore) == rec.readingSatAverageScore
              && ParseField(sats[j].testTakerCount) == rec.countOfSatTakers)
  {
    ValidationKeepsValidSchoolsInOrder(schools, sats);
    var ks := KeptIndices(schools, ValidatedTotalStudents);
    var school := schools[ks[t]];
    var m := ValidatedSatScoreMap(sats);
    var rec := ValidateApiDataAndLogAnomalies(schools, sats).value[t];
    assert Success(rec) == MergeSchool(m, school, ValidatedTotalStudents(school).value);
    ValidatedSatScoreMapKeys(sats, school.dbn.value);
    if school.dbn.value in m {
      ValidatedSatScoreMapLastWins(sats, school.dbn.value);
    }
  }

  /** The test case `loadSchoolsWithSatScores() when Rest Api responds without errors`: one
      school of 100 students and one SAT record of 100 takers scoring 100/101/102. */
  lemma SingleSchoolExample()
    ensures ValidateApiDataAndLogAnomalies([ExampleSchool()], [ExampleSatScore()])
      == Success([HighSchoolWithSatScores("dbn1", "school1", None, None, None, Some(100), Some(101), Some(102), Some(100), Some(100), Some(100))])
  {
    var expected := HighSchoolWithSatScores("dbn1", "school1", None, None, None, Some(100), Some(101), Some(102), Some(100), Some(100), Some(100));
    var m := map["dbn1" := SatScores("dbn1", 100, 101, 102, 100)];
    ExampleSatScoreMap();
    ExampleSchoolMerge();
    var f := SchoolValidator(m);
    assert f(ExampleSchool()) == Success(Some(expected));
    TryMapNotNullSingleton(ExampleSchool(), f);
  }

  function ExampleSchool(): ApiHighSchool
  {
    ApiHighSchool(Some("dbn1"), Some("school1"), None, None, None, None, Some("100"), None)
  }

  function ExampleSatScore(): ApiSatScore
  {
    ApiSatScore(Some("dbn1"), Some("name"), Some("100"), Some("100"), Some("101"), Some("102"))
  }

  lemma ExampleNumbers()
    ensures ToLongOrNull("100") == Some(100) && ToLongOrNull("101") == Some(101) && ToLongOrNull("102") == Some(102)
  {
    DigitsValueShort("100");
    DigitsValueShort("101");
    DigitsValueShort("102");
  }

  lemma ExampleSatScoreMap()
    ensures ValidatedSatScoreMap([ExampleSatScore()]) == map["dbn1" := SatScores("dbn1", 100, 101, 102, 100)]
  {
    var scores := SatScores("dbn1", 100, 101, 102, 100);
    assert !IsWhitespace("dbn1"[0]) && !IsWhitespace("name"[0]);
    ExampleNumbers();
    assert ValidateSatScore(ExampleSatScore()) == Some(scores);
    MapNotNullSnoc([], ExampleSatScore(), ValidateSatScore);
    assert [] + [ExampleSatScore()] == [ExampleSatScore()];
    AssociateBySnoc([], scores, SatScoresDbn);
    assert [] + [scores] == [scores];
  }

  lemma ExampleSchoolMerge()
    ensures ValidateSchool(map["dbn1" := SatScores("dbn1", 100, 101, 102, 100)], ExampleSchool())
      == Success(Some(HighSchoolWithSatScores("dbn1", "school1", None, None, None, Some(100), Some(101), Some(102), Some(100), Some(100), Some(100))))
  {
    assert !IsWhitespace("dbn1"[0]) && !IsWhitespace("school1"[0]);
    ExampleNumbers();
    assert ValidatedTotalStudents(ExampleSchool()) == Some(100);
    assert PercentageOfSatTakers(100, 100) == Success(100);
  }

  /** The columns `saveDataToDb` binds in `queries.insert(…)` for a record. */
  function RowOf(school: HighSchoolWithSatScores): HighSchool
  {
    HighSchool(
      dbn := school.dbn,
      name := school.name,
      startTime := school.startTime,
      totalStudents := school.totalStudents,
      zipCode := school.zipCode,
      website := school.website,
      mathSatAverageScore := school.mathSatAverageScore,
      writingSatAverageScore := school.writingSatAverageScore,
      readingSatAverageScore := school.readingSatAverageScore,
      satTestTakerCount := school.countOfSatTakers,
      satTestTakerPercentage := school.percentageOfSatTakers)
  }

  /** Inserting a record and mapping its row back gives the record. */
  lemma RecordRoundTrip(school: HighSchoolWithSatScores)
    ensures ToHighSchoolWithSatScores(RowOf(school)) == school
  {
  }

  /** Mapping a row and inserting the record gives the row. */
  lemma RowRoundTrip(row: HighSchool)
    ensures RowOf(ToHighSchoolWithSatScores(row)) == row
  {
  }

  /** Mapping the rows of a list of records back gives the list. */
  lemma RecordsRoundTrip(data: seq<HighSchoolWithSatScores>)
    ensures MapSeq(MapSeq(data, RowOf), ToHighSchoolWithSatScores) == data
  {
    MapSeqInverse(data, RowOf, ToHighSchoolWithSatScores);
  }

  /** The query `getSchoolByDbn(dbn)`. */
  function WithDbn(dbn: string): HighSchool -> bool
  {
    (row: HighSchool) => row.dbn == dbn
  }

  class Repository {
    const service: ApiService<ApiHighSchool, ApiSatScore>
    const database: Table<HighSchool>

    /** No transaction is left open between calls. */
    ghost predicate Valid()
      reads database
    {
      database.savepoint.None?
    }

    constructor (service: ApiService<ApiHighSchool, ApiSatScore>, database: Table<HighSchool>)
      requires database.savepoint.None?
      ensures this.service == service && this.database == database && Valid()
    {
      this.service := service;
      this.database := database;
    }

    /** `loadSchoolWithSatScores(dbn)`: the record of the one row with that `dbn`; no row throws,
        and so do several. */
    method LoadSchoolWithSatScores(dbn: string) returns (r: Result<HighSchoolWithSatScores>)
      ensures (forall i :: 0 <= i < |database.rows| ==> database.rows[i].dbn != dbn) ==> r == Failure(NullResultSet)
      ensures r.Success? ==> r.value.dbn == dbn && RowOf(r.value) in database.rows
      ensures r.Success? <==> |Filter(database.rows, WithDbn(dbn))| == 1
    {
      if forall i :: 0 <= i < |database.rows| ==> database.rows[i].dbn != dbn {
        FilterNone(database.rows, WithDbn(dbn));
      }
      var row :- database.SelectOne(WithDbn(dbn));
      RowRoundTrip(row);
      r := Success(ToHighSchoolWithSatScores(row));
    }

    /** `getHighSchoolsWithSatFromDb()`: every stored row, mapped to its record, in the order the
        query returns them. */
    method GetHighSchoolsWithSatFromDb() returns (r: seq<HighSchoolWithSatScores>)
      ensures multiset(r) == multiset(MapSeq(database.rows, ToHighSchoolWithSatScores))
    {
      var rows := database.SelectAll();
      MapSeqPermutation(rows, database.rows, ToHighSchoolWithSatScores);
      r := MapSeq(rows, ToHighSchoolWithSatScores);
    }

    /** `loadFromApi(parentScope)`: both lists, a null body read as an empty list. */
    method LoadFromApi() returns (schools: seq<ApiHighSchool>, sats: seq<ApiSatScore>)
      modifies service
      ensures schools == OrEmpty(service.schoolListBody) && sats == OrEmpty(service.satScoreListBody)
      ensures service.schoolListRequests == old(service.schoolListRequests) + 1
      ensures service.satScoreListRequests == old(service.satScoreListRequests) + 1
    {
      var schoolBody := service.GetSchoolList();
      var satBody := service.GetSatScoreList();
      schools := OrEmpty(schoolBody);
      sats := OrEmpty(satBody);
    }

    /** `saveDataToDb(validatedData)`: one transaction inserting every record's row, in list
        order; the result is `true`, unless an insert throws, when nothing stays written. */
    method SaveDataToDb(validatedData: seq<HighSchoolWithSatScores>) returns (r: Result<bool>)
      requires Valid()
      modifies database
      ensures Valid()
      ensures r.Success? ==> r.value && database.rows == old(database.rows) + MapSeq(validatedData, RowOf)
      ensures r.Failure? ==> r.error == SqlInsertFailed && database.rows == old(database.rows)
    {
      database.BeginTransaction();
      for i := 0 to |validatedData|
        invariant database.savepoint == Some(old(database.rows))
        invariant database.rows == old(database.rows) + MapSeq(validatedData[..i], RowOf)
      {
        var accepted := database.Insert(RowOf(validatedData[i]));
        if !accepted {
          database.Rollback();
          return Failure(SqlInsertFailed);
        }
        assert validatedData[..i + 1][..i] == validatedData[..i];
      }
      assert validatedData[..|validatedData|] == validatedData;
      database.Commit();
      return Success(true);
    }

    /** `loadSchoolsWithSatScores(parentScope)`. A populated table is the answer, with no request
        and no write. An empty one is filled from the API and the answer is what the table then
        holds, which is the validated list; validation or the transaction may throw instead. */
    method LoadSchoolsWithSatScores() returns (r: Result<seq<HighSchoolWithSatScores>>)
      requires Valid()
      modifies database, service
      ensures Valid()
      ensures old(database.rows) != [] ==>
        && database.rows == old(database.rows)
        && service.schoolListRequests == old(service.schoolListRequests)
        && service.satScoreListRequests == old(service.satScoreListRequests)
        && r.Success? && multiset(r.value) == multiset(MapSeq(database.rows, ToHighSchoolWithSatScores))
      ensures old(database.rows) == [] ==>
        && service.schoolListRequests == old(service.schoolListRequests) + 1
        && service.satScoreListRequests == old(service.satScoreListRequests) + 1
        && LoadedFromApi(ValidateApiDataAndLogAnomalies(OrEmpty(service.schoolListBody), OrEmpty(service.satScoreListBody)), r, database.rows)
    {
      var existing := GetHighSchoolsWithSatFromDb();
      if existing != [] {
        var fromDb := GetHighSchoolsWithSatFromDb();
        return Success(fromDb);
      }
      assert |database.rows| == |multiset(database.rows)| == 0 by {
        assert |MapSeq(database.rows, ToHighSchoolWithSatScores)| == |multiset(existing)| == 0;
      }
      r := LoadIntoEmptyTable();
    }

    /** The cache-miss path of `loadSchoolsWithSatScores`: fetch, validate, save, re-read. */
    method LoadIntoEmptyTable() returns (r: Result<seq<HighSchoolWithSatScores>>)
      requires Valid() && database.rows == []
      modifies database, service
      ensures Valid()
      ensures service.schoolListRequests == old(service.schoolListRequests) + 1
      ensures service.satScoreListRequests == old(service.satScoreListRequests) + 1
      ensures LoadedFromApi(ValidateApiDataAndLogAnomalies(OrEmpty(service.schoolListBody), OrEmpty(service.satScoreListBody)), r, database.rows)
    {
      var schools, sats := LoadFromApi();
      var validated :- ValidateApiDataAndLogAnomalies(schools, sats);
      var saved :- SaveDataToDb(validated);
      assert database.rows == MapSeq(validated, RowOf);
      // The re-read under "Return data from the DB so that the list is correctly sorted" only
      // feeds a log line; the list returned is the final re-read.
      var fromDb := GetHighSchoolsWithSatFromDb();
      RecordsRoundTrip(validated);
      r := Success(fromDb);
    }
  }

  /** What a load into an empty table leaves behind: a validation exception leaves the table
      empty; otherwise either the table holds the validated records' rows and the answer is
      those records (in the order the table returns them), or an insert threw and the
      transaction left the table empty. */
  ghost predicate LoadedFromApi(validated: Result<seq<HighSchoolWithSatScores>>, r: Result<seq<HighSchoolWithSatScores>>, rows: seq<HighSchool>)
  {
    && (validated.Failure? ==> r == Failure(validated.error) && rows == [])
    && (validated.Success? ==>
          || (r.Success? && rows == MapSeq(validated.value, RowOf) && multiset(r.value) == multiset(validated.value))
          || (r == Failure(SqlInsertFailed) && rows == []))
  }
}
