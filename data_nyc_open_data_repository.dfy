/** data/NycOpenDataRepository.kt: the intermediate snapshot. It has the same SAT and school
    validation as data/Repository.kt but no percentage; its record carries `subway` and
    `satTestTakerCount`, and on a cache miss it answers with the list it built instead of
    re-reading the table. */
module DataNycOpenDataRepository {
  import opened Kotlin
  import opened KotlinCollections
  import opened Store
  import opened RestApi
  import opened Validation

  /** The table row of this snapshot (the SQLDelight-generated `HighSchool`), in insert order. */
  datatype HighSchool = HighSchool(
    dbn: string,
    name: string,
    startTime: Option<string>,
    subway: Option<string>,
    totalStudents: Option<int>,
    zipCode: Option<string>,
    website: Option<string>,
    mathSatAverageScore: Option<int>,
    writingSatAverageScore: Option<int>,
    readingSatAverageScore: Option<int>,
    satTestTakerCount: Option<int>)

  /** The validated record of this snapshot, fields in the order the constructor call names them. */
  datatype HighSchoolWithSatScores = HighSchoolWithSatScores(
    dbn: string,
    name: string,
    startTime: Option<string>,
    subway: Option<string>,
    zipCode: Option<string>,
    website: Option<string>,
    totalStudents: Option<int>,
    satTestTakerCount: Option<int>,
    mathSatAverageScore: Option<int>,
    writingSatAverageScore: Option<int>,
    readingSatAverageScore: Option<int>)

  /** The `else` branch of the school lambda: a valid school joined with its SAT entry, if any. */
  function MergeSchool(satMap: map<string, SatScores>, school: ApiHighSchool, total: int): (r: HighSchoolWithSatScores)
    requires school.dbn.Some? && school.schoolName.Some?
    ensures && r.dbn == school.dbn.value && r.name == school.schoolName.value
            && r.startTime == school.startTime && r.subway == school.subway
            && r.zipCode == school.zipCode && r.website == school.website
            && r.totalStudents == Some(total)
    ensures var dbn := school.dbn.value;
      && (dbn !in satMap ==>
            && r.satTestTakerCount.None? && r.mathSatAverageScore.None?
            && r.writingSatAverageScore.None? && r.readingSatAverageScore.None?)
      && (dbn in satMap ==>
            && r.satTestTakerCount == Some(satMap[dbn].satTestTakerCount)
            && r.mathSatAverageScore == Some(satMap[dbn].mathSatAverageScore)
            && r.writingSatAverageScore == Some(satMap[dbn].writingSatAverageScore)
            && r.readingSatAverageScore == Some(satMap[dbn].readingSatAverageScore))
  {
    var sat := Lookup(satMap, school.dbn.value);
    HighSchoolWithSatScores(
      dbn := school.dbn.value,
      name := school.schoolName.value,
      startTime := school.startTime,
      subway := school.subway,
      zipCode := school.zipCode,
      website := school.website,
      totalStudents := Some(total),
      satTestTakerCount := if sat.Some? then Some(sat.value.satTestTakerCount) else None,
      mathSatAverageScore := if sat.Some? then Some(sat.value.mathSatAverageScore) else None,
      writingSatAverageScore := if sat.Some? then Some(sat.value.writingSatAverageScore) else None,
      readingSatAverageScore := if sat.Some? then Some(sat.value.readingSatAverageScore) else None)
  }

  /** The lambda given to `mapNotNull` over the school list. */
  function ValidateSchool(satMap: map<string, SatScores>, school: ApiHighSchool): (r: Option<HighSchoolWithSatScores>)
    ensures r.Some? <==> IsValidSchool(school)
  {
    match ValidatedTotalStudents(school)
    case None => None
    case Some(total) => Some(MergeSchool(satMap, school, total))
  }

  function SchoolValidator(satMap: map<string, SatScores>): ApiHighSchool -> Option<HighSchoolWithSatScores>
  {
    school => ValidateSchool(satMap, school)
  }

  /** `validateApiSchoolsAndLogAnomalies(schoolList, validatedSatScoreMap)`: exactly the valid
      schools, each once and in input order, each joined with its SAT entry. */
  function ValidateApiSchoolsAndLogAnomalies(schools: seq<ApiHighSchool>, satMap: map<string, SatScores>): (r: seq<HighSchoolWithSatScores>)
    ensures var ks := KeptIndices(schools, ValidatedTotalStudents);
      && |r| == |ks|
      && forall t :: 0 <= t < |ks| ==> r[t] == MergeSchool(satMap, schools[ks[t]], ValidatedTotalStudents(schools[ks[t]]).value)
  {
    var f := SchoolValidator(satMap);
    KeptIndicesAgree(schools, f, ValidatedTotalStudents);
    MapNotNull(schools, f)
  }

  /** The merge at the end of `loadFromApi`, after the null bodies have become empty lists. */
  function MergeApiData(schools: seq<ApiHighSchool>, sats: seq<ApiSatScore>): seq<HighSchoolWithSatScores>
  {
    ValidateApiSchoolsAndLogAnomalies(schools, ValidatedSatScoreMap(sats))
  }

  /** Stated on the API lists themselves: a kept school's SAT fields are present exactly when
      some valid SAT record has its `dbn`, and then they are the numbers of the last such record. */
  lemma MergeScoresComeFromLastValidSatScore(schools: seq<ApiHighSchool>, sats: seq<ApiSatScore>, t: int)
    requires 0 <= t < |KeptIndices(schools, ValidatedTotalStudents)|
    ensures |MergeApiData(schools, sats)| == |KeptIndices(schools, ValidatedTotalStudents)|
    ensures var rec, school := MergeApiData(schools, sats)[t], schools[KeptIndices(schools, ValidatedTotalStudents)[t]];
      && (rec.satTestTakerCount.Some? <==>
            exists i :: 0 <= i < |sats| && IsValidSatScore(sats[i]) && sats[i].dbn == school.dbn)
      && (rec.satTestTakerCount.Some? ==>
            exists j :: IsLastValidSatScore(sats, school.dbn.value, j)
              && ParseField(sats[j].testTakerCount) == rec.satTestTakerCount
              && ParseField(sats[j].mathAvgScore) == rec.mathSatAverageScore
              && ParseField(sats[j].writingAvgScore) == rec.writingSatAverageScore
              && ParseField(sats[j].readingAvgScore) == rec.readingSatAverageScore)
  {
    var school := schools[KeptIndices(schools, ValidatedTotalStudents)[t]];
    ValidatedSatScoreMapKeys(sats, school.dbn.value);
    if school.dbn.value in ValidatedSatScoreMap(sats) {
      ValidatedSatScoreMapLastWins(sats, school.dbn.value);
    }
  }

  /** `fromDbToHighSchoolWithSatScores(highSchoolFromDb)`: a column-for-field copy. */
  function FromDbToHighSchoolWithSatScores(row: HighSchool): HighSchoolWithSatScores
  {
    HighSchoolWithSatScores(
      dbn := row.dbn,
      name := row.name,
      startTime := row.startTime,
      subway := row.subway,
      totalStudents := row.totalStudents,
      zipCode := row.zipCode,
      website := row.website,
      mathSatAverageScore := row.mathSatAverageScore,
      writingSatAverageScore := row.writingSatAverageScore,
      readingSatAverageScore := row.readingSatAverageScore,
      satTestTakerCount := row.satTestTakerCount)
  }

  /** The columns `saveDataToDb` binds in `queries.insert(…)` for a record. */
  function RowOf(school: HighSchoolWithSatScores): HighSchool
  {
    HighSchool(
      dbn := school.dbn,
      name := school.name,
      startTime := school.startTime,
      subway := school.subway,
      totalStudents := school.totalStudents,
      zipCode := school.zipCode,
      website := school.website,
      mathSatAverageScore := school.mathSatAverageScore,
      writingSatAverageScore := school.writingSatAverageScore,
      readingSatAverageScore := school.readingSatAverageScore,
      satTestTakerCount := school.satTestTakerCount)
  }

  /** All 11 columns are copied: the copy and the insert are inverse to each other. */
  lemma FromDbCopiesEveryColumn(row: HighSchool, school: HighSchoolWithSatScores)
    ensures RowOf(FromDbToHighSchoolWithSatScores(row)) == row
    ensures FromDbToHighSchoolWithSatScores(RowOf(school)) == school
  {
  }

  /** The query `getSchoolByDbn(dbn)`. */
  function WithDbn(dbn: string): HighSchool -> bool
  {
    (row: HighSchool) => row.dbn == dbn
  }

  class NycOpenDataRepository {
    const service: ApiService<ApiHighSchool, ApiSatScore>
    const database: Table<HighSchool>

    /** No transaction is left open between calls. */
    ghost predicate Valid()
      reads database
    {
      database.savepoint.None?
    }

    constructor (service: ApiService<ApiHighSchool, ApiSatScore>, database: Table<HighSchool>)
      requires database.savepoint.None?
      ensures this.service == service && this.database == database && Valid()
    {
      this.service := service;
      this.database := database;
    }

    /** `loadSchoolWithSatFromDb(dbn)`: the copy of the one row with that `dbn`; no row throws,
        and so do several. */
    method LoadSchoolWithSatFromDb(dbn: string) returns (r: Result<HighSchoolWithSatScores>)
      ensures (forall i :: 0 <= i < |database.rows| ==> database.rows[i].dbn != dbn) ==> r == Failure(NullResultSet)
      ensures r.Success? ==> r.value.dbn == dbn && RowOf(r.value) in database.rows
      ensures r.Success? <==> |Filter(database.rows, WithDbn(dbn))| == 1
    {
      if forall i :: 0 <= i < |database.rows| ==> database.rows[i].dbn != dbn {
        FilterNone(database.rows, WithDbn(dbn));
      }
      var row :- database.SelectOne(WithDbn(dbn));
      FromDbCopiesEveryColumn(row, FromDbToHighSchoolWithSatScores(row));
      r := Success(FromDbToHighSchoolWithSatScores(row));
    }

    /** `loadFromApi(parentScope)`: both lists, a null body read as an empty list, validated and
        merged. */
    method LoadFromApi() returns (r: seq<HighSchoolWithSatScores>)
      modifies service
      ensures r == MergeApiData(OrEmpty(service.schoolListBody), OrEmpty(service.satScoreListBody))
      ensures service.schoolListRequests == old(service.schoolListRequests) + 1
      ensures service.satScoreListRequests == old(service.satScoreListRequests) + 1
    {
      var schoolBody := service.GetSchoolList();
      var satBody := service.GetSatScoreList();
      var schoolList := OrEmpty(schoolBody);
      var satScoreList := OrEmpty(satBody);
      var validatedSatScoreMap := ValidatedSatScoreMap(satScoreList);
      r := ValidateApiSchoolsAndLogAnomalies(schoolList, validatedSatScoreMap);
    }

    /** `saveDataToDb(validatedData)`: one transaction inserting every record's row, in list
        order; if an insert throws, nothing stays written. */
    method SaveDataToDb(validatedData: seq<HighSchoolWithSatScores>) returns (r: Result<()>)
      requires Valid()
      modifies database
      ensures Valid()
      ensures r.Success? ==> database.rows == old(database.rows) + MapSeq(validatedData, RowOf)
      ensures r.Failure? ==> r.error == SqlInsertFailed && database.rows == old(database.rows)
    {
      database.BeginTransaction();
      for i := 0 to |validatedData|
        invariant database.savepoint == Some(old(database.rows))
        invariant database.rows == old(database.rows) + MapSeq(validatedData[..i], RowOf)
      {
        var accepted := database.Insert(RowOf(validatedData[i]));
        if !accepted {
          database.Rollback();
          return Failure(SqlInsertFailed);
        }
        assert validatedData[..i + 1][..i] == validatedData[..i];
      }
      assert validatedData[..|validatedData|] == validatedData;
      database.Commit();
      return Success(());
    }

    /** `loadSchoolsWithSatScores(parentScope)`. A populated table is the answer, copied row by
        row, with no request and no write. On an empty one the answer is exactly the list built
        from the API, whose rows the table then holds, unless an insert threw. */
    method LoadSchoolsWithSatScores() returns (r: Result<seq<HighSchoolWithSatScores>>)
      requires Valid()
      modifies database, service
      ensures Valid()
      ensures old(database.rows) != [] ==>
        && database.rows == old(database.rows)
        && service.schoolListRequests == old(service.schoolListRequests)
        && service.satScoreListRequests == old(service.satScoreListRequests)
        && r.Success? && multiset(r.value) == multiset(MapSeq(database.rows, FromDbToHighSchoolWithSatScores))
      ensures old(database.rows) == [] ==>
        && service.schoolListRequests == old(service.schoolListRequests) + 1
        && service.satScoreListRequests == old(service.satScoreListRequests) + 1
        && var dataFromApi := MergeApiData(OrEmpty(service.schoolListBody), OrEmpty(service.satScoreListBody));
           || (r == Success(dataFromApi) && database.rows == MapSeq(dataFromApi, RowOf))
           || (r == Failure(SqlInsertFailed) && database.rows == [])
    {
      var dataFromDb := database.SelectAll();
      if dataFromDb != [] {
        MapSeqPermutation(dataFromDb, database.rows, FromDbToHighSchoolWithSatScores);
        return Success(MapSeq(dataFromDb, FromDbToHighSchoolWithSatScores));
      }
      assert |database.rows| == |multiset(dataFromDb)| == 0;
      var dataFromApi := LoadFromApi();
      var saved :- SaveDataToDb(dataFromApi);
      r := Success(dataFromApi);
    }
  }
}
