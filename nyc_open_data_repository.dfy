/** NycOpenDataRepository.kt at the package root: the earliest snapshot. It validates nothing:
    the SAT list is keyed by `dbn` with a last-wins `associateBy`, every school becomes one
    record by a left join on that map, and the records are stored as they are. */
module NycOpenDataRepository {
  import opened Kotlin
  import opened KotlinCollections
  import opened Store
  import opened RestApi

  /** A school as the school-list endpoint of this snapshot delivers it. */
  datatype HighSchool = HighSchool(
    dbn: string,
    schoolName: string,
    startTime: Option<string>,
    subway: Option<string>,
    totalStudents: Option<string>,
    zip: Option<string>,
    website: Option<string>)

  /** `SatScore`: a SAT result as the SAT endpoint of this snapshot delivers it. */
  datatype SatScore = SatScore(
    dbn: string,
    satTestTakerCount: string,
    satCriticalReadingAvgScore: string,
    satMathAvgScore: string,
    satWritingAvgScore: string,
    schoolName: string)

  /** The record, which is also the table row (generated by SQLDelight), in insert order. */
  datatype HighSchoolWithSatScores = HighSchoolWithSatScores(
    dbn: string,
    name: string,
    startTime: Option<string>,
    subway: Option<string>,
    totalStudents: Option<string>,
    zipCode: Option<string>,
    website: Option<string>,
    mathSatAverageScore: Option<string>,
    writingSatAverageScore: Option<string>,
    readingSatAverageScore: Option<string>,
    satTestTakerCount: Option<string>)

  function SatScoreDbn(s: SatScore): string { s.dbn }

  /** The lambda given to `map` over the school list, for the SAT map `satScoreMap`. */
  function MergeSchool(satScoreMap: map<string, SatScore>, highSchool: HighSchool): HighSchoolWithSatScores
  {
    var schoolsSatScore := if highSchool.dbn in satScoreMap then Some(satScoreMap[highSchool.dbn]) else None;
    HighSchoolWithSatScores(
      dbn := highSchool.dbn,
      name := highSchool.schoolName,
      startTime := highSchool.startTime,
      subway := highSchool.subway,
      totalStudents := highSchool.totalStudents,
      zipCode := highSchool.zip,
      website := highSchool.website,
      mathSatAverageScore := if schoolsSatScore.Some? then Some(schoolsSatScore.value.satMathAvgScore) else None,
      writingSatAverageScore := if schoolsSatScore.Some? then Some(schoolsSatScore.value.satWritingAvgScore) else None,
      readingSatAverageScore := if schoolsSatScore.Some? then Some(schoolsSatScore.value.satCriticalReadingAvgScore) else None,
      satTestTakerCount := if schoolsSatScore.Some? then Some(schoolsSatScore.value.satTestTakerCount) else None)
  }

  function MergeWith(satScoreMap: map<string, SatScore>): HighSchool -> HighSchoolWithSatScores
  {
    highSchool => MergeSchool(satScoreMap, highSchool)
  }

  /** The merge at the end of `loadFromApi`, after the null bodies have become empty lists. */
  function MergeApiData(schoolList: seq<HighSchool>, satScoreList: seq<SatScore>): seq<HighSchoolWithSatScores>
  {
    MapSeq(schoolList, MergeWith(AssociateBy(satScoreList, SatScoreDbn)))
  }

  /** The merge is a plain left join: one record per school, in school order, the school's
      fields copied (`zip` into `zipCode`), and the score fields taken from the last SAT record
      with the school's `dbn` (reading from `satCriticalReadingAvgScore`), or all null when no
      SAT record has it. */
  lemma MergeApiDataLeftJoin(schoolList: seq<HighSchool>, satScoreList: seq<SatScore>, i: int)
    requires 0 <= i < |schoolList|
    ensures |MergeApiData(schoolList, satScoreList)| == |schoolList|
    ensures var rec, school := MergeApiData(schoolList, satScoreList)[i], schoolList[i];
      && rec.dbn == school.dbn && rec.name == school.schoolName && rec.startTime == school.startTime
      && rec.subway == school.subway && rec.totalStudents == school.totalStudents
      && rec.zipCode == school.zip && rec.website == school.website
    ensures var rec, school := MergeApiData(schoolList, satScoreList)[i], schoolList[i];
      && ((forall j :: 0 <= j < |satScoreList| ==> satScoreList[j].dbn != school.dbn) ==>
            && rec.mathSatAverageScore.None? && rec.writingSatAverageScore.None?
            && rec.readingSatAverageScore.None? && rec.satTestTakerCount.None?)
      && ((exists j :: 0 <= j < |satScoreList| && satScoreList[j].dbn == school.dbn) ==>
            exists j :: IsLastWithKey(satScoreList, SatScoreDbn, school.dbn, j)
              && rec.mathSatAverageScore == Some(satScoreList[j].satMathAvgScore)
              && rec.writingSatAverageScore == Some(satScoreList[j].satWritingAvgScore)
              && rec.readingSatAverageScore == Some(satScoreList[j].satCriticalReadingAvgScore)
              && rec.satTestTakerCount == Some(satScoreList[j].satTestTakerCount))
  {
    var m := AssociateBy(satScoreList, SatScoreDbn);
    var school := schoolList[i];
    if exists j :: 0 <= j < |satScoreList| && satScoreList[j].dbn == school.dbn {
      var j :| 0 <= j < |satScoreList| && satScoreList[j].dbn == school.dbn;
      assert SatScoreDbn(satScoreList[j]) == school.dbn;
      var last :| IsLastWithKey(satScoreList, SatScoreDbn, school.dbn, last) && m[school.dbn] == satScoreList[last];
    }
  }

  class NycOpenDataRepository {
    const service: ApiService<HighSchool, SatScore>
    const database: Table<HighSchoolWithSatScores>

    /** No transaction is left open between calls. */
    ghost predicate Valid()
      reads database
    {
      database.savepoint.None?
    }

    constructor (service: ApiService<HighSchool, SatScore>, database: Table<HighSchoolWithSatScores>)
      requires database.savepoint.None?
      ensures this.service == service && this.database == database && Valid()
    {
      this.service := service;
      this.database := database;
    }

    /** `loadFromApi(parentScope)`: both lists, a null body read as an empty list, merged. */
    method LoadFromApi() returns (r: seq<HighSchoolWithSatScores>)
      modifies service
      ensures r == MergeApiData(OrEmpty(service.schoolListBody), OrEmpty(service.satScoreListBody))
      ensures service.schoolListRequests == old(service.schoolListRequests) + 1
      ensures service.satScoreListRequests == old(service.satScoreListRequests) + 1
    {
      var schoolBody := service.GetSchoolList();
      var satBody := service.GetSatScoreList();
      var schoolList := OrEmpty(schoolBody);
      var satScoreList := OrEmpty(satBody);
      var satScoreMap := AssociateBy(satScoreList, SatScoreDbn);
      r := MapSeq(schoolList, MergeWith(satScoreMap));
    }

    /** `saveDataToDb(dataFromApi)`: one transaction inserting every record as it is, in list
        order; if an insert throws, nothing stays written. */
    method SaveDataToDb(dataFromApi: seq<HighSchoolWithSatScores>) returns (r: Result<()>)
      requires Valid()
      modifies database
      ensures Valid()
      ensures r.Success? ==> database.rows == old(database.rows) + dataFromApi
      ensures r.Failure? ==> r.error == SqlInsertFailed && database.rows == old(database.rows)
    {
      database.BeginTransaction();
      for i := 0 to |dataFromApi|
        invariant database.savepoint == Some(old(database.rows))
        invariant database.rows == old(database.rows) + dataFromApi[..i]
      {
        var accepted := database.Insert(dataFromApi[i]);
        if !accepted {
          database.Rollback();
          return Failure(SqlInsertFailed);
        }
        assert dataFromApi[..i + 1] == dataFromApi[..i] + [dataFromApi[i]];
      }
      assert dataFromApi[..|dataFromApi|] == dataFromApi;
      database.Commit();
      return Success(());
    }

    /** `loadSchoolsWithSatScores(parentScope)`. A populated table is the answer as the query
        returns it, with no request and no write. On an empty one the answer is exactly the
        merged list, which the table then holds, unless an insert threw. */
    method LoadSchoolsWithSatScores() returns (r: Result<seq<HighSchoolWithSatScores>>)
      requires Valid()
      modifies database, service
      ensures Valid()
      ensures old(database.rows) != [] ==>
        && database.rows == old(database.rows)
        && service.schoolListRequests == old(service.schoolListRequests)
        && service.satScoreListRequests == old(service.satScoreListRequests)
        && r.Success? && multiset(r.value) == multiset(database.rows)
      ensures old(database.rows) == [] ==>
        && service.schoolListRequests == old(service.schoolListRequests) + 1
        && service.satScoreListRequests == old(service.satScoreListRequests) + 1
        && var dataFromApi := MergeApiData(OrEmpty(service.schoolListBody), OrEmpty(service.satScoreListBody));
           || (r == Success(dataFromApi) && database.rows == dataFromApi)
           || (r == Failure(SqlInsertFailed) && database.rows == [])
    {
      var dataFromDb := database.SelectAll();
      if dataFromDb != [] {
        return Success(dataFromDb);
      }
      assert |database.rows| == |multiset(dataFromDb)| == 0;
      var dataFromApi := LoadFromApi();
      var saved :- SaveDataToDb(dataFromApi);
      r := Success(dataFromApi);
    }
  }
}
