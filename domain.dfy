/** data/domain/HighSchoolWithSatScores.kt: the validated record the app works with, the row of
    the `SchoolsWithSatScores` table that data/Repository.kt caches it in, and the mapping from
    the row back to the record. */
module Domain {
  import opened Kotlin

  /** A row of the table (the SQLDelight-generated `HighSchool`), columns in insert order. */
  datatype HighSchool = HighSchool(
    dbn: string,
    name: string,
    startTime: Option<string>,
    totalStudents: Option<int>,
    zipCode: Option<string>,
    website: Option<string>,
    mathSatAverageScore: Option<int>,
    writingSatAverageScore: Option<int>,
    readingSatAverageScore: Option<int>,
    satTestTakerCount: Option<int>,
    satTestTakerPercentage: Option<int>)

  /** `HighSchoolWithSatScores`: internal validated data. */
  datatype HighSchoolWithSatScores = HighSchoolWithSatScores(
    dbn: string,
    name: string,
    startTime: Option<string>,
    zipCode: Option<string>,
    website: Option<string>,
    totalStudents: Option<int>,
    mathSatAverageScore: Option<int>,
    writingSatAverageScore: Option<int>,
    readingSatAverageScore: Option<int>,
    countOfSatTakers: Option<int>,
    percentageOfSatTakers: Option<int>)

  /** `HighSchool.toHighSchoolWithSatScores()`: the identity, column for field, except that the
      test-taker columns are renamed `countOfSatTakers` and `percentageOfSatTakers`. */
  function ToHighSchoolWithSatScores(row: HighSchool): (r: HighSchoolWithSatScores)
    ensures r.dbn == row.dbn && r.name == row.name && r.startTime == row.startTime
    ensures r.totalStudents == row.totalStudents && r.zipCode == row.zipCode && r.website == row.website
    ensures r.mathSatAverageScore == row.mathSatAverageScore
    ensures r.writingSatAverageScore == row.writingSatAverageScore
    ensures r.readingSatAverageScore == row.readingSatAverageScore
    ensures r.countOfSatTakers == row.satTestTakerCount
    ensures r.percentageOfSatTakers == row.satTestTakerPercentage
  {
    HighSchoolWithSatScores(
      dbn := row.dbn,
      name := row.name,
      startTime := row.startTime,
      totalStudents := row.totalStudents,
      zipCode := row.zipCode,
      website := row.website,
      mathSatAverageScore := row.mathSatAverageScore,
      writingSatAverageScore := row.writingSatAverageScore,
      readingSatAverageScore := row.readingSatAverageScore,
      countOfSatTakers := row.satTestTakerCount,
      percentageOfSatTakers := row.satTestTakerPercentage)
  }

  /** No information is lost: two rows that map to the same record are the same row. */
  lemma ToHighSchoolWithSatScoresInjective(a: HighSchool, b: HighSchool)
    requires ToHighSchoolWithSatScores(a) == ToHighSchoolWithSatScores(b)
    ensures a == b
  {
  }
}
