/** The record validation that data/Repository.kt and data/NycOpenDataRepository.kt share word
    for word: which SAT records and which schools survive, what the surviving SAT records become,
    and how duplicate SAT `dbn`s collapse into the `dbn`-keyed map. */
module Validation {
  import opened Kotlin
  import opened KotlinCollections
  import opened RestApi

  /** `SatScores`: a validated SAT record, its numbers parsed. */
  datatype SatScores = SatScores(
    dbn: string,
    satTestTakerCount: int,
    mathSatAverageScore: int,
    writingSatAverageScore: int,
    readingSatAverageScore: int)

  /** `field?.toLongOrNull()` */
  function ParseField(field: Option<string>): (r: Option<int>)
    ensures r.Some? ==> IsLong(r.value) && field.Some? && ToLongOrNull(field.value) == r
    ensures field.None? ==> r.None?
    ensures field.Some? ==> r == ToLongOrNull(field.value)
  {
    match field
    case None => None
    case Some(text) => ToLongOrNull(text)
  }

  /** The six checks a SAT record must pass. */
  predicate IsValidSatScore(a: ApiSatScore)
  {
    && !IsNullOrBlank(a.dbn)
    && !IsNullOrBlank(a.schoolName)
    && ParseField(a.testTakerCount).Some?
    && ParseField(a.readingAvgScore).Some?
    && ParseField(a.mathAvgScore).Some?
    && ParseField(a.writingAvgScore).Some?
  }

  /** The lambda given to `mapNotNull` over the SAT list: null for an invalid record, otherwise
      the record with its four numbers parsed. */
  function ValidateSatScore(a: ApiSatScore): (r: Option<SatScores>)
    ensures r.Some? <==> IsValidSatScore(a)
    ensures r.Some? ==> && a.dbn == Some(r.value.dbn)
                        && ParseField(a.testTakerCount) == Some(r.value.satTestTakerCount)
                        && ParseField(a.readingAvgScore) == Some(r.value.readingSatAverageScore)
                        && ParseField(a.mathAvgScore) == Some(r.value.mathSatAverageScore)
                        && ParseField(a.writingAvgScore) == Some(r.value.writingSatAverageScore)
  {
    var count := ParseField(a.testTakerCount);
    var reading := ParseField(a.readingAvgScore);
    var math := ParseField(a.mathAvgScore);
    var writing := ParseField(a.writingAvgScore);
    if IsNullOrBlank(a.dbn) || IsNullOrBlank(a.schoolName)
      || count.None? || reading.None? || math.None? || writing.None?
    then None
    else Some(SatScores(a.dbn.value, count.value, math.value, writing.value, reading.value))
  }

  function SatScoresDbn(s: SatScores): string { s.dbn }

  /** `validatedSatScoreMap`: the valid SAT records, parsed, keyed by `dbn` with `associateBy`. */
  function ValidatedSatScoreMap(sats: seq<ApiSatScore>): map<string, SatScores>
  {
    AssociateBy(MapNotNull(sats, ValidateSatScore), SatScoresDbn)
  }

  /** j is the last valid SAT record whose `dbn` is k. */
  ghost predicate IsLastValidSatScore(sats: seq<ApiSatScore>, k: string, j: int)
  {
    && 0 <= j < |sats| && IsValidSatScore(sats[j]) && sats[j].dbn == Some(k)
    && forall j' :: j < j' < |sats| && IsValidSatScore(sats[j']) ==> sats[j'].dbn != Some(k)
  }

  /** A `dbn` is a key of the map exactly when some valid SAT record carries it: an invalid
      record never contributes a key. */
  lemma ValidatedSatScoreMapKeys(sats: seq<ApiSatScore>, k: string)
    ensures k in ValidatedSatScoreMap(sats) <==>
      exists i :: 0 <= i < |sats| && IsValidSatScore(sats[i]) && sats[i].dbn == Some(k)
  {
    if k in ValidatedSatScoreMap(sats) {
      var j := LastValidSatScore(sats, k);
    }
    if exists i :: 0 <= i < |sats| && IsValidSatScore(sats[i]) && sats[i].dbn == Some(k) {
      var i :| 0 <= i < |sats| && IsValidSatScore(sats[i]) && sats[i].dbn == Some(k);
      AssociateByMapNotNullKeys(sats, ValidateSatScore, SatScoresDbn);
      assert SatScoresDbn(ValidateSatScore(sats[i]).value) == k;
    }
  }

  /** Every key maps to the parsed form of the last valid SAT record with that `dbn`: of several
      valid ones the latest wins, and an invalid later one does not shadow it. */
  lemma ValidatedSatScoreMapLastWins(sats: seq<ApiSatScore>, k: string)
    requires k in ValidatedSatScoreMap(sats)
    ensures exists j :: IsLastValidSatScore(sats, k, j) && Some(ValidatedSatScoreMap(sats)[k]) == ValidateSatScore(sats[j])
  {
    var j := LastValidSatScore(sats, k);
  }

  lemma LastValidSatScore(sats: seq<ApiSatScore>, k: string) returns (j: int)
    requires k in ValidatedSatScoreMap(sats)
    ensures IsLastValidSatScore(sats, k, j) && Some(ValidatedSatScoreMap(sats)[k]) == ValidateSatScore(sats[j])
  {
    var m := AssociateBy(MapNotNull(sats, ValidateSatScore), SatScoresDbn);
    AssociateByMapNotNullLastWins(sats, ValidateSatScore, SatScoresDbn);
    assert LastKeptWins(sats, ValidateSatScore, SatScoresDbn);
    j :| IsLastKeptWithKey(sats, ValidateSatScore, SatScoresDbn, k, j) && m[k] == ValidateSatScore(sats[j]).value;
    LastKeptIsLastValid(sats, k, j);
  }

  lemma LastKeptIsLastValid(sats: seq<ApiSatScore>, k: string, j: int)
    requires IsLastKeptWithKey(sats, ValidateSatScore, SatScoresDbn, k, j)
    ensures IsLastValidSatScore(sats, k, j)
  {
    forall j' | j < j' < |sats| && IsValidSatScore(sats[j']) ensures sats[j'].dbn != Some(k) {
      assert ValidateSatScore(sats[j']).Some?;
    }
  }

  /** There is no sign check: a negative number of test takers is accepted as it is. */
  lemma NegativeTestTakerCountAccepted()
    ensures var a := ApiSatScore(Some("01M292"), Some("Henry Street School"), Some("-29"), Some("355"), Some("404"), Some("363"));
      ValidateSatScore(a) == Some(SatScores("01M292", -29, 404, 363, 355))
  {
    assert !IsWhitespace("01M292"[0]);
    assert !IsWhitespace("Henry Street School"[0]);
    DigitsValueShort("29");
    DigitsValueShort("355");
    DigitsValueShort("404");
    DigitsValueShort("363");
    assert "-29"[1..] == "29";
  }

  /** The checks a school must pass. */
  predicate IsValidSchool(school: ApiHighSchool)
  {
    !IsNullOrBlank(school.dbn) && !IsNullOrBlank(school.schoolName) && ParseField(school.totalStudents).Some?
  }

  /** The school half of validation: null for a rejected school, otherwise its parsed
      `totalStudents` (`validatedTotalStudents`). */
  function ValidatedTotalStudents(school: ApiHighSchool): (r: Option<int>)
    ensures r.Some? <==> IsValidSchool(school)
    ensures r.Some? ==> IsLong(r.value) && ToLongOrNull(school.totalStudents.value) == r
  {
    var total := ParseField(school.totalStudents);
    if IsNullOrBlank(school.dbn) || IsNullOrBlank(school.schoolName) || total.None? then None
    else total
  }

  /** `validatedSatScoreMap[apiSchool.dbn]` */
  function Lookup(satMap: map<string, SatScores>, dbn: string): (r: Option<SatScores>)
    ensures r.Some? <==> dbn in satMap
    ensures r.Some? ==> r.value == satMap[dbn]
  {
    if dbn in satMap then Some(satMap[dbn]) else None
  }
}
