/** The REST API the data/ repositories fetch from: the two loosely-typed records the JSON is
    decoded into, and a service whose two endpoints answer with a response body that may be
    null. The server's answers are fixed when the service is made (as the fake service used by
    the tests does); the service counts the requests it receives. */
module RestApi {
  import opened Kotlin

  /** A school as the school-list endpoint delivers it: every field may be missing. */
  datatype ApiHighSchool = ApiHighSchool(
    dbn: Option<string>,
    schoolName: Option<string>,
    startTime: Option<string>,
    subway: Option<string>,
    zipCode: Option<string>,
    website: Option<string>,
    totalStudents: Option<string>,
    transfer: Option<string>)

  /** A SAT result as the SAT endpoint delivers it: the numbers arrive as strings. */
  datatype ApiSatScore = ApiSatScore(
    dbn: Option<string>,
    schoolName: Option<string>,
    testTakerCount: Option<string>,
    readingAvgScore: Option<string>,
    mathAvgScore: Option<string>,
    writingAvgScore: Option<string>)

  class ApiService<School, Sat> {
    /** The body of the school-list response; None is a null body. */
    const schoolListBody: Option<seq<School>>
    /** The body of the SAT-score-list response; None is a null body. */
    const satScoreListBody: Option<seq<Sat>>
    var schoolListRequests: nat
    var satScoreListRequests: nat

    constructor (schoolListBody: Option<seq<School>>, satScoreListBody: Option<seq<Sat>>)
      ensures this.schoolListBody == schoolListBody && this.satScoreListBody == satScoreListBody
      ensures schoolListRequests == 0 && satScoreListRequests == 0
    {
      this.schoolListBody := schoolListBody;
      this.satScoreListBody := satScoreListBody;
      schoolListRequests := 0;
      satScoreListRequests := 0;
    }

    /** `getSchoolList().body()` */
    method GetSchoolList() returns (body: Option<seq<School>>)
      modifies this
      ensures body == schoolListBody
      ensures schoolListRequests == old(schoolListRequests) + 1
      ensures satScoreListRequests == old(satScoreListRequests)
    {
      body := schoolListBody;
      schoolListRequests := schoolListRequests + 1;
    }

    /** `getSatScoreList().body()` */
    method GetSatScoreList() returns (body: Option<seq<Sat>>)
      modifies this
      ensures body == satScoreListBody
      ensures satScoreListRequests == old(satScoreListRequests) + 1
      ensures schoolListRequests == old(schoolListRequests)
    {
      body := satScoreListBody;
      satScoreListRequests := satScoreListRequests + 1;
    }
  }
}
