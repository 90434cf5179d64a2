/** The records of the placement portal (types/index.ts), restricted to the
    fields the decision logic reads or writes. Dates are integer milliseconds
    since the epoch; numbers that the code treats as fractional are `real`. */
module Types {
  import opened Wrappers

  type Millis = int
  type Id = string

  /** Lifecycle of an application; `Label` is the string stored in the database. */
  datatype AppStatus = Applied | Shortlisted | InInterview | Offered | Rejected {
    function Label(): string {
      match this
      case Applied => "applied"
      case Shortlisted => "shortlisted"
      case InInterview => "interview"
      case Offered => "offered"
      case Rejected => "rejected"
    }
  }

  /** Reads a status string as written by the status drop-down. */
  function ParseAppStatus(s: string): (r: Option<AppStatus>)
    ensures r.Some? ==> r.value.Label() == s
  {
    if s == "applied" then Some(Applied)
    else if s == "shortlisted" then Some(Shortlisted)
    else if s == "interview" then Some(InInterview)
    else if s == "offered" then Some(Offered)
    else if s == "rejected" then Some(Rejected)
    else None
  }

  /** Every status is recovered from its label, so the five labels are
      pairwise distinct and a status is exactly one of them. */
  lemma {:induction false} AppStatusLabelRoundTrip(st: AppStatus)
    ensures ParseAppStatus(st.Label()) == Some(st)
  {
    match st
    case Applied =>
    case Shortlisted =>
    case InInterview =>
    case Offered =>
    case Rejected =>
  }

  datatype JobStatus = Open | Closed
  datatype InterviewMode = Online | Offline
  datatype InterviewStatus = Scheduled | Completed | Cancelled
  datatype SubmissionResult = Passed | Failed | Error
  datatype Difficulty = Easy | Medium | Hard

  datatype Student = Student(
    uid: Id,
    name: string,
    email: string,
    phone: string,
    studentId: string,
    program: string,
    year: int,
    cgpa: real,
    graduationDate: string,
    skills: seq<string>,
    github: Option<string>,
    linkedin: Option<string>,
    resumeUrl: Option<string>,
    isFrozen: bool,
    elitePoints: int,
    profileCompletion: int)

  datatype Job = Job(
    jobId: Id,
    recruiterId: Id,
    companyName: string,
    title: string,
    description: string,
    requirements: seq<string>,
    stipend: int,
    workMode: seq<string>,
    maxApplicants: int,
    deadline: Millis,
    applicantCount: int,
    status: JobStatus,
    createdAt: Millis,
    updatedAt: Millis)

  datatype Application = Application(
    applicationId: Id,
    studentId: Id,
    jobId: Id,
    status: AppStatus,
    appliedAt: Millis,
    queueRank: int,
    aiScore: Option<int>,
    recruiterFeedback: Option<string>,
    updatedAt: Millis)

  datatype Interview = Interview(
    interviewId: Id,
    studentId: Id,
    jobId: Id,
    stage: string,
    datetime: Millis,
    mode: InterviewMode,
    link: Option<string>,
    address: Option<string>,
    status: InterviewStatus,
    createdAt: Millis)

  datatype Offer = Offer(
    offerId: Id,
    studentId: Id,
    jobId: Id,
    offerLetterUrl: string,
    joiningDate: Millis,
    package: real,
    verified: bool,
    createdAt: Millis)

  datatype TestCase = TestCase(input: string, expectedOutput: string, isHidden: bool)

  datatype Challenge = Challenge(
    challengeId: Id,
    recruiterId: Id,
    title: string,
    description: string,
    difficulty: Difficulty,
    rewardPoints: int,
    deadline: Millis,
    testCases: seq<TestCase>,
    starterCode: Option<string>,
    createdAt: Millis)

  /** `score` is `None` where the code computes NaN (a challenge without test cases). */
  datatype ChallengeSubmission = ChallengeSubmission(
    submissionId: Id,
    challengeId: Id,
    studentId: Id,
    code: string,
    result: SubmissionResult,
    score: Option<int>,
    testCasesPassed: int,
    submittedAt: Millis)
}
