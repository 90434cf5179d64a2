/** app/student/prep-hub/page.tsx: grading a challenge submission and the
    elite-point reward. */
module PrepHub {
  import opened Wrappers
  import opened Types
  import Utils
  import TopTalent

  datatype TestRun = TestRun(passed: nat, total: nat)

  /** `runTestCases`: a placeholder that counts every test case as passed;
      the code is never looked at. */
  method RunTestCases(code: string, tests: seq<TestCase>) returns (r: TestRun)
    ensures r.total == |tests| && r.passed == r.total
  {
    var passed := 0;
    var i := 0;
    while i < |tests|
      invariant 0 <= i <= |tests| && passed == i
    {
      passed := passed + 1;
      i := i + 1;
    }
    r := TestRun(passed, |tests|);
  }

  /** 'passed' exactly when every test passed; 'error' is never produced. */
  function Grade(run: TestRun): (r: SubmissionResult)
    ensures r != Error
    ensures r == Passed <==> run.passed == run.total
  {
    if run.passed == run.total then Passed else Failed
  }

  /** `Math.round(passed / total * 100)`; with no test cases the division is
      0/0 and the score is NaN, here `None`. */
  function Score(run: TestRun): (r: Option<int>)
    ensures r.None? <==> run.total == 0
    ensures r.Some? && run.passed <= run.total ==> 0 <= r.value <= 100
    ensures r.Some? && run.passed == run.total ==> r.value == 100
    ensures r.Some? && run.passed == 0 ==> r.value == 0
  {
    if run.total == 0 then None
    else
      var x := run.passed as real / run.total as real * 100.0;
      ScoreBounds(run.passed, run.total);
      Some(Utils.Round(x))
  }

  lemma ScoreBounds(passed: nat, total: nat)
    requires total > 0
    ensures passed <= total ==> 0.0 <= passed as real / total as real * 100.0 <= 100.0
    ensures passed == total ==> passed as real / total as real * 100.0 == 100.0
  {
    if passed <= total {
      assert passed as real / total as real <= total as real / total as real;
    }
  }

  /** More passed tests never lower the score. */
  lemma ScoreMonotone(a: nat, b: nat, total: nat)
    requires a <= b && total > 0
    ensures Score(TestRun(a, total)).value <= Score(TestRun(b, total)).value
  {
    assert a as real / total as real <= b as real / total as real;
    Utils.RoundMonotone(a as real / total as real * 100.0, b as real / total as real * 100.0);
  }

  /** What the page keeps: the stored submissions and the stored student. */
  datatype PrepState = PrepState(submissions: seq<ChallengeSubmission>, student: Option<Student>)

  /** `handleSubmitChallenge`: record the graded submission, then, when every
      test passed and the student document exists, add the challenge's reward
      to the elite points. */
  method SubmitChallenge(st: PrepState, uid: Id, challenge: Challenge, code: string, submissionId: Id, now: Millis)
    returns (r: PrepState)
    ensures |r.submissions| == |st.submissions| + 1 && r.submissions[..|st.submissions|] == st.submissions
    ensures var s := r.submissions[|st.submissions|];
      s.challengeId == challenge.challengeId && s.studentId == uid && s.code == code
      && s.result == Passed && s.testCasesPassed == |challenge.testCases|
      && s.score == (if |challenge.testCases| == 0 then None else Some(100))
    ensures r.student.Some? <==> st.student.Some?
    ensures st.student.Some? ==> r.student.value == st.student.value.(elitePoints := st.student.value.elitePoints + challenge.rewardPoints)
  {
    var run := RunTestCases(code, challenge.testCases);
    var s := Submission(run, uid, challenge, code, submissionId, now);
    r := PrepState(st.submissions + [s], Reward(st.student, run, challenge));
  }

  /** The stored submission for a run, whatever the runner reported. */
  function Submission(run: TestRun, uid: Id, challenge: Challenge, code: string, submissionId: Id, now: Millis): (s: ChallengeSubmission)
    ensures s.result == Grade(run) && s.score == Score(run) && s.testCasesPassed == run.passed
    ensures s.challengeId == challenge.challengeId && s.studentId == uid && s.code == code
  {
    ChallengeSubmission(submissionId, challenge.challengeId, uid, code, Grade(run), Score(run), run.passed, now)
  }

  /** The reward step: exactly `rewardPoints` more when every test passed,
      otherwise nothing changes. */
  function Reward(student: Option<Student>, run: TestRun, challenge: Challenge): (r: Option<Student>)
    ensures r.Some? <==> student.Some?
    ensures student.Some? && run.passed == run.total ==>
      r.value.elitePoints == student.value.elitePoints + challenge.rewardPoints
    ensures student.Some? ==> r.value.(elitePoints := student.value.elitePoints) == student.value
    ensures run.passed != run.total ==> r == student
  {
    if run.passed == run.total && student.Some? then
      Some(student.value.(elitePoints := student.value.elitePoints + challenge.rewardPoints))
    else student
  }

  /** A challenge just created on the top-talent page has no test cases, so
      a submission to it passes with a NaN score and earns the reward. */
  method EmptyChallengePays(st: PrepState, uid: Id, challengeId: Id, recruiterId: Id, form: TopTalent.ChallengeForm,
                            code: string, submissionId: Id, now: Millis)
    returns (r: PrepState)
    requires st.student.Some?
    ensures |r.submissions| == |st.submissions| + 1 && r.student.Some?
    ensures r.submissions[|st.submissions|].result == Passed && r.submissions[|st.submissions|].score.None?
    ensures r.student.value.elitePoints == st.student.value.elitePoints + form.rewardPoints
  {
    var challenge := TopTalent.NewChallenge(challengeId, recruiterId, form, now);
    r := SubmitChallenge(st, uid, challenge, code, submissionId, now);
  }
}
