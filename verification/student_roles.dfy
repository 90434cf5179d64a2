/** app/student/roles/page.tsx: the ranked list of open roles and the apply
    flow that admits a student to a role, assigns the queue rank and counts
    the applicant. The database is a `Store` value; each apply runs alone
    (no interleaving of two applies). */
module StudentRoles {
  import opened Wrappers
  import opened Types
  import Utils
  import StableSort

  /** The documents the apply flow reads and writes. */
  datatype Store = Store(jobs: map<Id, Job>, applications: seq<Application>)

  /** Why an apply returned early; none of them writes anything. */
  datatype ApplyError =
    | NoProfile                // no signed-in student profile loaded
    | ProfileFrozen            // the student froze their profile
    | FullAtListing            // the listed count already reached the cap
    | JobNotFound              // the job document is gone at the re-read
    | FullAtReread             // the re-read count reached the cap

  datatype ApplyOutcome = ApplyOutcome(store: Store, result: Result<Application, ApplyError>)

  /** `handleApply`: `listed` is the job as the page listed it, `store` the
      database at the moment of the re-read. The cap is the listed
      `maxApplicants`; whether the role is open is not checked. */
  function Apply(store: Store, studentId: Id, student: Option<Student>, listed: Job, newId: Id, now: Millis): (out: ApplyOutcome)
    ensures out.result.Err? ==> out.store == store
    ensures out.result == Err(NoProfile) <==> student.None?
    ensures out.result == Err(ProfileFrozen) <==> student.Some? && student.value.isFrozen
    ensures out.result == Err(FullAtListing) <==>
      student.Some? && !student.value.isFrozen && listed.applicantCount >= listed.maxApplicants
    ensures out.result.Ok? <==>
      && student.Some? && !student.value.isFrozen
      && listed.applicantCount < listed.maxApplicants
      && listed.jobId in store.jobs
      && store.jobs[listed.jobId].applicantCount < listed.maxApplicants
    ensures out.result.Ok? ==>
      var current := store.jobs[listed.jobId].applicantCount;
      var a := out.result.value;
      && out.store.applications == store.applications + [a]
      && a.applicationId == newId && a.studentId == studentId && a.jobId == listed.jobId
      && a.status == Applied
      && a.queueRank == current + 1
      && a.aiScore == Some(Utils.CalculateMatchScore(student.value.skills, listed.requirements, student.value.cgpa))
      && out.store.jobs.Keys == store.jobs.Keys
      && out.store.jobs[listed.jobId].applicantCount == current + 1
      && out.store.jobs[listed.jobId].(applicantCount := current, updatedAt := store.jobs[listed.jobId].updatedAt)
         == store.jobs[listed.jobId]
      && (forall id :: id in store.jobs && id != listed.jobId ==> out.store.jobs[id] == store.jobs[id])
  {
    if student.None? then ApplyOutcome(store, Err(NoProfile))
    else if student.value.isFrozen then ApplyOutcome(store, Err(ProfileFrozen))
    else if listed.applicantCount >= listed.maxApplicants then ApplyOutcome(store, Err(FullAtListing))
    else if listed.jobId !in store.jobs then ApplyOutcome(store, Err(JobNotFound))
    else
      var stored := store.jobs[listed.jobId];
      var current := stored.applicantCount;
      if current >= listed.maxApplicants then ApplyOutcome(store, Err(FullAtReread))
      else
        var a := Application(
          applicationId := newId,
          studentId := studentId,
          jobId := listed.jobId,
          status := Applied,
          appliedAt := now,
          queueRank := current + 1,
          aiScore := Some(Utils.CalculateMatchScore(student.value.skills, listed.requirements, student.value.cgpa)),
          recruiterFeedback := None,
          updatedAt := now);
        var job' := stored.(applicantCount := current + 1, updatedAt := now);
        ApplyOutcome(Store(store.jobs[listed.jobId := job'], store.applications + [a]), Ok(a))
  }

  /** Every stored job holds no more applicants than its cap. */
  predicate WithinCapacity(store: Store) {
    forall id :: id in store.jobs ==> 0 <= store.jobs[id].applicantCount <= store.jobs[id].maxApplicants
  }

  /** Queue ranks of the applications for one job, in creation order. */
  function RanksOf(apps: seq<Application>, jobId: Id): seq<int> {
    if |apps| == 0 then []
    else RanksOf(apps[..|apps| - 1], jobId)
         + (if apps[|apps| - 1].jobId == jobId then [apps[|apps| - 1].queueRank] else [])
  }

  /** 1, 2, ..., n. */
  function Ranks(n: nat): seq<int> {
    seq(n, i => i + 1)
  }

  /** For every stored job, its applications were ranked 1, 2, ..., count. */
  predicate RanksConsecutive(store: Store) {
    forall id :: id in store.jobs ==>
      store.jobs[id].applicantCount >= 0 && RanksOf(store.applications, id) == Ranks(store.jobs[id].applicantCount)
  }

  /** Appending an application adds its rank to its own job's list only. */
  lemma RanksOfSnoc(apps: seq<Application>, a: Application, jobId: Id)
    ensures RanksOf(apps + [a], jobId) == RanksOf(apps, jobId) + (if a.jobId == jobId then [a.queueRank] else [])
  {
    assert (apps + [a])[..|apps|] == apps;
  }

  /** Applied one at a time with a listing whose cap agrees with the stored
      job, applies never push a count past its cap, and the ranks of each job
      run 1, 2, 3, ... without gaps or repeats. */
  lemma {:induction false} ApplyKeepsInvariants(store: Store, studentId: Id, student: Option<Student>, listed: Job, newId: Id, now: Millis)
    requires WithinCapacity(store) && RanksConsecutive(store)
    requires listed.jobId in store.jobs ==> listed.maxApplicants == store.jobs[listed.jobId].maxApplicants
    ensures WithinCapacity(Apply(store, studentId, student, listed, newId, now).store)
    ensures RanksConsecutive(Apply(store, studentId, student, listed, newId, now).store)
  {
    var out := Apply(store, studentId, student, listed, newId, now);
    if out.result.Ok? {
      var a := out.result.value;
      var apps := store.applications;
      var apps' := out.store.applications;
      forall id | id in out.store.jobs
        ensures out.store.jobs[id].applicantCount >= 0
        ensures RanksOf(apps', id) == Ranks(out.store.jobs[id].applicantCount)
      {
        RanksOfSnoc(apps, a, id);
        if id == listed.jobId {
          var n := store.jobs[id].applicantCount;
          assert Ranks(n) + [n + 1] == Ranks(n + 1);
        }
      }
    }
  }

  /** The code has no open-role check: closing the role changes nothing
      about whether an apply succeeds. */
  lemma ClosedRoleStillAdmits(store: Store, studentId: Id, student: Option<Student>, listed: Job, newId: Id, now: Millis)
    requires listed.jobId in store.jobs
    ensures var closedStore := store.(jobs := store.jobs[listed.jobId := store.jobs[listed.jobId].(status := Closed)]);
      Apply(closedStore, studentId, student, listed.(status := Closed), newId, now).result.Ok?
      == Apply(store, studentId, student, listed, newId, now).result.Ok?
  {
  }

  /** A cap of one and two applies from the same listing (count 0): the
      first is ranked 1, the second is stopped by the re-read and the count
      stays 1. */
  lemma SecondApplyStoppedByReread(job: Job, s1: Student, s2: Student)
    requires job.maxApplicants == 1 && job.applicantCount == 0
    requires !s1.isFrozen && !s2.isFrozen
    ensures var first := Apply(Store(map[job.jobId := job], []), s1.uid, Some(s1), job, "a1", 1);
      && first.result.Ok? && first.result.value.queueRank == 1
      && var second := Apply(first.store, s2.uid, Some(s2), job, "a2", 2);
      && second.result == Err(FullAtReread)
      && second.store.jobs[job.jobId].applicantCount == 1
  {
  }

  /** A role as the student sees it. */
  datatype RoleView = RoleView(job: Job, matchScore: int, hasApplied: bool)

  /** Whether some application of the student names this job. */
  predicate AppliedTo(myApplications: seq<Application>, jobId: Id) {
    exists i :: 0 <= i < |myApplications| && myApplications[i].jobId == jobId
  }

  function ViewOf(job: Job, student: Option<Student>, myApplications: seq<Application>): RoleView {
    var score := if student.Some? then Utils.CalculateMatchScore(student.value.skills, job.requirements, student.value.cgpa) else 0;
    RoleView(job, score, AppliedTo(myApplications, job.jobId))
  }

  function ViewsOf(jobs: seq<Job>, student: Option<Student>, myApplications: seq<Application>): (r: seq<RoleView>)
    ensures |r| == |jobs|
    ensures forall i :: 0 <= i < |jobs| ==> r[i] == ViewOf(jobs[i], student, myApplications)
  {
    if |jobs| == 0 then [] else [ViewOf(jobs[0], student, myApplications)] + ViewsOf(jobs[1..], student, myApplications)
  }

  /** Sort key for "best match first". */
  function NegMatch(v: RoleView): real {
    -(v.matchScore as real)
  }

  /** The job list of `loadData`: each open job with its match score (0 when
      the page holds no student profile) and whether the student applied,
      best match first, ties in listing order. */
  function RoleList(jobs: seq<Job>, student: Option<Student>, myApplications: seq<Application>): (r: seq<RoleView>)
    ensures |r| == |jobs|
    ensures multiset(r) == multiset(ViewsOf(jobs, student, myApplications))
    ensures forall i, j :: 0 <= i < j < |r| ==> r[i].matchScore >= r[j].matchScore
    ensures forall i :: 0 <= i < |r| ==> r[i].hasApplied == AppliedTo(myApplications, r[i].job.jobId)
    ensures student.None? ==> forall i :: 0 <= i < |r| ==> r[i].matchScore == 0
    ensures student.Some? ==> forall i :: 0 <= i < |r| ==>
      r[i].matchScore == Utils.CalculateMatchScore(student.value.skills, r[i].job.requirements, student.value.cgpa)
  {
    var views := ViewsOf(jobs, student, myApplications);
    var r := StableSort.Sort(views, NegMatch);
    PermutedViewsConsistent(views, r, student, myApplications);
    DescendingMatch(r);
    r
  }

  lemma PermutedViewsConsistent(views: seq<RoleView>, r: seq<RoleView>, student: Option<Student>, myApplications: seq<Application>)
    requires multiset(r) == multiset(views)
    requires forall i :: 0 <= i < |views| ==> Consistent(views[i], student, myApplications)
    ensures forall i :: 0 <= i < |r| ==> Consistent(r[i], student, myApplications)
  {
    forall i | 0 <= i < |r|
      ensures Consistent(r[i], student, myApplications)
    {
      assert r[i] in multiset(views);
      var j :| 0 <= j < |views| && views[j] == r[i];
    }
  }

  lemma DescendingMatch(r: seq<RoleView>)
    requires StableSort.SortedBy(r, NegMatch)
    ensures forall i, j :: 0 <= i < j < |r| ==> r[i].matchScore >= r[j].matchScore
  {
    forall i, j | 0 <= i < j < |r|
      ensures r[i].matchScore >= r[j].matchScore
    {
      assert NegMatch(r[i]) <= NegMatch(r[j]);
    }
  }

  /** A view carries the score and flag computed from its own job. */
  predicate Consistent(v: RoleView, student: Option<Student>, myApplications: seq<Application>) {
    v == ViewOf(v.job, student, myApplications)
  }

  /** Jobs with an equal match score keep the order they were listed in. */
  lemma RoleListTiesKeepOrder(jobs: seq<Job>, student: Option<Student>, myApplications: seq<Application>, k: real)
    ensures StableSort.WithKey(RoleList(jobs, student, myApplications), NegMatch, k)
         == StableSort.WithKey(ViewsOf(jobs, student, myApplications), NegMatch, k)
  {
    StableSort.SortIsStable(ViewsOf(jobs, student, myApplications), NegMatch, k);
  }

  /** `loadData` reads `student` from the render it was created in; on the
      first load that is still null, as the profile read just before only
      schedules an update. So every job scores 0 and the list keeps the
      order of the query until an apply reloads it. */
  lemma FirstLoadKeepsListing(jobs: seq<Job>, myApplications: seq<Application>)
    ensures RoleList(jobs, None, myApplications) == ViewsOf(jobs, None, myApplications)
    ensures forall i :: 0 <= i < |jobs| ==>
      RoleList(jobs, None, myApplications)[i].job == jobs[i] && RoleList(jobs, None, myApplications)[i].matchScore == 0
  {
    var views := ViewsOf(jobs, None, myApplications);
    var r := RoleList(jobs, None, myApplications);
    StableSort.SortIsStable(views, NegMatch, 0.0);
    assert forall i :: 0 <= i < |views| ==> NegMatch(views[i]) == 0.0;
    assert forall i :: 0 <= i < |r| ==> NegMatch(r[i]) == 0.0;
    StableSort.WithKeyAll(views, NegMatch, 0.0);
    StableSort.WithKeyAll(r, NegMatch, 0.0);
  }

  /** "Slots left": never negative, zero exactly when the cap is reached. */
  function SlotsLeft(job: Job): (r: int)
    ensures r >= 0
    ensures r == 0 <==> job.applicantCount >= job.maxApplicants
    ensures r > 0 ==> job.applicantCount + r == job.maxApplicants
  {
    if job.maxApplicants - job.applicantCount > 0 then job.maxApplicants - job.applicantCount else 0
  }

  /** The "Apply Now" button: hidden once applied, disabled while this job's
      apply is in flight or when no slot is left. */
  function ApplyEnabled(view: RoleView, applying: Option<Id>): (enabled: bool)
    ensures enabled ==> SlotsLeft(view.job) > 0 && !view.hasApplied
    ensures enabled <==> !view.hasApplied && applying != Some(view.job.jobId) && SlotsLeft(view.job) > 0
  {
    !view.hasApplied && !(applying == Some(view.job.jobId) || view.job.applicantCount >= view.job.maxApplicants)
  }
}
