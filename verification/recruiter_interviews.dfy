/** app/recruiter/interviews/page.tsx: which interviews and applications the
    scheduling page lists, and what scheduling writes. */
module RecruiterInterviews {
  import opened Wrappers
  import opened Types
  import Seqs
  import Applicants

  /** An interview joined with its job and its student. */
  datatype Listed = Listed(interview: Interview, job: Job, student: Student)

  predicate OwnsJob(jobs: seq<Job>, jobId: Id) {
    exists k :: 0 <= k < |jobs| && jobs[k].jobId == jobId
  }

  /** `jobsSnapshot.docs.find`: the first of the recruiter's jobs with this id. */
  function FindJob(jobs: seq<Job>, jobId: Id): (r: Option<Job>)
    ensures r.None? <==> !OwnsJob(jobs, jobId)
    ensures r.Some? ==> r.value in jobs && r.value.jobId == jobId
  {
    if |jobs| == 0 then None
    else if jobs[0].jobId == jobId then Some(jobs[0])
    else
      var r := FindJob(jobs[1..], jobId);
      assert OwnsJob(jobs[1..], jobId) ==> OwnsJob(jobs, jobId) by {
        if OwnsJob(jobs[1..], jobId) {
          var k :| 0 <= k < |jobs[1..]| && jobs[1..][k].jobId == jobId;
          assert jobs[k + 1].jobId == jobId;
        }
      }
      r
  }

  /** The listed job is the interview's own job among the recruiter's, and
      the listed student is the interview's student. */
  predicate Joined(l: Listed, jobs: seq<Job>, students: map<Id, Student>) {
    OwnsJob(jobs, l.interview.jobId) && l.job in jobs && l.job.jobId == l.interview.jobId
    && l.interview.studentId in students && l.student == students[l.interview.studentId]
  }

  /** The interview's job is one of the recruiter's and its student exists. */
  predicate Kept(jobs: seq<Job>, students: map<Id, Student>, v: Interview) {
    OwnsJob(jobs, v.jobId) && v.studentId in students
  }

  /** Some listed entry is for interview `v`. */
  predicate Lists(r: seq<Listed>, v: Interview) {
    exists i :: 0 <= i < |r| && r[i].interview == v
  }

  /** The interview's job is one of the recruiter's and its student exists. */
  function KeptBy(jobs: seq<Job>, students: map<Id, Student>): Interview -> bool {
    (v: Interview) => Kept(jobs, students, v)
  }

  /** The interviews of a list of entries, in order. */
  function InterviewsOf(r: seq<Listed>): seq<Interview> {
    seq(|r|, i requires 0 <= i < |r| => r[i].interview)
  }

  /** The interview list of `loadData`: every interview, in the order fetched,
      whose job is one of the recruiter's and whose student exists, joined
      with that job and that student, each once. */
  function ListInterviews(jobs: seq<Job>, interviews: seq<Interview>, students: map<Id, Student>): (r: seq<Listed>)
    ensures forall i :: 0 <= i < |r| ==> r[i].interview in interviews && Joined(r[i], jobs, students)
    ensures forall v :: v in interviews && Kept(jobs, students, v) ==> Lists(r, v)
    ensures InterviewsOf(r) == Seqs.Filter(interviews, KeptBy(jobs, students))
    ensures |r| == Seqs.Count(interviews, KeptBy(jobs, students))
  {
    var kept := Seqs.Filter(interviews, KeptBy(jobs, students));
    KeptFacts(jobs, interviews, students);
    var r := JoinKept(jobs, kept, students);
    JoinKeptFacts(jobs, kept, students);
    ListsKept(r, kept);
    r
  }

  lemma ListsKept(r: seq<Listed>, kept: seq<Interview>)
    requires InterviewsOf(r) == kept
    ensures forall i :: 0 <= i < |r| ==> r[i].interview == kept[i]
    ensures forall v :: v in kept ==> Lists(r, v)
  {
    forall v | v in kept
      ensures Lists(r, v)
    {
      var i :| 0 <= i < |kept| && kept[i] == v;
      assert InterviewsOf(r)[i] == v;
    }
  }

  /** The kept interviews: each is kept, every kept one is there, and there
      are as many as the count. */
  lemma KeptFacts(jobs: seq<Job>, interviews: seq<Interview>, students: map<Id, Student>)
    ensures var kept := Seqs.Filter(interviews, KeptBy(jobs, students));
      && |kept| == Seqs.Count(interviews, KeptBy(jobs, students))
      && (forall i :: 0 <= i < |kept| ==> kept[i] in interviews && Kept(jobs, students, kept[i]))
      && (forall v :: v in interviews && Kept(jobs, students, v) ==> v in kept)
  {
    var kept := Seqs.Filter(interviews, KeptBy(jobs, students));
    Seqs.FilterLength(interviews, KeptBy(jobs, students));
    forall i | 0 <= i < |kept|
      ensures Kept(jobs, students, kept[i])
    {
      assert KeptBy(jobs, students)(kept[i]);
    }
    forall v | v in interviews && Kept(jobs, students, v)
      ensures v in kept
    {
      assert KeptBy(jobs, students)(v);
    }
  }

  /** Each kept interview joined with its job and its student. */
  function JoinKept(jobs: seq<Job>, kept: seq<Interview>, students: map<Id, Student>): seq<Listed>
    requires forall i :: 0 <= i < |kept| ==> Kept(jobs, students, kept[i])
  {
    seq(|kept|, i requires 0 <= i < |kept| =>
      assert Kept(jobs, students, kept[i]);
      Listed(kept[i], FindJob(jobs, kept[i].jobId).value, students[kept[i].studentId]))
  }

  lemma JoinKeptFacts(jobs: seq<Job>, kept: seq<Interview>, students: map<Id, Student>)
    requires forall i :: 0 <= i < |kept| ==> Kept(jobs, students, kept[i])
    ensures InterviewsOf(JoinKept(jobs, kept, students)) == kept
    ensures var r := JoinKept(jobs, kept, students);
      forall i :: 0 <= i < |r| ==> Joined(r[i], jobs, students)
  {
  }

  predicate Schedulable(a: Application) {
    a.status == Shortlisted || a.status == InInterview
  }

  /** The applications offered for scheduling: the recruiter's, in state
      shortlisted or interview, with an existing student. With distinct job
      ids, each job's rows are its schedulable applications in the order
      fetched, each once. */
  function SchedulableApplications(jobs: seq<Job>, apps: seq<Application>, students: map<Id, Student>): (r: seq<Applicants.Row>)
    ensures forall i :: 0 <= i < |r| ==> Schedulable(r[i].app) && r[i].app in apps && r[i].job in jobs
    ensures forall j, a :: j in jobs && a in apps && a.jobId == j.jobId && a.studentId in students && Schedulable(a) ==>
      Applicants.Row(a, j, students[a.studentId]) in r
    ensures Seqs.NoDup(Applicants.JobIds(jobs)) ==> forall k :: 0 <= k < |jobs| ==>
      Seqs.Filter(r, Applicants.OnJob(jobs[k].jobId)) == Applicants.RowsFor(jobs[k], Seqs.Filter(apps, Schedulable), students)
  {
    Applicants.LoadApplicants(jobs, Seqs.Filter(apps, Schedulable), students)
  }

  /** The scheduling form; the date is the parsed value of its field. */
  datatype ScheduleForm = ScheduleForm(applicationId: Id, stage: string, datetime: Millis, mode: InterviewMode, link: string, address: string)

  /** The first listed application with this id. */
  function FindRow(rows: seq<Applicants.Row>, applicationId: Id): (r: Option<Applicants.Row>)
    ensures r.None? <==> forall i :: 0 <= i < |rows| ==> rows[i].app.applicationId != applicationId
    ensures r.Some? ==> r.value in rows && r.value.app.applicationId == applicationId
  {
    if |rows| == 0 then None
    else if rows[0].app.applicationId == applicationId then Some(rows[0])
    else FindRow(rows[1..], applicationId)
  }

  /** The interviews and applications the page writes to. */
  datatype Records = Records(interviews: seq<Interview>, applications: seq<Application>)

  /** `handleScheduleInterview`: nothing happens for an id that is not
      listed; otherwise the record `NewInterview` builds for the first listed
      application with that id is appended, in state 'scheduled' with the
      form's stage, time and mode, and the application moves to 'interview'. */
  function Schedule(db: Records, listed: seq<Applicants.Row>, form: ScheduleForm, interviewId: Id, now: Millis): (r: Records)
    ensures (forall i :: 0 <= i < |listed| ==> listed[i].app.applicationId != form.applicationId) ==> r == db
    ensures (exists i :: 0 <= i < |listed| && listed[i].app.applicationId == form.applicationId) ==>
      |r.interviews| == |db.interviews| + 1 && r.interviews[..|db.interviews|] == db.interviews
      && r.applications == Applicants.UpdateStatus(db.applications, form.applicationId, InInterview, now)
    ensures (exists i :: 0 <= i < |listed| && listed[i].app.applicationId == form.applicationId) ==>
      var v := r.interviews[|db.interviews|];
      v.status == Scheduled && v.stage == form.stage && v.datetime == form.datetime && v.mode == form.mode
    ensures FindRow(listed, form.applicationId).Some? ==>
      r.interviews == db.interviews + [NewInterview(FindRow(listed, form.applicationId).value.app, form, interviewId, now)]
  {
    var found := FindRow(listed, form.applicationId);
    if found.None? then db
    else
      var v := NewInterview(found.value.app, form, interviewId, now);
      Records(db.interviews + [v], Applicants.UpdateStatus(db.applications, form.applicationId, InInterview, now))
  }

  /** The record written for the selected application. */
  function NewInterview(app: Application, form: ScheduleForm, interviewId: Id, now: Millis): (v: Interview)
    ensures v.studentId == app.studentId && v.jobId == app.jobId && v.status == Scheduled
    ensures v.stage == form.stage && v.datetime == form.datetime && v.mode == form.mode
    ensures v.link == Some(if form.mode == Online then form.link else "")
    ensures v.address == Some(if form.mode == Offline then form.address else "")
  {
    Interview(interviewId, app.studentId, app.jobId, form.stage, form.datetime, form.mode,
              Some(if form.mode == Online then form.link else ""),
              Some(if form.mode == Offline then form.address else ""),
              Scheduled, now)
  }

  /** A listed row: a schedulable application of one of the recruiter's
      jobs, joined with that job. */
  predicate OfferedRow(row: Applicants.Row, jobs: seq<Job>) {
    Schedulable(row.app) && row.job in jobs && row.job.jobId == row.app.jobId
  }

  /** Scheduling from any listing of offered rows: the new interview goes
      to the student and job of a listed row with the chosen id. */
  lemma ScheduleAdds(db: Records, listed: seq<Applicants.Row>, jobs: seq<Job>, form: ScheduleForm, interviewId: Id, now: Millis, k: nat)
    requires forall i :: 0 <= i < |listed| ==> OfferedRow(listed[i], jobs)
    requires k < |listed| && listed[k].app.applicationId == form.applicationId
    ensures var v := Schedule(db, listed, form, interviewId, now).interviews[|db.interviews|];
      exists i :: 0 <= i < |listed| && listed[i].app.applicationId == form.applicationId
        && Schedulable(listed[i].app) && v.studentId == listed[i].app.studentId && v.jobId == listed[i].app.jobId
        && OwnsJob(jobs, v.jobId)
  {
    var found := FindRow(listed, form.applicationId);
    var i :| 0 <= i < |listed| && listed[i] == found.value;
    assert OfferedRow(listed[i], jobs);
    var jobIndex :| 0 <= jobIndex < |jobs| && jobs[jobIndex] == listed[i].job;
  }

  /** Scheduling a listed id moves every stored copy of that application to
      'interview' and leaves the other applications' statuses alone. */
  lemma ScheduleMovesStatus(db: Records, listed: seq<Applicants.Row>, form: ScheduleForm, interviewId: Id, now: Millis, k: nat)
    requires k < |listed| && listed[k].app.applicationId == form.applicationId
    ensures var r := Schedule(db, listed, form, interviewId, now);
      forall i :: 0 <= i < |db.applications| ==>
        r.applications[i].status == (if db.applications[i].applicationId == form.applicationId then InInterview else db.applications[i].status)
  {
  }

  /** Scheduling from the page's own listing: the new interview belongs to
      the selected application and is 'scheduled' with the form's stage,
      time and mode, and every stored copy of that application
      is now in 'interview' while the rest are untouched. */
  lemma ScheduleFromListing(db: Records, jobs: seq<Job>, apps: seq<Application>, students: map<Id, Student>,
                            form: ScheduleForm, interviewId: Id, now: Millis, k: nat)
    requires var listed := SchedulableApplications(jobs, apps, students);
      k < |listed| && listed[k].app.applicationId == form.applicationId
    ensures var listed := SchedulableApplications(jobs, apps, students);
      var r := Schedule(db, listed, form, interviewId, now);
      var v := r.interviews[|db.interviews|];
      exists i :: 0 <= i < |listed| && listed[i].app.applicationId == form.applicationId
        && Schedulable(listed[i].app) && v.studentId == listed[i].app.studentId && v.jobId == listed[i].app.jobId
        && OwnsJob(jobs, v.jobId)
        && v.status == Scheduled && v.stage == form.stage && v.datetime == form.datetime && v.mode == form.mode
    ensures var r := Schedule(db, SchedulableApplications(jobs, apps, students), form, interviewId, now);
      forall i :: 0 <= i < |db.applications| ==>
        r.applications[i].status == (if db.applications[i].applicationId == form.applicationId then InInterview else db.applications[i].status)
  {
    var listed := SchedulableApplications(jobs, apps, students);
    assert forall i :: 0 <= i < |listed| ==> OfferedRow(listed[i], jobs);
    ScheduleAdds(db, listed, jobs, form, interviewId, now, k);
    ScheduleMovesStatus(db, listed, form, interviewId, now, k);
  }
}
