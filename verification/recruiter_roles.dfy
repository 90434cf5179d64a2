/** app/recruiter/roles/page.tsx: the role form and the records it writes. */
module RecruiterRoles {
  import opened Wrappers
  import opened Types
  import Seqs
  import Text
  import ListEditor

  /** The create-role form; the deadline is the parsed date of its field. */
  datatype RoleForm = RoleForm(
    title: string,
    description: string,
    requirements: seq<string>,
    stipend: int,
    workMode: seq<string>,
    maxApplicants: int,
    deadline: Millis)

  /** `handleCreateJob`: nothing is written while the recruiter profile is
      missing; otherwise an open role with no applicants. */
  function NewJob(jobId: Id, recruiterId: Id, companyName: Option<string>, form: RoleForm, now: Millis): (r: Option<Job>)
    ensures r.None? <==> companyName.None?
    ensures r.Some? ==> r.value.applicantCount == 0 && r.value.status == Open
    ensures r.Some? ==> r.value.recruiterId == recruiterId && r.value.companyName == companyName.value
    ensures r.Some? ==> RoleForm(r.value.title, r.value.description, r.value.requirements, r.value.stipend,
                                 r.value.workMode, r.value.maxApplicants, r.value.deadline) == form
  {
    if companyName.None? then None
    else Some(Job(jobId, recruiterId, companyName.value, form.title, form.description, form.requirements,
                  form.stipend, form.workMode, form.maxApplicants, form.deadline, 0, Open, now, now))
  }

  /** `handleCloseJob`: the role is closed and nothing else but `updatedAt` moves. */
  function CloseJob(job: Job, now: Millis): (r: Job)
    ensures r.status == Closed && r.updatedAt == now
    ensures r.(status := job.status, updatedAt := job.updatedAt) == job
  {
    job.(status := Closed, updatedAt := now)
  }

  /** Closing is idempotent up to the timestamp and leaves the applicant
      counter, so queue ranks already handed out stay valid. */
  lemma CloseTwice(job: Job, t1: Millis, t2: Millis)
    ensures CloseJob(CloseJob(job, t1), t2) == CloseJob(job, t2)
    ensures CloseJob(job, t1).applicantCount == job.applicantCount
  {
  }

  /** `addRequirement`: only the requirement list changes. */
  function AddRequirement(form: RoleForm, text: string): (r: RoleForm)
    ensures r.(requirements := form.requirements) == form
    ensures r.requirements == ListEditor.AddTrimmed(form.requirements, text)
  {
    form.(requirements := ListEditor.AddTrimmed(form.requirements, text))
  }

  /** `toggleWorkMode`: only the work-mode list changes. */
  function ToggleWorkMode(form: RoleForm, mode: string): (r: RoleForm)
    ensures r.(workMode := form.workMode) == form
    ensures mode in r.workMode <==> mode !in form.workMode
    ensures forall m :: m != mode ==> (m in r.workMode <==> m in form.workMode)
  {
    form.(workMode := ListEditor.Toggle(form.workMode, mode))
  }

  /** Each edit keeps both lists duplicate-free. */
  lemma EditsKeepListsDuplicateFree(form: RoleForm, text: string, mode: string)
    requires Seqs.NoDup(form.requirements) && Seqs.NoDup(form.workMode)
    ensures Seqs.NoDup(AddRequirement(form, text).requirements)
    ensures Seqs.NoDup(ToggleWorkMode(form, mode).workMode)
  {
  }

  /** Toggling an unselected mode twice restores the form. */
  lemma ToggleTwiceRestores(form: RoleForm, mode: string)
    requires mode !in form.workMode
    ensures ToggleWorkMode(ToggleWorkMode(form, mode), mode) == form
  {
    ListEditor.ToggleTwice(form.workMode, mode);
  }
}
