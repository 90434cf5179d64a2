/** app/recruiter/dashboard/page.tsx: the recruiter's headline counters,
    hiring funnel and role distribution. */
module Dashboard {
  import opened Wrappers
  import opened Types
  import Seqs
  import Entries

  function Ids(jobs: seq<Job>): (ids: seq<Id>)
    ensures |ids| == |jobs| && forall i :: 0 <= i < |jobs| ==> ids[i] == jobs[i].jobId
  {
    seq(|jobs|, i requires 0 <= i < |jobs| => jobs[i].jobId)
  }

  /** The size of the per-job application query. */
  function ForJob(apps: seq<Application>, jobId: Id): (n: nat)
    ensures n <= |apps|
  {
    if |apps| == 0 then 0
    else ForJob(apps[..|apps| - 1], jobId) + (if apps[|apps| - 1].jobId == jobId then 1 else 0)
  }

  predicate InPipeline(a: Application) {
    a.status == Shortlisted || a.status == InInterview
  }

  /** The applications of that query in state shortlisted or interview. */
  function PipelineForJob(apps: seq<Application>, jobId: Id): (n: nat)
  {
    if |apps| == 0 then 0
    else
      var a := apps[|apps| - 1];
      PipelineForJob(apps[..|apps| - 1], jobId) + (if a.jobId == jobId && InPipeline(a) then 1 else 0)
  }

  lemma {:induction false} PipelineWithinJob(apps: seq<Application>, jobId: Id)
    ensures PipelineForJob(apps, jobId) <= ForJob(apps, jobId)
  {
    if |apps| > 0 {
      PipelineWithinJob(apps[..|apps| - 1], jobId);
    }
  }

  /** Total over the recruiter's jobs, one query per job. */
  function TotalApplicants(jobs: seq<Job>, apps: seq<Application>): nat {
    if |jobs| == 0 then 0
    else TotalApplicants(jobs[..|jobs| - 1], apps) + ForJob(apps, jobs[|jobs| - 1].jobId)
  }

  function TotalPipeline(jobs: seq<Job>, apps: seq<Application>): nat {
    if |jobs| == 0 then 0
    else TotalPipeline(jobs[..|jobs| - 1], apps) + PipelineForJob(apps, jobs[|jobs| - 1].jobId)
  }

  lemma {:induction false} PipelineWithinTotal(jobs: seq<Job>, apps: seq<Application>)
    ensures TotalPipeline(jobs, apps) <= TotalApplicants(jobs, apps)
  {
    if |jobs| > 0 {
      PipelineWithinTotal(jobs[..|jobs| - 1], apps);
      PipelineWithinJob(apps, jobs[|jobs| - 1].jobId);
    }
  }

  /** Applications whose job is one of `ids`, each counted once. */
  function Owned(apps: seq<Application>, ids: seq<Id>): (n: nat)
    ensures n <= |apps|
  {
    if |apps| == 0 then 0
    else Owned(apps[..|apps| - 1], ids) + (if apps[|apps| - 1].jobId in ids then 1 else 0)
  }

  lemma {:induction false} OwnedExtend(apps: seq<Application>, ids: seq<Id>, x: Id)
    requires x !in ids
    ensures Owned(apps, ids + [x]) == Owned(apps, ids) + ForJob(apps, x)
  {
    if |apps| > 0 {
      OwnedExtend(apps[..|apps| - 1], ids, x);
    }
  }

  /** Since job ids are distinct, the per-job sizes add up to the number of
      applications that belong to the recruiter: none is counted twice. */
  lemma {:induction false} TotalCountsEachOnce(jobs: seq<Job>, apps: seq<Application>)
    requires Seqs.NoDup(Ids(jobs))
    ensures TotalApplicants(jobs, apps) == Owned(apps, Ids(jobs))
  {
    if |jobs| == 0 {
      OwnedNone(apps);
    } else {
      var init := jobs[..|jobs| - 1];
      assert Ids(jobs) == Ids(init) + [jobs[|jobs| - 1].jobId];
      assert Seqs.NoDup(Ids(init)) by {
        assert forall i :: 0 <= i < |init| ==> Ids(init)[i] == Ids(jobs)[i];
      }
      TotalCountsEachOnce(init, apps);
      OwnedExtend(apps, Ids(init), jobs[|jobs| - 1].jobId);
    }
  }

  lemma {:induction false} OwnedNone(apps: seq<Application>)
    ensures Owned(apps, []) == 0
  {
    if |apps| > 0 {
      OwnedNone(apps[..|apps| - 1]);
    }
  }

  /** Scheduled interviews of the recruiter's jobs. */
  function ScheduledOwned(interviews: seq<Interview>, ids: seq<Id>): (n: nat)
    ensures n <= |interviews|
    ensures n == 0 <==> forall i :: 0 <= i < |interviews| ==> !(interviews[i].status == Scheduled && interviews[i].jobId in ids)
  {
    if |interviews| == 0 then 0
    else
      var init := interviews[..|interviews| - 1];
      var v := interviews[|interviews| - 1];
      assert forall i :: 0 <= i < |init| ==> init[i] == interviews[i];
      ScheduledOwned(init, ids) + (if v.status == Scheduled && v.jobId in ids then 1 else 0)
  }

  /** Offers on the recruiter's jobs. */
  function OffersOwned(offers: seq<Offer>, ids: seq<Id>): (n: nat)
    ensures n <= |offers|
    ensures n == 0 <==> forall i :: 0 <= i < |offers| ==> offers[i].jobId !in ids
  {
    if |offers| == 0 then 0
    else
      var init := offers[..|offers| - 1];
      assert forall i :: 0 <= i < |init| ==> init[i] == offers[i];
      OffersOwned(init, ids) + (if offers[|offers| - 1].jobId in ids then 1 else 0)
  }

  function Titles(jobs: seq<Job>): (ts: seq<string>)
    ensures |ts| == |jobs| && forall i :: 0 <= i < |jobs| ==> ts[i] == jobs[i].title
  {
    seq(|jobs|, i requires 0 <= i < |jobs| => jobs[i].title)
  }

  /** The role distribution: each title of the recruiter's jobs once, in
      order of first appearance, with the number of jobs carrying it. */
  function RoleCounts(jobs: seq<Job>): (r: seq<Entries.Entry<int>>)
    ensures Seqs.NoDup(Entries.Keys(r))
    ensures forall title :: Entries.Get(r, title) == if Entries.Occurrences(Titles(jobs), title) == 0 then None else Some(Entries.Occurrences(Titles(jobs), title))
    ensures Entries.SumValues(r) == |jobs|
  {
    Entries.Tally(Titles(jobs))
  }

  datatype Stats = Stats(totalApplicants: nat, shortlisted: nat, interviews: nat, offers: nat)

  datatype Stage = Stage(name: string, value: nat)

  /** `loadDashboard`: a pass over the recruiter's jobs with a query per job
      and a role count per job (two loops here, one in the page), then one
      pass each over the scheduled interviews and the offers. */
  method LoadDashboard(jobs: seq<Job>, apps: seq<Application>, interviews: seq<Interview>, offers: seq<Offer>)
    returns (stats: Stats, funnel: seq<Stage>, roles: seq<Entries.Entry<int>>)
    ensures stats.totalApplicants == TotalApplicants(jobs, apps)
    ensures stats.shortlisted == TotalPipeline(jobs, apps) && stats.shortlisted <= stats.totalApplicants
    ensures stats.interviews == ScheduledOwned(interviews, Ids(jobs))
    ensures stats.offers == OffersOwned(offers, Ids(jobs))
    ensures roles == RoleCounts(jobs)
    ensures funnel == [Stage("Applied", stats.totalApplicants), Stage("Shortlisted", stats.shortlisted),
                       Stage("Interview", stats.interviews), Stage("Offered", stats.offers)]
  {
    var ids := Ids(jobs);
    var total, shortlisted := PerJob(jobs, apps);
    roles := CountRoles(Titles(jobs));
    PipelineWithinTotal(jobs, apps);
    var scheduled := CountScheduled(interviews, ids);
    var offered := CountOffers(offers, ids);
    stats := Stats(total, shortlisted, scheduled, offered);
    funnel := [Stage("Applied", total), Stage("Shortlisted", shortlisted), Stage("Interview", scheduled), Stage("Offered", offered)];
  }

  /** The loop over the recruiter's jobs, one application query per job. */
  method PerJob(jobs: seq<Job>, apps: seq<Application>) returns (total: nat, shortlisted: nat)
    ensures total == TotalApplicants(jobs, apps)
    ensures shortlisted == TotalPipeline(jobs, apps)
  {
    total, shortlisted := 0, 0;
    var i := 0;
    while i < |jobs|
      invariant 0 <= i <= |jobs|
      invariant total == TotalApplicants(jobs[..i], apps)
      invariant shortlisted == TotalPipeline(jobs[..i], apps)
    {
      var size, inPipeline := QueryJob(apps, jobs[i].jobId);
      total := total + size;
      shortlisted := shortlisted + inPipeline;
      assert jobs[..i + 1][..i] == jobs[..i];
      i := i + 1;
    }
    assert jobs[..i] == jobs;
  }

  /** The same loop's role counting, `roleCounts[title] = (roleCounts[title] || 0) + 1`. */
  method CountRoles(titles: seq<string>) returns (roles: seq<Entries.Entry<int>>)
    ensures roles == Entries.Tally(titles)
  {
    roles := [];
    var i := 0;
    while i < |titles|
      invariant 0 <= i <= |titles|
      invariant roles == Entries.Tally(titles[..i])
    {
      roles := Entries.Bump(roles, titles[i]);
      Entries.TallyExtend(titles[..i], titles[i]);
      assert titles[..i + 1] == titles[..i] + [titles[i]];
      i := i + 1;
    }
    assert titles[..i] == titles;
  }

  /** One per-job application query: its size and how many of its
      applications are shortlisted or in interview. */
  method QueryJob(apps: seq<Application>, jobId: Id) returns (size: nat, inPipeline: nat)
    ensures size == ForJob(apps, jobId) && inPipeline == PipelineForJob(apps, jobId)
  {
    size, inPipeline := 0, 0;
    var k := 0;
    while k < |apps|
      invariant 0 <= k <= |apps|
      invariant size == ForJob(apps[..k], jobId)
      invariant inPipeline == PipelineForJob(apps[..k], jobId)
    {
      if apps[k].jobId == jobId {
        size := size + 1;
        if InPipeline(apps[k]) {
          inPipeline := inPipeline + 1;
        }
      }
      assert apps[..k + 1][..k] == apps[..k];
      k := k + 1;
    }
    assert apps[..k] == apps;
  }

  method CountScheduled(interviews: seq<Interview>, ids: seq<Id>) returns (n: nat)
    ensures n == ScheduledOwned(interviews, ids)
  {
    n := 0;
    var k := 0;
    while k < |interviews|
      invariant 0 <= k <= |interviews|
      invariant n == ScheduledOwned(interviews[..k], ids)
    {
      if interviews[k].status == Scheduled && interviews[k].jobId in ids {
        n := n + 1;
      }
      assert interviews[..k + 1][..k] == interviews[..k];
      k := k + 1;
    }
    assert interviews[..k] == interviews;
  }

  method CountOffers(offers: seq<Offer>, ids: seq<Id>) returns (n: nat)
    ensures n == OffersOwned(offers, ids)
  {
    n := 0;
    var k := 0;
    while k < |offers|
      invariant 0 <= k <= |offers|
      invariant n == OffersOwned(offers[..k], ids)
    {
      if offers[k].jobId in ids {
        n := n + 1;
      }
      assert offers[..k + 1][..k] == offers[..k];
      k := k + 1;
    }
    assert offers[..k] == offers;
  }
}
