/** app/recruiter/analytics/page.tsx: applied and offered counts per role
    title and the conversion rate charted from them. */
module Analytics {
  import opened Wrappers
  import opened Types
  import Seqs
  import Entries
  import Dashboard

  datatype Funnel = Funnel(applied: int, offered: int)

  /** The applications of one job's query with status 'offered'; the query's
      size is `Dashboard.ForJob`. */
  function OfferedFor(apps: seq<Application>, jobId: Id): (n: nat)
    ensures n <= Dashboard.ForJob(apps, jobId)
  {
    if |apps| == 0 then 0
    else
      var a := apps[|apps| - 1];
      OfferedFor(apps[..|apps| - 1], jobId) + (if a.jobId == jobId && a.status == Offered then 1 else 0)
  }

  /** The counts of one job's application query. */
  function FunnelOf(job: Job, apps: seq<Application>): (f: Funnel)
    ensures 0 <= f.offered <= f.applied
  {
    Funnel(Dashboard.ForJob(apps, job.jobId), OfferedFor(apps, job.jobId))
  }

  /** `conversionRates[jobTitle] = { applied, offered }` for each job in
      order: a title keeps the counts of its last job. */
  function ConversionData(jobs: seq<Job>, apps: seq<Application>): (r: seq<Entries.Entry<Funnel>>)
    ensures Seqs.NoDup(Entries.Keys(r))
    ensures forall title :: Entries.Get(r, title) == Entries.LastValue(Pairs(jobs, apps), title)
  {
    Entries.Assign(Pairs(jobs, apps))
  }

  function Pairs(jobs: seq<Job>, apps: seq<Application>): (ps: seq<Entries.Entry<Funnel>>)
    ensures |ps| == |jobs| && forall i :: 0 <= i < |jobs| ==> ps[i] == Entries.Entry(jobs[i].title, FunnelOf(jobs[i], apps))
  {
    seq(|jobs|, i requires 0 <= i < |jobs| => Entries.Entry(jobs[i].title, FunnelOf(jobs[i], apps)))
  }

  /** `applied > 0 ? offered / applied * 100 : 0`. */
  function ConversionRate(f: Funnel): (r: real)
    ensures f.applied <= 0 ==> r == 0.0
    ensures 0 <= f.offered <= f.applied ==> 0.0 <= r <= 100.0
    ensures 0 < f.applied && f.offered == f.applied ==> r == 100.0
    ensures 0 < f.applied && f.offered == 0 ==> r == 0.0
  {
    if f.applied > 0 then
      RateBounds(f.offered, f.applied);
      f.offered as real / f.applied as real * 100.0
    else 0.0
  }

  lemma RateBounds(offered: int, applied: int)
    requires applied > 0
    ensures 0 <= offered <= applied ==> 0.0 <= offered as real / applied as real * 100.0 <= 100.0
    ensures offered == applied ==> offered as real / applied as real * 100.0 == 100.0
  {
    if 0 <= offered <= applied {
      assert offered as real / applied as real <= applied as real / applied as real;
    }
  }

  /** Every charted rate lies between 0 and 100. */
  lemma RatesAreBounded(jobs: seq<Job>, apps: seq<Application>, title: string)
    requires Entries.Get(ConversionData(jobs, apps), title).Some?
    ensures 0.0 <= ConversionRate(Entries.Get(ConversionData(jobs, apps), title).value) <= 100.0
  {
    LastIsAFunnel(Pairs(jobs, apps), jobs, apps, title);
  }

  lemma {:induction false} LastIsAFunnel(ps: seq<Entries.Entry<Funnel>>, jobs: seq<Job>, apps: seq<Application>, title: string)
    requires ps == Pairs(jobs, apps)
    ensures Entries.LastValue(ps, title).Some? ==> 0 <= Entries.LastValue(ps, title).value.offered <= Entries.LastValue(ps, title).value.applied
  {
    if |ps| > 0 && ps[|ps| - 1].key != title {
      var init := jobs[..|jobs| - 1];
      assert ps[..|ps| - 1] == Pairs(init, apps);
      LastIsAFunnel(ps[..|ps| - 1], init, apps, title);
    }
  }

  /** A later role with the same title overwrites an earlier one: the last
      job's title always shows the last job's counts. */
  lemma LastJobWins(jobs: seq<Job>, apps: seq<Application>)
    requires |jobs| > 0
    ensures Entries.Get(ConversionData(jobs, apps), jobs[|jobs| - 1].title) == Some(FunnelOf(jobs[|jobs| - 1], apps))
  {
  }

  /** Two roles with one title chart one entry, with the second role's counts. */
  lemma SharedTitleShowsOnce(a: Job, b: Job, apps: seq<Application>)
    requires a.title == b.title
    ensures |ConversionData([a, b], apps)| == 1
    ensures Entries.Get(ConversionData([a, b], apps), a.title) == Some(FunnelOf(b, apps))
  {
    var ps := Pairs([a, b], apps);
    assert ps[..1][..0] == [];
    assert Entries.Assign(ps[..1][..0]) == [];
    var es := Entries.Assign(ps[..1]);
    assert es == Entries.Put([], a.title, FunnelOf(a, apps));
    assert Entries.Keys(es) == [a.title];
  }

  datatype Bar = Bar(name: string, rate: real)

  /** `setConversionData`: one bar per title, in the order of the entries,
      showing the conversion rate of that title's counts. */
  function ConversionChart(jobs: seq<Job>, apps: seq<Application>): (bars: seq<Bar>)
    ensures var data := ConversionData(jobs, apps);
      |bars| == |data| && forall i :: 0 <= i < |bars| ==> bars[i].name == data[i].key && bars[i].rate == ConversionRate(data[i].value)
    ensures forall i :: 0 <= i < |bars| ==> 0.0 <= bars[i].rate <= 100.0
    ensures Seqs.NoDup(seq(|bars|, i requires 0 <= i < |bars| => bars[i].name))
  {
    var data := ConversionData(jobs, apps);
    var bars := seq(|data|, i requires 0 <= i < |data| => Bar(data[i].key, ConversionRate(data[i].value)));
    DataFunnels(jobs, apps);
    assert seq(|bars|, i requires 0 <= i < |bars| => bars[i].name) == Entries.Keys(data);
    bars
  }

  /** Every entry of the chart data holds the counts of some job. */
  lemma DataFunnels(jobs: seq<Job>, apps: seq<Application>)
    ensures var data := ConversionData(jobs, apps);
      forall i :: 0 <= i < |data| ==> 0 <= data[i].value.offered <= data[i].value.applied
  {
    var data := ConversionData(jobs, apps);
    var ps := Pairs(jobs, apps);
    forall i | 0 <= i < |data|
      ensures 0 <= data[i].value.offered <= data[i].value.applied
    {
      assert data[i] in ps;
    }
  }
}
