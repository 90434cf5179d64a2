/** app/student/interviews/page.tsx: the student's interview list, with the
    interviews whose job no longer exists dropped, sorted by time and each
    flagged when another interview starts less than an hour away. */
module StudentInterviews {
  import opened Wrappers
  import opened Types
  import Seqs
  import StableSort

  /** An interview as fetched, with its job document if it still exists. */
  datatype Listed = Listed(interview: Interview, job: Option<Job>)

  /** An interview as displayed. */
  datatype Flagged = Flagged(interview: Interview, job: Job, hasOverlap: bool)

  /** One hour in milliseconds. */
  const ClashWindow: int := 60 * 60 * 1000

  function Abs(x: int): nat {
    if x < 0 then -x else x
  }

  /** Two start times closer than one hour; an exact hour apart is no clash. */
  predicate Near(a: Millis, b: Millis) {
    Abs(a - b) < ClashWindow
  }

  /** Some other entry of `s` starts near entry `i`. */
  predicate Clashes(s: seq<Listed>, i: int)
    requires 0 <= i < |s|
  {
    exists j :: 0 <= j < |s| && j != i && Near(s[i].interview.datetime, s[j].interview.datetime)
  }

  /** Every flag of `r` is set exactly when another entry starts near it. */
  predicate FlagsExact(r: seq<Flagged>) {
    forall i :: 0 <= i < |r| ==>
      (r[i].hasOverlap <==> exists j :: 0 <= j < |r| && j != i && Near(r[i].interview.datetime, r[j].interview.datetime))
  }

  function HasJob(l: Listed): bool {
    l.job.Some?
  }

  function StartTime(l: Listed): real {
    l.interview.datetime as real
  }

  function Unflag(f: Flagged): Listed {
    Listed(f.interview, Some(f.job))
  }

  function Unflagged(r: seq<Flagged>): (s: seq<Listed>)
    ensures |s| == |r|
    ensures forall i :: 0 <= i < |r| ==> s[i] == Unflag(r[i])
  {
    if |r| == 0 then [] else [Unflag(r[0])] + Unflagged(r[1..])
  }

  /** The `map` that adds `hasOverlap` to each interview of the sorted list. */
  method MarkClashes(sorted: seq<Listed>) returns (r: seq<Flagged>)
    requires forall i :: 0 <= i < |sorted| ==> sorted[i].job.Some?
    ensures |r| == |sorted|
    ensures forall i :: 0 <= i < |r| ==> Unflag(r[i]) == sorted[i]
    ensures forall i :: 0 <= i < |r| ==> (r[i].hasOverlap <==> Clashes(sorted, i))
  {
    r := [];
    var i := 0;
    while i < |sorted|
      invariant 0 <= i <= |sorted|
      invariant |r| == i
      invariant forall k :: 0 <= k < i ==> Unflag(r[k]) == sorted[k]
      invariant forall k :: 0 <= k < i ==> (r[k].hasOverlap <==> Clashes(sorted, k))
    {
      var found := HasClash(sorted, i);
      r := r + [Flagged(sorted[i].interview, sorted[i].job.value, found)];
      i := i + 1;
    }
  }

  /** The inner `some`: another entry of the list starts near entry `i`. */
  method HasClash(sorted: seq<Listed>, i: nat) returns (found: bool)
    requires i < |sorted|
    ensures found <==> Clashes(sorted, i)
  {
    found := false;
    var j := 0;
    while j < |sorted|
      invariant 0 <= j <= |sorted|
      invariant found <==> exists m :: 0 <= m < j && m != i && Near(sorted[i].interview.datetime, sorted[m].interview.datetime)
    {
      if j != i && Abs(sorted[i].interview.datetime - sorted[j].interview.datetime) < ClashWindow {
        found := true;
      }
      j := j + 1;
    }
  }

  /** `loadInterviews`: drop the interviews without a job, sort by start
      time (ties keep the fetched order), then flag clashes. */
  method LoadInterviews(fetched: seq<Listed>) returns (r: seq<Flagged>)
    ensures |r| == Seqs.Count(fetched, HasJob)
    ensures multiset(Unflagged(r)) == multiset(Seqs.Filter(fetched, HasJob))
    ensures forall i, j :: 0 <= i < j < |r| ==> r[i].interview.datetime <= r[j].interview.datetime
    ensures forall k :: StableSort.WithKey(Unflagged(r), StartTime, k) == StableSort.WithKey(Seqs.Filter(fetched, HasJob), StartTime, k)
    ensures FlagsExact(r)
  {
    var kept := Seqs.Filter(fetched, HasJob);
    Seqs.FilterLength(fetched, HasJob);
    var sorted := StableSort.Sort(kept, StartTime);
    forall k {
      StableSort.SortIsStable(kept, StartTime, k);
    }
    PermutationKeepsJobs(kept, sorted);
    r := MarkClashes(sorted);
    assert Unflagged(r) == sorted;
    FlagsFromClashes(r, sorted);
    AscendingTimes(r, sorted);
  }

  /** The message the page shows when a load fails. */
  const LoadError: string := "Failed to load interviews"

  /** `loadInterviews` as written. Inside the `map` callback the parameter
      `doc`, a fetched snapshot, hides the imported `doc` function, so the
      job lookup calls a snapshot and throws for the first interview;
      `Promise.all` rejects and the page reports the error. An empty fetch
      never runs the callback and lists nothing. */
  function LoadInterviewsAsWritten(fetched: seq<Listed>): (r: Result<seq<Flagged>, string>)
    ensures r.Ok? <==> |fetched| == 0
    ensures r.Ok? ==> r.value == []
    ensures r.Err? ==> r.error == LoadError
  {
    if |fetched| == 0 then Ok([]) else Err(LoadError)
  }

  /** The list the page holds after a load: it starts empty, and a failed
      load leaves it so. */
  function Shown(r: Result<seq<Flagged>, string>): seq<Flagged> {
    if r.Ok? then r.value else []
  }

  /** A student with an interview whose job exists: the page as written
      reports an error and lists nothing, where `LoadInterviews` lists
      `Seqs.Count(fetched, HasJob)` interviews. */
  lemma AsWrittenListsNothing(fetched: seq<Listed>)
    requires Seqs.Count(fetched, HasJob) > 0
    ensures LoadInterviewsAsWritten(fetched) == Err(LoadError)
    ensures Shown(LoadInterviewsAsWritten(fetched)) == []
  {
  }

  lemma PermutationKeepsJobs(kept: seq<Listed>, sorted: seq<Listed>)
    requires multiset(sorted) == multiset(kept)
    requires forall i :: 0 <= i < |kept| ==> HasJob(kept[i])
    ensures forall i :: 0 <= i < |sorted| ==> sorted[i].job.Some?
  {
    forall i | 0 <= i < |sorted|
      ensures sorted[i].job.Some?
    {
      assert sorted[i] in multiset(kept);
      var j :| 0 <= j < |kept| && kept[j] == sorted[i];
    }
  }

  lemma AscendingTimes(r: seq<Flagged>, sorted: seq<Listed>)
    requires Unflagged(r) == sorted && StableSort.SortedBy(sorted, StartTime)
    ensures forall i, j :: 0 <= i < j < |r| ==> r[i].interview.datetime <= r[j].interview.datetime
  {
    forall i, j | 0 <= i < j < |r|
      ensures r[i].interview.datetime <= r[j].interview.datetime
    {
      assert StartTime(sorted[i]) <= StartTime(sorted[j]);
      assert sorted[i].interview == r[i].interview && sorted[j].interview == r[j].interview;
    }
  }

  lemma FlagsFromClashes(r: seq<Flagged>, sorted: seq<Listed>)
    requires |r| == |sorted|
    requires forall i :: 0 <= i < |r| ==> Unflag(r[i]) == sorted[i]
    requires forall i :: 0 <= i < |r| ==> (r[i].hasOverlap <==> Clashes(sorted, i))
    ensures FlagsExact(r)
  {
    forall i | 0 <= i < |r|
      ensures r[i].hasOverlap <==> exists j :: 0 <= j < |r| && j != i && Near(r[i].interview.datetime, r[j].interview.datetime)
    {
      assert forall j :: 0 <= j < |r| ==> r[j].interview.datetime == sorted[j].interview.datetime;
    }
  }

  /** The clash relation is symmetric: a flagged interview has a flagged
      partner less than an hour away. */
  lemma FlaggedHasFlaggedPartner(r: seq<Flagged>)
    requires FlagsExact(r)
    ensures forall i :: 0 <= i < |r| && r[i].hasOverlap ==>
      exists j :: 0 <= j < |r| && j != i && r[j].hasOverlap && Near(r[i].interview.datetime, r[j].interview.datetime)
  {
    forall i | 0 <= i < |r| && r[i].hasOverlap
      ensures exists j :: 0 <= j < |r| && j != i && r[j].hasOverlap && Near(r[i].interview.datetime, r[j].interview.datetime)
    {
      var j :| 0 <= j < |r| && j != i && Near(r[i].interview.datetime, r[j].interview.datetime);
      assert Near(r[j].interview.datetime, r[i].interview.datetime);
      assert r[j].hasOverlap;
    }
  }

  /** A lone interview is never flagged; two at the same instant both are. */
  lemma LoneAndSimultaneous(r: seq<Flagged>)
    requires FlagsExact(r)
    ensures |r| == 1 ==> !r[0].hasOverlap
    ensures |r| == 2 && r[0].interview.datetime == r[1].interview.datetime ==> r[0].hasOverlap && r[1].hasOverlap
  {
    if |r| == 2 && r[0].interview.datetime == r[1].interview.datetime {
      assert Near(r[0].interview.datetime, r[1].interview.datetime);
      assert Near(r[1].interview.datetime, r[0].interview.datetime);
    }
  }

  /** The threshold is strict: 45 minutes apart clash, 60 or 90 do not. */
  lemma ThresholdExamples(t: Millis)
    ensures Near(t, t + 45 * 60 * 1000)
    ensures !Near(t, t + 60 * 60 * 1000)
    ensures !Near(t, t + 90 * 60 * 1000)
  {
  }

  /** The interview status plays no part: a cancelled or completed interview
      still clashes with one scheduled near it. */
  lemma StatusIgnored(s: seq<Listed>, i: int, k: int, st: InterviewStatus)
    requires 0 <= i < |s| && 0 <= k < |s|
    ensures Clashes(s[k := s[k].(interview := s[k].interview.(status := st))], i) == Clashes(s, i)
  {
    var s' := s[k := s[k].(interview := s[k].interview.(status := st))];
    assert forall m :: 0 <= m < |s| ==> s'[m].interview.datetime == s[m].interview.datetime;
  }
}
