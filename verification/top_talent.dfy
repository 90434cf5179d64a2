/** app/recruiter/top-talent/page.tsx: the twenty strongest unfrozen
    students, and the record a new coding challenge starts as. */
module TopTalent {
  import opened Wrappers
  import opened Types
  import Seqs
  import StableSort

  const ListSize: nat := 20

  /** Elite points weigh 10, each CGPA point 100. */
  function TalentScore(s: Student): real {
    s.elitePoints as real * 10.0 + s.cgpa * 100.0
  }

  function NegTalent(s: Student): real {
    -TalentScore(s)
  }

  function Unfrozen(s: Student): bool {
    !s.isFrozen
  }

  /** `loadTopTalent`: drop frozen students, strongest first (ties keep the
      fetched order), keep the first twenty. */
  function TopTalent(students: seq<Student>): (r: seq<Student>)
    ensures forall i :: 0 <= i < |r| ==> !r[i].isFrozen
    ensures |r| == if Seqs.Count(students, Unfrozen) < ListSize then Seqs.Count(students, Unfrozen) else ListSize
    ensures forall i, j :: 0 <= i < j < |r| ==> TalentScore(r[i]) >= TalentScore(r[j])
    ensures multiset(r) <= multiset(students)
    ensures forall i :: 0 <= i < |r| ==> r[i] in students
  {
    var eligible := Seqs.Filter(students, Unfrozen);
    Seqs.FilterLength(students, Unfrozen);
    var ranked := StableSort.Sort(eligible, NegTalent);
    var r := if |ranked| <= ListSize then ranked else ranked[..ListSize];
    RankedFacts(students, eligible, ranked, r);
    r
  }

  lemma RankedFacts(students: seq<Student>, eligible: seq<Student>, ranked: seq<Student>, r: seq<Student>)
    requires eligible == Seqs.Filter(students, Unfrozen)
    requires multiset(ranked) == multiset(eligible) && StableSort.SortedBy(ranked, NegTalent)
    requires r <= ranked
    ensures forall i :: 0 <= i < |r| ==> !r[i].isFrozen && r[i] in students
    ensures forall i, j :: 0 <= i < j < |r| ==> TalentScore(r[i]) >= TalentScore(r[j])
    ensures multiset(r) <= multiset(students)
  {
    forall i | 0 <= i < |r|
      ensures !r[i].isFrozen && r[i] in students
    {
      assert r[i] == ranked[i];
      assert ranked[i] in multiset(eligible);
    }
    forall i, j | 0 <= i < j < |r|
      ensures TalentScore(r[i]) >= TalentScore(r[j])
    {
      assert NegTalent(ranked[i]) <= NegTalent(ranked[j]);
    }
    assert ranked == r + ranked[|r|..];
    assert multiset(r) <= multiset(ranked);
    FilterSubMultiset(students, Unfrozen);
  }

  lemma {:induction false} FilterSubMultiset(s: seq<Student>, p: Student -> bool)
    ensures multiset(Seqs.Filter(s, p)) <= multiset(s)
  {
    if |s| > 0 {
      FilterSubMultiset(s[1..], p);
      assert s == [s[0]] + s[1..];
    }
  }

  /** Students with equal scores are listed in the order they were fetched. */
  lemma TiesKeepOrder(students: seq<Student>, k: real)
    ensures var ranked := StableSort.Sort(Seqs.Filter(students, Unfrozen), NegTalent);
      TopTalent(students) <= ranked
      && StableSort.WithKey(ranked, NegTalent, k) == StableSort.WithKey(Seqs.Filter(students, Unfrozen), NegTalent, k)
  {
    StableSort.SortIsStable(Seqs.Filter(students, Unfrozen), NegTalent, k);
  }

  /** The challenge form of the page. */
  datatype ChallengeForm = ChallengeForm(title: string, description: string, difficulty: Difficulty, rewardPoints: int, deadline: Millis)

  /** `handleCreateChallenge`: the form's fields, no test cases yet. */
  function NewChallenge(challengeId: Id, recruiterId: Id, form: ChallengeForm, now: Millis): (c: Challenge)
    ensures c.testCases == []
    ensures c.recruiterId == recruiterId
    ensures ChallengeForm(c.title, c.description, c.difficulty, c.rewardPoints, c.deadline) == form
  {
    Challenge(challengeId, recruiterId, form.title, form.description, form.difficulty, form.rewardPoints,
              form.deadline, [], None, now)
  }
}
