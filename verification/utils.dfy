/** lib/utils.ts: the student/job match score and the company-email check. */
module Utils {
  import opened Wrappers
  import opened Text
  import Seqs

  /** `Math.round`: halves round towards positive infinity. */
  function Round(x: real): (r: int)
    ensures r as real <= x + 0.5 < r as real + 1.0
  {
    (x + 0.5).Floor
  }

  lemma RoundMonotone(x: real, y: real)
    requires x <= y
    ensures Round(x) <= Round(y)
  {
  }

  /** A skill matches when its lower-cased text occurs inside some lower-cased
      requirement. */
  predicate SkillMatches(skill: string, requirements: seq<string>) {
    exists j :: 0 <= j < |requirements| && Contains(Lower(requirements[j]), Lower(skill))
  }

  /** Number of skill entries (duplicates included) that match some requirement. */
  function MatchCount(skills: seq<string>, requirements: seq<string>): nat {
    Seqs.Count(skills, s => SkillMatches(s, requirements))
  }

  /** Skill share out of 60 plus CGPA share out of 40, rounded. */
  function WeightedScore(matched: nat, requirementCount: nat, cgpa: real): int {
    var skillScore := (matched as real / (if requirementCount > 1 then requirementCount else 1) as real) * 60.0;
    var cgpaScore := (cgpa / 10.0) * 40.0;
    Round(skillScore + cgpaScore)
  }

  lemma SkillShareBounds(m: nat, d: real)
    requires d >= 1.0
    ensures 0.0 <= (m as real / d) * 60.0
    ensures m as real <= d ==> (m as real / d) * 60.0 <= 60.0
  {
    var q := m as real / d;
    assert q * d == m as real;
  }

  lemma WeightedScoreBounds(m: nat, n: nat, cgpa: real)
    ensures n == 0 && m == 0 ==> WeightedScore(m, n, cgpa) == Round(4.0 * cgpa)
    ensures 0.0 <= cgpa ==> 0 <= WeightedScore(m, n, cgpa)
    ensures 10.0 <= cgpa ==> 40 <= WeightedScore(m, n, cgpa)
    ensures 0.0 <= cgpa <= 10.0 && m <= (if n > 1 then n else 1) ==> WeightedScore(m, n, cgpa) <= 100
  {
    var d := (if n > 1 then n else 1) as real;
    var skillScore := (m as real / d) * 60.0;
    var cgpaScore := (cgpa / 10.0) * 40.0;
    SkillShareBounds(m, d);
    assert WeightedScore(m, n, cgpa) == Round(skillScore + cgpaScore);
    if 0.0 <= cgpa {
      RoundMonotone(0.0, skillScore + cgpaScore);
    }
    if 0.0 <= cgpa <= 10.0 && m as real <= d {
      RoundMonotone(skillScore + cgpaScore, 100.0);
    }
    if 10.0 <= cgpa {
      RoundMonotone(40.0, skillScore + cgpaScore);
    }
  }

  lemma {:induction false} NoRequirementsNoMatch(skills: seq<string>)
    ensures MatchCount(skills, []) == 0
  {
    assert forall i :: 0 <= i < |skills| ==> !SkillMatches(skills[i], []);
  }

  /** The match score of a profile against a role's requirements. */
  function CalculateMatchScore(skills: seq<string>, requirements: seq<string>, cgpa: real): (r: int)
    ensures |requirements| == 0 ==> r == Round(4.0 * cgpa)
    ensures 0.0 <= cgpa ==> 0 <= r
    ensures 10.0 <= cgpa ==> 40 <= r
    ensures 0.0 <= cgpa <= 10.0 && MatchCount(skills, requirements) <= (if |requirements| > 1 then |requirements| else 1)
            ==> r <= 100
  {
    var m := MatchCount(skills, requirements);
    if |requirements| == 0 then
      NoRequirementsNoMatch(skills);
      WeightedScoreBounds(m, |requirements|, cgpa);
      WeightedScore(m, |requirements|, cgpa)
    else
      WeightedScoreBounds(m, |requirements|, cgpa);
      WeightedScore(m, |requirements|, cgpa)
  }

  /** With no skills and a CGPA of 0 the score is 0. */
  lemma NoSkillsZeroCgpa(requirements: seq<string>)
    ensures CalculateMatchScore([], requirements, 0.0) == 0
  {
  }

  /** For a fixed number of requirements the score does not decrease when
      the CGPA or the number of matching skills grows. */
  lemma WeightedScoreMonotone(m1: nat, m2: nat, n: nat, c1: real, c2: real)
    requires m1 <= m2 && c1 <= c2
    ensures WeightedScore(m1, n, c1) <= WeightedScore(m2, n, c2)
  {
    var d := (if n > 1 then n else 1) as real;
    assert m1 as real / d <= m2 as real / d;
    RoundMonotone((m1 as real / d) * 60.0 + (c1 / 10.0) * 40.0, (m2 as real / d) * 60.0 + (c2 / 10.0) * 40.0);
  }

  /** Adding a skill to the profile never lowers the score for a role. */
  lemma {:induction false} AddingSkillNeverLowersScore(skills: seq<string>, extra: string, requirements: seq<string>, cgpa: real)
    ensures CalculateMatchScore(skills, requirements, cgpa) <= CalculateMatchScore(skills + [extra], requirements, cgpa)
  {
    Seqs.CountAppend(skills, [extra], s => SkillMatches(s, requirements));
    WeightedScoreMonotone(MatchCount(skills, requirements), MatchCount(skills + [extra], requirements), |requirements|, cgpa, cgpa);
  }

  /** Worked example: "Python" matches "Python Developer", "React" matches
      nothing; (1/2)*60 + (8/10)*40 = 30 + 32 = 62. */
  lemma WorkedExample()
    ensures MatchCount(["Python", "React"], ["Python Developer", "Node.js"]) == 1
    ensures CalculateMatchScore(["Python", "React"], ["Python Developer", "Node.js"], 8.0) == 62
  {
    var reqs := ["Python Developer", "Node.js"];
    PythonMatches();
    ReactDoesNotMatch();
    CountPair("Python", "React", s => SkillMatches(s, reqs));
    assert WeightedScore(1, 2, 8.0) == 62;
  }

  lemma PythonMatches()
    ensures SkillMatches("Python", ["Python Developer", "Node.js"])
  {
    var reqs := ["Python Developer", "Node.js"];
    assert Lower("Python") == "python";
    assert Lower(reqs[0]) == "python developer";
    assert OccursAt("python developer", "python", 0);
    assert Contains(Lower(reqs[0]), Lower("Python"));
  }

  lemma ReactDoesNotMatch()
    ensures !SkillMatches("React", ["Python Developer", "Node.js"])
  {
    var reqs := ["Python Developer", "Node.js"];
    LowerExamples();
    ReactAbsent();
    assert forall j :: 0 <= j < 2 ==> !Contains(Lower(reqs[j]), Lower("React"));
  }

  lemma LowerExamples()
    ensures Lower("React") == "react"
    ensures Lower("Python Developer") == "python developer"
    ensures Lower("Node.js") == "node.js"
  {
  }

  lemma ReactAbsent()
    ensures !Contains("python developer", "react")
    ensures !Contains("node.js", "react")
  {
    if Contains("python developer", "react") {
      ContainedCharsOccur("python developer", "react", 2);
      assert false;
    }
    if Contains("node.js", "react") {
      ContainedCharsOccur("node.js", "react", 0);
      assert false;
    }
  }

  lemma CountPair<T>(a: T, b: T, p: T -> bool)
    ensures Seqs.Count([a, b], p) == (if p(a) then 1 else 0) + (if p(b) then 1 else 0)
  {
    assert [a, b][1..] == [b];
    assert [b][1..] == [];
  }

  /** The score can exceed 100: two skills matching inside one requirement
      give a skill share of 120. */
  lemma ScoreCanExceedHundred()
    ensures CalculateMatchScore(["Java", "Script"], ["JavaScript"], 10.0) == 160
  {
    var reqs := ["JavaScript"];
    assert Lower(reqs[0]) == "javascript";
    assert Lower("Java") == "java";
    assert Lower("Script") == "script";
    assert OccursAt("javascript", "java", 0);
    assert Contains(Lower(reqs[0]), Lower("Java"));
    assert OccursAt("javascript", "script", 4);
    assert Contains(Lower(reqs[0]), Lower("Script"));
    assert SkillMatches("Java", reqs);
    assert SkillMatches("Script", reqs);
    CountPair("Java", "Script", s => SkillMatches(s, reqs));
    assert WeightedScore(2, 1, 10.0) == 160;
  }

  const PersonalDomains: seq<string> := ["gmail.com", "yahoo.com", "hotmail.com", "outlook.com", "icloud.com"]

  /** `email.split('@')[1]`: the text between the first and second '@', if
      there is a first '@'. */
  function DomainSegment(email: string): Option<string> {
    var parts := Split(email, '@');
    if |parts| >= 2 then Some(parts[1]) else None
  }

  /** False exactly for the personal mail providers; an address without '@'
      is accepted. */
  function ValidateCompanyEmail(email: string): bool {
    Lower(DomainSegment(email).GetOr("")) !in PersonalDomains
  }

  lemma NoAtIsAccepted(email: string)
    requires '@' !in email
    ensures DomainSegment(email) == None
    ensures ValidateCompanyEmail(email)
  {
    SplitNoSeparator(email, '@');
    assert Lower("") == "";
  }

  /** The verdict depends only on the lower-cased segment after the first
      '@', up to the next '@' or the end. */
  lemma {:induction false} VerdictFromDomain(local: string, domain: string, rest: Option<string>)
    requires '@' !in local && '@' !in domain
    ensures var email := local + "@" + domain + (if rest.Some? then "@" + rest.value else "");
      DomainSegment(email) == Some(domain)
      && ValidateCompanyEmail(email) == (Lower(domain) !in PersonalDomains)
  {
    if rest.Some? {
      SplitPiece(domain, rest.value, '@');
      assert local + "@" + domain + ("@" + rest.value) == local + ['@'] + (domain + ['@'] + rest.value);
      SplitPiece(local, domain + ['@'] + rest.value, '@');
    } else {
      SplitNoSeparator(domain, '@');
      assert local + "@" + domain + "" == local + ['@'] + domain;
      SplitPiece(local, domain, '@');
    }
  }

  /** The comparison ignores case. */
  lemma UpperCaseGmailRejected()
    ensures !ValidateCompanyEmail("a@GMAIL.COM")
  {
    VerdictFromDomain("a", "GMAIL.COM", None);
    assert "a" + "@" + "GMAIL.COM" + "" == "a@GMAIL.COM";
    assert Lower("GMAIL.COM") == "gmail.com";
  }

  /** A domain that is not a personal provider is accepted. */
  lemma CompanyDomainAccepted()
    ensures ValidateCompanyEmail("hr@acme.com")
  {
    VerdictFromDomain("hr", "acme.com", None);
    assert "hr" + "@" + "acme.com" + "" == "hr@acme.com";
    assert Lower("acme.com") == "acme.com";
    assert forall d :: d in PersonalDomains ==> d[0] != 'a';
  }
}
