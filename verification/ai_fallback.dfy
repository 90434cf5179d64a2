/** lib/ai.ts: the results returned when no AI provider answers. The resume
    fallback is a fixed report; the interview fallback echoes the transcript
    and scores it by counting filler words. */
module AiFallback {
  import Text

  datatype SectionScore = SectionScore(score: int, feedback: string)

  datatype ResumeAnalysis = ResumeAnalysis(
    atsScore: int,
    personal: SectionScore,
    education: SectionScore,
    experience: SectionScore,
    skills: SectionScore,
    projects: SectionScore,
    suggestions: seq<string>)

  datatype InterviewAnalysis = InterviewAnalysis(
    sentiment: int,
    eyeContact: int,
    fillerWords: int,
    technicalDepth: int,
    overallScore: int,
    feedback: string,
    transcript: string)

  function Sections(a: ResumeAnalysis): seq<SectionScore> {
    [a.personal, a.education, a.experience, a.skills, a.projects]
  }

  /** The fallback of `analyzeResume`; the resume text is not looked at. */
  function ResumeFallback(resumeText: string): (r: ResumeAnalysis)
    ensures r.atsScore == 75
    ensures |r.suggestions| == 5
    ensures forall i, j :: 0 <= i < j < 5 ==> r.suggestions[i] != r.suggestions[j]
    ensures forall s :: s in Sections(r) ==> 0 <= s.score <= 100 && s.feedback != ""
    ensures 5 * r.atsScore == r.personal.score + r.education.score
      + r.experience.score + r.skills.score + r.projects.score
  {
    var suggestions := [
      "Add more quantifiable achievements",
      "Include relevant keywords from job descriptions",
      "Expand on project descriptions",
      "Add certifications if any",
      "Optimize formatting for ATS systems"];
    assert forall i, j :: 0 <= i < j < 5 ==> |suggestions[i]| != |suggestions[j]|;
    ResumeAnalysis(
      75,
      SectionScore(80, "Good personal information"),
      SectionScore(75, "Education section is clear"),
      SectionScore(70, "Could add more details"),
      SectionScore(80, "Skills are well listed"),
      SectionScore(70, "Projects need more description"),
      suggestions)
  }

  /** Every resume gets the same fallback report. */
  lemma ResumeFallbackIgnoresText(a: string, b: string)
    ensures ResumeFallback(a) == ResumeFallback(b)
  {
  }

  /** The alternatives of `/\b(um|uh|like|you know|so|well)\b/gi`, in order. */
  const Fillers: seq<string> := ["um", "uh", "like", "you know", "so", "well"]

  /** A character of the regular-expression class `\w`. */
  predicate IsWordChar(c: char) {
    'a' <= c <= 'z' || 'A' <= c <= 'Z' || '0' <= c <= '9' || c == '_'
  }

  /** `\b` at index `j`: exactly one of the characters around it is a word
      character, the outside of the string counting as a non-word one. */
  predicate Boundary(t: string, j: int)
    requires 0 <= j <= |t|
  {
    (j > 0 && IsWordChar(t[j - 1])) != (j < |t| && IsWordChar(t[j]))
  }

  /** `\b` + `w` (ignoring ASCII case) + `\b` matches at index `i`. */
  predicate MatchesAt(t: string, i: nat, w: string) {
    i + |w| <= |t| && Boundary(t, i) && Text.Lower(t[i..i + |w|]) == w
    && Boundary(t, i + |w|)
  }

  /** The length of the match the regular expression finds at index `i`,
      trying the alternatives in order; 0 when none matches there. */
  function MatchLength(t: string, i: nat, ws: seq<string>): nat {
    if ws == [] then 0
    else if ws[0] != "" && MatchesAt(t, i, ws[0]) then |ws[0]|
    else MatchLength(t, i, ws[1..])
  }

  /** A non-zero length is that of a matching alternative, and some
      alternative matches only if the length is non-zero. */
  lemma {:induction false} MatchLengthMeaning(t: string, i: nat, ws: seq<string>)
    ensures MatchLength(t, i, ws) > 0 ==>
      exists w :: w in ws && |w| == MatchLength(t, i, ws) && MatchesAt(t, i, w)
    ensures (exists w :: w in ws && w != "" && MatchesAt(t, i, w)) ==> MatchLength(t, i, ws) > 0
  {
    if ws != [] && !(ws[0] != "" && MatchesAt(t, i, ws[0])) {
      MatchLengthMeaning(t, i, ws[1..]);
      assert forall w :: w in ws ==> w == ws[0] || w in ws[1..];
    }
  }

  /** Some filler word matches at index `i`. */
  predicate FillerAt(t: string, i: nat) {
    exists w :: w in Fillers && MatchesAt(t, i, w)
  }

  lemma FillerLengths(t: string, i: nat)
    ensures MatchLength(t, i, Fillers) > 0 <==> FillerAt(t, i)
    ensures MatchLength(t, i, Fillers) > 0 ==>
      2 <= MatchLength(t, i, Fillers) && i + MatchLength(t, i, Fillers) <= |t|
  {
    MatchLengthMeaning(t, i, Fillers);
    assert forall w :: w in Fillers ==> |w| >= 2;
  }

  /** The length of the filler word matched at index `i`, or 0. */
  function Step(t: string, i: nat): (n: nat)
    ensures n > 0 ==> 2 <= n && i + n <= |t|
  {
    FillerLengths(t, i);
    MatchLength(t, i, Fillers)
  }

  /** The global scan from index `i`: after a match the search resumes at its
      end, otherwise at the next index. */
  function CountFrom(t: string, i: nat): nat
    decreases |t| - i
  {
    if i >= |t| then 0
    else
      var n := Step(t, i);
      if n > 0 then 1 + CountFrom(t, i + n) else CountFrom(t, i + 1)
  }

  /** `(transcript.match(...) || []).length`. */
  function FillerCount(t: string): nat {
    CountFrom(t, 0)
  }

  lemma {:induction false} CountFromZero(t: string, i: nat)
    requires i <= |t|
    ensures CountFrom(t, i) == 0 <==> forall j :: i <= j < |t| ==> !FillerAt(t, j)
    decreases |t| - i
  {
    if i < |t| {
      FillerLengths(t, i);
      if !FillerAt(t, i) {
        CountFromZero(t, i + 1);
      }
    }
  }

  /** No filler word occurs anywhere in `t` as a whole word. */
  predicate NoFiller(t: string) {
    forall j :: 0 <= j < |t| ==> !FillerAt(t, j)
  }

  /** The count is zero exactly when no filler word occurs anywhere as a whole
      word. */
  lemma NoFillersIffZero(t: string)
    ensures FillerCount(t) == 0 <==> NoFiller(t)
  {
    CountFromZero(t, 0);
  }

  lemma {:induction false} CountFromBound(t: string, i: nat)
    requires i <= |t|
    ensures 2 * CountFrom(t, i) <= |t| - i
    decreases |t| - i
  {
    if i < |t| {
      var n := Step(t, i);
      if n > 0 {
        CountFromBound(t, i + n);
      } else {
        CountFromBound(t, i + 1);
      }
    }
  }

  /** Matches do not overlap and each is at least two characters long. */
  lemma FillerCountBound(t: string)
    ensures 2 * FillerCount(t) <= |t|
  {
    CountFromBound(t, 0);
  }

  /** `Math.max(0, 100 - fillerWordCount * 10)`. */
  function FillerScore(k: nat): (r: int)
    ensures 0 <= r <= 100
    ensures r == 100 <==> k == 0
    ensures r == 0 <==> k >= 10
    ensures r % 10 == 0
  {
    if 100 - k * 10 > 0 then 100 - k * 10 else 0
  }

  /** More filler words never raise the score, and each one below ten costs
      exactly ten points. */
  lemma FillerScoreMonotone(k: nat, m: nat)
    requires k <= m
    ensures FillerScore(m) <= FillerScore(k)
    ensures m < 10 ==> FillerScore(k) - FillerScore(m) == 10 * (m - k)
  {
  }

  /** The fallback of `analyzeInterview`; the question and field are not
      looked at. */
  function InterviewFallback(transcript: string, question: string, field: string): (r: InterviewAnalysis)
    ensures r.transcript == transcript
    ensures r.sentiment == 75 && r.eyeContact == 70
    ensures r.technicalDepth == 70 && r.overallScore == 72
    ensures r.fillerWords == FillerScore(FillerCount(transcript))
    ensures 0 <= r.fillerWords <= 100
    ensures r.fillerWords == 100 <==> NoFiller(transcript)
  {
    NoFillersIffZero(transcript);
    InterviewAnalysis(
      75, 70, FillerScore(FillerCount(transcript)), 70, 72,
      "Good answer structure. Try to reduce filler words and provide more specific examples.",
      transcript)
  }

  /** Words are only counted whole: "umbrella" holds no filler word. */
  lemma WholeWordsOnly()
    ensures FillerCount("umbrella") == 0
  {
    var t := "umbrella";
    assert forall k :: 0 <= k < |t| ==> IsWordChar(t[k]);
    forall j | 0 <= j < |t|
      ensures !FillerAt(t, j)
    {
      if j > 0 {
        assert !Boundary(t, j);
      } else {
        forall w | w in Fillers
          ensures !MatchesAt(t, 0, w)
        {
          if MatchesAt(t, 0, w) {
            assert false;
          }
        }
      }
    }
    NoFillersIffZero(t);
  }

  /** A match starts with the first letter of its word, in either case. */
  lemma FirstLetter(t: string, i: nat, w: string)
    requires MatchesAt(t, i, w) && |w| > 0
    ensures Text.LowerChar(t[i]) == w[0]
  {
    assert Text.Lower(t[i..i + |w|])[0] == w[0];
  }

  const Sample: string := "Um, so"

  lemma SampleStart()
    ensures Step(Sample, 0) == 2
  {
    assert Text.Lower(Sample[0..2]) == "um";
    assert MatchesAt(Sample, 0, "um");
  }

  lemma SampleGap(i: nat)
    requires i == 2 || i == 3
    ensures Step(Sample, i) == 0
  {
    if i == 2 {
      forall w | w in Fillers && MatchesAt(Sample, 2, w)
        ensures false
      {
        FirstLetter(Sample, 2, w);
      }
    } else {
      assert !Boundary(Sample, 3);
    }
    FillerLengths(Sample, i);
  }

  lemma SampleEnd()
    ensures Step(Sample, 4) == 2
  {
    forall w | w in Fillers && MatchesAt(Sample, 4, w)
      ensures w == "so"
    {
      FirstLetter(Sample, 4, w);
    }
    assert Text.Lower(Sample[4..6]) == "so";
    assert MatchesAt(Sample, 4, "so");
    FillerLengths(Sample, 4);
  }

  /** Matching ignores case and punctuation between words: "Um, so" holds two
      filler words. */
  lemma CountsEachFiller()
    ensures FillerCount(Sample) == 2
  {
    SampleStart();
    SampleGap(2);
    SampleGap(3);
    SampleEnd();
    assert CountFrom(Sample, 4) == 1 + CountFrom(Sample, 6);
    assert CountFrom(Sample, 2) == CountFrom(Sample, 3) == CountFrom(Sample, 4);
  }
}
