/** app/student/profile/page.tsx: the profile form, its completion
    percentage and the skill editor. */
module Profile {
  import opened Wrappers
  import opened Types
  import Seqs
  import Utils
  import ListEditor
  import Text

  /** The editable part of a student profile; absent links are "". */
  datatype ProfileForm = ProfileForm(
    name: string,
    phone: string,
    program: string,
    year: int,
    cgpa: real,
    graduationDate: string,
    skills: seq<string>,
    github: string,
    linkedin: string)

  /** JavaScript truthiness of an optional string: present and non-empty. */
  predicate HasText(o: Option<string>) {
    o.Some? && |o.value| > 0
  }

  /** The ten criteria, in the order the page tests them. A year or CGPA
      of 0 is falsy and so counts as missing. */
  function Criteria(form: ProfileForm, resumeUrl: Option<string>): (c: seq<bool>)
    ensures |c| == 10
  {
    [|form.name| > 0, |form.phone| > 0, |form.program| > 0, form.year != 0, form.cgpa != 0.0,
     |form.graduationDate| > 0, |form.skills| > 0, |form.github| > 0, |form.linkedin| > 0,
     HasText(resumeUrl)]
  }

  predicate Met(b: bool) { b }

  /** Every criterion holds. */
  predicate Complete(form: ProfileForm, resumeUrl: Option<string>) {
    |form.name| > 0 && |form.phone| > 0 && |form.program| > 0 && form.year != 0 && form.cgpa != 0.0
    && |form.graduationDate| > 0 && |form.skills| > 0 && |form.github| > 0 && |form.linkedin| > 0
    && HasText(resumeUrl)
  }

  /** No criterion holds. */
  predicate Blank(form: ProfileForm, resumeUrl: Option<string>) {
    form.name == [] && form.phone == [] && form.program == [] && form.year == 0 && form.cgpa == 0.0
    && form.graduationDate == [] && form.skills == [] && form.github == [] && form.linkedin == []
    && !HasText(resumeUrl)
  }

  /** `calculateCompletion`: `Math.round(completed / 10 * 100)`. */
  function Completion(form: ProfileForm, resumeUrl: Option<string>): (r: int)
    ensures r == 10 * Seqs.Count(Criteria(form, resumeUrl), Met)
    ensures 0 <= r <= 100 && r % 10 == 0
    ensures r == 100 <==> Complete(form, resumeUrl)
    ensures r == 0 <==> Blank(form, resumeUrl)
  {
    CriteriaMeaning(form, resumeUrl);
    Percent(Criteria(form, resumeUrl))
  }

  /** `Math.round(completed / 10 * 100)` for ten criteria. */
  function Percent(c: seq<bool>): (r: int)
    requires |c| == 10
    ensures r == 10 * Seqs.Count(c, Met)
    ensures 0 <= r <= 100 && r % 10 == 0
    ensures r == 100 <==> forall i :: 0 <= i < 10 ==> Met(c[i])
    ensures r == 0 <==> forall i :: 0 <= i < 10 ==> !Met(c[i])
  {
    var n := Seqs.Count(c, Met);
    assert n as real / 10.0 * 100.0 == (10 * n) as real;
    Utils.Round(n as real / 10.0 * 100.0)
  }

  lemma CriteriaMeaning(form: ProfileForm, resumeUrl: Option<string>)
    ensures (forall i :: 0 <= i < 10 ==> Met(Criteria(form, resumeUrl)[i])) <==> Complete(form, resumeUrl)
    ensures (forall i :: 0 <= i < 10 ==> !Met(Criteria(form, resumeUrl)[i])) <==> Blank(form, resumeUrl)
  {
    var c := Criteria(form, resumeUrl);
    assert Complete(form, resumeUrl) <==> c[0] && c[1] && c[2] && c[3] && c[4] && c[5] && c[6] && c[7] && c[8] && c[9];
    assert Blank(form, resumeUrl) <==> !c[0] && !c[1] && !c[2] && !c[3] && !c[4] && !c[5] && !c[6] && !c[7] && !c[8] && !c[9];
  }

  /** Flipping one unmet criterion to met counts exactly one more. */
  lemma {:induction false} CountFlip(c: seq<bool>, k: nat)
    requires k < |c| && !c[k]
    ensures Seqs.Count(c[k := true], Met) == Seqs.Count(c, Met) + 1
  {
    if k > 0 {
      assert c[k := true][1..] == c[1..][k - 1 := true];
      CountFlip(c[1..], k - 1);
    }
  }

  /** Meeting one more criterion, with the others unchanged, raises the
      completion by exactly ten points. */
  lemma OneMoreCriterion(before: ProfileForm, after: ProfileForm, resumeBefore: Option<string>, resumeAfter: Option<string>, k: nat)
    requires k < 10
    requires !Criteria(before, resumeBefore)[k]
    requires Criteria(after, resumeAfter) == Criteria(before, resumeBefore)[k := true]
    ensures Completion(after, resumeAfter) == Completion(before, resumeBefore) + 10
  {
    CountFlip(Criteria(before, resumeBefore), k);
  }

  /** A CGPA or a year of 0 keeps the profile below 100. */
  lemma ZeroIsIncomplete(form: ProfileForm, resumeUrl: Option<string>)
    requires form.cgpa == 0.0 || form.year == 0
    ensures Completion(form, resumeUrl) <= 90
  {
  }

  /** `loadProfile`: the form shows the stored profile, absent links as "". */
  function LoadForm(s: Student): (f: ProfileForm)
    ensures f.name == s.name && f.phone == s.phone && f.program == s.program
    ensures f.year == s.year && f.cgpa == s.cgpa && f.graduationDate == s.graduationDate
    ensures f.skills == s.skills && f.github == s.github.GetOr("") && f.linkedin == s.linkedin.GetOr("")
  {
    ProfileForm(s.name, s.phone, s.program, s.year, s.cgpa, s.graduationDate, s.skills,
                s.github.GetOr(""), s.linkedin.GetOr(""))
  }

  /** `handleSave`: the form is written over the profile together with the
      completion it scores against the stored resume. */
  function SaveProfile(s: Student, form: ProfileForm): (r: Student)
    ensures r.profileCompletion == Completion(form, s.resumeUrl)
    ensures r.uid == s.uid && r.email == s.email && r.studentId == s.studentId && r.resumeUrl == s.resumeUrl
    ensures r.isFrozen == s.isFrozen && r.elitePoints == s.elitePoints
  {
    s.(name := form.name, phone := form.phone, program := form.program, year := form.year,
       cgpa := form.cgpa, graduationDate := form.graduationDate, skills := form.skills,
       github := Some(form.github), linkedin := Some(form.linkedin),
       profileCompletion := Completion(form, s.resumeUrl))
  }

  /** Reloading a saved profile shows the form that was saved, and the
      stored completion is that of the reloaded form. */
  lemma SaveThenLoad(s: Student, form: ProfileForm)
    ensures LoadForm(SaveProfile(s, form)) == form
    ensures var t := SaveProfile(s, form); t.profileCompletion == Completion(LoadForm(t), t.resumeUrl)
  {
  }

  /** Saving a freshly loaded form changes nothing but the completion and
      absent links, which are stored as "". */
  lemma LoadThenSave(s: Student)
    ensures var t := SaveProfile(s, LoadForm(s));
      && t.(github := s.github, linkedin := s.linkedin, profileCompletion := s.profileCompletion) == s
      && t.github == Some(s.github.GetOr("")) && t.linkedin == Some(s.linkedin.GetOr(""))
  {
  }

  /** `handleResumeUpload` as written: the completion is computed with the
      profile as it was before the upload, so the new resume is not counted. */
  function UploadResumeAsWritten(s: Student, form: ProfileForm, url: string): (r: Student)
    ensures r.resumeUrl == Some(url)
    ensures r.profileCompletion == Completion(form, s.resumeUrl)
  {
    s.(resumeUrl := Some(url), profileCompletion := Completion(form, s.resumeUrl))
  }

  /** A first upload stores a completion ten points below what the form
      scores with the new resume. When the form holds the stored profile
      unchanged, that is ten points below what the stored profile scores. */
  lemma FirstUploadUndercounts(s: Student, form: ProfileForm, url: string)
    requires s.resumeUrl == None && |url| > 0
    ensures var r := UploadResumeAsWritten(s, form, url);
      r.profileCompletion + 10 == Completion(form, r.resumeUrl)
    ensures var r := UploadResumeAsWritten(s, form, url);
      form == LoadForm(s) ==> r.profileCompletion + 10 == Completion(LoadForm(r), r.resumeUrl)
  {
    var c := Criteria(form, None);
    assert Criteria(form, Some(url)) == c[9 := true];
    CountFlip(c, 9);
  }

  /** The upload with the new resume counted: the stored completion is that
      of the form's current answers with the new resume. The form may hold
      edits that are not saved yet; the completion counts them although the
      stored profile does not hold them. */
  function UploadResume(s: Student, form: ProfileForm, url: string): (r: Student)
    ensures r.resumeUrl == Some(url)
    ensures r.profileCompletion == Completion(form, r.resumeUrl)
    ensures |url| > 0 ==> r.profileCompletion >= 10
    ensures r.(resumeUrl := s.resumeUrl, profileCompletion := s.profileCompletion) == s
  {
    s.(resumeUrl := Some(url), profileCompletion := Completion(form, Some(url)))
  }

  /** `addSkill`: only the skill list changes. */
  function AddSkill(form: ProfileForm, text: string): (r: ProfileForm)
    ensures r.(skills := form.skills) == form
    ensures r.skills == ListEditor.AddTrimmed(form.skills, text)
  {
    form.(skills := ListEditor.AddTrimmed(form.skills, text))
  }

  /** `removeSkill`: only the skill list changes; the skill is gone and
      every other entry stays, as often as it occurs, in its order. */
  function RemoveSkill(form: ProfileForm, skill: string): (r: ProfileForm)
    ensures r.(skills := form.skills) == form
    ensures skill !in r.skills
    ensures forall i :: 0 <= i < |form.skills| && form.skills[i] != skill ==> form.skills[i] in r.skills
    ensures Seqs.IsSubsequence(r.skills, form.skills)
    ensures |r.skills| == Seqs.Count(form.skills, ListEditor.Other(skill))
  {
    form.(skills := ListEditor.RemoveAll(form.skills, skill))
  }

  /** Skills added through the editor stay duplicate-free and trimmed. */
  lemma SkillEditingKeepsListClean(form: ProfileForm, text: string, skill: string)
    requires Seqs.NoDup(form.skills) && ListEditor.Clean(form.skills)
    ensures Seqs.NoDup(AddSkill(form, text).skills) && ListEditor.Clean(AddSkill(form, text).skills)
    ensures Seqs.NoDup(RemoveSkill(form, skill).skills) && ListEditor.Clean(RemoveSkill(form, skill).skills)
  {
    ListEditor.RemoveNoDup(form.skills, skill);
  }

  /** Adding a new skill and removing it again restores the form. */
  lemma AddThenRemoveSkill(form: ProfileForm, text: string, t: string)
    requires t == Text.Trim(text) && |t| > 0 && t !in form.skills
    ensures RemoveSkill(AddSkill(form, text), t) == form
  {
    ListEditor.AddThenRemove(form.skills, text);
  }
}
