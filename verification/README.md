# Placement portal: a Dafny model of its decision logic

This project models the decision logic of a Next.js campus placement
portal. Students keep a profile, apply to roles, see their interviews on a
list and a calendar, and solve coding challenges for elite points.
Recruiters post roles, filter and export applicants, schedule interviews,
and read dashboard and analytics counters. Every Firestore read is
modelled as an input sequence (or a `map` for documents read by id). Every
write is a new value returned by a pure function. The handlers become
functions, or methods where the page loops, and their contracts state what
the page promises.

Modules, one per source file, plus shared helpers:

- `Types` (types/index.ts): the records, with statuses as datatypes.
- `Utils` (lib/utils.ts): the match score and the company-email check.
- `StudentRoles`: the ranked role list, the apply flow with its two capacity checks, slots left and the apply button.
- `StudentInterviews`: the missing-job filter, the stable time sort and the one-hour clash flag.
- `Calendar`:
  - the three event kinds merged into one list;
  - the Gregorian month grid, with day numbers counted from 1970-01-01;
  - a day's events, the heat intensity, the badges and month navigation.
- `TopTalent`: the top-20 ranking and the new-challenge record.
- `Profile`: the completion percentage, save and upload, and the skill editor.
- `RecruiterRoles`: the new-role record, closing a role, and the requirement and work-mode editors.
- `Applicants`: the joined list, the status filter, the CSV export and status updates.
- `RecruiterInterviews`: the listed interviews, the schedulable applications and what scheduling writes.
- `PrepHub`: the stub test runner, the grading, the score and the elite-point reward.
- `Dashboard`: the recruiter's counters, funnel and role distribution.
- `Analytics`: per-title applied/offered counts and the conversion rate.
- `AiFallback` (lib/ai.ts): the results returned when no AI provider answers, including the filler-word score.
- Helpers:
  - `Wrappers`: `Option` and `Result`;
  - `Seqs`: filter, count, subsequence, no-duplicates;
  - `Text`: ASCII lower-casing, `includes`, `trim`, `split` and `join`;
  - `Entries`: a JavaScript object used as a string-keyed record, kept in insertion order;
  - `StableSort`: a stable insertion sort on a real key;
  - `ListEditor`: the add, remove and toggle list editors.

Conventions:

- Timestamps are integer milliseconds since the epoch.
- CGPA, rates and percentages before rounding are `real`. `Math.round(x)` is `Floor(x + 0.5)`.
- A calendar day is the day number of an instant in UTC.
- The comparator sorts of the pages are stable, as ECMAScript requires. They are modelled by one stable sort over a numeric key.

The model keeps these behaviours of the code as they are:

- the match score counts every matching skill entry, duplicates included;
- applying has no check that the role is still open;
- clash detection ignores the interview status;
- the test runner passes everything;
- the recruiter dashboard counts roles in the same loop as the per-job queries (modelled as two loops with the same result).

## Model

| member | source | states |
|---|---|---|
| Types.ParseAppStatus | types/index.ts:80 | a parsed status string is exactly the label of the status returned |
| Types.AppStatusLabelRoundTrip | types/index.ts:80 | each of the five statuses is recovered from its label, so the labels are distinct and exhaust the type |
| Utils.Round | lib/utils.ts:42 | `Math.round`: the result is the integer r with r <= x + 0.5 < r + 1 |
| Utils.RoundMonotone | lib/utils.ts:42 | rounding preserves order |
| Utils.SkillShareBounds | lib/utils.ts:39 | the skill share is non-negative and at most 60 when the matches do not outnumber the divisor |
| Utils.WeightedScoreBounds | lib/utils.ts:39-42 | the score is round(4*cgpa) with no requirements and no matches; non-negative for non-negative CGPA; at least 40 from CGPA 10; at most 100 when matches <= max(n,1) and 0 <= cgpa <= 10 |
| Utils.NoRequirementsNoMatch | lib/utils.ts:33-37 | with no requirements no skill matches |
| Utils.CalculateMatchScore | lib/utils.ts:28-43 | with no requirements the score is round(4*cgpa); it is non-negative for non-negative CGPA; it is bounded by 100 only when the matches do not outnumber the requirements and the CGPA is within 0..10 |
| Utils.NoSkillsZeroCgpa | lib/utils.ts:33-42 | no skills and CGPA 0 score 0 |
| Utils.WeightedScoreMonotone | lib/utils.ts:39-42 | for a fixed requirement count the score does not decrease in CGPA or in the number of matches |
| Utils.AddingSkillNeverLowersScore | lib/utils.ts:33-42 | appending a skill never lowers the score |
| Utils.WorkedExample | lib/utils.ts:33-42 | ["Python","React"] against ["Python Developer","Node.js"] with CGPA 8 matches one skill and scores 62 |
| Utils.PythonMatches | lib/utils.ts:33-36 | "Python" occurs case-insensitively in "Python Developer" |
| Utils.ReactDoesNotMatch | lib/utils.ts:33-36 | "React" occurs in neither requirement |
| Utils.ScoreCanExceedHundred | lib/utils.ts:33-42 | ["Java","Script"] against ["JavaScript"] with CGPA 10 scores 160, so the score is not bounded by 100 in general |
| Utils.NoAtIsAccepted | lib/utils.ts:47-48 | an address without '@' has no domain segment and is accepted |
| Utils.VerdictFromDomain | lib/utils.ts:45-49 | the segment between the first and second '@' is the domain, and the address is rejected exactly when its lower-cased domain is one of the five personal providers |
| Utils.UpperCaseGmailRejected | lib/utils.ts:46-48 | "a@GMAIL.COM" is rejected: the comparison ignores case |
| Utils.CompanyDomainAccepted | lib/utils.ts:46-48 | "hr@acme.com" is accepted |
| Text.Lower | lib/utils.ts:35 | lower-casing keeps the length and maps each character on its own |
| Text.ContainedCharsOccur | lib/utils.ts:35 | every character of a contained needle occurs in the haystack |
| Text.TrimStart | app/student/profile/page.tsx:136 | the result is a suffix, what was cut is all white space, and the result does not start with white space |
| Text.TrimEnd | app/student/profile/page.tsx:136 | the result is a prefix, what was cut is all white space, and the result does not end with white space |
| Text.Trim | app/student/profile/page.tsx:136 | the result has no white space at either end and sits inside the input with only white space around it |
| Text.TrimmedFixed | app/student/profile/page.tsx:136 | trimming leaves a string unchanged exactly when it has no white space at either end |
| Text.TrimIdempotent | app/student/profile/page.tsx:136 | trimming twice is trimming once |
| Text.Split | lib/utils.ts:47 | `split` on one character gives at least one piece and no piece holds the separator |
| Text.SplitNoSeparator | lib/utils.ts:47 | a string without the separator splits into itself alone |
| Text.SplitPiece | lib/utils.ts:47 | the text before the first separator is the first piece and the rest splits on its own |
| Text.SplitJoin | app/recruiter/applicants/page.tsx:128 | splitting a join on a separator that no piece contains gives the pieces back |
| Text.JoinAvoids | app/recruiter/applicants/page.tsx:128 | a character in neither the pieces nor the separator is not in the join |
| Text.JoinAppend | app/recruiter/applicants/page.tsx:125-128 | joining two non-empty lists is joining each and putting the separator between |
| Text.WidenedSeparator | app/recruiter/applicants/page.tsx:125-128 | joining on ", " is joining on "," with a space put in front of every later piece |
| Seqs.Filter | app/recruiter/applicants/page.tsx:140 | `filter` keeps exactly the elements satisfying the predicate, in order, and keeps everything when all satisfy it |
| Seqs.Count | lib/utils.ts:33-37 | the count is 0 exactly when no element satisfies the predicate and full exactly when all do |
| Seqs.FilterLength | lib/utils.ts:33-37 | the length of the filtered list is the count |
| Seqs.CountAppend | lib/utils.ts:33-37 | counting over a concatenation adds the counts |
| Entries.GetDefined | app/recruiter/dashboard/page.tsx:69 | reading a record key gives a value exactly when the key is listed, and that value is the one stored |
| Entries.PutKeys | app/recruiter/analytics/page.tsx:68 | an assignment keeps the key order, and a new key goes last |
| Entries.PutNoDup | app/recruiter/analytics/page.tsx:68 | an assignment lists no key twice |
| Entries.PutEntries | app/recruiter/analytics/page.tsx:68 | after an assignment every entry is an old one or the written one |
| Entries.GetPut | app/recruiter/analytics/page.tsx:68 | the written key reads back the written value and every other key is unchanged |
| Entries.SumPut | app/recruiter/dashboard/page.tsx:69 | overwriting a value changes the sum of values by the difference |
| Entries.Tally | app/recruiter/dashboard/page.tsx:63-70 | the counts list each key once, each count is the number of occurrences, and the counts sum to the number of keys |
| Entries.BumpIsPut | app/recruiter/dashboard/page.tsx:69 | `(c[k] \|\| 0) + 1` is the assignment of the old count plus one |
| Entries.BumpSum | app/recruiter/dashboard/page.tsx:69 | a bump raises the sum of the counts by one |
| Entries.BumpSame | app/recruiter/dashboard/page.tsx:69 | the bumped key goes up by one, from zero when absent |
| Entries.BumpOther | app/recruiter/dashboard/page.tsx:69 | other keys keep their counts |
| Entries.BumpKeys | app/recruiter/dashboard/page.tsx:69 | a bump keeps the key order and adds a new key last |
| Entries.TallyExtend | app/recruiter/dashboard/page.tsx:65-70 | tallying one more key is one more bump |
| Entries.Assign | app/recruiter/analytics/page.tsx:52-70 | after the assignments each key is listed once with the value of its last assignment, and every entry is one of the assignments |
| StableSort.Insert | app/student/interviews/page.tsx:60 | insertion adds exactly one element |
| StableSort.InsertSorted | app/student/interviews/page.tsx:60 | insertion into a sorted list keeps it sorted |
| StableSort.Sort | app/student/interviews/page.tsx:60 | the result is a permutation of the input, sorted by the key |
| StableSort.SortIsStable | app/student/interviews/page.tsx:60 | elements with equal keys keep their input order |
| StableSort.WithKeyAll | app/student/interviews/page.tsx:60 | when every element has the same key, the elements with that key are the whole list |
| ListEditor.AddTrimmed | app/student/profile/page.tsx:135-143 | the trimmed text is appended exactly when it is non-empty and absent; otherwise the list is unchanged; duplicate-freedom and trimmed entries are kept |
| ListEditor.RemoveAll | app/student/profile/page.tsx:145-150 | every occurrence goes and every other entry stays, in order and with its multiplicity: the result is a subsequence whose length is the number of entries other than the removed one |
| ListEditor.Toggle | app/recruiter/roles/page.tsx:141-153 | membership of the toggled entry flips, the other entries stay, and duplicate-freedom is kept |
| ListEditor.RemoveNoDup | app/student/profile/page.tsx:145-150 | removal keeps a list duplicate-free |
| ListEditor.AddThenRemove | app/student/profile/page.tsx:135-150 | adding a new entry and removing it gives back the list |
| ListEditor.ToggleTwice | app/recruiter/roles/page.tsx:141-153 | toggling an absent entry twice restores the list; toggling a listed one twice moves it to the end and keeps the same entries |
| ListEditor.RemoveOnce | app/recruiter/roles/page.tsx:142-146 | in a duplicate-free list, removal takes out exactly one copy |
| StudentRoles.Apply | app/student/roles/page.tsx:93-142 | no profile, a frozen profile, a full listed count, a missing job or a full re-read count each reject with nothing written. Otherwise one 'applied' application is added with rank re-read count + 1 and the match score, and only that job's count goes up by one |
| StudentRoles.ApplyKeepsInvariants | app/student/roles/page.tsx:115-142 | applied one at a time with the stored cap, applies keep every count within its cap and each job's ranks 1, 2, ..., count |
| StudentRoles.ClosedRoleStillAdmits | app/student/roles/page.tsx:93-119 | whether an apply succeeds does not depend on the role being open |
| StudentRoles.SecondApplyStoppedByReread | app/student/roles/page.tsx:110-119 | with a cap of one, a second apply from the same listing is stopped by the re-read and the count stays 1 |
| StudentRoles.ViewsOf | app/student/roles/page.tsx:73-82 | one view per job, in order |
| StudentRoles.RoleList | app/student/roles/page.tsx:68-84 | the list is a permutation of the views, in non-increasing match score; each score is the job's match score, or 0 without a profile; `hasApplied` holds exactly when an application names the job |
| StudentRoles.RoleListTiesKeepOrder | app/student/roles/page.tsx:84 | jobs with equal scores keep their listing order |
| StudentRoles.FirstLoadKeepsListing | app/student/roles/page.tsx:73-84 | on the first load no profile is in scope: every score is 0 and the list keeps the listing order |
| StudentRoles.SlotsLeft | app/student/roles/page.tsx:205 | never negative; zero exactly when the cap is reached; otherwise count plus slots is the cap |
| StudentRoles.ApplyEnabled | app/student/roles/page.tsx:213-223 | the button is enabled exactly when not applied, not applying to this job, and a slot is left |
| StudentInterviews.MarkClashes | app/student/interviews/page.tsx:63-72 | only `hasOverlap` is added, and it holds exactly when another entry is less than an hour away |
| StudentInterviews.HasClash | app/student/interviews/page.tsx:64-70 | the `some` is true exactly when another entry is less than an hour away |
| StudentInterviews.LoadInterviews | app/student/interviews/page.tsx:57-72 | the result is a permutation of the interviews with a job, ascending in time, with equal times in fetched order, and every flag exact |
| StudentInterviews.LoadInterviewsAsWritten | app/student/interviews/page.tsx:33-77 | as written, the load succeeds exactly when no interview was fetched, and then lists nothing; otherwise it fails with "Failed to load interviews" |
| StudentInterviews.AsWrittenListsNothing | app/student/interviews/page.tsx:34-42 | a student with an interview whose job exists sees an error and an empty list |
| StudentInterviews.FlaggedHasFlaggedPartner | app/student/interviews/page.tsx:64-70 | a flagged interview has a flagged partner less than an hour away |
| StudentInterviews.LoneAndSimultaneous | app/student/interviews/page.tsx:64-70 | a lone interview is never flagged; two at the same instant both are |
| StudentInterviews.ThresholdExamples | app/student/interviews/page.tsx:69 | 45 minutes apart clash; 60 or 90 minutes apart do not |
| StudentInterviews.StatusIgnored | app/student/interviews/page.tsx:63-70 | changing an interview's status changes no clash |
| Calendar.InterviewEvents | app/student/calendar/page.tsx:52-64 | one 'Interview' event per interview, in order, dated at its time |
| Calendar.DeadlineEvents | app/student/calendar/page.tsx:74-89 | every deadline event comes from a fetched job that exists, titled and dated from that job |
| Calendar.DeadlinesFollowFetch | app/student/calendar/page.tsx:74-89 | the job documents behind the deadline events are exactly the fetched documents that exist, in the order fetched: one event per existing job |
| Calendar.ChallengeEvents | app/student/calendar/page.tsx:94-106 | one challenge event per challenge, in order, dated at its deadline |
| Calendar.MergeEvents | app/student/calendar/page.tsx:43-108 | all interviews, then exactly the deadline events of the fetched jobs, then all challenges; each event carries the kind, date and title of its record |
| Calendar.Weekday | app/student/calendar/page.tsx:122 | `getDay` lies in 0..6 |
| Calendar.EpochAnchor | app/student/calendar/page.tsx:122 | 1970-01-01 is day 0 and a Thursday (4) |
| Calendar.DaysWithinMonth | app/student/calendar/page.tsx:130-131 | the days of a month are consecutive day numbers |
| Calendar.YearLength | app/student/calendar/page.tsx:120-121 | a March-based year has 366 days exactly when the following February is in a Gregorian leap year |
| Calendar.NextMonthFollows | app/student/calendar/page.tsx:119-121 | the first of the next month is `DaysInMonth` days after the first of this one (28/29/30/31 by the Gregorian leap rule) |
| Calendar.NextMonthWeekday | app/student/calendar/page.tsx:119-122 | the next month starts on this month's first weekday plus its length, mod 7 |
| Calendar.MonthGrid | app/student/calendar/page.tsx:116-134 | the grid has `weekday(1st)` empty cells, then days 1..N in order, and length start + N |
| Calendar.EventsForDate | app/student/calendar/page.tsx:136-145 | exactly the events on that day, in list order, as a subsequence |
| Calendar.Intensity | app/student/calendar/page.tsx:147-151 | min(n, 5) for the n events of the day: n when below 5, and 5 exactly when n >= 5; 0 for an empty cell and exactly when no event falls on the day |
| Calendar.Badges | app/student/calendar/page.tsx:243 | min(3, n) badges for the n events of the day, the first of them in order |
| Calendar.PrevMonth | app/student/calendar/page.tsx:180-184 | the month before, January going back to December of the year before |
| Calendar.NextMonth | app/student/calendar/page.tsx:196-199 | the month after, December going on to January of the year after |
| Calendar.NavigationRoundTrip | app/student/calendar/page.tsx:180-199 | back then forward, or forward then back, returns to the same month |
| Calendar.MarchExample | app/student/calendar/page.tsx:136-145 | an interview and a deadline on 5 March 2024 and a challenge on 10 March: day 5 holds two events, day 10 one, other days none |
| TopTalent.TopTalent | app/recruiter/top-talent/page.tsx:43-51 | no frozen student; length min(20, unfrozen count); non-increasing in elitePoints*10 + cgpa*100; drawn from the input without repeats beyond its multiplicity |
| TopTalent.TiesKeepOrder | app/recruiter/top-talent/page.tsx:46-50 | the list is a prefix of the ranking, and equal scores keep the fetched order |
| TopTalent.NewChallenge | app/recruiter/top-talent/page.tsx:67-73 | a new challenge has no test cases and the form's fields |
| Profile.Completion | app/student/profile/page.tsx:70-86 | ten points per met criterion, so always 0..100 in steps of 10; 100 exactly when all ten hold and 0 exactly when none do |
| Profile.Percent | app/student/profile/page.tsx:85 | `Math.round(completed / 10 * 100)` is 10 * completed |
| Profile.CriteriaMeaning | app/student/profile/page.tsx:74-83 | all criteria hold exactly for a complete profile and none for a blank one |
| Profile.CountFlip | app/student/profile/page.tsx:71-83 | meeting one unmet criterion counts exactly one more |
| Profile.OneMoreCriterion | app/student/profile/page.tsx:74-85 | one more criterion met raises the completion by exactly 10 |
| Profile.ZeroIsIncomplete | app/student/profile/page.tsx:77-78 | a CGPA or year of 0 keeps the completion at or below 90 |
| Profile.LoadForm | app/student/profile/page.tsx:50-60 | the form holds the stored name, phone, program, year, CGPA, graduation date and skills, with an absent link shown as "" |
| Profile.LoadThenSave | app/student/profile/page.tsx:50-101 | saving the form as loaded changes only the completion and turns an absent link into "" |
| Profile.SaveProfile | app/student/profile/page.tsx:88-101 | the saved profile stores the completion of the saved form against the stored resume and keeps identity, resume, freeze flag and points |
| Profile.SaveThenLoad | app/student/profile/page.tsx:50-101 | reloading a saved profile shows the saved form, and the stored completion is that of the reloaded form |
| Profile.UploadResumeAsWritten | app/student/profile/page.tsx:111-127 | the upload stores the new resume with the completion computed against the old resume |
| Profile.FirstUploadUndercounts | app/student/profile/page.tsx:83-127 | on a first upload the stored completion is 10 below the form's own completion with the new resume; when the form holds the stored profile unchanged, 10 below the stored profile's own |
| Profile.UploadResume | app/student/profile/page.tsx:111-127 | corrected: the stored completion counts the new resume, and nothing but resume and completion changes |
| Profile.AddSkill | app/student/profile/page.tsx:135-143 | only the skill list changes, by the trimmed add |
| Profile.RemoveSkill | app/student/profile/page.tsx:145-150 | only the skill list changes; it becomes the subsequence of the other skills, each with its multiplicity, and the removed skill is gone |
| Profile.SkillEditingKeepsListClean | app/student/profile/page.tsx:135-150 | both edits keep the skill list duplicate-free, trimmed and without empty entries |
| Profile.AddThenRemoveSkill | app/student/profile/page.tsx:135-150 | adding a new skill then removing it restores the form |
| RecruiterRoles.NewJob | app/recruiter/roles/page.tsx:78-97 | nothing without a recruiter profile; otherwise an open role with 0 applicants and the form's fields |
| RecruiterRoles.CloseJob | app/recruiter/roles/page.tsx:117-122 | the role is closed and nothing but `updatedAt` changes |
| RecruiterRoles.CloseTwice | app/recruiter/roles/page.tsx:117-122 | closing twice is closing once, and the applicant count is kept |
| RecruiterRoles.AddRequirement | app/recruiter/roles/page.tsx:131-139 | only the requirement list changes, by the trimmed add |
| RecruiterRoles.ToggleWorkMode | app/recruiter/roles/page.tsx:141-153 | only the work modes change: the toggled mode's membership flips and other modes keep theirs |
| RecruiterRoles.EditsKeepListsDuplicateFree | app/recruiter/roles/page.tsx:131-153 | both editors keep their list duplicate-free |
| RecruiterRoles.ToggleTwiceRestores | app/recruiter/roles/page.tsx:141-153 | toggling an unselected mode twice restores the form |
| Applicants.RowsFor | app/recruiter/applicants/page.tsx:64-90 | the job's applications whose student exists, in fetched order and each once, each joined with the job and its student |
| Applicants.LoadApplicants | app/recruiter/applicants/page.tsx:37-93 | every row joins one of the recruiter's applications with its job and student; every such application appears; with distinct job ids the rows of each job are exactly that job's rows in fetched order |
| Applicants.LoadApplicantsAppend | app/recruiter/applicants/page.tsx:52-88 | the jobs are handled one after another: loading two job lists is loading the first, then the second |
| Applicants.FilterByStatus | app/recruiter/applicants/page.tsx:137-140 | 'all' keeps the list; otherwise the rows with that status, in order, one result row for each such row |
| Applicants.FilterSelectsStatus | app/recruiter/applicants/page.tsx:137-140 | a row is kept by a status filter exactly when it has that status |
| Applicants.Fields | app/recruiter/applicants/page.tsx:118-126 | the seven fields in header order: name, email, job title, status label, formatted applied date, formatted CGPA, skills joined by ", " |
| Applicants.Table | app/recruiter/applicants/page.tsx:117-128 | the header, then one field list per row |
| Applicants.CsvLines | app/recruiter/applicants/page.tsx:116-128 | the first line is "Name,Email,Job,Status,Applied Date,CGPA,Skills", then one line per row, fields joined by ',' unquoted |
| Applicants.HeaderLine | app/recruiter/applicants/page.tsx:117 | the header fields joined by ',' |
| Applicants.CsvLineCount | app/recruiter/applicants/page.tsx:128 | when no field holds a line break, splitting the file on '\n' gives back the header and one line per row |
| Applicants.RowColumns | app/recruiter/applicants/page.tsx:123-128 | with a date formatted as "Mon D, YYYY" and k >= 1 comma-free skills, a line splits on ',' into 7 + k columns, not the seven of the header |
| Applicants.UpdateStatus | app/recruiter/applicants/page.tsx:102-107 | the named application takes the new status, whatever it was; the rest are unchanged |
| Applicants.AnyTransition | app/recruiter/applicants/page.tsx:102-107 | any status can follow any other, and a move can be undone |
| RecruiterInterviews.FindJob | app/recruiter/interviews/page.tsx:73-74 | a job is found exactly when the recruiter owns one with that id |
| RecruiterInterviews.ListInterviews | app/recruiter/interviews/page.tsx:60-99 | the interviews of the recruiter's jobs whose student exists, in fetched order and each once, each joined with that job and student |
| RecruiterInterviews.SchedulableApplications | app/recruiter/interviews/page.tsx:101-145 | the recruiter's shortlisted or in-interview applications whose student exists; with distinct job ids each job's rows are its schedulable applications in fetched order |
| RecruiterInterviews.FindRow | app/recruiter/interviews/page.tsx:159-162 | a row is found exactly when one with the id is listed |
| RecruiterInterviews.Schedule | app/recruiter/interviews/page.tsx:154-180 | an unlisted id changes nothing; a listed one appends exactly the record `NewInterview` builds for the first listed application with that id, a 'scheduled' interview with the form's stage, time and mode, and moves that application to 'interview' |
| RecruiterInterviews.NewInterview | app/recruiter/interviews/page.tsx:164-174 | a scheduled interview with the application's student and job; the link kept only online and the address only offline, otherwise "" |
| RecruiterInterviews.ScheduleAdds | app/recruiter/interviews/page.tsx:159-174 | the new interview is for the student and job of a listed schedulable row with the chosen id |
| RecruiterInterviews.ScheduleMovesStatus | app/recruiter/interviews/page.tsx:176-180 | the chosen application moves to 'interview' and no other status changes |
| RecruiterInterviews.ScheduleFromListing | app/recruiter/interviews/page.tsx:154-180 | scheduling from the page's own listing adds a 'scheduled' interview with the form's stage, time and mode for one of the recruiter's jobs and moves only the chosen application |
| PrepHub.RunTestCases | app/student/prep-hub/page.tsx:68-84 | total is the number of test cases and all of them pass |
| PrepHub.Grade | app/student/prep-hub/page.tsx:97 | 'passed' exactly when all passed, else 'failed'; never 'error' |
| PrepHub.Score | app/student/prep-hub/page.tsx:98 | undefined (NaN) exactly with no test cases; otherwise in 0..100, 100 when all pass and 0 when none do |
| PrepHub.ScoreMonotone | app/student/prep-hub/page.tsx:98 | more passed tests never lower the score |
| PrepHub.SubmitChallenge | app/student/prep-hub/page.tsx:86-116 | one submission is recorded, passed with the test-case count; an existing student gains exactly the reward |
| PrepHub.Submission | app/student/prep-hub/page.tsx:92-101 | the record carries the grade, the score and the passed count of the run |
| PrepHub.Reward | app/student/prep-hub/page.tsx:108-116 | exactly the reward more when every test passed, otherwise nothing changes |
| PrepHub.EmptyChallengePays | app/student/prep-hub/page.tsx:92-116 | a freshly created challenge has no tests, so a submission passes with a NaN score and earns the reward |
| Dashboard.PipelineWithinJob | app/recruiter/dashboard/page.tsx:79-84 | a job's shortlisted count is at most its application count |
| Dashboard.PipelineWithinTotal | app/recruiter/dashboard/page.tsx:61-85 | shortlisted is at most totalApplicants |
| Dashboard.TotalCountsEachOnce | app/recruiter/dashboard/page.tsx:65-77 | with distinct job ids the per-job sizes sum to the recruiter's applications, each counted once |
| Dashboard.ScheduledOwned | app/recruiter/dashboard/page.tsx:88-99 | zero exactly when no scheduled interview is for one of the recruiter's jobs |
| Dashboard.OffersOwned | app/recruiter/dashboard/page.tsx:101-110 | zero exactly when no offer is for one of the recruiter's jobs |
| Dashboard.RoleCounts | app/recruiter/dashboard/page.tsx:63-70 | each title once, with the number of jobs carrying it, and the counts sum to the number of jobs |
| Dashboard.LoadDashboard | app/recruiter/dashboard/page.tsx:48-130 | the four counters, the funnel Applied, Shortlisted, Interview, Offered in that order, and the role counts; shortlisted <= total |
| Dashboard.PerJob | app/recruiter/dashboard/page.tsx:65-85 | the loop's totals are the per-job sums |
| Dashboard.CountRoles | app/recruiter/dashboard/page.tsx:63-70 | the loop's role counts are the tally of the titles |
| Dashboard.QueryJob | app/recruiter/dashboard/page.tsx:72-84 | one query's size and shortlisted count |
| Dashboard.CountScheduled | app/recruiter/dashboard/page.tsx:93-99 | the loop counts the scheduled interviews of the recruiter's jobs |
| Dashboard.CountOffers | app/recruiter/dashboard/page.tsx:104-110 | the loop counts the offers on the recruiter's jobs |
| Analytics.OfferedFor | app/recruiter/analytics/page.tsx:59-63 | offered never exceeds applied |
| Analytics.FunnelOf | app/recruiter/analytics/page.tsx:59-63 | 0 <= offered <= applied |
| Analytics.ConversionData | app/recruiter/analytics/page.tsx:52-70 | keyed by title, each title once, holding the counts of the last job with that title |
| Analytics.ConversionRate | app/recruiter/analytics/page.tsx:75 | 0 without applications; in 0..100; 100 when all applications were offered and 0 when none were |
| Analytics.RatesAreBounded | app/recruiter/analytics/page.tsx:61-75 | every charted rate lies in 0..100 |
| Analytics.LastJobWins | app/recruiter/analytics/page.tsx:68 | the last job's title shows the last job's counts |
| Analytics.SharedTitleShowsOnce | app/recruiter/analytics/page.tsx:68 | two roles with one title chart one entry, with the second role's counts |
| Analytics.ConversionChart | app/recruiter/analytics/page.tsx:72-77 | one bar per title in entry order, titles distinct, each bar's rate the conversion rate of its title's counts, in 0..100 |
| AiFallback.ResumeFallback | lib/ai.ts:82-98 | atsScore 75, five section scores in 0..100 averaging 75 with feedback, five distinct suggestions |
| AiFallback.ResumeFallbackIgnoresText | lib/ai.ts:81-98 | the fallback does not depend on the resume |
| AiFallback.MatchLengthMeaning | lib/ai.ts:170 | a match has the length of a matching alternative, and some alternative matching gives a match |
| AiFallback.FillerLengths | lib/ai.ts:170 | a filler word matches at an index exactly when the match length there is non-zero; matches are at least two characters and inside the text |
| AiFallback.NoFillersIffZero | lib/ai.ts:170 | the count is 0 exactly when no filler word occurs as a whole word |
| AiFallback.FillerCountBound | lib/ai.ts:170 | matches do not overlap: twice the count is at most the length |
| AiFallback.FillerScore | lib/ai.ts:171 | in 0..100 in steps of 10; 100 exactly for no filler and 0 exactly from ten on |
| AiFallback.FillerScoreMonotone | lib/ai.ts:171 | more filler words never raise the score; below ten each costs 10 points |
| AiFallback.InterviewFallback | lib/ai.ts:169-181 | the transcript is echoed with scores 75, 70, 70, 72, and the filler score is 100 exactly when no filler word occurs |
| AiFallback.WholeWordsOnly | lib/ai.ts:170 | "umbrella" holds no filler word |
| AiFallback.CountsEachFiller | lib/ai.ts:170 | "Um, so" holds two filler words: case is ignored and punctuation separates words |

## Left out

- Firestore I/O: `getDocs`/`getDoc`/`addDoc`/`updateDoc`, `where`/`orderBy` query semantics, `serverTimestamp` and `increment`. Fetched records are input sequences and maps; timestamps are parameters.
- Concurrency: the apply flow's read-then-write is not atomic, and two interleaved applies can overshoot the cap. Only applies that run one after another are modelled.
- The OpenAI and Gemini calls of lib/ai.ts and the JSON parsing of their answers: network only. Only the fallback results of the resume and interview analyses are modelled.
- `generateCareerPathPrediction` (lib/ai.ts:184-216): its fallback is one fixed sentence, with no logic to state.
- Authentication (lib/firebase/auth.ts, components/AuthGuard.tsx, sign-in and sign-up pages), storage uploads and PDF text extraction: no decision logic.
- React state, toasts, charts, timers, layouts, the home page, the static career data and the mocked analytics series.
- The offers pages, setup page, student applications page and student dashboard: thin reads and writes with no decision logic.
- Local time zones: calendar days are UTC day numbers, and the page's local-time `Date` methods are not modelled.
- Unicode case folding and white space: `Text.Lower` folds only ASCII letters, and `Text.IsSpace` lists the common white-space characters.
- Absent optional fields with a fallback (`?? 0`, `|| 0`, `|| []`, `|| ''`): the records always carry the value the fallback yields.
- NaN: `real` and `int` hold no NaN. Clearing the year or CGPA field of the profile form stores NaN, because `parseInt`/`parseFloat` of "" is NaN and nothing checks the input before saving (app/student/profile/page.tsx:88-101, 227, 242). Profile.Completion treats NaN as 0, as the model's 0 does. With a NaN CGPA, every match score on the roles page is NaN, so the comparator finds every pair equal and the listing order is kept (app/student/roles/page.tsx:73-84), and Apply stores an `aiScore` of NaN (app/student/roles/page.tsx:128-132). StudentRoles.RoleList and StudentRoles.Apply assume a numeric CGPA and do not cover this. A CGPA or elite-point total that is not a number is likewise not modelled in the top-talent sort.
- Object key order: JavaScript lists integer-like object keys first in numeric order. `Entries` keeps plain insertion order, which is what the pages see for job titles that are not integers.
- The roles page computes the scores inside the `loadData` closure, which sees the `student` state of the render that started it. On the first load that state is still null, so every score is 0 (StudentRoles.FirstLoadKeepsListing); a later `loadData` sees the profile loaded before. The model takes that state as the `student` parameter and does not model re-renders.
- `formatDate` and JavaScript's number-to-string are parameters of the CSV export.
- An invalid date in a form field (`new Date('')`) is not modelled; form dates are already milliseconds.
- Utils.CalculateMatchScore: for CGPA outside 0..10 or more matches than requirements the contract states no upper bound, because the code has none (see Utils.ScoreCanExceedHundred).
- PrepHub.Score: the NaN of a challenge without test cases is `None` rather than a number.

## Findings

| source | as written | input that shows it | evidently intended | confidence | as-written member | corrected member |
|---|---|---|---|---|---|---|
| app/student/profile/page.tsx:120-127 | the upload handler computes the completion from the profile held before the upload, so the new resume is not counted | a student with no resume and no unsaved edits uploads one: the stored completion is 10 points below what the stored profile scores (in general, 10 below the form's completion with the new resume) | the stored completion counts the resume just stored | not executed | Profile.UploadResumeAsWritten, Profile.FirstUploadUndercounts | Profile.UploadResume |
| app/student/interviews/page.tsx:34-42 | the `map` callback's parameter `doc`, a snapshot, hides the imported `doc` function, so `doc(db, 'jobs', data.jobId)` throws; `Promise.all` rejects, an error is shown and the list stays empty | a student with one interview whose job exists | look the job up with the imported `doc` | not executed | StudentInterviews.LoadInterviewsAsWritten, StudentInterviews.AsWrittenListsNothing | StudentInterviews.LoadInterviews |
