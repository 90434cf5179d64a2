/** app/recruiter/applicants/page.tsx: the joined applicant list, its status
    filter, the CSV export and status updates. */
module Applicants {
  import opened Types
  import Seqs
  import Text

  /** An application joined with its job and its student. */
  datatype Row = Row(app: Application, job: Job, student: Student)

  /** An application joins a job when it is for that job and its student
      profile exists. */
  function JoinsJob(job: Job, students: map<Id, Student>): Application -> bool {
    (a: Application) => a.jobId == job.jobId && a.studentId in students
  }

  /** The applications of a list of rows, in order. */
  function AppsOf(rows: seq<Row>): seq<Application> {
    seq(|rows|, i requires 0 <= i < |rows| => rows[i].app)
  }

  /** The rows one job contributes: its applications, in the order fetched,
      whose student profile exists, each once. */
  function RowsFor(job: Job, apps: seq<Application>, students: map<Id, Student>): (r: seq<Row>)
    ensures forall i :: 0 <= i < |r| ==> r[i].job == job && r[i].app in apps && r[i].app.jobId == job.jobId
    ensures forall i :: 0 <= i < |r| ==> r[i].app.studentId in students && r[i].student == students[r[i].app.studentId]
    ensures forall a :: a in apps && a.jobId == job.jobId && a.studentId in students ==> Row(a, job, students[a.studentId]) in r
    ensures AppsOf(r) == Seqs.Filter(apps, JoinsJob(job, students))
    ensures |r| == Seqs.Count(apps, JoinsJob(job, students))
  {
    JoinRowsFacts(job, apps, students);
    JoinRows(job, apps, students)
  }

  lemma JoinRowsFacts(job: Job, apps: seq<Application>, students: map<Id, Student>)
    ensures var r := JoinRows(job, apps, students);
      && (forall i :: 0 <= i < |r| ==> r[i].job == job && r[i].app in apps && r[i].app.jobId == job.jobId)
      && (forall i :: 0 <= i < |r| ==> r[i].app.studentId in students && r[i].student == students[r[i].app.studentId])
      && (forall a :: a in apps && a.jobId == job.jobId && a.studentId in students ==> Row(a, job, students[a.studentId]) in r)
      && AppsOf(r) == Seqs.Filter(apps, JoinsJob(job, students))
      && |r| == Seqs.Count(apps, JoinsJob(job, students))
  {
    var r := JoinRows(job, apps, students);
    JoinRowsShape(job, apps, students);
    JoinRowsApps(job, apps, students);
    Seqs.FilterLength(apps, JoinsJob(job, students));
    RowsCover(job, apps, students, r);
  }

  lemma RowsCover(job: Job, apps: seq<Application>, students: map<Id, Student>, r: seq<Row>)
    requires forall i :: 0 <= i < |r| ==> RowOfJob(r[i], job, students)
    requires AppsOf(r) == Seqs.Filter(apps, JoinsJob(job, students))
    ensures forall i :: 0 <= i < |r| ==> r[i].app in apps && r[i].app.jobId == job.jobId
    ensures forall a :: a in apps && a.jobId == job.jobId && a.studentId in students ==> Row(a, job, students[a.studentId]) in r
  {
    var f := Seqs.Filter(apps, JoinsJob(job, students));
    assert forall i :: 0 <= i < |r| ==> r[i].app == f[i];
    forall a | a in apps && a.jobId == job.jobId && a.studentId in students
      ensures Row(a, job, students[a.studentId]) in r
    {
      assert JoinsJob(job, students)(a);
      var i :| 0 <= i < |f| && f[i] == a;
      assert r[i].app == a;
    }
  }

  /** The loop of `loadApplicants` over one job's applications. */
  function JoinRows(job: Job, apps: seq<Application>, students: map<Id, Student>): seq<Row> {
    if |apps| == 0 then []
    else
      var rest := JoinRows(job, apps[1..], students);
      var a := apps[0];
      if a.jobId == job.jobId && a.studentId in students then [Row(a, job, students[a.studentId])] + rest
      else rest
  }

  /** A row joining an application for `job` with its applicant. */
  predicate RowOfJob(row: Row, job: Job, students: map<Id, Student>) {
    row.job == job && row.app.studentId in students && row.student == students[row.app.studentId]
  }

  lemma {:induction false} JoinRowsShape(job: Job, apps: seq<Application>, students: map<Id, Student>)
    ensures forall i :: 0 <= i < |JoinRows(job, apps, students)| ==> RowOfJob(JoinRows(job, apps, students)[i], job, students)
  {
    if |apps| > 0 {
      JoinRowsShape(job, apps[1..], students);
      var rest := JoinRows(job, apps[1..], students);
      var a := apps[0];
      if a.jobId == job.jobId && a.studentId in students {
        var r := [Row(a, job, students[a.studentId])] + rest;
        assert JoinRows(job, apps, students) == r;
        assert forall i :: 1 <= i < |r| ==> r[i] == rest[i - 1];
      } else {
        assert JoinRows(job, apps, students) == rest;
      }
    }
  }

  lemma {:induction false} JoinRowsApps(job: Job, apps: seq<Application>, students: map<Id, Student>)
    ensures AppsOf(JoinRows(job, apps, students)) == Seqs.Filter(apps, JoinsJob(job, students))
  {
    if |apps| > 0 {
      JoinRowsApps(job, apps[1..], students);
      var rest := JoinRows(job, apps[1..], students);
      var a := apps[0];
      Seqs.FilterCons(apps, JoinsJob(job, students));
      if a.jobId == job.jobId && a.studentId in students {
        assert JoinsJob(job, students)(a);
        assert JoinRows(job, apps, students) == [Row(a, job, students[a.studentId])] + rest;
        AppsOfCons(Row(a, job, students[a.studentId]), rest);
      } else {
        assert !JoinsJob(job, students)(a);
        assert JoinRows(job, apps, students) == rest;
      }
    }
  }

  lemma AppsOfCons(row: Row, rows: seq<Row>)
    ensures AppsOf([row] + rows) == [row.app] + AppsOf(rows)
  {
  }

  function JobIds(jobs: seq<Job>): seq<Id> {
    seq(|jobs|, k requires 0 <= k < |jobs| => jobs[k].jobId)
  }

  /** The rows of a job with this id. */
  function OnJob(jobId: Id): Row -> bool {
    (row: Row) => row.job.jobId == jobId
  }

  /** `loadApplicants`: the recruiter's jobs in order, each followed by its
      rows. Job ids are document ids and so distinct; the rows of each job
      are then exactly the rows it contributes on its own. */
  function LoadApplicants(jobs: seq<Job>, apps: seq<Application>, students: map<Id, Student>): (r: seq<Row>)
    ensures forall i :: 0 <= i < |r| ==> r[i].job in jobs && r[i].app in apps && r[i].app.jobId == r[i].job.jobId
    ensures forall i :: 0 <= i < |r| ==> r[i].app.studentId in students && r[i].student == students[r[i].app.studentId]
    ensures forall j, a :: j in jobs && a in apps && a.jobId == j.jobId && a.studentId in students ==> Row(a, j, students[a.studentId]) in r
    ensures Seqs.NoDup(JobIds(jobs)) ==>
      forall k :: 0 <= k < |jobs| ==> Seqs.Filter(r, OnJob(jobs[k].jobId)) == RowsFor(jobs[k], apps, students)
  {
    JoinAllRows(jobs, apps, students);
    JoinAllCovers(jobs, apps, students);
    JoinAllByJob(jobs, apps, students);
    JoinAll(jobs, apps, students)
  }

  lemma JoinAllByJob(jobs: seq<Job>, apps: seq<Application>, students: map<Id, Student>)
    ensures Seqs.NoDup(JobIds(jobs)) ==>
      forall k :: 0 <= k < |jobs| ==> Seqs.Filter(JoinAll(jobs, apps, students), OnJob(jobs[k].jobId)) == RowsFor(jobs[k], apps, students)
  {
    if Seqs.NoDup(JobIds(jobs)) {
      forall k | 0 <= k < |jobs|
        ensures Seqs.Filter(JoinAll(jobs, apps, students), OnJob(jobs[k].jobId)) == RowsFor(jobs[k], apps, students)
      {
        JoinAllOfJob(jobs, apps, students, k);
      }
    }
  }

  /** The loop of `loadApplicants` over the jobs. */
  function JoinAll(jobs: seq<Job>, apps: seq<Application>, students: map<Id, Student>): seq<Row> {
    if |jobs| == 0 then []
    else JoinRows(jobs[0], apps, students) + JoinAll(jobs[1..], apps, students)
  }

  /** A row of one of the jobs, joined with its application's student. */
  predicate JoinedRow(row: Row, jobs: seq<Job>, apps: seq<Application>, students: map<Id, Student>) {
    row.job in jobs && row.app in apps && row.app.jobId == row.job.jobId
    && row.app.studentId in students && row.student == students[row.app.studentId]
  }

  lemma {:induction false} JoinAllRows(jobs: seq<Job>, apps: seq<Application>, students: map<Id, Student>)
    ensures forall i :: 0 <= i < |JoinAll(jobs, apps, students)| ==> JoinedRow(JoinAll(jobs, apps, students)[i], jobs, apps, students)
  {
    if |jobs| > 0 {
      JoinAllRows(jobs[1..], apps, students);
      var head := RowsFor(jobs[0], apps, students);
      var tail := JoinAll(jobs[1..], apps, students);
      var r := head + tail;
      assert r == JoinAll(jobs, apps, students);
      forall i | 0 <= i < |r|
        ensures JoinedRow(r[i], jobs, apps, students)
      {
        if i < |head| {
          assert r[i] == head[i] && head[i].job == jobs[0];
        } else {
          assert r[i] == tail[i - |head|];
          assert JoinedRow(tail[i - |head|], jobs[1..], apps, students);
        }
      }
    }
  }

  lemma {:induction false} JoinAllCovers(jobs: seq<Job>, apps: seq<Application>, students: map<Id, Student>)
    ensures forall j, a :: j in jobs && a in apps && a.jobId == j.jobId && a.studentId in students ==>
      Row(a, j, students[a.studentId]) in JoinAll(jobs, apps, students)
  {
    if |jobs| > 0 {
      JoinAllCovers(jobs[1..], apps, students);
      var head := RowsFor(jobs[0], apps, students);
      var tail := JoinAll(jobs[1..], apps, students);
      assert JoinAll(jobs, apps, students) == head + tail;
      forall j, a | j in jobs && a in apps && a.jobId == j.jobId && a.studentId in students
        ensures Row(a, j, students[a.studentId]) in head + tail
      {
        if j == jobs[0] {
          assert Row(a, j, students[a.studentId]) in head;
        } else {
          assert j in jobs[1..];
          assert Row(a, j, students[a.studentId]) in tail;
        }
      }
    }
  }

  /** The rows come job by job, in the order of the jobs: the list of a
      concatenation of job lists is the concatenation of their lists. */
  lemma LoadApplicantsAppend(jobs: seq<Job>, more: seq<Job>, apps: seq<Application>, students: map<Id, Student>)
    ensures LoadApplicants(jobs + more, apps, students) == LoadApplicants(jobs, apps, students) + LoadApplicants(more, apps, students)
  {
    JoinAllAppend(jobs, more, apps, students);
  }

  lemma {:induction false} JoinAllAppend(jobs: seq<Job>, more: seq<Job>, apps: seq<Application>, students: map<Id, Student>)
    ensures JoinAll(jobs + more, apps, students) == JoinAll(jobs, apps, students) + JoinAll(more, apps, students)
  {
    if |jobs| == 0 {
      assert jobs + more == more;
    } else {
      assert (jobs + more)[1..] == jobs[1..] + more;
      JoinAllAppend(jobs[1..], more, apps, students);
    }
  }

  lemma {:induction false} JoinAllOfJob(jobs: seq<Job>, apps: seq<Application>, students: map<Id, Student>, k: nat)
    requires Seqs.NoDup(JobIds(jobs)) && k < |jobs|
    ensures Seqs.Filter(JoinAll(jobs, apps, students), OnJob(jobs[k].jobId)) == RowsFor(jobs[k], apps, students)
  {
    var p := OnJob(jobs[k].jobId);
    var head := JoinRows(jobs[0], apps, students);
    var tail := JoinAll(jobs[1..], apps, students);
    assert JoinAll(jobs, apps, students) == head + tail;
    Seqs.FilterAppend(head, tail, p);
    LaterJobsDiffer(jobs, apps, students);
    JoinRowsShape(jobs[0], apps, students);
    if k == 0 {
      assert forall i :: 0 <= i < |head| ==> p(head[i]);
      assert RowsFor(jobs[0], apps, students) == head;
    } else {
      assert JobIds(jobs)[0] != JobIds(jobs)[k];
      NoneKept(head, p);
      assert jobs[1..][k - 1] == jobs[k];
      JoinAllOfJob(jobs[1..], apps, students, k - 1);
    }
  }

  /** With distinct ids, no row of the later jobs is for the first job, and
      the later jobs' ids are distinct too. */
  lemma LaterJobsDiffer(jobs: seq<Job>, apps: seq<Application>, students: map<Id, Student>)
    requires Seqs.NoDup(JobIds(jobs)) && |jobs| > 0
    ensures Seqs.NoDup(JobIds(jobs[1..]))
    ensures Seqs.Filter(JoinAll(jobs[1..], apps, students), OnJob(jobs[0].jobId)) == []
  {
    assert JobIds(jobs[1..]) == JobIds(jobs)[1..];
    var tail := JoinAll(jobs[1..], apps, students);
    JoinAllRows(jobs[1..], apps, students);
    forall i | 0 <= i < |tail|
      ensures tail[i].job.jobId != jobs[0].jobId
    {
      assert tail[i].job in jobs[1..];
      var m :| 0 <= m < |jobs[1..]| && jobs[1..][m] == tail[i].job;
      assert JobIds(jobs)[m + 1] != JobIds(jobs)[0];
    }
    NoneKept(tail, OnJob(jobs[0].jobId));
  }

  /** Filtering on a predicate no element meets gives the empty list. */
  lemma NoneKept<T>(s: seq<T>, p: T -> bool)
    requires forall i :: 0 <= i < |s| ==> !p(s[i])
    ensures Seqs.Filter(s, p) == []
  {
  }

  /** A row passes the status filter when its status label equals it. */
  function HasLabel(filter: string): Row -> bool {
    (row: Row) => row.app.status.Label() == filter
  }

  /** `filteredApplications`: "all" keeps the list; any other value keeps the
      rows whose status label equals it, in order, each once. */
  function FilterByStatus(filter: string, rows: seq<Row>): (r: seq<Row>)
    ensures filter == "all" ==> r == rows
    ensures filter != "all" ==> forall i :: 0 <= i < |r| ==> r[i].app.status.Label() == filter
    ensures filter != "all" ==> forall i :: 0 <= i < |rows| && rows[i].app.status.Label() == filter ==> rows[i] in r
    ensures filter != "all" ==> |r| == Seqs.Count(rows, HasLabel(filter))
    ensures Seqs.IsSubsequence(r, rows)
  {
    if filter == "all" then
      SubsequenceRefl(rows);
      rows
    else
      Seqs.FilterLength(rows, HasLabel(filter));
      Seqs.Filter(rows, HasLabel(filter))
  }

  lemma {:induction false} SubsequenceRefl<T>(s: seq<T>)
    ensures Seqs.IsSubsequence(s, s)
  {
    if |s| > 0 {
      SubsequenceRefl(s[1..]);
    }
  }

  /** Filtering on a status selects exactly the rows in that status. */
  lemma FilterSelectsStatus(st: AppStatus, rows: seq<Row>, i: nat)
    requires i < |rows|
    ensures rows[i] in FilterByStatus(st.Label(), rows) <==> rows[i].app.status == st
  {
    var r := FilterByStatus(st.Label(), rows);
    if rows[i] in r {
      var k :| 0 <= k < |r| && r[k] == rows[i];
      Types.AppStatusLabelRoundTrip(st);
      Types.AppStatusLabelRoundTrip(rows[i].app.status);
    }
  }

  const Header: seq<string> := ["Name", "Email", "Job", "Status", "Applied Date", "CGPA", "Skills"]

  /** One CSV row; the date and number renderings are the page's
      `formatDate` and JavaScript's number-to-string, taken as parameters. */
  function Fields(row: Row, showDate: Millis -> string, showNumber: real -> string): (f: seq<string>)
    ensures |f| == |Header|
    ensures f[0] == row.student.name && f[1] == row.student.email && f[2] == row.job.title
    ensures f[3] == row.app.status.Label() && f[4] == showDate(row.app.appliedAt)
    ensures f[5] == showNumber(row.student.cgpa) && f[6] == Text.Join(row.student.skills, ", ")
  {
    [row.student.name, row.student.email, row.job.title, row.app.status.Label(),
     showDate(row.app.appliedAt), showNumber(row.student.cgpa), Text.Join(row.student.skills, ", ")]
  }

  /** `[headers, ...rows]` of `handleExportCSV`. */
  function Table(rows: seq<Row>, showDate: Millis -> string, showNumber: real -> string): (t: seq<seq<string>>)
    ensures |t| == |rows| + 1 && t[0] == Header
    ensures forall i :: 0 <= i < |rows| ==> t[i + 1] == Fields(rows[i], showDate, showNumber)
  {
    [Header] + seq(|rows|, i requires 0 <= i < |rows| => Fields(rows[i], showDate, showNumber))
  }

  /** The lines of the export: the header, then one line per row, fields
      joined by ',' with no quoting. */
  function CsvLines(rows: seq<Row>, showDate: Millis -> string, showNumber: real -> string): (r: seq<string>)
    ensures |r| == |rows| + 1
    ensures r[0] == "Name,Email,Job,Status,Applied Date,CGPA,Skills"
    ensures forall i :: 0 <= i < |rows| ==> r[i + 1] == Text.Join(Fields(rows[i], showDate, showNumber), ",")
  {
    TableHeaderLine(rows, showDate, showNumber);
    var table := Table(rows, showDate, showNumber);
    seq(|table|, i requires 0 <= i < |table| => Text.Join(table[i], ","))
  }

  lemma TableHeaderLine(rows: seq<Row>, showDate: Millis -> string, showNumber: real -> string)
    ensures Text.Join(Table(rows, showDate, showNumber)[0], ",") == "Name,Email,Job,Status,Applied Date,CGPA,Skills"
  {
    HeaderLine(Table(rows, showDate, showNumber)[0]);
  }

  /** The header fields joined by ','. */
  lemma HeaderLine(h: seq<string>)
    requires h == Header
    ensures Text.Join(h, ",") == "Name,Email,Job,Status,Applied Date,CGPA,Skills"
  {
    JoinSeven(h, ",");
    HeaderText(h);
  }

  lemma JoinSeven(h: seq<string>, c: string)
    requires |h| == 7
    ensures Text.Join(h, c) == h[0] + c + h[1] + c + h[2] + c + h[3] + c + h[4] + c + h[5] + c + h[6]
  {
    var j6 := Text.Join(h[6..], c);
    assert j6 == h[6];
    var j5 := JoinCons(h[5..], c, j6);
    var j4 := JoinCons(h[4..], c, j5);
    var j3 := JoinCons(h[3..], c, j4);
    var j2 := JoinCons(h[2..], c, j3);
    var j1 := JoinCons(h[1..], c, j2);
    var j0 := JoinCons(h, c, j1);
  }

  /** One unfolding of `Join` on a list whose tail joins to `tail`. */
  lemma JoinCons(xs: seq<string>, c: string, tail: string) returns (j: string)
    requires |xs| >= 2 && Text.Join(xs[1..], c) == tail
    ensures j == Text.Join(xs, c) && j == xs[0] + c + tail
  {
    j := xs[0] + c + tail;
  }

  lemma HeaderText(h: seq<string>)
    requires h == Header
    ensures h[0] + "," + h[1] + "," + h[2] + "," + h[3] + "," + h[4] + "," + h[5] + "," + h[6]
      == "Name,Email,Job,Status,Applied Date,CGPA,Skills"
  {
    var a := h[0] + "," + h[1];
    assert a == "Name,Email";
    var b := a + "," + h[2] + "," + h[3];
    assert b == "Name,Email,Job,Status";
    var c := b + "," + h[4];
    assert c == "Name,Email,Job,Status,Applied Date";
    var d := c + "," + h[5] + "," + h[6];
    assert d == "Name,Email,Job,Status,Applied Date,CGPA,Skills";
  }

  function Csv(rows: seq<Row>, showDate: Millis -> string, showNumber: real -> string): string {
    Text.Join(CsvLines(rows, showDate, showNumber), "\n")
  }

  /** No field of any row contains `c`. */
  predicate FieldsAvoid(rows: seq<Row>, showDate: Millis -> string, showNumber: real -> string, c: char) {
    forall i, k :: 0 <= i < |rows| && 0 <= k < |Header| ==> c !in Fields(rows[i], showDate, showNumber)[k]
  }

  /** When no field holds a line break, splitting the file on '\n' gives the
      header line and one line per row back. */
  lemma CsvLineCount(rows: seq<Row>, showDate: Millis -> string, showNumber: real -> string)
    requires FieldsAvoid(rows, showDate, showNumber, '\n')
    ensures Text.Split(Csv(rows, showDate, showNumber), '\n') == CsvLines(rows, showDate, showNumber)
    ensures |Text.Split(Csv(rows, showDate, showNumber), '\n')| == |rows| + 1
    ensures Text.Split(Csv(rows, showDate, showNumber), '\n')[0] == "Name,Email,Job,Status,Applied Date,CGPA,Skills"
  {
    var lines := CsvLines(rows, showDate, showNumber);
    forall n | 0 <= n < |lines|
      ensures '\n' !in lines[n]
    {
      LineAvoids(rows, showDate, showNumber, n);
    }
    Text.SplitJoin(lines, '\n');
  }

  lemma LineAvoids(rows: seq<Row>, showDate: Millis -> string, showNumber: real -> string, n: nat)
    requires FieldsAvoid(rows, showDate, showNumber, '\n') && n <= |rows|
    ensures '\n' !in CsvLines(rows, showDate, showNumber)[n]
  {
    var table := Table(rows, showDate, showNumber);
    assert CsvLines(rows, showDate, showNumber)[n] == Text.Join(table[n], ",");
    if n == 0 {
      HeaderAvoids(table[0], '\n');
    } else {
      Text.JoinAvoids(Fields(rows[n - 1], showDate, showNumber), ",", '\n');
    }
  }

  lemma HeaderAvoids(h: seq<string>, c: char)
    requires h == Header && c == '\n'
    ensures c !in Text.Join(h, ",")
  {
    assert forall k :: 0 <= k < |h| ==> c !in h[k];
    Text.JoinAvoids(h, ",", c);
  }

  /** `formatDate` renders a date as "Mar 5, 2024": a month and day, a
      comma, a space and a year. Skills are joined with ", ". So a row whose
      date renders as `monthDay + ", " + year`, with `k >= 1` comma-free
      skills and comma-free other fields, splits on ',' into 7 + k columns:
      the unquoted export shifts every column after the date. */
  lemma RowColumns(row: Row, showDate: Millis -> string, showNumber: real -> string, monthDay: string, year: string)
    requires showDate(row.app.appliedAt) == monthDay + ", " + year
    requires ',' !in monthDay && ',' !in year
    requires ',' !in row.student.name && ',' !in row.student.email && ',' !in row.job.title
    requires ',' !in showNumber(row.student.cgpa)
    requires forall k :: 0 <= k < |row.student.skills| ==> ',' !in row.student.skills[k]
    requires |row.student.skills| >= 1
    ensures |Text.Split(Text.Join(Fields(row, showDate, showNumber), ","), ',')| == 7 + |row.student.skills|
  {
    var f := Fields(row, showDate, showNumber);
    var sk := row.student.skills;
    var pieces := [sk[0]] + Text.PrefixAll(sk[1..], " ");
    Text.WidenedSeparator(sk, ',', " ");
    assert ", " == [','] + " ";
    assert f[6] == Text.Join(pieces, ",");
    var front := [f[0], f[1], f[2], f[3], monthDay, " " + year, f[5]];
    JoinSeven(f, ",");
    JoinSeven(front, ",");
    assert f[4] == monthDay + "," + (" " + year);
    assert Text.Join([f[6]], ",") == f[6];
    assert Text.Join(f, ",") == Text.Join(front, ",") + "," + Text.Join(pieces, ",");
    Text.JoinAppend(front, pieces, ",");
    var all := front + pieces;
    forall k | 0 <= k < |all|
      ensures ',' !in all[k]
    {
      if k == 3 {
        assert f[3] == row.app.status.Label();
        LabelAvoidsComma(row.app.status);
      } else if k >= 8 {
        assert all[k] == " " + sk[k - 7];
      }
    }
    Text.SplitJoin(all, ',');
  }

  /** No status label contains a comma. */
  lemma LabelAvoidsComma(st: AppStatus)
    ensures ',' !in st.Label()
  {
  }

  /** `handleStatusUpdate`: the named application takes the chosen status,
      whatever it was before; nothing else changes. */
  function UpdateStatus(apps: seq<Application>, applicationId: Id, status: AppStatus, now: Millis): (r: seq<Application>)
    ensures |r| == |apps|
    ensures forall i :: 0 <= i < |apps| && apps[i].applicationId == applicationId ==>
      r[i] == apps[i].(status := status, updatedAt := now)
    ensures forall i :: 0 <= i < |apps| && apps[i].applicationId != applicationId ==> r[i] == apps[i]
  {
    seq(|apps|, i requires 0 <= i < |apps| =>
      if apps[i].applicationId == applicationId then apps[i].(status := status, updatedAt := now) else apps[i])
  }

  /** Any status can follow any other, including moves back from rejected
      or offered. */
  lemma AnyTransition(apps: seq<Application>, i: nat, status: AppStatus, now: Millis)
    requires i < |apps|
    ensures UpdateStatus(apps, apps[i].applicationId, status, now)[i].status == status
    ensures UpdateStatus(UpdateStatus(apps, apps[i].applicationId, status, now), apps[i].applicationId, apps[i].status, now)[i]
      == apps[i].(updatedAt := now)
  {
  }
}
