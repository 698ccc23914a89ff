/** The report assembly of `main`: which courses are in scope, how the
    results of the per-course tasks are merged, the order and titles of the
    per-course sheets, the cells written for each row and the column widths. */
module Report {
  import opened Values
  import opened Text
  import opened MoodleApi
  import opened CourseRows
  import opened SheetName

  // ---------------------------------------------------------------------------
  // Scope

  /** The filter `main` passes to `get_all_courses`: a nonzero `--courseid`
      wins over the entries of `--courses_file`. */
  function ScopeFilter(courseid: Option<int>, fileEntries: Option<seq<string>>): Option<seq<string>> {
    if courseid.Some? && courseid.value != 0 then Some([IntToString(courseid.value)]) else fileEntries
  }

  /** With a nonzero course id the filter keeps exactly the courses with that
      id, and any course whose full name is that number; the file is ignored. */
  lemma ScopeByCourseId(courses: seq<Course>, courseid: int, fileEntries: Option<seq<string>>)
    requires courseid != 0
    ensures ScopeFilter(Some(courseid), fileEntries) == Some([IntToString(courseid)])
    ensures forall c :: c in Select(courses, LowerAll([IntToString(courseid)])) <==>
              c in courses && (c.id == courseid || Lower(c.fullname) == IntToString(courseid))
  {
    var key := IntToString(courseid);
    LowerIntToString(courseid);
    assert LowerAll([key]) == [key];
    forall c | c in courses && IntToString(c.id) == key ensures c.id == courseid {
      IntToStringInjective(c.id, courseid);
    }
  }

  // ---------------------------------------------------------------------------
  // Merging the task results

  /** What `main` keeps of a course whose task finished: the key it sorts
      by, the detail rows and the activity column titles. */
  datatype CourseSheet = CourseSheet(shortname: string, rows: seq<Row>, columns: seq<string>)

  datatype Merged = Merged(sheets: seq<CourseSheet>, consolidated: seq<seq<Value>>, enrollment: seq<Row>)

  /** `course.get("shortname", f"course_{course.get('id')}")`. */
  function SheetShortname(c: Course): string {
    c.shortname.GetOr("course_" + IntToString(c.id))
  }

  function SheetOf(c: Course, rows: CourseRows): CourseSheet {
    CourseSheet(SheetShortname(c), rows.perCourse, rows.activityColumns)
  }

  /** The merged results of the tasks, taken in the order they completed;
      a task that raised contributes nothing. */
  function Merge(done: seq<(Course, Result<CourseRows>)>): Merged {
    if done == [] then Merged([], [], [])
    else
      var m := Merge(done[..|done| - 1]);
      var (c, outcome) := done[|done| - 1];
      match outcome
      case Raised => m
      case Ok(rows) => Merged(m.sheets + [SheetOf(c, rows)], m.consolidated + rows.consolidated, m.enrollment + rows.enrollment)
  }

  /** Merging is concatenation in completion order. */
  lemma {:induction false} MergeConcat(a: seq<(Course, Result<CourseRows>)>, b: seq<(Course, Result<CourseRows>)>)
    ensures Merge(a + b) == Merged(Merge(a).sheets + Merge(b).sheets,
                                   Merge(a).consolidated + Merge(b).consolidated,
                                   Merge(a).enrollment + Merge(b).enrollment)
    decreases |b|
  {
    if b == [] {
      assert a + b == a;
    } else {
      var n := |b| - 1;
      assert (a + b)[..|a + b| - 1] == a + b[..n];
      assert (a + b)[|a + b| - 1] == b[n];
      MergeConcat(a, b[..n]);
    }
  }

  /** A task that raised is dropped; a course with no user rows adds a sheet
      but no consolidated or enrolment rows. */
  lemma MergeOne(a: seq<(Course, Result<CourseRows>)>, c: Course, outcome: Result<CourseRows>,
                 b: seq<(Course, Result<CourseRows>)>)
    ensures outcome.Raised? ==> Merge(a + [(c, outcome)] + b) == Merge(a + b)
    ensures outcome.Ok? && outcome.value.consolidated == [] && outcome.value.enrollment == [] ==>
              Merge(a + [(c, outcome)] + b).consolidated == Merge(a + b).consolidated &&
              Merge(a + [(c, outcome)] + b).enrollment == Merge(a + b).enrollment
    ensures outcome.Ok? ==> SheetOf(c, outcome.value) in Merge(a + [(c, outcome)] + b).sheets
  {
    MergeConcat(a + [(c, outcome)], b);
    MergeConcat(a, [(c, outcome)]);
    MergeConcat(a, b);
    assert Merge([(c, outcome)]) == Merge([]) || outcome.Ok?;
    assert [(c, outcome)][..0] == [];
  }

  /** The collecting loop of `main` over the finished tasks. */
  method CollectResults(done: seq<(Course, Result<CourseRows>)>) returns (m: Merged)
    ensures m == Merge(done)
  {
    var sheets: seq<CourseSheet> := [];
    var consolidated: seq<seq<Value>> := [];
    var enrollment: seq<Row> := [];
    var i := 0;
    while i < |done|
      invariant 0 <= i <= |done|
      invariant Merged(sheets, consolidated, enrollment) == Merge(done[..i])
    {
      var (course, outcome) := done[i];
      if outcome.Ok? {
        var rows := outcome.value;
        sheets := sheets + [CourseSheet(SheetShortname(course), rows.perCourse, rows.activityColumns)];
        consolidated := consolidated + rows.consolidated;
        enrollment := enrollment + rows.enrollment;
      }
      assert done[..i + 1][..i] == done[..i];
      i := i + 1;
    }
    assert done[..i] == done;
    m := Merged(sheets, consolidated, enrollment);
  }

  // ---------------------------------------------------------------------------
  // Order of the per-course sheets

  function SortKey(s: CourseSheet): string {
    Lower(s.shortname)
  }

  predicate SortedSheets(ss: seq<CourseSheet>) {
    forall i :: 0 < i < |ss| ==> LexLe(SortKey(ss[i - 1]), SortKey(ss[i]))
  }

  /** Puts `x` before the first sheet whose key is not below its own. */
  function InsertSheet(x: CourseSheet, ss: seq<CourseSheet>): (r: seq<CourseSheet>)
    requires SortedSheets(ss)
    ensures SortedSheets(r)
    ensures multiset(r) == multiset(ss) + multiset{x}
    ensures r[0] == x || (ss != [] && r[0] == ss[0])
  {
    if ss == [] || LexLe(SortKey(x), SortKey(ss[0])) then [x] + ss
    else
      LexLeTotal(SortKey(x), SortKey(ss[0]));
      assert ss == [ss[0]] + ss[1..];
      [ss[0]] + InsertSheet(x, ss[1..])
  }

  /** `sorted(per_course_results, key=lambda x: x[0].lower())`: the same
      sheets, ordered by lower-cased short name. */
  function SortSheets(ss: seq<CourseSheet>): (r: seq<CourseSheet>)
    ensures SortedSheets(r)
    ensures multiset(r) == multiset(ss)
  {
    if ss == [] then []
    else
      assert ss == [ss[0]] + ss[1..];
      InsertSheet(ss[0], SortSheets(ss[1..]))
  }

  // ---------------------------------------------------------------------------
  // Sheet contents

  /** The fixed leading headers of a per-course sheet. */
  const BaseHeaders: seq<string> :=
    ["Course ID", "Course Name", "Course Shortname",
     "User ID", "Full Name", "Username", "Email",
     "Department", "Institution", "City", "Country", "Last Access", "Role(s)"]

  const TrailingHeaders: seq<string> := ["Completion %", "Course Completion Status"]

  const EnrollmentHeaders: seq<string> :=
    ["User ID", "Full Name", "Username", "Email", "Course ID", "Course Name", "Course Shortname", "Role(s)", "Last Access"]

  const ConsolidatedTitle: string := "All Courses \U{2013} Consolidated"

  const EnrollmentTitle: string := "Enrollments"

  function SheetHeaders(columns: seq<string>): (h: seq<string>)
    ensures |h| == |BaseHeaders| + |columns| + |TrailingHeaders| == 15 + |columns|
    ensures forall j :: 0 <= j < |columns| ==> h[|BaseHeaders| + j] == columns[j]
  {
    BaseHeaders + columns + TrailingHeaders
  }

  /** `[r.get(h, "") for h in headers]`. */
  function ProjectRow(r: Row, headers: seq<string>): (cells: seq<Value>)
    ensures |cells| == |headers|
    ensures forall i :: 0 <= i < |headers| ==> cells[i] == Get(r, Str(headers[i]), Str(""))
  {
    seq(|headers|, i requires 0 <= i < |headers| => Get(r, Str(headers[i]), Str("")))
  }

  function HeaderRow(headers: seq<string>): (cells: seq<Value>)
    ensures |cells| == |headers|
  {
    seq(|headers|, i requires 0 <= i < |headers| => Str(headers[i]))
  }

  datatype Sheet = Sheet(title: string, rows: seq<seq<Value>>)

  function CourseSheetContents(s: CourseSheet): Sheet {
    var headers := SheetHeaders(s.columns);
    Sheet(SheetTitle(s.shortname),
          [HeaderRow(headers)] + seq(|s.rows|, i requires 0 <= i < |s.rows| => ProjectRow(s.rows[i], headers)))
  }

  /** The sheets of the workbook in order: the consolidated sheet, one sheet
      per finished course by lower-cased short name, the enrolment sheet. */
  function Workbook(m: Merged): seq<Sheet> {
    var ordered := SortSheets(m.sheets);
    [Sheet(ConsolidatedTitle, [HeaderRow(ConsolidatedHeaders)] + m.consolidated)]
    + seq(|ordered|, i requires 0 <= i < |ordered| => CourseSheetContents(ordered[i]))
    + [Sheet(EnrollmentTitle, [HeaderRow(EnrollmentHeaders)]
         + seq(|m.enrollment|, i requires 0 <= i < |m.enrollment| => ProjectRow(m.enrollment[i], EnrollmentHeaders)))]
  }

  /** The workbook has a sheet per finished course between the consolidated
      and the enrolment sheet, ordered by lower-cased short name, each titled
      with 1 to 31 letters and digits. */
  lemma WorkbookShape(m: Merged)
    ensures var wb := Workbook(m);
      && |wb| == |m.sheets| + 2
      && wb[0].title == ConsolidatedTitle && wb[|wb| - 1].title == EnrollmentTitle
      && |wb[0].rows| == |m.consolidated| + 1
      && |wb[|wb| - 1].rows| == |m.enrollment| + 1
      && (forall i :: 1 <= i < |wb| - 1 ==> 1 <= |wb[i].title| <= MaxTitleLength && AllAlnum(wb[i].title))
      && (forall i :: 1 <= i < |wb| - 1 ==> wb[i] == CourseSheetContents(SortSheets(m.sheets)[i - 1]))
  {
    var ordered := SortSheets(m.sheets);
    assert |ordered| == |m.sheets| by {
      assert |multiset(ordered)| == |multiset(m.sheets)|;
    }
  }

  /** The consolidated sheet is its header row followed by the consolidated
      rows in completion order; the enrolment sheet is its header row
      followed by each enrolment row projected onto the enrolment headers. */
  lemma WorkbookOuterSheets(m: Merged)
    ensures var wb := Workbook(m);
      && wb[0].rows == [HeaderRow(ConsolidatedHeaders)] + m.consolidated
      && wb[|wb| - 1].rows[0] == HeaderRow(EnrollmentHeaders)
      && |wb[|wb| - 1].rows| == |m.enrollment| + 1
      && (forall k :: 0 <= k < |m.enrollment| ==>
            wb[|wb| - 1].rows[k + 1] == ProjectRow(m.enrollment[k], EnrollmentHeaders))
  {
  }

  /** Every row of a per-course sheet has one cell per header: 13 leading
      columns, one per activity, and two trailing ones. */
  lemma CourseSheetRowsAligned(s: CourseSheet)
    ensures var sheet := CourseSheetContents(s);
      |sheet.rows| == |s.rows| + 1 &&
      forall k :: 0 <= k < |sheet.rows| ==> |sheet.rows[k]| == 15 + |s.columns|
  {
  }

  /** On a per-course sheet, the cell under each activity column holds one
      of the three labels for every user row: absent statuses show
      "Incomplete", never a blank. */
  lemma ActivityColumnShown(course: Course, server: Server, clock: int -> string, u: User,
                            cols: seq<Column>, j: nat)
    requires j < |cols|
    ensures var row := PerCourseRow(course, u, clock, Completion(server, course, u), Statuses(server, course, u), cols);
            var cells := ProjectRow(row, SheetHeaders(Titles(cols)));
            cells[|BaseHeaders| + j].Str? && IsLabel(cells[|BaseHeaders| + j].s)
  {
    ActivityMapShape(server.activitiesCompletion(course.id, UserId(u)));
    ActivityCellsAreLabels(course, u, clock, Completion(server, course, u), Statuses(server, course, u), cols);
  }

  // ---------------------------------------------------------------------------
  // Column widths

  const MinWidth: int := 12
  const MaxWidth: int := 60

  /** The rendered length of column `c` of a row, `None` for an empty cell
      or a row that does not reach the column. */
  function CellLength(row: seq<Option<nat>>, c: nat): Option<nat> {
    if c < |row| then row[c] else None
  }

  /** The longest rendered length in column `c`, 0 when it has no value. */
  function Longest(sheet: seq<seq<Option<nat>>>, c: nat): nat {
    if sheet == [] then 0
    else
      var before := Longest(sheet[..|sheet| - 1], c);
      match CellLength(sheet[|sheet| - 1], c)
      case None => before
      case Some(len) => if before < len then len else before
  }

  /** `Longest` bounds every cell of the column and is one of them, or 0. */
  lemma {:induction false} LongestIsMaximum(sheet: seq<seq<Option<nat>>>, c: nat)
    ensures forall i :: 0 <= i < |sheet| && CellLength(sheet[i], c).Some? ==>
              CellLength(sheet[i], c).value <= Longest(sheet, c)
    ensures Longest(sheet, c) == 0 ||
              exists i :: 0 <= i < |sheet| && CellLength(sheet[i], c) == Some(Longest(sheet, c))
  {
    if sheet != [] {
      var n := |sheet| - 1;
      LongestIsMaximum(sheet[..n], c);
      forall i | 0 <= i < n ensures sheet[i] == sheet[..n][i] { }
    }
  }

  /** `min(max(12, longest + 2), 60)`. */
  function ColumnWidth(longest: nat): (w: int)
    ensures MinWidth <= w <= MaxWidth
    ensures longest + 2 <= MinWidth ==> w == MinWidth
    ensures MinWidth <= longest + 2 <= MaxWidth ==> w == longest + 2
    ensures longest + 2 >= MaxWidth ==> w == MaxWidth
  {
    var wide := if MinWidth < longest + 2 then longest + 2 else MinWidth;
    if wide < MaxWidth then wide else MaxWidth
  }

  /** `autosize_columns`: one width per column, from the longest rendered
      value in it. */
  method AutosizeColumns(sheet: seq<seq<Option<nat>>>, columns: nat) returns (widths: seq<int>)
    ensures |widths| == columns
    ensures forall c :: 0 <= c < columns ==> widths[c] == ColumnWidth(Longest(sheet, c))
    ensures forall c :: 0 <= c < columns ==> MinWidth <= widths[c] <= MaxWidth
  {
    widths := [];
    var c := 0;
    while c < columns
      invariant 0 <= c <= columns
      invariant |widths| == c
      invariant forall k :: 0 <= k < c ==> widths[k] == ColumnWidth(Longest(sheet, k))
    {
      var maxLen := 0;
      var r := 0;
      while r < |sheet|
        invariant 0 <= r <= |sheet|
        invariant maxLen == Longest(sheet[..r], c)
      {
        var cell := CellLength(sheet[r], c);
        if cell.Some? {
          maxLen := if maxLen < cell.value then cell.value else maxLen;
        }
        assert sheet[..r + 1][..r] == sheet[..r];
        r := r + 1;
      }
      assert sheet[..r] == sheet;
      var wide := if MinWidth < maxLen + 2 then maxLen + 2 else MinWidth;
      widths := widths + [if wide < MaxWidth then wide else MaxWidth];
      c := c + 1;
    }
  }
}
