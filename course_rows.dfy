/** The rows one course contributes to the report: a detail row per enrolled
    user for the course's own sheet, a summary row for the consolidated sheet
    and a row for the enrolment sheet. */
module CourseRows {
  import opened Values
  import opened Text
  import opened MoodleApi

  // ---------------------------------------------------------------------------
  // Cell helpers

  /** Python's `str()` of a scalar. */
  function Render(v: Value): string {
    match v
    case Null => "None"
    case Bool(b) => if b then "True" else "False"
    case Int(i) => IntToString(i)
    case Str(s) => s
  }

  /** `d.get(key, "")` on a user's profile fields. */
  function Field(u: User, key: string): Value {
    Get(u.fields, key, Str(""))
  }

  function UserId(u: User): Value {
    Get(u.fields, "id", Null)
  }

  /** `last_access_str`: the formatted timestamp, or "" when it is absent or 0.
      The local-time formatting itself is the parameter `clock`. */
  function LastAccess(u: User, clock: int -> string): string {
    if u.lastaccess.Some? && u.lastaccess.value != 0 then clock(u.lastaccess.value) else ""
  }

  // ---------------------------------------------------------------------------
  // role_names

  /** What `r.get("name", str(r.get("roleid", "")))` yields for joining: the
      name when it is a string, `str()` of the role id when there is no name,
      and `None` when the name is not a string (the join then fails). */
  function RoleLabel(r: Role): Option<string> {
    match r.name
    case None => Some(Render(r.roleid.GetOr(Str(""))))
    case Some(Str(s)) => Some(s)
    case Some(_) => None
  }

  function RoleLabels(roles: seq<Role>): (r: Option<seq<string>>)
    ensures r.Some? <==> forall i :: 0 <= i < |roles| ==> RoleLabel(roles[i]).Some?
    ensures r.Some? ==> (|r.value| == |roles| &&
              forall i :: 0 <= i < |roles| ==> r.value[i] == RoleLabel(roles[i]).value)
  {
    if roles == [] then Some([])
    else
      var n := |roles| - 1;
      match (RoleLabels(roles[..n]), RoleLabel(roles[n]))
      case (Some(front), Some(last)) => Some(front + [last])
      case _ => None
  }

  /** `role_names`: the role labels joined by ", "; any role whose name is not
      a string makes the whole cell "". */
  function RoleNames(u: User): string {
    match RoleLabels(u.roles)
    case Some(labels) => Join(", ", labels)
    case None => ""
  }

  lemma RoleNamesCases(u: User)
    ensures (exists i :: 0 <= i < |u.roles| && u.roles[i].name.Some? && !u.roles[i].name.value.Str?) ==>
              RoleNames(u) == ""
    ensures (forall i :: 0 <= i < |u.roles| ==> u.roles[i].name.None? || u.roles[i].name.value.Str?) ==>
              RoleNames(u) == Join(", ", seq(|u.roles|, i requires 0 <= i < |u.roles| => RoleLabel(u.roles[i]).value))
  {
    if forall i :: 0 <= i < |u.roles| ==> u.roles[i].name.None? || u.roles[i].name.value.Str? {
      var labels := RoleLabels(u.roles).value;
      assert labels == seq(|u.roles|, i requires 0 <= i < |u.roles| => RoleLabel(u.roles[i]).value);
    }
  }

  // ---------------------------------------------------------------------------
  // flatten_custom_fields

  /** `f.get("shortname") or f.get("name")`. */
  function FieldKey(f: CustomField): Value {
    var short := f.shortname.GetOr(Null);
    if Truthy(short) then short else f.name.GetOr(Null)
  }

  function FieldValue(f: CustomField): Value {
    f.value.GetOr(Str(""))
  }

  /** The custom fields as one dictionary, later fields overwriting earlier
      ones with the same key. */
  function Flattened(u: User): map<Value, Value> {
    Tabulate(u.customfields, FieldKey, FieldValue)
  }

  lemma FlattenedShape(u: User)
    ensures forall k :: k in Flattened(u) <==>
              exists i :: 0 <= i < |u.customfields| && FieldKey(u.customfields[i]) == k
    ensures forall k :: k in Flattened(u) ==>
              exists i :: 0 <= i < |u.customfields| && FieldKey(u.customfields[i]) == k &&
                          Flattened(u)[k] == FieldValue(u.customfields[i])
  {
    TabulateKeys(u.customfields, FieldKey, FieldValue);
  }

  lemma FlattenedLastWins(u: User, i: nat)
    requires i < |u.customfields|
    requires forall j :: i < j < |u.customfields| ==> FieldKey(u.customfields[j]) != FieldKey(u.customfields[i])
    ensures FieldKey(u.customfields[i]) in Flattened(u)
    ensures Flattened(u)[FieldKey(u.customfields[i])] == FieldValue(u.customfields[i])
  {
    TabulateLastWins(u.customfields, FieldKey, FieldValue, i);
  }

  /** `flatten_custom_fields`. */
  method FlattenCustomFields(u: User) returns (d: map<Value, Value>)
    ensures d == Flattened(u)
  {
    d := map[];
    var fields := u.customfields;
    var i := 0;
    while i < |fields|
      invariant 0 <= i <= |fields|
      invariant d == Tabulate(fields[..i], FieldKey, FieldValue)
    {
      var f := fields[i];
      var short := f.shortname.GetOr(Null);
      var key := if Truthy(short) then short else f.name.GetOr(Null);
      d := d[key := f.value.GetOr(Str(""))];
      assert fields[..i + 1][..i] == fields[..i];
      i := i + 1;
    }
    assert fields[..i] == fields;
  }

  // ---------------------------------------------------------------------------
  // Activity columns

  /** An activity column of a course: the module id and the column title. */
  datatype Column = Column(cmid: Option<int>, title: string)

  function RenderName(name: Option<string>): string {
    match name
    case Some(s) => s
    case None => "None"
  }

  /** `f"{meta['modname'].capitalize()}: {meta['name']}"`. */
  function ColumnTitle(a: Activity): string
    requires a.modname.Some?
  {
    Capitalize(a.modname.value) + ": " + RenderName(a.name)
  }

  /** The columns of the activities in dictionary order; `None` when some
      activity has no type tag (`capitalize` of `None` raises). */
  function Columns(keys: seq<Option<int>>, entries: map<Option<int>, Activity>): Option<seq<Column>>
    requires forall k | k in keys :: k in entries
  {
    if forall i :: 0 <= i < |keys| ==> entries[keys[i]].modname.Some? then
      Some(seq(|keys|, i requires 0 <= i < |keys| => Column(keys[i], ColumnTitle(entries[keys[i]]))))
    else None
  }

  /** The loop of `process_one_course` that names the activity columns. */
  method ActivityColumns(activities: Dict<Option<int>, Activity>) returns (r: Option<seq<Column>>)
    requires activities.Valid()
    ensures r == Columns(activities.keys, activities.entries)
  {
    var keys := activities.keys;
    var cols: seq<Column> := [];
    var k := 0;
    while k < |keys|
      invariant 0 <= k <= |keys|
      invariant |cols| == k
      invariant forall i :: 0 <= i < k ==> activities.entries[keys[i]].modname.Some?
      invariant forall i :: 0 <= i < k ==> cols[i] == Column(keys[i], ColumnTitle(activities.entries[keys[i]]))
    {
      var cmid := keys[k];
      var meta := activities.entries[cmid];
      if meta.modname.None? {
        assert !(forall i :: 0 <= i < |keys| ==> activities.entries[keys[i]].modname.Some?);
        return None;
      }
      var title := Capitalize(meta.modname.value) + ": " + RenderName(meta.name);
      assert title == ColumnTitle(meta);
      cols := cols + [Column(cmid, title)];
      k := k + 1;
    }
    ghost var spec := seq(|keys|, i requires 0 <= i < |keys| => Column(keys[i], ColumnTitle(activities.entries[keys[i]])));
    assert forall i :: 0 <= i < |keys| ==> cols[i] == spec[i];
    assert cols == spec;
    return Some(cols);
  }

  function Titles(cols: seq<Column>): (r: seq<string>)
    ensures |r| == |cols| && forall i :: 0 <= i < |cols| ==> r[i] == cols[i].title
  {
    seq(|cols|, i requires 0 <= i < |cols| => cols[i].title)
  }

  function ColumnKey(c: Column): Value {
    Str(c.title)
  }

  /** The cell of an activity column: the user's status for the module, or
      "Incomplete" when the status dictionary has no entry for it. */
  function CellFor(statuses: map<Option<int>, string>): Column -> Value {
    (c: Column) => Str(Get(statuses, c.cmid, "Incomplete"))
  }

  // ---------------------------------------------------------------------------
  // Rows of one user

  /** The standard profile part of `base_user`. */
  function StandardFields(u: User, clock: int -> string): Row {
    map[
      Str("User ID") := UserId(u),
      Str("Full Name") := Field(u, "fullname"),
      Str("Username") := Field(u, "username"),
      Str("Email") := Field(u, "email"),
      Str("Department") := Field(u, "department"),
      Str("Institution") := Field(u, "institution"),
      Str("City") := Field(u, "city"),
      Str("Country") := Field(u, "country"),
      Str("Last Access") := Str(LastAccess(u, clock)),
      Str("Role(s)") := Str(RoleNames(u))
    ]
  }

  /** `base_user` after `update(flatten_custom_fields(u))`. */
  function BaseUser(u: User, clock: int -> string): Row {
    StandardFields(u, clock) + Flattened(u)
  }

  function CourseHead(course: Course): Row {
    map[
      Str("Course ID") := Int(course.id),
      Str("Course Name") := Str(course.fullname),
      Str("Course Shortname") := Str(course.shortname.GetOr(""))
    ]
  }

  function CompletionCells(completion: (int, string)): Row {
    map[
      Str("Course Completion Status") := Str(completion.1),
      Str("Completion %") := Int(completion.0)
    ]
  }

  /** A user's row on the course's own sheet: course cells, then the profile
      (custom fields last), then the completion cells, then one cell per
      activity column, each later part overwriting same-named keys. */
  function PerCourseRow(course: Course, u: User, clock: int -> string, completion: (int, string),
                        statuses: map<Option<int>, string>, cols: seq<Column>): Row
  {
    CourseHead(course) + BaseUser(u, clock) + CompletionCells(completion)
      + Tabulate(cols, ColumnKey, CellFor(statuses))
  }

  /** An activity column whose title no later column repeats shows the
      user's status for its module, and "Incomplete" when there is none. */
  lemma ActivityCell(course: Course, u: User, clock: int -> string, completion: (int, string),
                     statuses: map<Option<int>, string>, cols: seq<Column>, j: nat)
    requires j < |cols|
    requires forall i :: j < i < |cols| ==> cols[i].title != cols[j].title
    ensures Str(cols[j].title) in PerCourseRow(course, u, clock, completion, statuses, cols)
    ensures PerCourseRow(course, u, clock, completion, statuses, cols)[Str(cols[j].title)] ==
              Str(Get(statuses, cols[j].cmid, "Incomplete"))
    ensures cols[j].cmid !in statuses ==>
              PerCourseRow(course, u, clock, completion, statuses, cols)[Str(cols[j].title)] == Str("Incomplete")
  {
    TabulateLastWins(cols, ColumnKey, CellFor(statuses), j);
  }

  /** Every activity column of a row holds one of the three labels, never a
      blank, whenever the status dictionary holds only labels. */
  lemma {:induction false} ActivityCellsAreLabels(course: Course, u: User, clock: int -> string, completion: (int, string),
                               statuses: map<Option<int>, string>, cols: seq<Column>)
    requires forall k :: k in statuses ==> IsLabel(statuses[k])
    ensures forall j :: 0 <= j < |cols| ==>
              var row := PerCourseRow(course, u, clock, completion, statuses, cols);
              Str(cols[j].title) in row && row[Str(cols[j].title)].Str? && IsLabel(row[Str(cols[j].title)].s)
  {
    var table := Tabulate(cols, ColumnKey, CellFor(statuses));
    TabulateKeys(cols, ColumnKey, CellFor(statuses));
    forall j | 0 <= j < |cols|
      ensures Str(cols[j].title) in table && table[Str(cols[j].title)].Str? && IsLabel(table[Str(cols[j].title)].s)
    {
      assert ColumnKey(cols[j]) == Str(cols[j].title);
      var i :| 0 <= i < |cols| && ColumnKey(cols[i]) == Str(cols[j].title) && table[Str(cols[j].title)] == CellFor(statuses)(cols[i]);
    }
  }

  /** A user whose activity-completion call failed sees "Incomplete" in every
      activity column. */
  lemma FailedActivityCallShowsIncomplete(course: Course, server: Server, clock: int -> string, u: User, cols: seq<Column>)
    requires server.activitiesCompletion(course.id, UserId(u)).CallFailed?
    ensures forall j :: 0 <= j < |cols| ==>
              var row := PerCourseRow(course, u, clock, Completion(server, course, u), Statuses(server, course, u), cols);
              Str(cols[j].title) in row && row[Str(cols[j].title)] == Str("Incomplete")
  {
    var statuses := Statuses(server, course, u);
    assert statuses == map[];
    var table := Tabulate(cols, ColumnKey, CellFor(statuses));
    TabulateKeys(cols, ColumnKey, CellFor(statuses));
    forall j | 0 <= j < |cols|
      ensures Str(cols[j].title) in table && table[Str(cols[j].title)] == Str("Incomplete")
    {
      assert ColumnKey(cols[j]) == Str(cols[j].title);
    }
  }

  /** A custom field overwrites the standard and course cells of the same
      name; only the completion cells and the activity columns come after it. */
  lemma CustomFieldOverrides(course: Course, u: User, clock: int -> string, completion: (int, string),
                             statuses: map<Option<int>, string>, cols: seq<Column>, k: Value)
    requires k in Flattened(u)
    requires k != Str("Course Completion Status") && k != Str("Completion %")
    requires forall j :: 0 <= j < |cols| ==> Str(cols[j].title) != k
    ensures PerCourseRow(course, u, clock, completion, statuses, cols)[k] == Flattened(u)[k]
  {
    TabulateKeys(cols, ColumnKey, CellFor(statuses));
  }

  /** A standard profile cell survives when no custom field, completion cell
      or activity column has its name. */
  lemma StandardFieldKept(course: Course, u: User, clock: int -> string, completion: (int, string),
                          statuses: map<Option<int>, string>, cols: seq<Column>, k: Value)
    requires k in StandardFields(u, clock) && k !in Flattened(u)
    requires forall j :: 0 <= j < |cols| ==> Str(cols[j].title) != k
    ensures PerCourseRow(course, u, clock, completion, statuses, cols)[k] == StandardFields(u, clock)[k]
  {
    var table := Tabulate(cols, ColumnKey, CellFor(statuses));
    TabulateKeys(cols, ColumnKey, CellFor(statuses));
    assert k !in table;
    var comp := CompletionCells(completion);
    assert k !in comp by {
      assert comp.Keys == {Str("Course Completion Status"), Str("Completion %")};
    }
    var base := BaseUser(u, clock);
    assert base[k] == StandardFields(u, clock)[k];
  }

  /** The headers of the consolidated sheet, in order. */
  const ConsolidatedHeaders: seq<string> :=
    ["User ID", "Full Name", "Manager", "Email", "Course ID", "Course Name",
     "Last Access", "Role(s)", "Completion %", "Course Completion Status"]

  /** A user's row on the consolidated sheet: one cell per consolidated
      header, the Manager cell left blank. */
  function ConsolidatedRow(course: Course, u: User, clock: int -> string, completion: (int, string)): (r: seq<Value>)
    ensures |r| == |ConsolidatedHeaders| == 10
    ensures r[2] == Str("")
    ensures r[0] == UserId(u) && r[4] == Int(course.id)
    ensures r[8] == Int(completion.0) && r[9] == Str(completion.1)
  {
    [UserId(u), Field(u, "fullname"), Str(""), Field(u, "email"), Int(course.id), Str(course.fullname),
     Str(LastAccess(u, clock)), Str(RoleNames(u)), Int(completion.0), Str(completion.1)]
  }

  /** A user's row on the enrolment sheet. */
  function EnrollmentRow(course: Course, u: User, clock: int -> string): Row {
    map[
      Str("User ID") := UserId(u),
      Str("Full Name") := Field(u, "fullname"),
      Str("Username") := Field(u, "username"),
      Str("Email") := Field(u, "email"),
      Str("Course ID") := Int(course.id),
      Str("Course Name") := Str(course.fullname),
      Str("Course Shortname") := Str(course.shortname.GetOr("")),
      Str("Role(s)") := Str(RoleNames(u)),
      Str("Last Access") := Str(LastAccess(u, clock))
    ]
  }

  // ---------------------------------------------------------------------------
  // process_one_course

  datatype CourseRows = CourseRows(
    perCourse: seq<Row>,
    consolidated: seq<seq<Value>>,
    enrollment: seq<Row>,
    activityColumns: seq<string>)

  function Completion(server: Server, course: Course, u: User): (int, string) {
    GetCourseCompletion(server.courseCompletion(course.id, UserId(u)))
  }

  function Statuses(server: Server, course: Course, u: User): map<Option<int>, string> {
    ActivityMap(server.activitiesCompletion(course.id, UserId(u)))
  }

  /** The rows of the enrolled users, one of each kind per user, in user order. */
  function UserRows(course: Course, server: Server, clock: int -> string, cols: seq<Column>, users: seq<User>): CourseRows {
    CourseRows(
      Mapped(users, (u: User) => PerCourseRow(course, u, clock, Completion(server, course, u), Statuses(server, course, u), cols)),
      Mapped(users, (u: User) => ConsolidatedRow(course, u, clock, Completion(server, course, u))),
      Mapped(users, (u: User) => EnrollmentRow(course, u, clock)),
      Titles(cols))
  }

  /** What `process_one_course` returns for a course, or `Raised` when it
      raises: the contents call failed, or an activity has no type tag. A
      failed enrolled-users call gives no rows but still the column titles. */
  function CourseOutcome(course: Course, server: Server, clock: int -> string): Result<CourseRows> {
    match server.contents(course.id)
    case CallFailed => Raised
    case Answer(sections) =>
      var d := Catalogue(AllModules(sections));
      match Columns(d.keys, d.entries)
      case None => Raised
      case Some(cols) =>
        match server.enrolledUsers(course.id)
        case CallFailed => Ok(CourseRows([], [], [], Titles(cols)))
        case Answer(users) => Ok(UserRows(course, server, clock, cols, users))
  }

  /** The body of the user loop of `process_one_course`: the three rows of
      one user. */
  method RowsOfUser(course: Course, server: Server, clock: int -> string, cols: seq<Column>, u: User)
    returns (courseRow: Row, consolidatedRow: seq<Value>, enrollmentRow: Row)
    ensures courseRow == PerCourseRow(course, u, clock, Completion(server, course, u), Statuses(server, course, u), cols)
    ensures consolidatedRow == ConsolidatedRow(course, u, clock, Completion(server, course, u))
    ensures enrollmentRow == EnrollmentRow(course, u, clock)
  {
    var cid := course.id;
    var uid := UserId(u);
    var baseUser := StandardFields(u, clock);
    var custom := FlattenCustomFields(u);
    baseUser := baseUser + custom;

    var completion := GetCourseCompletion(server.courseCompletion(cid, uid));
    var statuses := GetActivityCompletion(server.activitiesCompletion(cid, uid));

    var head := CourseHead(course) + baseUser + CompletionCells(completion);
    courseRow := head;
    var j := 0;
    while j < |cols|
      invariant 0 <= j <= |cols|
      invariant courseRow == head + Tabulate(cols[..j], ColumnKey, CellFor(statuses))
    {
      courseRow := courseRow[Str(cols[j].title) := Str(Get(statuses, cols[j].cmid, "Incomplete"))];
      assert cols[..j + 1][..j] == cols[..j];
      UnionUpdate(head, Tabulate(cols[..j], ColumnKey, CellFor(statuses)), Str(cols[j].title), Str(Get(statuses, cols[j].cmid, "Incomplete")));
      j := j + 1;
    }
    assert cols[..j] == cols;

    consolidatedRow := ConsolidatedRow(course, u, clock, completion);
    enrollmentRow := EnrollmentRow(course, u, clock);
  }

  /** The user loop of `process_one_course`: one row of each kind per user,
      appended in user order. */
  method RowsOfUsers(course: Course, server: Server, clock: int -> string, cols: seq<Column>, users: seq<User>)
    returns (rows: CourseRows)
    ensures rows == UserRows(course, server, clock, cols, users)
  {
    var perCourse: seq<Row> := [];
    var consolidated: seq<seq<Value>> := [];
    var enrollment: seq<Row> := [];
    var i := 0;
    while i < |users|
      invariant 0 <= i <= |users|
      invariant CourseRows(perCourse, consolidated, enrollment, Titles(cols)) == UserRows(course, server, clock, cols, users[..i])
    {
      var courseRow, consolidatedRow, enrollmentRow := RowsOfUser(course, server, clock, cols, users[i]);
      perCourse := perCourse + [courseRow];
      consolidated := consolidated + [consolidatedRow];
      enrollment := enrollment + [enrollmentRow];
      assert users[..i + 1][..i] == users[..i];
      i := i + 1;
    }
    assert users[..i] == users;
    rows := CourseRows(perCourse, consolidated, enrollment, Titles(cols));
  }

  /** `process_one_course`. */
  method ProcessOneCourse(course: Course, server: Server, clock: int -> string) returns (r: Result<CourseRows>)
    ensures r == CourseOutcome(course, server, clock)
  {
    var cid := course.id;
    var fetched := GetCourseActivities(server.contents(cid));
    if fetched.Raised? {
      return Raised;
    }
    var named := ActivityColumns(fetched.value);
    if named.None? {
      return Raised;
    }
    var cols := named.value;
    var reply := server.enrolledUsers(cid);
    if reply.CallFailed? {
      return Ok(CourseRows([], [], [], Titles(cols)));
    }
    var rows := RowsOfUsers(course, server, clock, cols, reply.data);
    return Ok(rows);
  }

  /** A failed contents call drops the course. A course that does not raise
      keeps one activity column title per catalogue entry, in catalogue order,
      even when its enrolled-users call fails (it then has no rows);
      otherwise each kind of row has one entry per enrolled user, the i-th
      built from the i-th user. */
  lemma CourseOutcomeShape(course: Course, server: Server, clock: int -> string)
    ensures server.contents(course.id).CallFailed? ==> CourseOutcome(course, server, clock) == Raised
    ensures CourseOutcome(course, server, clock).Ok? ==>
              && server.contents(course.id).Answer?
              && var d := Catalogue(AllModules(server.contents(course.id).data));
                 var titles := CourseOutcome(course, server, clock).value.activityColumns;
                 && |titles| == |d.keys|
                 && (forall i :: 0 <= i < |d.keys| ==>
                       d.entries[d.keys[i]].modname.Some? && titles[i] == ColumnTitle(d.entries[d.keys[i]]))
    ensures CourseOutcome(course, server, clock).Ok? && server.enrolledUsers(course.id).CallFailed? ==>
              var rows := CourseOutcome(course, server, clock).value;
              rows.perCourse == [] && rows.consolidated == [] && rows.enrollment == []
    ensures CourseOutcome(course, server, clock).Ok? && server.enrolledUsers(course.id).Answer? ==>
              var rows := CourseOutcome(course, server, clock).value;
              var users := server.enrolledUsers(course.id).data;
              && |rows.perCourse| == |rows.consolidated| == |rows.enrollment| == |users|
              && (forall i :: 0 <= i < |users| ==>
                    rows.enrollment[i] == EnrollmentRow(course, users[i], clock)
                    && rows.consolidated[i] == ConsolidatedRow(course, users[i], clock, Completion(server, course, users[i])))
  {
  }
}
