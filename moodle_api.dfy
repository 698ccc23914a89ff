/** The records the Moodle web service returns and the queries that shape
    them: the course list and its filter, the visible activities of a course,
    and a user's course-level and per-activity completion. */
module MoodleApi {
  import opened Values
  import opened Text

  // ---------------------------------------------------------------------------
  // Records of the replies

  /** A course as `core_course_get_courses_by_field` lists it. */
  datatype Course = Course(id: int, fullname: string, shortname: Option<string>)

  /** A course module as `core_course_get_contents` lists it inside a section;
      an absent key is `None`. */
  datatype Module = Module(
    id: Option<int>,
    name: Option<string>,
    modname: Option<string>,
    uservisible: Option<Value>,
    deletioninprogress: Option<Value>)

  datatype Section = Section(modules: seq<Module>)

  /** What the report keeps of a module: its display name and its type tag. */
  datatype Activity = Activity(name: Option<string>, modname: Option<string>)

  /** The `completionstatus` part of `core_completion_get_course_completion_status`:
      absent (or the reply is not an object), present but not an object, or an
      object with an optional `completed` flag. */
  datatype CompletionReply =
    | NoCompletionStatus
    | StatusNotObject
    | CompletionStatus(completed: Option<Value>)

  /** One entry of `statuses` in `core_completion_get_activities_completion_status`. */
  datatype ActivityState = ActivityState(cmid: Option<int>, state: Option<Value>)

  /** One entry of a user's `roles`. */
  datatype Role = Role(name: Option<Value>, roleid: Option<Value>)

  /** One entry of a user's `customfields`. */
  datatype CustomField = CustomField(shortname: Option<Value>, name: Option<Value>, value: Option<Value>)

  /** An enrolled user: the scalar profile fields by key (`id`, `fullname`,
      `email`, ...), the last-access timestamp, the roles and the custom
      profile fields (absent or null lists are empty). */
  datatype User = User(
    fields: map<string, Value>,
    lastaccess: Option<int>,
    roles: seq<Role>,
    customfields: seq<CustomField>)

  /** The web service as the report sees it: each call's outcome, by its
      arguments (course id, and user id where the call takes one). */
  datatype Server = Server(
    contents: int -> Response<seq<Section>>,
    enrolledUsers: int -> Response<seq<User>>,
    courseCompletion: (int, Value) -> Response<CompletionReply>,
    activitiesCompletion: (int, Value) -> Response<seq<ActivityState>>)

  // ---------------------------------------------------------------------------
  // get_all_courses

  function LowerAll(entries: seq<string>): (r: seq<string>)
    ensures |r| == |entries|
    ensures forall i :: 0 <= i < |entries| ==> r[i] == Lower(entries[i])
  {
    seq(|entries|, i requires 0 <= i < |entries| => Lower(entries[i]))
  }

  /** A course is wanted when its id, as a decimal string, or its lower-cased
      full name is one of the (lower-cased) filter entries. */
  predicate Matches(c: Course, wanted: seq<string>) {
    IntToString(c.id) in wanted || Lower(c.fullname) in wanted
  }

  /** The wanted courses, in the order of the course list. */
  function Select(courses: seq<Course>, wanted: seq<string>): (r: seq<Course>)
    ensures |r| <= |courses|
    ensures forall c :: c in r <==> c in courses && Matches(c, wanted)
  {
    if courses == [] then []
    else
      var last := courses[|courses| - 1];
      assert courses == courses[..|courses| - 1] + [last];
      Select(courses[..|courses| - 1], wanted) + (if Matches(last, wanted) then [last] else [])
  }

  /** Selection works piece by piece: the courses of an earlier part of the
      list come before those of a later part. */
  lemma {:induction false} SelectConcat(a: seq<Course>, b: seq<Course>, wanted: seq<string>)
    ensures Select(a + b, wanted) == Select(a, wanted) + Select(b, wanted)
    decreases |b|
  {
    if b == [] {
      assert a + b == a;
    } else {
      var n := |b| - 1;
      assert (a + b)[..|a + b| - 1] == a + b[..n];
      assert (a + b)[|a + b| - 1] == b[n];
      SelectConcat(a, b[..n], wanted);
    }
  }

  /** A filter entry that names no course changes nothing. */
  lemma {:induction false} SelectIgnoresUnmatched(courses: seq<Course>, wanted: seq<string>, extra: string)
    requires forall i :: 0 <= i < |courses| ==> !Matches(courses[i], [extra])
    ensures Select(courses, wanted + [extra]) == Select(courses, wanted)
  {
    if courses != [] {
      var n := |courses| - 1;
      SelectIgnoresUnmatched(courses[..n], wanted, extra);
      assert Matches(courses[n], wanted + [extra]) == Matches(courses[n], wanted);
    }
  }

  /** `get_all_courses`: the whole list when the filter is absent or empty,
      otherwise the wanted courses in list order. A failed call is not caught
      here. */
  method GetAllCourses(reply: Response<seq<Course>>, specific: Option<seq<string>>)
    returns (r: Result<seq<Course>>)
    ensures reply.CallFailed? ==> r == Raised
    ensures reply.Answer? && (specific.None? || specific.value == []) ==> r == Ok(reply.data)
    ensures reply.Answer? && specific.Some? && specific.value != [] ==>
              r == Ok(Select(reply.data, LowerAll(specific.value)))
  {
    if reply.CallFailed? {
      return Raised;
    }
    var courses := reply.data;
    if specific.Some? && specific.value != [] {
      var wanted := LowerAll(specific.value);
      var filtered := [];
      var i := 0;
      while i < |courses|
        invariant 0 <= i <= |courses|
        invariant filtered == Select(courses[..i], wanted)
      {
        var c := courses[i];
        assert courses[..i + 1][..i] == courses[..i] && courses[..i + 1][i] == c;
        assert Select(courses[..i + 1], wanted) == filtered + (if Matches(c, wanted) then [c] else []);
        if IntToString(c.id) in wanted || Lower(c.fullname) in wanted {
          filtered := filtered + [c];
        }
        i := i + 1;
      }
      assert courses[..i] == courses;
      return Ok(filtered);
    }
    return Ok(courses);
  }

  // ---------------------------------------------------------------------------
  // get_course_activities

  /** A module is reported when it is visible to users (`uservisible`,
      default true) and not being deleted (`deletioninprogress`, default
      false). */
  predicate Listed(m: Module) {
    Truthy(m.uservisible.GetOr(Bool(true))) && !Truthy(m.deletioninprogress.GetOr(Bool(false)))
  }

  function MetaOf(m: Module): Activity {
    Activity(m.name, m.modname)
  }

  /** The modules of all sections, section by section. */
  function AllModules(sections: seq<Section>): seq<Module> {
    if sections == [] then []
    else AllModules(sections[..|sections| - 1]) + sections[|sections| - 1].modules
  }

  /** The activity dictionary left by visiting `mods` in order, keyed by
      module id. */
  function Catalogue(mods: seq<Module>): (d: Dict<Option<int>, Activity>)
    ensures d.Valid()
  {
    if mods == [] then EmptyDict()
    else
      var d := Catalogue(mods[..|mods| - 1]);
      var m := mods[|mods| - 1];
      if Listed(m) then d.Put(m.id, MetaOf(m)) else d
  }

  /** The dictionary holds exactly the ids of the listed modules. */
  lemma {:induction false} CatalogueKeys(mods: seq<Module>)
    ensures forall k :: k in Catalogue(mods).entries <==>
              exists i :: 0 <= i < |mods| && Listed(mods[i]) && mods[i].id == k
  {
    if mods != [] {
      var n := |mods| - 1;
      CatalogueKeys(mods[..n]);
      forall k ensures k in Catalogue(mods).entries <==>
                       exists i :: 0 <= i < |mods| && Listed(mods[i]) && mods[i].id == k
      {
        if exists i :: 0 <= i < |mods| && Listed(mods[i]) && mods[i].id == k {
          var i :| 0 <= i < |mods| && Listed(mods[i]) && mods[i].id == k;
          if i < n {
            assert mods[..n][i] == mods[i];
          }
        }
        if k in Catalogue(mods[..n]).entries {
          var i :| 0 <= i < n && Listed(mods[..n][i]) && mods[..n][i].id == k;
          assert mods[i] == mods[..n][i];
        }
      }
    }
  }

  /** A later listed module with the same id overwrites an earlier one. */
  lemma {:induction false} CatalogueLastWins(mods: seq<Module>, i: nat)
    requires i < |mods| && Listed(mods[i])
    requires forall j :: i < j < |mods| && Listed(mods[j]) ==> mods[j].id != mods[i].id
    ensures mods[i].id in Catalogue(mods).entries
    ensures Catalogue(mods).entries[mods[i].id] == MetaOf(mods[i])
  {
    var n := |mods| - 1;
    if i < n {
      var front := mods[..n];
      assert front[i] == mods[i];
      forall j | i < j < |front| && Listed(front[j]) ensures front[j].id != front[i].id {
        assert front[j] == mods[j];
      }
      CatalogueLastWins(front, i);
    }
  }

  /** Visiting more modules only appends keys: the keys after a prefix of the
      modules are a prefix of the final keys. */
  lemma {:induction false} CataloguePrefix(mods: seq<Module>, m: nat)
    requires m <= |mods|
    ensures Catalogue(mods[..m]).keys <= Catalogue(mods).keys
    decreases |mods| - m
  {
    if m < |mods| {
      CataloguePrefix(mods, m + 1);
      assert mods[..m + 1][..m] == mods[..m];
    } else {
      assert mods[..m] == mods;
    }
  }

  /** Activities keep the order in which their ids first appear: when a
      listed module comes after another listed module and is the first
      listed one with its id, its id comes later in the keys (and so its
      column comes later on the course sheet). */
  lemma CatalogueOrder(mods: seq<Module>, i: nat, j: nat)
    requires i < j < |mods| && Listed(mods[i]) && Listed(mods[j])
    requires forall k :: 0 <= k < j && Listed(mods[k]) ==> mods[k].id != mods[j].id
    ensures exists p, q :: 0 <= p < q < |Catalogue(mods).keys| &&
              Catalogue(mods).keys[p] == mods[i].id && Catalogue(mods).keys[q] == mods[j].id
  {
    var before := Catalogue(mods[..j]);
    CatalogueKeys(mods[..j]);
    assert mods[..j][i] == mods[i];
    assert mods[i].id in before.entries;
    var p :| 0 <= p < |before.keys| && before.keys[p] == mods[i].id;
    assert mods[j].id !in before.entries;
    assert mods[..j + 1][..j] == mods[..j];
    var after := Catalogue(mods[..j + 1]);
    assert after.keys == before.keys + [mods[j].id];
    CataloguePrefix(mods, j + 1);
    var keys := Catalogue(mods).keys;
    assert keys[p] == after.keys[p] && keys[|before.keys|] == after.keys[|before.keys|];
  }

  /** `get_course_activities`: walks every module of every section and records
      the listed ones by id. A failed call is not caught here. */
  method GetCourseActivities(reply: Response<seq<Section>>)
    returns (r: Result<Dict<Option<int>, Activity>>)
    ensures reply.CallFailed? ==> r == Raised
    ensures reply.Answer? ==> r == Ok(Catalogue(AllModules(reply.data)))
  {
    if reply.CallFailed? {
      return Raised;
    }
    var sections := reply.data;
    var activities := EmptyDict();
    var i := 0;
    while i < |sections|
      invariant 0 <= i <= |sections|
      invariant activities == Catalogue(AllModules(sections[..i]))
    {
      var mods := sections[i].modules;
      ghost var before := AllModules(sections[..i]);
      var j := 0;
      assert before + mods[..0] == before;
      while j < |mods|
        invariant 0 <= j <= |mods|
        invariant activities == Catalogue(before + mods[..j])
      {
        var m := mods[j];
        if Listed(m) {
          activities := activities.Put(m.id, MetaOf(m));
        }
        assert (before + mods[..j + 1])[..|before + mods[..j + 1]| - 1] == before + mods[..j];
        j := j + 1;
      }
      assert mods[..j] == mods;
      assert sections[..i + 1][..i] == sections[..i];
      i := i + 1;
    }
    assert sections[..i] == sections;
    return Ok(activities);
  }

  // ---------------------------------------------------------------------------
  // get_course_completion

  /** `get_course_completion`: the course-level (percentage, label) of a user.
      A failed call, a reply without `completionstatus` and one whose
      `completionstatus` cannot be read give (0, "N/A"). */
  function GetCourseCompletion(reply: Response<CompletionReply>): (r: (int, string))
    ensures r.0 == 0 || r.0 == 100
    ensures r.0 == 100 <==> r.1 == "Completed"
    ensures r.1 == "Completed" || r.1 == "Incomplete" || r.1 == "N/A"
    ensures r == (100, "Completed") <==>
              reply.Answer? && reply.data.CompletionStatus? && Truthy(reply.data.completed.GetOr(Null))
    ensures r == (0, "Incomplete") <==>
              reply.Answer? && reply.data.CompletionStatus? && !Truthy(reply.data.completed.GetOr(Null))
    ensures r == (0, "N/A") <==> !(reply.Answer? && reply.data.CompletionStatus?)
  {
    match reply
    case CallFailed => (0, "N/A")
    case Answer(CompletionStatus(completed)) =>
      var done := Truthy(completed.GetOr(Null));
      (if done then 100 else 0, if done then "Completed" else "Incomplete")
    case Answer(_) => (0, "N/A")
  }

  // ---------------------------------------------------------------------------
  // get_activity_completion

  predicate IsLabel(s: string) {
    s == "Completed" || s == "Failed" || s == "Incomplete"
  }

  /** The label of a numeric completion state; a missing state counts as 0. */
  function StateLabel(state: Option<Value>): (tag: string)
    ensures IsLabel(tag)
    ensures tag == "Completed" <==> EqualsInt(state.GetOr(Int(0)), 1) || EqualsInt(state.GetOr(Int(0)), 2)
    ensures tag == "Failed" <==> EqualsInt(state.GetOr(Int(0)), 3)
    ensures state.None? ==> tag == "Incomplete"
  {
    var s := state.GetOr(Int(0));
    if EqualsInt(s, 1) || EqualsInt(s, 2) then "Completed"
    else if EqualsInt(s, 3) then "Failed"
    else "Incomplete"
  }

  function CmidOf(s: ActivityState): Option<int> {
    s.cmid
  }

  function LabelOf(s: ActivityState): string {
    StateLabel(s.state)
  }

  /** The activity-status dictionary of a reply: empty when the call failed. */
  function ActivityMap(reply: Response<seq<ActivityState>>): map<Option<int>, string> {
    match reply
    case CallFailed => map[]
    case Answer(statuses) => Tabulate(statuses, CmidOf, LabelOf)
  }

  /** Every key of the dictionary is the `cmid` of some status and every
      `cmid` is a key; every value is one of the three labels, that of the
      last status with its `cmid`. */
  lemma ActivityMapShape(reply: Response<seq<ActivityState>>)
    ensures reply.CallFailed? ==> ActivityMap(reply) == map[]
    ensures reply.Answer? ==> forall k :: k in ActivityMap(reply) <==>
              exists i :: 0 <= i < |reply.data| && reply.data[i].cmid == k
    ensures forall k :: k in ActivityMap(reply) ==> IsLabel(ActivityMap(reply)[k])
  {
    if reply.Answer? {
      TabulateKeys(reply.data, CmidOf, LabelOf);
    }
  }

  lemma ActivityMapLastWins(statuses: seq<ActivityState>, i: nat)
    requires i < |statuses|
    requires forall j :: i < j < |statuses| ==> statuses[j].cmid != statuses[i].cmid
    ensures statuses[i].cmid in ActivityMap(Answer(statuses))
    ensures ActivityMap(Answer(statuses))[statuses[i].cmid] == StateLabel(statuses[i].state)
  {
    TabulateLastWins(statuses, CmidOf, LabelOf, i);
  }

  /** `get_activity_completion`: maps each status's `cmid` to its label; a
      failed call leaves the dictionary empty. */
  method GetActivityCompletion(reply: Response<seq<ActivityState>>) returns (out: map<Option<int>, string>)
    ensures out == ActivityMap(reply)
  {
    out := map[];
    if reply.CallFailed? {
      return;
    }
    var statuses := reply.data;
    var i := 0;
    while i < |statuses|
      invariant 0 <= i <= |statuses|
      invariant out == Tabulate(statuses[..i], CmidOf, LabelOf)
    {
      var s := statuses[i];
      var status;
      var state := s.state.GetOr(Int(0));
      if EqualsInt(state, 1) || EqualsInt(state, 2) {
        status := "Completed";
      } else if EqualsInt(state, 3) {
        status := "Failed";
      } else {
        status := "Incomplete";
      }
      out := out[s.cmid := status];
      assert statuses[..i + 1][..i] == statuses[..i];
      i := i + 1;
    }
    assert statuses[..i] == statuses;
  }
}
