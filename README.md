# Moodle course completion report — a Dafny model

The script `moodle_course_status-specific.py` queries a Moodle site through its
REST web service and writes an Excel workbook. The workbook has:

- a consolidated sheet with one row per (course, enrolled user);
- one sheet per course, with a column per visible activity holding the user's
  completion label;
- an enrolment sheet.

This project models the script's core:

- the course filter of `get_all_courses`;
- the activity catalogue of `get_course_activities`;
- the course-level and per-activity completion readers;
- `role_names` and `flatten_custom_fields`;
- the three kinds of rows built by `process_one_course`;
- the column widths of `autosize_columns`;
- in `main`: the merge of the per-course results, the sheet order and titles
  (`sanitize_sheet_name` with its `"Course"` fallback) and the cells written
  for each row.

Modules:

- `Values` (values.dfy): the web service's replies and Python's dictionaries.
  - A reply is `Answer(data)` or `CallFailed`. `CallFailed` stands for the
    exception `call_moodle` raises once its retries are exhausted.
  - An exception that leaves a routine is `Raised`.
  - JSON scalars have Python truthiness, and `True == 1`.
  - An insertion-ordered dictionary is `Dict`.
  - The dictionaries whose order is never read (activity statuses, custom
    fields, the activity cells of a row) are built by the fold `Tabulate`,
    a later entry overwriting an earlier one. The activity dictionary of
    `get_course_activities`, whose order becomes the column order, is a
    `Dict` built with `Put`.
- `Text` (text.dfy): ASCII case mapping, `str()` of integers, `", ".join` and
  Python string order.
- `SheetName` (sheet_name.dfy): `sanitize_sheet_name` and the sheet title.
- `MoodleApi` (moodle_api.dfy): the reply records, the `Server` (each web
  service call's outcome as a function of its arguments), `get_all_courses`,
  `get_course_activities`, `get_course_completion` and
  `get_activity_completion`.
- `CourseRows` (course_rows.dfy): `role_names`, `flatten_custom_fields` and
  `process_one_course`, with the rows it builds.
- `Report` (report.dfy): the parts of `main` listed above, and
  `autosize_columns`.

The loops of the script are methods proved against specification functions:
each method's postcondition equates its result with the function. Lemmas state
what the functions guarantee.

## Model

| member | source | states |
|---|---|---|
| SheetName.KeepAlnum | moodle-course-tools/moodle_course_status-specific.py:29 | the regex deletion leaves only ASCII letters and digits and never lengthens the name |
| SheetName.KeepAlnumCounts | moodle-course-tools/moodle_course_status-specific.py:29 | every letter and digit of the name is kept, as many times as it occurs |
| SheetName.KeepAlnumConcat | moodle-course-tools/moodle_course_status-specific.py:29 | the deletion works piece by piece, so the kept characters stay in their original order |
| SheetName.KeepAlnumEmpty | moodle-course-tools/moodle_course_status-specific.py:29 | nothing is left exactly when the name has no ASCII letter or digit |
| SheetName.Sanitize | moodle-course-tools/moodle_course_status-specific.py:20-32 | the result is a prefix of the cleaned name, all letters and digits, of length min(cleaned length, 31) |
| SheetName.SanitizeIdempotent | moodle-course-tools/moodle_course_status-specific.py:20-32 | sanitising twice gives the same title as sanitising once |
| SheetName.SanitizeKeepsValidName | moodle-course-tools/moodle_course_status-specific.py:20-32 | a name of at most 31 letters and digits is returned unchanged |
| SheetName.SheetTitle | moodle-course-tools/moodle_course_status-specific.py:284 | every per-course sheet title has 1 to 31 characters, all letters and digits |
| SheetName.SheetTitleFallback | moodle-course-tools/moodle_course_status-specific.py:284 | the fallback "Course" is taken exactly when the short name has no letter or digit; otherwise the title is the non-empty sanitised short name |
| MoodleApi.Select | moodle-course-tools/moodle_course_status-specific.py:63-67 | a course is kept iff it is in the list and its decimal id or lower-cased full name is a filter entry; the result is never longer than the list |
| MoodleApi.SelectConcat | moodle-course-tools/moodle_course_status-specific.py:64-66 | the filter keeps the course list's order |
| MoodleApi.SelectIgnoresUnmatched | moodle-course-tools/moodle_course_status-specific.py:65 | adding a filter entry that matches no course changes nothing |
| MoodleApi.GetAllCourses | moodle-course-tools/moodle_course_status-specific.py:58-68 | a failed call raises; an absent or empty filter returns every course; otherwise it returns the selected courses |
| MoodleApi.Catalogue | moodle-course-tools/moodle_course_status-specific.py:75-80 | the activity dictionary is well formed: its keys are distinct and are exactly the keys of its entries |
| MoodleApi.CataloguePrefix | moodle-course-tools/moodle_course_status-specific.py:76-80 | visiting more modules only appends keys: an id keeps the place it got when first inserted |
| MoodleApi.CatalogueOrder | moodle-course-tools/moodle_course_status-specific.py:76-80 | activities are ordered by the first appearance of their ids: a listed module that is the first listed one with its id comes after every earlier listed module's id |
| MoodleApi.CatalogueKeys | moodle-course-tools/moodle_course_status-specific.py:78-80 | the dictionary's keys are exactly the ids of the modules that are user-visible (default true) and not being deleted (default false) |
| MoodleApi.CatalogueLastWins | moodle-course-tools/moodle_course_status-specific.py:80 | a listed module's name and type are kept unless a later listed module has the same id |
| MoodleApi.GetCourseActivities | moodle-course-tools/moodle_course_status-specific.py:73-81 | a failed call raises; otherwise the result is the catalogue of every section's modules in order |
| MoodleApi.GetCourseCompletion | moodle-course-tools/moodle_course_status-specific.py:83-92 | the result is (100, "Completed") iff the status is present with a truthy `completed`, (0, "Incomplete") iff it is present and not truthy, and (0, "N/A") on any failure or missing status |
| MoodleApi.StateLabel | moodle-course-tools/moodle_course_status-specific.py:101-107 | states 1 and 2 (True counts as 1) give "Completed", 3 gives "Failed", and anything else, including a missing state, gives "Incomplete" |
| MoodleApi.ActivityMapShape | moodle-course-tools/moodle_course_status-specific.py:94-111 | a failed call gives an empty dictionary; otherwise the keys are exactly the statuses' cmids, and every value is one of the three labels |
| MoodleApi.ActivityMapLastWins | moodle-course-tools/moodle_course_status-specific.py:99-108 | a status's label is the value for its cmid unless a later status has the same cmid |
| MoodleApi.GetActivityCompletion | moodle-course-tools/moodle_course_status-specific.py:94-111 | the loop builds exactly the activity-status dictionary of the reply |
| CourseRows.RoleLabels | moodle-course-tools/moodle_course_status-specific.py:115 | the labels exist iff no role has a non-string name; when they exist, each is that role's name or `str()` of its id |
| CourseRows.RoleNamesCases | moodle-course-tools/moodle_course_status-specific.py:113-117 | any role whose name is not a string makes the cell ""; otherwise the cell is the labels joined by ", " |
| CourseRows.FlattenedShape | moodle-course-tools/moodle_course_status-specific.py:123-128 | the keys are exactly the fields' shortname-or-name, and each value is the value of some field with that key |
| CourseRows.FlattenedLastWins | moodle-course-tools/moodle_course_status-specific.py:126-127 | a field's value is kept unless a later field has the same key |
| CourseRows.FlattenCustomFields | moodle-course-tools/moodle_course_status-specific.py:123-128 | the loop builds exactly the flattened custom-field dictionary |
| CourseRows.ActivityColumns | moodle-course-tools/moodle_course_status-specific.py:139-142 | one column per activity in dictionary order, titled "Type: name"; None (the course raises) when some activity has no type |
| CourseRows.ActivityCell | moodle-course-tools/moodle_course_status-specific.py:182-183 | an activity column not repeated later holds the user's status for its module, and "Incomplete" when there is none |
| CourseRows.ActivityCellsAreLabels | moodle-course-tools/moodle_course_status-specific.py:182-183 | every activity column of a per-course row holds one of the three labels |
| CourseRows.FailedActivityCallShowsIncomplete | moodle-course-tools/moodle_course_status-specific.py:109-111 | when the activity-completion call fails, every activity column reads "Incomplete" |
| CourseRows.CustomFieldOverrides | moodle-course-tools/moodle_course_status-specific.py:168-181 | a custom field overwrites a standard or course cell of the same name; only the completion and activity cells come after it |
| CourseRows.StandardFieldKept | moodle-course-tools/moodle_course_status-specific.py:156-181 | a standard profile cell survives when no custom field, completion cell or activity column shares its name |
| CourseRows.ConsolidatedRow | moodle-course-tools/moodle_course_status-specific.py:187-198 | ten cells, one per consolidated header: the user id first, a blank Manager cell, the course id, then the percentage and the label last |
| CourseRows.RowsOfUser | moodle-course-tools/moodle_course_status-specific.py:155-211 | one user's per-course, consolidated and enrolment rows, as the row functions define them |
| CourseRows.RowsOfUsers | moodle-course-tools/moodle_course_status-specific.py:150-213 | the user loop appends the rows of each user, in user order |
| CourseRows.ProcessOneCourse | moodle-course-tools/moodle_course_status-specific.py:130-213 | the method returns exactly the course outcome: it raises on a failed contents call or a missing type; a failed enrolled-users call gives no rows but still the column titles |
| CourseRows.CourseOutcomeShape | moodle-course-tools/moodle_course_status-specific.py:138-213 | a failed contents call raises. A course that does not raise keeps one activity title per catalogue entry, in catalogue order, even when its user call fails (it then has no rows). Otherwise: one row of each kind per user, and the i-th consolidated and enrolment rows come from the i-th user |
| Values.TabulateKeys | moodle-course-tools/moodle_course_status-specific.py:125-127 | a dictionary filled by a loop (here the custom fields) has exactly the items' keys, and each value belongs to an item with that key |
| Values.TabulateLastWins | moodle-course-tools/moodle_course_status-specific.py:127 | in such a dictionary, the last item with a given key wins |
| Values.Mapped | moodle-course-tools/moodle_course_status-specific.py:154 | one result per user, the i-th from the i-th user |
| Text.NatToStringInjective | moodle-course-tools/moodle_course_status-specific.py:65 | distinct natural numbers have distinct decimal forms |
| Text.IntToStringInjective | moodle-course-tools/moodle_course_status-specific.py:65 | `str(a) == str(b)` only when a == b, so an id filter entry names one id |
| Text.LexLeTotal | moodle-course-tools/moodle_course_status-specific.py:283 | any two sort keys are ordered one way or the other |
| Report.ScopeByCourseId | moodle-course-tools/moodle_course_status-specific.py:244-248 | a nonzero `--courseid` replaces the file filter; it keeps exactly the courses with that id or with that number as full name |
| Report.MergeConcat | moodle-course-tools/moodle_course_status-specific.py:255-263 | results are merged by concatenation, in completion order |
| Report.MergeOne | moodle-course-tools/moodle_course_status-specific.py:259-266 | a task that raised adds nothing; a course without users adds a sheet but no consolidated or enrolment rows |
| Report.CollectResults | moodle-course-tools/moodle_course_status-specific.py:255-266 | the collecting loop produces exactly the merge of the finished tasks |
| Report.InsertSheet | moodle-course-tools/moodle_course_status-specific.py:283 | inserting into a sorted list keeps it sorted and adds exactly the one sheet |
| Report.SortSheets | moodle-course-tools/moodle_course_status-specific.py:283 | the per-course sheets are the same multiset, ordered by lower-cased short name |
| Report.SheetHeaders | moodle-course-tools/moodle_course_status-specific.py:285-291 | 13 leading headers, then the activity titles in order, then 2 trailing headers |
| Report.WorkbookShape | moodle-course-tools/moodle_course_status-specific.py:270-303 | the consolidated sheet comes first and the enrolment sheet last, with one per-course sheet between them per finished course, in sorted order; each per-course title has 1 to 31 letters and digits, and each sheet has one row more than its data rows, for the header |
| Report.WorkbookOuterSheets | moodle-course-tools/moodle_course_status-specific.py:272-302 | the consolidated sheet is its header row followed by the merged consolidated rows in completion order; the enrolment sheet is its header row followed by each merged enrolment row projected onto the nine enrolment headers, "" where a row lacks one |
| Report.CourseSheetRowsAligned | moodle-course-tools/moodle_course_status-specific.py:285-294 | every row of a per-course sheet has 15 cells plus one per activity |
| Report.ActivityColumnShown | moodle-course-tools/moodle_course_status-specific.py:291-294 | the cell under each activity header is one of the three labels, never blank |
| Report.LongestIsMaximum | moodle-course-tools/moodle_course_status-specific.py:218-223 | the longest length bounds every non-empty cell of the column, and is one of them or 0 |
| Report.ColumnWidth | moodle-course-tools/moodle_course_status-specific.py:224 | the width lies in [12, 60]: 12 for short columns, 60 for long ones, otherwise the longest length + 2 |
| Report.AutosizeColumns | moodle-course-tools/moodle_course_status-specific.py:215-224 | one width per column, computed from the longest rendered value in it and always in [12, 60] |

## Left out

- HTTP, retries and back-off of `call_moodle` are not modelled. Each call is an outcome given as input: a reply, or a failure after the retries.
- The thread pool is not modelled. The order in which tasks finish is the order of `CollectResults`'s input, and any order is allowed.
- openpyxl is not modelled: how cells are stored and saved, and the renaming of duplicate sheet titles.
- Rendered cell lengths (`len(str(val))`) are an input to `AutosizeColumns`, not computed from the values.
- `last_access_str`'s local-time formatting is the parameter `clock`. Only its "" for a missing or zero timestamp is modelled.
- argparse, reading the courses file, the output file name and the timestamp are not modelled.
- `print` is not modelled.
- Lower-casing and `capitalize` cover ASCII letters only. Python applies full Unicode case mapping.
- Python treats `1` and `True` as the same dictionary key. The model keys rows by JSON value and keeps them apart; `True == 1` is modelled only in `StateLabel`.
- A `null` or non-list `roles`, `modules` or `statuses` is not modelled: these lists are always lists here. A `null` `customfields` is the empty list, as in the script.
- Courses without `id` or `fullname` are not modelled. The course record always carries both.
- Floating-point JSON values are not modelled.
- `categoryid` is read by `process_one_course` and never used, so it is not modelled.
- Report.SortSheets: states sortedness and the permutation, but not the stability of Python's sort among equal keys.
