/**
  Daily devotional goal tracking (the teacher's goals page): each student has
  three daily goals (salawat, adhkar, istighfar); today's progress gives three
  done counts; the page shows the non-negative remainder of each, edits goals
  locally (clamped to non-negative integers), filters the list by a search
  query and saves one student's goals at a time.

  Remote calls are parameters; a JavaScript number read from an input is a
  `NumberValue` (a finite real, or NaN/±Infinity).
*/
module IbadahGoals {
  import opened Optional
  import opened Text

  datatype StudentRow = StudentRow(id: int, firstName: string, lastName: string, email: Option<string>,
                                   salawatGoal: int, adhkarGoal: int, istighfarGoal: int)

  datatype DailyRow = DailyRow(studentId: int, day: string, salawatDone: int, adhkarDone: int, istighfarDone: int)

  datatype Counter = Salawat | Adhkar | Istighfar

  // ---------------------------------------------------------------------------
  // dateOnly

  /**
    `dateOnly(d)`: the year, then the 1-based month and the day of the month
    each padded to two digits, joined by '-'. `month0` is `getMonth()`.
  */
  function DateOnly(year: nat, month0: int, day: int): (r: string)
    requires 0 <= month0 <= 11 && 1 <= day <= 31
    ensures var y := NatToString(year);
            && |r| == |y| + 6
            && r[..|y|] == y && r[|y|] == '-' && r[|y| + 3] == '-'
            && AllDigits(r[|y| + 1..|y| + 3]) && DigitsValue(r[|y| + 1..|y| + 3]) == month0 + 1
            && AllDigits(r[|y| + 4..]) && DigitsValue(r[|y| + 4..]) == day
    ensures 1000 <= year <= 9999 ==> |r| == 10
  {
    var y := NatToString(year);
    var mm := TwoDigits(month0 + 1);
    var dd := TwoDigits(day);
    DashJoin(y, mm, dd);
    FourDigits(year);
    y + "-" + mm + "-" + dd
  }

  /** `String(n).padStart(2, "0")` for a month or a day of the month. */
  function TwoDigits(n: nat): (s: string)
    requires n < 100
    ensures |s| == 2 && AllDigits(s) && DigitsValue(s) == n
  {
    PadTwo(n);
    PadStart(NatToString(n), 2, '0')
  }

  /** Where the three parts sit in `y-mm-dd`. */
  lemma DashJoin(y: string, mm: string, dd: string)
    requires |mm| == 2 && |dd| == 2
    ensures var r := y + "-" + mm + "-" + dd;
            && |r| == |y| + 6
            && r[..|y|] == y && r[|y|] == '-' && r[|y| + 3] == '-'
            && r[|y| + 1..|y| + 3] == mm && r[|y| + 4..] == dd
  {
    var r := y + "-" + mm + "-" + dd;
    assert r[..|y|] == y;
    assert r[|y| + 1..|y| + 3] == mm;
    assert r[|y| + 4..] == dd;
  }

  /** A year from 1000 to 9999 prints as four digits. */
  lemma FourDigits(year: nat)
    ensures 1000 <= year <= 9999 ==> |NatToString(year)| == 4
  {
    if 1000 <= year <= 9999 {
      assert |NatToString(year / 1000)| == 1;
      assert year / 100 / 10 == year / 1000;
      assert |NatToString(year / 100)| == 2;
      assert year / 10 / 10 == year / 100;
      assert |NatToString(year / 10)| == 3;
    }
  }

  // ---------------------------------------------------------------------------
  // clampInt and remaining

  /** `Number(text)`: a finite value, or one of NaN, Infinity, -Infinity. */
  datatype NumberValue = Finite(x: real) | NonFinite

  /** `clampInt(v)`: 0 for a non-finite number, otherwise the floor clamped at 0. */
  function ClampInt(v: NumberValue): (r: nat)
    ensures v.NonFinite? ==> r == 0
    ensures v.Finite? && v.x < 0.0 ==> r == 0
    ensures v.Finite? && v.x >= 0.0 ==> r as real <= v.x < r as real + 1.0
  {
    match v
    case NonFinite => 0
    case Finite(x) => if x.Floor < 0 then 0 else x.Floor
  }

  /** Clamping a whole non-negative number returns it. */
  lemma ClampWhole(n: nat)
    ensures ClampInt(Finite(n as real)) == n
  {
  }

  /** `remaining(goal, done)`: `max(0, (goal ?? 0) - (done ?? 0))`. */
  function Remaining(goal: Option<int>, done: Option<int>): (r: nat)
    ensures r == 0 <==> done.GetOr(0) >= goal.GetOr(0)
    ensures done.GetOr(0) <= goal.GetOr(0) ==> r == goal.GetOr(0) - done.GetOr(0)
    ensures done.GetOr(0) + r >= goal.GetOr(0)
  {
    var g := goal.GetOr(0);
    var d := done.GetOr(0);
    if g - d > 0 then g - d else 0
  }

  /** Goal 5 with 7 done leaves 0, not -2. */
  lemma RemainingExample()
    ensures Remaining(Some(5), Some(7)) == 0
    ensures Remaining(Some(5), Some(2)) == 3
    ensures Remaining(None, Some(2)) == 0
  {
  }

  function Goal(s: StudentRow, c: Counter): int {
    match c
    case Salawat => s.salawatGoal
    case Adhkar => s.adhkarGoal
    case Istighfar => s.istighfarGoal
  }

  function Done(p: DailyRow, c: Counter): int {
    match c
    case Salawat => p.salawatDone
    case Adhkar => p.adhkarDone
    case Istighfar => p.istighfarDone
  }

  /** `remS`, `remA`, `remI`: the remainder of one counter for a student's row. */
  function RemainingFor(s: StudentRow, p: DailyRow, c: Counter): (r: nat)
    ensures r == 0 <==> Done(p, c) >= Goal(s, c)
  {
    Remaining(Some(Goal(s, c)), Some(Done(p, c)))
  }

  /** `allDone`: all three remainders are zero. */
  predicate AllDone(s: StudentRow, p: DailyRow) {
    RemainingFor(s, p, Salawat) == 0 && RemainingFor(s, p, Adhkar) == 0 && RemainingFor(s, p, Istighfar) == 0
  }

  /** A row is all-done exactly when every done count has reached its goal. */
  lemma AllDoneIffGoalsMet(s: StudentRow, p: DailyRow)
    ensures AllDone(s, p) <==> forall c :: Done(p, c) >= Goal(s, c)
  {
    if AllDone(s, p) {
      forall c ensures Done(p, c) >= Goal(s, c) {
        assert RemainingFor(s, p, c) == 0;
      }
    } else {
      assert !(Done(p, Salawat) >= Goal(s, Salawat)) || !(Done(p, Adhkar) >= Goal(s, Adhkar))
          || !(Done(p, Istighfar) >= Goal(s, Istighfar));
    }
  }

  // ---------------------------------------------------------------------------
  // Today's progress

  /** The JSON of `GET /ibadah/daily/:id`; each field may be missing. */
  datatype RawDaily = RawDaily(studentId: Option<int>, day: Option<string>, salawatDone: Option<int>,
                               adhkarDone: Option<int>, istighfarDone: Option<int>)

  /** A student's progress: None for an empty body or a failed call; each missing field falls back. */
  function NormalizeDaily(d: Option<RawDaily>, sid: int, today: string): (r: Option<DailyRow>)
    ensures r.None? <==> d.None?
    ensures d.Some? ==> r.value.studentId == d.value.studentId.GetOr(sid) && r.value.day == d.value.day.GetOr(today)
    ensures d.Some? ==> r.value.salawatDone == d.value.salawatDone.GetOr(0)
    ensures d.Some? ==> r.value.adhkarDone == d.value.adhkarDone.GetOr(0)
    ensures d.Some? ==> r.value.istighfarDone == d.value.istighfarDone.GetOr(0)
    ensures d.Some? && d.value.salawatDone.None? ==> r.value.salawatDone == 0
    ensures d.Some? && d.value.adhkarDone.None? ==> r.value.adhkarDone == 0
    ensures d.Some? && d.value.istighfarDone.None? ==> r.value.istighfarDone == 0
  {
    match d
    case None => None
    case Some(raw) =>
      Some(DailyRow(raw.studentId.GetOr(sid), raw.day.GetOr(today), raw.salawatDone.GetOr(0),
                    raw.adhkarDone.GetOr(0), raw.istighfarDone.GetOr(0)))
  }

  /** Entry `i` is the last one for its student and it holds a row. */
  ghost predicate LastRowFor(entries: seq<(int, Option<DailyRow>)>, i: int)
    requires 0 <= i < |entries|
  {
    entries[i].1.Some? &&
    forall j :: i < j < |entries| && entries[j].0 == entries[i].0 ==> entries[j].1.None?
  }

  /** The progress map the loop builds: `if (row) map[sid] = row` in entry order. */
  function ProgressMap(entries: seq<(int, Option<DailyRow>)>): map<int, DailyRow> {
    if entries == [] then map[]
    else
      var last := entries[|entries| - 1];
      var m := ProgressMap(entries[..|entries| - 1]);
      if last.1.Some? then m[last.0 := last.1.value] else m
  }

  /** The map holds exactly the students some entry gave a row for. */
  lemma {:induction false} ProgressMapKeys(entries: seq<(int, Option<DailyRow>)>, k: int)
    ensures k in ProgressMap(entries) <==>
              exists i :: 0 <= i < |entries| && entries[i].0 == k && entries[i].1.Some?
  {
    if entries != [] {
      var n := |entries| - 1;
      var init := entries[..n];
      ProgressMapKeys(init, k);
      if k in ProgressMap(init) {
        var i :| 0 <= i < n && init[i].0 == k && init[i].1.Some?;
        assert entries[i] == init[i];
      }
      if exists i :: 0 <= i < |entries| && entries[i].0 == k && entries[i].1.Some? {
        var i :| 0 <= i < |entries| && entries[i].0 == k && entries[i].1.Some?;
        if i < n {
          assert init[i] == entries[i];
        }
      }
    }
  }

  /** Each student in the map holds the row of the last entry that gave one. */
  lemma {:induction false} ProgressMapLast(entries: seq<(int, Option<DailyRow>)>, i: int)
    requires 0 <= i < |entries| && LastRowFor(entries, i)
    ensures entries[i].0 in ProgressMap(entries) && ProgressMap(entries)[entries[i].0] == entries[i].1.value
  {
    var n := |entries| - 1;
    if i < n {
      var init := entries[..n];
      assert init[i] == entries[i];
      assert LastRowFor(init, i) by {
        forall j | i < j < |init| ensures init[j].0 != init[i].0 || init[j].1.None? {
          assert init[j] == entries[j];
        }
      }
      ProgressMapLast(init, i);
      assert entries[n].0 != entries[i].0 || entries[n].1.None?;
    }
  }

  /** The `for (const [sid, row] of entries)` loop. */
  method BuildProgressMap(entries: seq<(int, Option<DailyRow>)>) returns (m: map<int, DailyRow>)
    ensures m == ProgressMap(entries)
  {
    m := map[];
    for i := 0 to |entries|
      invariant m == ProgressMap(entries[..i])
    {
      assert entries[..i + 1][..i] == entries[..i];
      var (sid, row) := entries[i];
      if row.Some? {
        m := m[sid := row.value];
      }
    }
    assert entries[..|entries|] == entries;
  }

  /** `progressByStudent[s.id] ?? { zeros }`: a student without an entry shows nothing done. */
  function ProgressFor(m: map<int, DailyRow>, s: StudentRow, today: string): (p: DailyRow)
    ensures s.id in m ==> p == m[s.id]
    ensures s.id !in m ==> p == DailyRow(s.id, today, 0, 0, 0)
  {
    if s.id in m then m[s.id] else DailyRow(s.id, today, 0, 0, 0)
  }

  /** With no progress entry a student is all-done only when no goal is positive. */
  lemma NoProgressAllDone(m: map<int, DailyRow>, s: StudentRow, today: string)
    requires s.id !in m
    ensures AllDone(s, ProgressFor(m, s, today)) <==> s.salawatGoal <= 0 && s.adhkarGoal <= 0 && s.istighfarGoal <= 0
  {
  }

  // ---------------------------------------------------------------------------
  // Student normalisation

  /** A student as the backend sends it: camelCase or snake_case names, optional goals. */
  datatype RawStudent = RawStudent(id: int, firstName: Option<string>, first_name: Option<string>,
                                   lastName: Option<string>, last_name: Option<string>, email: Option<string>,
                                   salawatGoal: Option<int>, adhkarGoal: Option<int>, istighfarGoal: Option<int>)

  /** The body of `GET /students`: an array, or an object with `data` or `rows`. */
  datatype StudentsBody = ArrayBody(items: seq<RawStudent>) | ObjectBody(data: Option<seq<RawStudent>>, rows: Option<seq<RawStudent>>)

  /** `Array.isArray(raw) ? raw : raw?.data ?? raw?.rows ?? []`. */
  function RowsOf(body: StudentsBody): (rows: seq<RawStudent>)
    ensures body.ArrayBody? ==> rows == body.items
    ensures body.ObjectBody? && body.data.Some? ==> rows == body.data.value
    ensures body.ObjectBody? && body.data.None? && body.rows.Some? ==> rows == body.rows.value
    ensures body.ObjectBody? && body.data.None? && body.rows.None? ==> rows == []
  {
    match body
    case ArrayBody(items) => items
    case ObjectBody(data, rows) => data.OrElse(rows).GetOr([])
  }

  /** One student's row: names fall back camelCase, snake_case, ""; an empty email is dropped; missing goals are 0. */
  function NormalizeStudent(s: RawStudent): (r: StudentRow)
    ensures r.id == s.id
    ensures s.firstName.Some? ==> r.firstName == s.firstName.value
    ensures s.firstName.None? ==> r.firstName == s.first_name.GetOr("")
    ensures s.lastName.Some? ==> r.lastName == s.lastName.value
    ensures s.lastName.None? ==> r.lastName == s.last_name.GetOr("")
    ensures r.email.Some? <==> s.email.Some? && s.email.value != ""
    ensures r.email.Some? ==> r.email == s.email
    ensures r.salawatGoal == s.salawatGoal.GetOr(0) && r.adhkarGoal == s.adhkarGoal.GetOr(0)
    ensures r.istighfarGoal == s.istighfarGoal.GetOr(0)
  {
    StudentRow(s.id,
               s.firstName.OrElse(s.first_name).GetOr(""),
               s.lastName.OrElse(s.last_name).GetOr(""),
               if s.email.Some? && s.email.value != "" then s.email else None,
               s.salawatGoal.GetOr(0), s.adhkarGoal.GetOr(0), s.istighfarGoal.GetOr(0))
  }

  function NormalizeAll(rows: seq<RawStudent>): (r: seq<StudentRow>)
    ensures |r| == |rows| && forall i :: 0 <= i < |rows| ==> r[i] == NormalizeStudent(rows[i])
  {
    seq(|rows|, i requires 0 <= i < |rows| => NormalizeStudent(rows[i]))
  }

  // ---------------------------------------------------------------------------
  // Search filter

  /** A student matches a (trimmed, lower-cased) query through "first last" or the email. */
  predicate Matches(s: StudentRow, q: string) {
    Contains(ToLower(s.firstName + " " + s.lastName), q) || Contains(ToLower(s.email.GetOr("")), q)
  }

  function FilterMatching(students: seq<StudentRow>, q: string): (r: seq<StudentRow>)
    ensures |r| <= |students|
    ensures forall s :: s in r <==> s in students && Matches(s, q)
  {
    if students == [] then []
    else if Matches(students[0], q) then [students[0]] + FilterMatching(students[1..], q)
    else FilterMatching(students[1..], q)
  }

  /** `a` is `b` with some elements left out, order kept. */
  ghost predicate IsSubsequence<T>(a: seq<T>, b: seq<T>)
    decreases |b|
  {
    a == [] || (b != [] && ((a[0] == b[0] && IsSubsequence(a[1..], b[1..])) || IsSubsequence(a, b[1..])))
  }

  lemma {:induction false} FilterKeepsOrder(students: seq<StudentRow>, q: string)
    ensures IsSubsequence(FilterMatching(students, q), students)
  {
    if students != [] {
      FilterKeepsOrder(students[1..], q);
      var r := FilterMatching(students, q);
      if Matches(students[0], q) {
        assert r[1..] == FilterMatching(students[1..], q);
      }
    }
  }

  /** `filtered`: all students for a blank query, otherwise the matching ones in list order. */
  function Filtered(students: seq<StudentRow>, query: string): (r: seq<StudentRow>)
    ensures AllSpace(query) ==> r == students
    ensures !AllSpace(query) ==> r == FilterMatching(students, ToLower(Trim(query)))
    ensures IsSubsequence(r, students)
  {
    var q := ToLower(Trim(query));
    if q == [] then
      SubsequenceOfSelf(students);
      students
    else
      FilterKeepsOrder(students, q);
      FilterMatching(students, q)
  }

  lemma {:induction false} SubsequenceOfSelf<T>(s: seq<T>)
    ensures IsSubsequence(s, s)
  {
    if s != [] {
      SubsequenceOfSelf(s[1..]);
    }
  }

  /** Every student shown for a non-blank query matches it, and every matching student is shown. */
  lemma FilteredMembership(students: seq<StudentRow>, query: string, s: StudentRow)
    requires !AllSpace(query)
    ensures s in Filtered(students, query) <==> s in students && Matches(s, ToLower(Trim(query)))
  {
  }

  // ---------------------------------------------------------------------------
  // Local edits

  /** A `Partial<StudentRow>` without the id (no call site patches the id). */
  datatype StudentPatch = StudentPatch(firstName: Option<string>, lastName: Option<string>, email: Option<Option<string>>,
                                       salawatGoal: Option<int>, adhkarGoal: Option<int>, istighfarGoal: Option<int>)

  /** `{ ...s, ...patch }`: every field the patch carries overrides the student's. */
  function ApplyPatch(s: StudentRow, patch: StudentPatch): (r: StudentRow)
    ensures r.id == s.id
    ensures r.firstName == patch.firstName.GetOr(s.firstName) && r.lastName == patch.lastName.GetOr(s.lastName)
    ensures r.email == patch.email.GetOr(s.email)
    ensures r.salawatGoal == patch.salawatGoal.GetOr(s.salawatGoal)
    ensures r.adhkarGoal == patch.adhkarGoal.GetOr(s.adhkarGoal)
    ensures r.istighfarGoal == patch.istighfarGoal.GetOr(s.istighfarGoal)
  {
    StudentRow(s.id, patch.firstName.GetOr(s.firstName), patch.lastName.GetOr(s.lastName),
               patch.email.GetOr(s.email), patch.salawatGoal.GetOr(s.salawatGoal),
               patch.adhkarGoal.GetOr(s.adhkarGoal), patch.istighfarGoal.GetOr(s.istighfarGoal))
  }

  /** `prev.map(s => s.id === id ? { ...s, ...patch } : s)`. */
  function PatchById(students: seq<StudentRow>, id: int, patch: StudentPatch): (r: seq<StudentRow>)
    ensures |r| == |students|
    ensures forall i :: 0 <= i < |students| && students[i].id == id ==> r[i] == ApplyPatch(students[i], patch)
    ensures forall i :: 0 <= i < |students| && students[i].id != id ==> r[i] == students[i]
  {
    seq(|students|, i requires 0 <= i < |students| =>
      if students[i].id == id then ApplyPatch(students[i], patch) else students[i])
  }

  /** The patch a goal input sends: only that counter's goal. */
  function GoalPatch(c: Counter, value: int): (p: StudentPatch)
    ensures forall s :: Goal(ApplyPatch(s, p), c) == value
    ensures forall s, d :: d != c ==> Goal(ApplyPatch(s, p), d) == Goal(s, d)
  {
    match c
    case Salawat => StudentPatch(None, None, None, Some(value), None, None)
    case Adhkar => StudentPatch(None, None, None, None, Some(value), None)
    case Istighfar => StudentPatch(None, None, None, None, None, Some(value))
  }

  /** The POST body of `saveGoals`. */
  datatype GoalsPost = GoalsPost(id: int, salawatGoal: int, adhkarGoal: int, istighfarGoal: int)

  /** The outcome of a `GET /students`: a body, or an exception with its message. */
  datatype StudentsResult = Fetched(body: StudentsBody) | Threw(message: string)

  const LoadError: string := "Could not load students/progress"
  const SaveError: string := "Could not save goals"

  class GoalsPage {
    var loading: bool
    var savingId: Option<int>
    var error: Option<string>
    var students: seq<StudentRow>
    var progressByStudent: map<int, DailyRow>
    var query: string

    constructor ()
      ensures loading && savingId == None && error == None && students == [] && progressByStudent == map[] && query == ""
    {
      loading := true;
      savingId := None;
      error := None;
      students := [];
      progressByStudent := map[];
      query := "";
    }

    /**
      `loadStudentsAndProgress`: the normalised students, then one progress
      fetch per student (`daily` holds each student's answer; a missing key
      is an empty body or a failed call), kept only where a row came back.
    */
    method LoadStudentsAndProgress(result: StudentsResult, daily: map<int, RawDaily>, today: string)
      modifies this
      ensures result.Fetched? ==> students == NormalizeAll(RowsOf(result.body)) && error == None
      ensures result.Fetched? ==>
                progressByStudent.Keys == (set s | s in students && s.id in daily :: s.id)
      ensures result.Fetched? ==> forall s :: s in students && s.id in daily ==>
                progressByStudent[s.id] == NormalizeDaily(Some(daily[s.id]), s.id, today).value
      ensures result.Threw? ==> students == old(students) && progressByStudent == old(progressByStudent)
      ensures result.Threw? ==> error == Some(if result.message != "" then result.message else LoadError)
      ensures !loading && savingId == old(savingId) && query == old(query)
    {
      loading := true;
      error := None;
      match result {
        case Threw(message) =>
          error := Some(if message != "" then message else LoadError);
        case Fetched(body) =>
          var normalized := NormalizeAll(RowsOf(body));
          students := normalized;
          var entries := seq(|normalized|, i requires 0 <= i < |normalized| =>
            (normalized[i].id, NormalizeDaily(if normalized[i].id in daily then Some(daily[normalized[i].id]) else None,
                                              normalized[i].id, today)));
          var m := BuildProgressMap(entries);
          progressByStudent := m;
          forall s | s in students && s.id in daily
            ensures s.id in m && m[s.id] == NormalizeDaily(Some(daily[s.id]), s.id, today).value
          {
            var i :| 0 <= i < |normalized| && normalized[i] == s;
            var j := LastIndexFor(entries, i);
            assert entries[j] == entries[i];
            assert LastRowFor(entries, j);
            ProgressMapLast(entries, j);
          }
          forall k | k in m ensures k in set s | s in students && s.id in daily :: s.id {
            ProgressMapKeys(entries, k);
            var i :| 0 <= i < |entries| && entries[i].0 == k && entries[i].1.Some?;
            assert normalized[i] in students;
          }
      }
      loading := false;
    }

    /** `updateLocal`: merge the patch into the student(s) with that id only. */
    method UpdateLocal(id: int, patch: StudentPatch)
      modifies this
      ensures students == PatchById(old(students), id, patch)
      ensures progressByStudent == old(progressByStudent) && error == old(error) && query == old(query)
      ensures loading == old(loading) && savingId == old(savingId)
    {
      students := PatchById(students, id, patch);
    }

    /** A goal input's `onChange`: `updateLocal(id, { goal: clampInt(value) })`. */
    method EditGoal(id: int, c: Counter, input: NumberValue)
      modifies this
      ensures students == PatchById(old(students), id, GoalPatch(c, ClampInt(input)))
      ensures forall i :: 0 <= i < |students| && students[i].id == id ==> Goal(students[i], c) >= 0
      ensures progressByStudent == old(progressByStudent) && error == old(error) && query == old(query)
      ensures loading == old(loading) && savingId == old(savingId)
    {
      UpdateLocal(id, GoalPatch(c, ClampInt(input)));
    }

    /**
      `saveGoals`: nothing for an unknown id; otherwise the student's three
      goals are posted, and a failure message becomes the error.
      `failure` is None when the POST succeeds.
    */
    method SaveGoals(id: int, failure: Option<string>) returns (post: Option<GoalsPost>)
      modifies this
      ensures post.None? <==> forall i :: 0 <= i < |old(students)| ==> old(students)[i].id != id
      ensures post.Some? ==> FindStudent(students, id).Some?
      ensures post.Some? ==>
                var s := students[FindStudent(students, id).value];
                post.value == GoalsPost(id, s.salawatGoal, s.adhkarGoal, s.istighfarGoal)
      ensures post.None? ==> error == old(error) && savingId == old(savingId)
      ensures post.Some? && failure.None? ==> error == None && savingId == None
      ensures post.Some? && failure.Some? ==>
                error == Some(if failure.value != "" then failure.value else SaveError) && savingId == None
      ensures students == old(students) && progressByStudent == old(progressByStudent) && query == old(query)
      ensures loading == old(loading)
    {
      var found := FindStudent(students, id);
      if found.None? {
        return None;
      }
      var s := students[found.value];
      savingId := Some(id);
      error := None;
      post := Some(GoalsPost(id, s.salawatGoal, s.adhkarGoal, s.istighfarGoal));
      if failure.Some? {
        error := Some(if failure.value != "" then failure.value else SaveError);
      }
      savingId := None;
      assert students[found.value] == s;
    }

    /** The rows the page lists right now. */
    function Shown(): (r: seq<StudentRow>)
      reads this
      ensures r == Filtered(students, query)
      ensures AllSpace(query) ==> r == students
      ensures !AllSpace(query) ==> r == FilterMatching(students, ToLower(Trim(query)))
      ensures IsSubsequence(r, students)
    {
      Filtered(students, query)
    }
  }

  /** `students.find(s => s.id === id)`, as the index of the first match. */
  function FindStudent(students: seq<StudentRow>, id: int): (r: Option<nat>)
    ensures r.None? <==> forall i :: 0 <= i < |students| ==> students[i].id != id
    ensures r.Some? ==> r.value < |students| && students[r.value].id == id
    ensures r.Some? ==> forall i :: 0 <= i < r.value ==> students[i].id != id
  {
    if students == [] then None
    else if students[0].id == id then Some(0)
    else
      var r := FindStudent(students[1..], id);
      if r.Some? then Some(r.value + 1) else None
  }

  /** The last entry for the same student as entry `i`. */
  lemma LastIndexFor(entries: seq<(int, Option<DailyRow>)>, i: int) returns (j: int)
    requires 0 <= i < |entries|
    ensures i <= j < |entries| && entries[j].0 == entries[i].0
    ensures forall k :: j < k < |entries| ==> entries[k].0 != entries[i].0
    decreases |entries| - i
  {
    if exists k :: i < k < |entries| && entries[k].0 == entries[i].0 {
      var k :| i < k < |entries| && entries[k].0 == entries[i].0;
      j := LastIndexFor(entries, k);
    } else {
      j := i;
    }
  }
}
