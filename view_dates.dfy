/**
  The attendance reconciliation panel (`AttendanceModal`): a working copy of
  one student's attendance rows for one class, the baseline snapshot they were
  loaded as, and the rules that edit, count, save and close.

  Remote calls are parameters: a fetch is an `Option` (None when it throws),
  a save is told whether every PUT succeeded, and the PUTs it issues are
  returned as a sequence of `StatusUpdate`s. `window.confirm` is a boolean.
*/
module ViewDates {
  import opened Optional
  import opened AttendanceStatus

  /** A row of `GET /attendance/student/:studentId/class/:classId`. */
  datatype AttendanceRow = AttendanceRow(id: int, date: string, status: Status, studentId: int, classId: int)

  /** One `PUT /attendance/:id` whose body is `{ status }`. */
  datatype StatusUpdate = StatusUpdate(id: int, status: Status)

  const Blue: string := "#191970"

  /** The badge colour of a status; the `default` colour is never reached by a typed status. */
  function StatusColor(s: Status): (color: string)
    ensures color != Blue
    ensures |color| == 7 && color[0] == '#'
  {
    match s
    case InPerson => "#10b981"
    case Online => "#3b82f6"
    case Recording => "#8b5cf6"
    case Absent => "#ef4444"
  }

  lemma StatusColorsDistinct(s: Status, t: Status)
    requires s != t
    ensures StatusColor(s) != StatusColor(t)
  {
  }

  /** No two rows share an id (rows come keyed by the attendance table's primary key). */
  ghost predicate UniqueIds(rows: seq<AttendanceRow>) {
    forall i, j :: 0 <= i < j < |rows| ==> rows[i].id != rows[j].id
  }

  /** `rows.find(r => r.id === id)`: the first row with that id, if any. */
  function FindById(rows: seq<AttendanceRow>, id: int): (r: Option<AttendanceRow>)
    ensures r.Some? ==> r.value in rows && r.value.id == id
    ensures r.None? <==> forall i :: 0 <= i < |rows| ==> rows[i].id != id
  {
    if rows == [] then None
    else if rows[0].id == id then Some(rows[0])
    else
      var r := FindById(rows[1..], id);
      assert forall i :: 1 <= i < |rows| ==> rows[i] == rows[1..][i - 1];
      r
  }

  /** The search returns the first row carrying the id: rows after it with the same id are never seen. */
  lemma {:induction false} FindByIdFirst(rows: seq<AttendanceRow>, id: int, i: nat)
    requires i < |rows| && rows[i].id == id
    requires forall j :: 0 <= j < i ==> rows[j].id != id
    ensures FindById(rows, id) == Some(rows[i])
  {
    if i > 0 {
      assert rows[0].id != id;
      assert rows[1..][i - 1] == rows[i];
      FindByIdFirst(rows[1..], id, i - 1);
    }
  }

  lemma FindByIdUnique(rows: seq<AttendanceRow>, k: int)
    requires UniqueIds(rows) && 0 <= k < |rows|
    ensures FindById(rows, rows[k].id) == Some(rows[k])
  {
    var r := FindById(rows, rows[k].id);
    var j :| 0 <= j < |rows| && rows[j] == r.value;
    assert j == k;
  }

  /** The row has a baseline counterpart (same id) whose status differs. */
  predicate IsChanged(row: AttendanceRow, baseline: seq<AttendanceRow>) {
    var orig := FindById(baseline, row.id);
    orig.Some? && orig.value.status != row.status
  }

  /** The PUT a changed row produces: its id and its new status, nothing else. */
  function UpdateOf(row: AttendanceRow): (u: StatusUpdate)
    ensures u.id == row.id && u.status == row.status
  {
    StatusUpdate(row.id, row.status)
  }

  /** `changedCount`, as a specification: how many working rows differ from their baseline row. */
  function NumChanged(rows: seq<AttendanceRow>, baseline: seq<AttendanceRow>): (n: nat)
    ensures n <= |rows|
  {
    if rows == [] then 0
    else NumChanged(rows[..|rows| - 1], baseline) + (if IsChanged(rows[|rows| - 1], baseline) then 1 else 0)
  }

  /** The PUTs a save issues, in working-copy order. */
  function PendingUpdates(rows: seq<AttendanceRow>, baseline: seq<AttendanceRow>): (us: seq<StatusUpdate>)
    ensures forall u :: u in us ==> exists row :: row in rows && IsChanged(row, baseline) && u == UpdateOf(row)
    ensures forall row :: row in rows && IsChanged(row, baseline) ==> UpdateOf(row) in us
  {
    if rows == [] then []
    else
      var init := rows[..|rows| - 1];
      var last := rows[|rows| - 1];
      assert rows == init + [last];
      PendingUpdates(init, baseline) + (if IsChanged(last, baseline) then [UpdateOf(last)] else [])
  }

  /** The count shown as "Unsaved changes (n)" is the number of PUTs a save issues. */
  lemma {:induction false} ChangedCountIsUpdateCount(rows: seq<AttendanceRow>, baseline: seq<AttendanceRow>)
    ensures |PendingUpdates(rows, baseline)| == NumChanged(rows, baseline)
  {
    if rows != [] {
      ChangedCountIsUpdateCount(rows[..|rows| - 1], baseline);
    }
  }

  lemma {:induction false} NoneChanged(rows: seq<AttendanceRow>, baseline: seq<AttendanceRow>)
    requires forall i :: 0 <= i < |rows| ==> !IsChanged(rows[i], baseline)
    ensures NumChanged(rows, baseline) == 0 && PendingUpdates(rows, baseline) == []
  {
    if rows != [] {
      NoneChanged(rows[..|rows| - 1], baseline);
    }
  }

  /** Against itself as baseline, a list with unique ids has no changes and produces no PUTs. */
  lemma NoChangesAgainstItself(rows: seq<AttendanceRow>)
    requires UniqueIds(rows)
    ensures NumChanged(rows, rows) == 0 && PendingUpdates(rows, rows) == []
  {
    forall i | 0 <= i < |rows| ensures !IsChanged(rows[i], rows) {
      FindByIdUnique(rows, i);
    }
    NoneChanged(rows, rows);
  }

  /**
    `attendance.map(row => row.id === rowId ? { ...row, status } : row)`:
    rows with that id get the new status, every other row is kept, and the
    length, order and ids of the list are unchanged.
  */
  function ReplaceStatus(rows: seq<AttendanceRow>, id: int, status: Status): (r: seq<AttendanceRow>)
    ensures |r| == |rows|
    ensures forall i :: 0 <= i < |rows| ==> r[i].id == rows[i].id && r[i] == rows[i].(status := r[i].status)
    ensures forall i :: 0 <= i < |rows| && rows[i].id == id ==> r[i].status == status
    ensures forall i :: 0 <= i < |rows| && rows[i].id != id ==> r[i] == rows[i]
  {
    if rows == [] then []
    else
      var head := if rows[0].id == id then rows[0].(status := status) else rows[0];
      var tail := ReplaceStatus(rows[1..], id, status);
      assert forall i :: 1 <= i < |rows| ==> ([head] + tail)[i] == tail[i - 1];
      [head] + tail
  }

  /** Choosing the status a row already has gives back the same list. */
  lemma ReplaceWithSameStatus(rows: seq<AttendanceRow>, id: int, status: Status)
    requires forall i :: 0 <= i < |rows| && rows[i].id == id ==> rows[i].status == status
    ensures ReplaceStatus(rows, id, status) == rows
  {
    var r := ReplaceStatus(rows, id, status);
    assert forall i :: 0 <= i < |rows| ==> r[i] == rows[i];
  }

  /**
    The worked example: rows 1 (Absent) and 2 (Online); row 1 is set to In
    Person; one change is counted, one PUT for row 1 is issued, and the new
    baseline is the edited list.
  */
  lemma ExampleEditAndSave()
    ensures var before := [AttendanceRow(1, "2024-01-01", Absent, 7, 3), AttendanceRow(2, "2024-01-08", Online, 7, 3)];
            var after := ReplaceStatus(before, 1, InPerson);
            && after == [AttendanceRow(1, "2024-01-01", InPerson, 7, 3), AttendanceRow(2, "2024-01-08", Online, 7, 3)]
            && NumChanged(after, before) == 1
            && PendingUpdates(after, before) == [StatusUpdate(1, InPerson)]
            && NumChanged(after, after) == 0
  {
    var before := [AttendanceRow(1, "2024-01-01", Absent, 7, 3), AttendanceRow(2, "2024-01-08", Online, 7, 3)];
    var after := ReplaceStatus(before, 1, InPerson);
    assert after[0] == AttendanceRow(1, "2024-01-01", InPerson, 7, 3);
    assert after[1] == before[1];
    assert after == [after[0], after[1]];
    assert after[..1] == [after[0]];
    assert FindById(before, 1) == Some(before[0]);
    assert FindById(before, 2) == Some(before[1]);
    assert IsChanged(after[0], before);
    assert !IsChanged(after[1], before);
    assert after[..1][..0] == [];
    assert PendingUpdates(after[..1], before) == [StatusUpdate(1, InPerson)];
    NoChangesAgainstItself(after);
  }

  class AttendancePanel {
    /** The working copy the operator edits. */
    var attendance: seq<AttendanceRow>
    /** The baseline snapshot, as last loaded or saved. */
    var originalAttendance: seq<AttendanceRow>
    var loading: bool
    var saving: bool
    var hasChanges: bool

    /** Whenever no change is flagged, the working copy is the baseline. */
    ghost predicate Valid()
      reads this
    {
      !hasChanges ==> originalAttendance == attendance
    }

    constructor ()
      ensures Valid()
      ensures attendance == [] && originalAttendance == []
      ensures !loading && !saving && !hasChanges
    {
      attendance := [];
      originalAttendance := [];
      loading := false;
      saving := false;
      hasChanges := false;
    }

    /**
      `fetchAttendance`: on success both the working copy and the baseline
      become the fetched rows and the change flag clears; on failure nothing
      but `loading` changes.
    */
    method FetchAttendance(response: Option<seq<AttendanceRow>>)
      requires Valid()
      modifies this
      ensures Valid()
      ensures response.Some? ==> attendance == response.value && originalAttendance == response.value && !hasChanges
      ensures response.None? ==>
                attendance == old(attendance) && originalAttendance == old(originalAttendance) && hasChanges == old(hasChanges)
      ensures !loading && saving == old(saving)
    {
      loading := true;
      if response.Some? {
        attendance := response.value;
        originalAttendance := response.value;
        hasChanges := false;
      }
      loading := false;
    }

    /** `handleStatusChange`: one id's status in the working copy; the flag is set even if nothing differs. */
    method HandleStatusChange(rowId: int, newStatus: Status)
      requires Valid()
      modifies this
      ensures Valid()
      ensures attendance == ReplaceStatus(old(attendance), rowId, newStatus)
      ensures hasChanges
      ensures originalAttendance == old(originalAttendance)
      ensures loading == old(loading) && saving == old(saving)
    {
      attendance := ReplaceStatus(attendance, rowId, newStatus);
      hasChanges := true;
    }

    /**
      `handleSave`: one PUT per working row whose baseline row has another
      status. When every PUT succeeds the baseline becomes the working copy
      and the flag clears, and the parent's `onSave` callback, when the parent
      passed one (`hasOnSave`), is called (`notified`); when one fails, the
      working copy, the baseline and the flag are all left as they were and
      the parent is not told.
    */
    method HandleSave(allSucceeded: bool, hasOnSave: bool) returns (sent: seq<StatusUpdate>, notified: bool)
      requires Valid()
      modifies this
      ensures Valid()
      ensures sent == PendingUpdates(old(attendance), old(originalAttendance))
      ensures attendance == old(attendance)
      ensures allSucceeded ==> originalAttendance == attendance && !hasChanges
      ensures !allSucceeded ==> originalAttendance == old(originalAttendance) && hasChanges == old(hasChanges)
      ensures notified <==> allSucceeded && hasOnSave
      ensures !saving && loading == old(loading)
    {
      saving := true;
      sent := [];
      notified := false;
      var i := 0;
      while i < |attendance|
        invariant 0 <= i <= |attendance|
        invariant sent == PendingUpdates(attendance[..i], originalAttendance)
      {
        assert attendance[..i + 1][..i] == attendance[..i];
        var row := attendance[i];
        var original := FindById(originalAttendance, row.id);
        if original.Some? && original.value.status != row.status {
          sent := sent + [StatusUpdate(row.id, row.status)];
        }
        i := i + 1;
      }
      assert attendance[..i] == attendance;
      if allSucceeded {
        originalAttendance := attendance;
        hasChanges := false;
        notified := hasOnSave;
      }
      saving := false;
    }

    /** `changedCount`: the counting loop over the working copy. */
    method ChangedCount() returns (count: nat)
      ensures count == NumChanged(attendance, originalAttendance)
      ensures count == |PendingUpdates(attendance, originalAttendance)|
    {
      count := 0;
      var i := 0;
      while i < |attendance|
        invariant 0 <= i <= |attendance|
        invariant count == NumChanged(attendance[..i], originalAttendance)
      {
        assert attendance[..i + 1][..i] == attendance[..i];
        var orig := FindById(originalAttendance, attendance[i].id);
        if orig.Some? && orig.value.status != attendance[i].status {
          count := count + 1;
        }
        i := i + 1;
      }
      assert attendance[..i] == attendance;
      ChangedCountIsUpdateCount(attendance, originalAttendance);
    }

    /**
      `handleClose`: the confirmation prompt appears exactly when a change is
      flagged, and the panel closes unless the operator declines it. Closing
      without a prompt never drops an edit.
    */
    method HandleClose(confirmed: bool) returns (prompted: bool, closed: bool)
      requires Valid()
      ensures prompted == hasChanges
      ensures closed <==> !hasChanges || confirmed
      ensures closed && !prompted && UniqueIds(attendance) ==> NumChanged(attendance, originalAttendance) == 0
    {
      prompted := hasChanges;
      closed := !hasChanges || confirmed;
      if !hasChanges && UniqueIds(attendance) {
        NoChangesAgainstItself(attendance);
      }
    }

    /** The Save button's `disabled={!hasChanges || saving}`. */
    predicate SaveDisabled()
      reads this
    {
      !hasChanges || saving
    }
  }

  /** After a successful save of rows with unique ids, nothing is left to save. */
  lemma SuccessfulSaveLeavesNothingPending(p: AttendancePanel)
    requires p.Valid() && !p.hasChanges && UniqueIds(p.attendance)
    ensures NumChanged(p.attendance, p.originalAttendance) == 0
    ensures PendingUpdates(p.attendance, p.originalAttendance) == []
    ensures p.SaveDisabled()
  {
    NoChangesAgainstItself(p.attendance);
  }
}
