/**
  The student's class grid (`StudentClassGrid`): one row per enrolment with
  the four status counts and the attendance percentage, the column set for
  small and large screens, and the empty state.
*/
module StudentTable {
  import opened Optional
  import opened Aggregation

  /** What the grid fetched for one enrolment: the enrolment, its class and the attendance. */
  datatype Enrollment = Enrollment(id: int, classId: int, className: string, statuses: seq<string>)

  datatype ClassRow = ClassRow(id: int, className: string, inPerson: nat, online: nat, recording: nat,
                               absent: nat, totalGrade: nat, classId: int)

  /** One enrolment's row: the enrolment's id and class id, the class name, the counts and the percentage. */
  function ClassRowOf(sc: Enrollment): (r: ClassRow)
    ensures r.id == sc.id && r.classId == sc.classId && r.className == sc.className
    ensures r.inPerson == multiset(sc.statuses)["In Person"] && r.online == multiset(sc.statuses)["Online"]
    ensures r.recording == multiset(sc.statuses)["Recording"] && r.absent == multiset(sc.statuses)["Absent"]
    ensures r.totalGrade <= 100
    ensures r.inPerson + r.online + r.recording + r.absent == 0 ==> r.totalGrade == 0
    ensures r.inPerson + r.online + r.recording + r.absent > 0 ==>
              IsRoundedPercent(Counts(r.inPerson, r.online, r.recording, r.absent), r.totalGrade)
  {
    var c := CountStatuses(sc.statuses);
    CountsAreMultiplicities(sc.statuses);
    ClassRow(sc.id, sc.className, c.inPerson, c.online, c.recording, c.absent, Percent(c), sc.classId)
  }

  /** A data-grid column: the row field it shows and its header. */
  datatype Column = Column(field: string, headerName: string)

  const BaseColumns: seq<Column> := [
    Column("className", "CLASS"), Column("absent", "ABSENT"),
    Column("totalGrade", "TOTAL %"), Column("view", "VIEW DATES")]

  const DesktopColumns: seq<Column> := [
    Column("inPerson", "IN PERSON"), Column("online", "ONLINE"), Column("recording", "RECORDING")]

  function Fields(cols: seq<Column>): (fs: seq<string>)
    ensures |fs| == |cols| && forall i :: 0 <= i < |cols| ==> fs[i] == cols[i].field
  {
    seq(|cols|, i requires 0 <= i < |cols| => cols[i].field)
  }

  /**
    `isSmallScreen ? baseColumns : [...baseColumns, ...desktopColumns]`: the
    class, absences, percentage and view button always lead; the three
    attended-mode counters are shown only on larger screens.
  */
  function Columns(isSmallScreen: bool): (cols: seq<Column>)
    ensures |cols| >= 4 && cols[..4] == BaseColumns
    ensures isSmallScreen ==> |cols| == 4
    ensures !isSmallScreen ==> |cols| == 7 && cols[4..] == DesktopColumns
    ensures ("inPerson" in Fields(cols)) <==> !isSmallScreen
    ensures forall i, j :: 0 <= i < j < |cols| ==> cols[i].field != cols[j].field
  {
    var cols := if isSmallScreen then BaseColumns else BaseColumns + DesktopColumns;
    assert !isSmallScreen ==> Fields(cols)[4] == "inPerson";
    assert isSmallScreen ==> forall i :: 0 <= i < 4 ==> Fields(cols)[i] != "inPerson";
    cols
  }

  /** What the component renders. */
  datatype View = LoadingText | NoClassesText | Grid(rows: seq<ClassRow>, columns: seq<Column>)

  function Render(loading: bool, classes: seq<ClassRow>, isSmallScreen: bool): (v: View)
    ensures loading ==> v == LoadingText
    ensures !loading && classes == [] ==> v == NoClassesText
    ensures v.Grid? <==> !loading && classes != []
    ensures v.Grid? ==> v.rows == classes && v.columns == Columns(isSmallScreen)
  {
    if loading then LoadingText
    else if |classes| == 0 then NoClassesText
    else Grid(classes, Columns(isSmallScreen))
  }

  class StudentClassGrid {
    var classes: seq<ClassRow>
    var loading: bool
    var modalOpen: bool
    var selectedClassId: Option<int>

    constructor ()
      ensures classes == [] && loading && !modalOpen && selectedClassId == None
    {
      classes := [];
      loading := true;
      modalOpen := false;
      selectedClassId := None;
    }

    /** `fetchStudentClasses`: one row per enrolment on success; loading ends either way. */
    method FetchStudentClasses(response: Option<seq<Enrollment>>)
      modifies this
      ensures response.Some? ==> |classes| == |response.value|
      ensures response.Some? ==> forall i :: 0 <= i < |classes| ==> classes[i] == ClassRowOf(response.value[i])
      ensures response.None? ==> classes == old(classes)
      ensures !loading && modalOpen == old(modalOpen) && selectedClassId == old(selectedClassId)
    {
      if response.Some? {
        var es := response.value;
        classes := seq(|es|, i requires 0 <= i < |es| => ClassRowOf(es[i]));
      }
      loading := false;
    }

    /** The row's "View" button: that row's class id is selected and the dates panel opens. */
    method OpenDates(row: ClassRow)
      modifies this
      ensures selectedClassId == Some(row.classId) && modalOpen
      ensures classes == old(classes) && loading == old(loading)
    {
      selectedClassId := Some(row.classId);
      modalOpen := true;
    }

    /** `selectedClassId && <AttendanceModal …/>`: a class id of 0 is falsy and mounts no panel. */
    predicate MountsAttendancePanel()
      reads this
    {
      selectedClassId.Some? && selectedClassId.value != 0
    }
  }
}
