/**
  The teacher dashboard: per class, one row per enrolled student with the
  four status counts and the attendance percentage; a tab strip over the
  classes; the "create class" modal flag.

  The nested fetches (classes, their enrolments, each student's record and
  attendance) are one parameter: the fetched data, or None when a call throws.
*/
module TeacherDashboard {
  import opened Optional
  import opened Aggregation

  /** What the page fetched for one enrolled student of a class. */
  datatype FetchedStudent = FetchedStudent(studentId: int, firstName: string, lastName: string, statuses: seq<string>)

  datatype FetchedClass = FetchedClass(id: int, name: string, students: seq<FetchedStudent>)

  /** A row of the class's student table. */
  datatype StudentRow = StudentRow(id: int, student: string, inPerson: nat, online: nat,
                                   recording: nat, absent: nat, totalGrade: nat)

  datatype ClassData = ClassData(id: int, className: string, students: seq<StudentRow>)

  /** One student's row: the id, "first last", the counts of their records and the percentage. */
  function StudentRowOf(s: FetchedStudent): (r: StudentRow)
    ensures r.id == s.studentId && r.student == s.firstName + " " + s.lastName
    ensures r.inPerson == multiset(s.statuses)["In Person"] && r.online == multiset(s.statuses)["Online"]
    ensures r.recording == multiset(s.statuses)["Recording"] && r.absent == multiset(s.statuses)["Absent"]
    ensures r.totalGrade <= 100
    ensures r.inPerson + r.online + r.recording + r.absent == 0 ==> r.totalGrade == 0
    ensures r.absent == 0 && r.inPerson + r.online + r.recording > 0 ==> r.totalGrade == 100
    ensures r.inPerson + r.online + r.recording + r.absent > 0 ==>
              IsRoundedPercent(Counts(r.inPerson, r.online, r.recording, r.absent), r.totalGrade)
  {
    var c := CountStatuses(s.statuses);
    CountsAreMultiplicities(s.statuses);
    StudentRow(s.studentId, s.firstName + " " + s.lastName, c.inPerson, c.online, c.recording, c.absent, Percent(c))
  }

  /** `transformedClasses`: classes in fetched order, students in enrolment order. */
  function TransformClasses(classes: seq<FetchedClass>): (r: seq<ClassData>)
    ensures |r| == |classes|
    ensures forall i :: 0 <= i < |classes| ==>
              r[i].id == classes[i].id && r[i].className == classes[i].name &&
              |r[i].students| == |classes[i].students| &&
              forall j :: 0 <= j < |classes[i].students| ==> r[i].students[j] == StudentRowOf(classes[i].students[j])
  {
    seq(|classes|, i requires 0 <= i < |classes| =>
      ClassData(classes[i].id, classes[i].name,
                seq(|classes[i].students|, j requires 0 <= j < |classes[i].students| => StudentRowOf(classes[i].students[j]))))
  }

  /** A student's row does not depend on the order their records came back in. */
  lemma StudentRowIgnoresRecordOrder(s: FetchedStudent, statuses: seq<string>)
    requires multiset(statuses) == multiset(s.statuses)
    ensures StudentRowOf(s.(statuses := statuses)) == StudentRowOf(s)
  {
    CountsIgnoreOrder(statuses, s.statuses);
  }

  class Dashboard {
    var classesData: seq<ClassData>
    var loading: bool
    var selectedTab: int
    var openCreateClassModal: bool

    /** Tab indices come from the tab strip and are never negative. */
    ghost predicate Valid()
      reads this
    {
      selectedTab >= 0
    }

    constructor ()
      ensures Valid()
      ensures classesData == [] && loading && selectedTab == 0 && !openCreateClassModal
    {
      classesData := [];
      loading := true;
      selectedTab := 0;
      openCreateClassModal := false;
    }

    /** `fetchClassesData`: the transformed classes on success, the old ones on failure; loading ends. */
    method FetchClassesData(response: Option<seq<FetchedClass>>)
      requires Valid()
      modifies this
      ensures Valid()
      ensures response.Some? ==> classesData == TransformClasses(response.value)
      ensures response.None? ==> classesData == old(classesData)
      ensures !loading && selectedTab == old(selectedTab) && openCreateClassModal == old(openCreateClassModal)
    {
      loading := true;
      if response.Some? {
        classesData := TransformClasses(response.value);
      }
      loading := false;
    }

    /**
      `handleTabChange`: the index one past the last class opens the
      create-class modal and keeps the selected tab; any other index is selected.
    */
    method HandleTabChange(newValue: int)
      requires Valid() && newValue >= 0
      modifies this
      ensures Valid()
      ensures newValue == |classesData| ==> openCreateClassModal && selectedTab == old(selectedTab)
      ensures newValue != |classesData| ==>
                selectedTab == newValue && openCreateClassModal == old(openCreateClassModal)
      ensures classesData == old(classesData) && loading == old(loading)
    {
      if newValue == |classesData| {
        openCreateClassModal := true;
      } else {
        selectedTab := newValue;
      }
    }

    /** The table guard `selectedTab < classesData.length && classesData.length > 0`. */
    predicate ShowsTable()
      reads this
    {
      selectedTab < |classesData| && |classesData| > 0
    }

    /** The class whose table is shown; the guard makes the index valid. */
    function ShownClass(): (c: ClassData)
      reads this
      requires Valid() && ShowsTable()
      ensures c in classesData
    {
      classesData[selectedTab]
    }
  }
}
