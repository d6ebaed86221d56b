/**
  The attendance status enumeration shared by the attendance views and the
  backend: exactly the four wire strings "In Person", "Online", "Recording"
  and "Absent".
*/
module AttendanceStatus {
  import opened Optional

  datatype Status = InPerson | Online | Recording | Absent

  /** The order in which the status buttons are offered. */
  const StatusOptions: seq<Status> := [InPerson, Online, Recording, Absent]

  /** The wire string of a status. */
  function Label(s: Status): (l: string)
    ensures |l| > 0
  {
    match s
    case InPerson => "In Person"
    case Online => "Online"
    case Recording => "Recording"
    case Absent => "Absent"
  }

  /** Reading a status off an untyped record; anything but the four wire strings is unrecognised. */
  function Parse(raw: string): (r: Option<Status>)
    ensures r.Some? ==> Label(r.value) == raw
    ensures forall s :: Label(s) == raw ==> r == Some(s)
  {
    if raw == "In Person" then Some(InPerson)
    else if raw == "Online" then Some(Online)
    else if raw == "Recording" then Some(Recording)
    else if raw == "Absent" then Some(Absent)
    else None
  }

  /** Every status is offered exactly once, and the four wire strings are distinct. */
  lemma StatusOptionsComplete()
    ensures |StatusOptions| == 4
    ensures forall s :: s in StatusOptions
    ensures forall i, j :: 0 <= i < j < |StatusOptions| ==> StatusOptions[i] != StatusOptions[j]
    ensures forall s, t :: Label(s) == Label(t) ==> s == t
  {
    forall s ensures s in StatusOptions {
      match s
      case InPerson => assert StatusOptions[0] == s;
      case Online => assert StatusOptions[1] == s;
      case Recording => assert StatusOptions[2] == s;
      case Absent => assert StatusOptions[3] == s;
    }
    forall s, t | Label(s) == Label(t) ensures s == t {
      assert Parse(Label(s)) == Some(s);
    }
  }
}
