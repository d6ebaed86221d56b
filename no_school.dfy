/**
  The no-school calendar: the set of ISO dates (`YYYY-MM-DD`) marked as
  no-school days, loaded per month and toggled one date at a time, with a
  `saving` flag around each toggle.

  Dates arrive here already formatted; the calendar arithmetic that picks
  the range to load is not part of this model.
*/
module NoSchool {
  import opened Optional

  /** A row of `GET /noSchool/range`. */
  datatype NoSchoolRow = NoSchoolRow(date: string, reason: Option<string>)

  /** The request a toggle sends: un-block a blocked date, or block a free one. */
  datatype Request = Delete(date: string) | Post(date: string, reason: string)

  const NoSchoolReason := "No school"

  /** The set after toggling `d`: removed when present, added when absent. */
  function Toggled(blocked: set<string>, d: string): (r: set<string>)
    ensures d in blocked ==> d !in r
    ensures d !in blocked ==> d in r
    ensures forall e :: e != d ==> (e in r <==> e in blocked)
  {
    if d in blocked then blocked - {d} else blocked + {d}
  }

  /** Toggling the same date twice gives back the original set. */
  lemma ToggleTwice(blocked: set<string>, d: string)
    ensures Toggled(Toggled(blocked, d), d) == blocked
  {
  }

  /** The request that toggling `d` sends. */
  function RequestFor(blocked: set<string>, d: string): (q: Request)
    ensures q.date == d
    ensures q.Delete? <==> d in blocked
    ensures q.Post? ==> q.reason == NoSchoolReason
  {
    if d in blocked then Delete(d) else Post(d, NoSchoolReason)
  }

  /** The dates of the loaded rows. */
  function DatesOf(rows: seq<NoSchoolRow>): (s: set<string>)
    ensures forall d :: d in s <==> exists i :: 0 <= i < |rows| && rows[i].date == d
  {
    set i | 0 <= i < |rows| :: rows[i].date
  }

  class NoSchoolCalendar {
    var blocked: set<string>
    var saving: bool

    constructor ()
      ensures blocked == {} && !saving
    {
      blocked := {};
      saving := false;
    }

    /**
      `loadMonth`: the blocked set becomes exactly the dates returned for the
      range (`resp?.data ?? resp ?? []`, so a null body is no rows). When the
      call throws, the set is left as it was.
    */
    method LoadMonth(rows: Option<seq<NoSchoolRow>>)
      modifies this
      ensures rows.Some? ==> blocked == DatesOf(rows.value)
      ensures rows.None? ==> blocked == old(blocked)
      ensures saving == old(saving)
    {
      if rows.Some? {
        blocked := DatesOf(rows.value);
      }
    }

    /**
      `toggleDate`: a null date does nothing; otherwise the delete or post
      for the date is sent, the set is updated only when that call succeeds,
      and `saving` is false afterwards either way.
    */
    method ToggleDate(d: Option<string>, succeeded: bool) returns (request: Option<Request>)
      modifies this
      ensures d.None? ==> request == None && blocked == old(blocked) && saving == old(saving)
      ensures d.Some? ==> request == Some(RequestFor(old(blocked), d.value)) && !saving
      ensures d.Some? && succeeded ==> blocked == Toggled(old(blocked), d.value)
      ensures d.Some? && !succeeded ==> blocked == old(blocked)
    {
      if d.None? {
        return None;
      }
      var date := d.value;
      saving := true;
      request := Some(RequestFor(blocked, date));
      if succeeded {
        blocked := Toggled(blocked, date);
      }
      saving := false;
    }

    /** Whether the calendar draws the date as blocked. */
    predicate IsBlocked(date: string)
      reads this
    {
      date in blocked
    }
  }
}
