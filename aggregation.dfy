/**
  Attendance aggregation: the reduce that folds a list of attendance records
  into four status counts, and the rounded attendance percentage derived from
  them. The teacher dashboard and the student class grid each carry their own
  copy of this code; the model keeps one.
*/
module Aggregation {
  import opened Optional
  import opened AttendanceStatus

  /** The accumulator record `{ inPerson, online, recording, absent }`. */
  datatype Counts = Counts(inPerson: nat, online: nat, recording: nat, absent: nat) {

    /** `totalAttended`: sessions attended in person, online or by recording. */
    function Attended(): nat {
      inPerson + online + recording
    }

    /** `totalSessions`: every counted session, attended or not. */
    function Sessions(): nat {
      Attended() + absent
    }
  }

  const Zero: Counts := Counts(0, 0, 0, 0)

  /** One step of the reducer: the `switch` on the record's status string. */
  function Tally(acc: Counts, raw: string): (r: Counts)
    ensures r.inPerson == acc.inPerson + (if raw == "In Person" then 1 else 0)
    ensures r.online == acc.online + (if raw == "Online" then 1 else 0)
    ensures r.recording == acc.recording + (if raw == "Recording" then 1 else 0)
    ensures r.absent == acc.absent + (if raw == "Absent" then 1 else 0)
    ensures Parse(raw).None? ==> r == acc
    ensures Parse(raw).Some? ==> r.Sessions() == acc.Sessions() + 1
  {
    match Parse(raw)
    case Some(InPerson) => acc.(inPerson := acc.inPerson + 1)
    case Some(Online) => acc.(online := acc.online + 1)
    case Some(Recording) => acc.(recording := acc.recording + 1)
    case Some(Absent) => acc.(absent := acc.absent + 1)
    case None => acc
  }

  /** `attendance.reduce(tally, zero)`: a left fold over the records' status strings. */
  function CountStatuses(statuses: seq<string>): Counts {
    if statuses == [] then Zero
    else Tally(CountStatuses(statuses[..|statuses| - 1]), statuses[|statuses| - 1])
  }

  /** Each counter is the number of records carrying its wire string. */
  lemma {:induction false} CountsAreMultiplicities(statuses: seq<string>)
    ensures CountStatuses(statuses).inPerson == multiset(statuses)["In Person"]
    ensures CountStatuses(statuses).online == multiset(statuses)["Online"]
    ensures CountStatuses(statuses).recording == multiset(statuses)["Recording"]
    ensures CountStatuses(statuses).absent == multiset(statuses)["Absent"]
  {
    if statuses != [] {
      var init := statuses[..|statuses| - 1];
      var last := statuses[|statuses| - 1];
      CountsAreMultiplicities(init);
      assert statuses == init + [last];
      var m := multiset(statuses);
      assert m == multiset(init) + multiset{last};
      assert m["In Person"] == multiset(init)["In Person"] + (if last == "In Person" then 1 else 0);
      assert m["Online"] == multiset(init)["Online"] + (if last == "Online" then 1 else 0);
      assert m["Recording"] == multiset(init)["Recording"] + (if last == "Recording" then 1 else 0);
      assert m["Absent"] == multiset(init)["Absent"] + (if last == "Absent" then 1 else 0);
    }
  }

  /** Permuting the records changes neither the counts nor the percentage. */
  lemma CountsIgnoreOrder(a: seq<string>, b: seq<string>)
    requires multiset(a) == multiset(b)
    ensures CountStatuses(a) == CountStatuses(b)
    ensures Percent(CountStatuses(a)) == Percent(CountStatuses(b))
  {
    CountsAreMultiplicities(a);
    CountsAreMultiplicities(b);
  }

  /** Only records with a recognised status are counted, each exactly once. */
  lemma {:induction false} SessionsAreRecognisedRecords(statuses: seq<string>)
    ensures CountStatuses(statuses).Sessions() <= |statuses|
    ensures (forall i :: 0 <= i < |statuses| ==> Parse(statuses[i]).Some?) ==>
              CountStatuses(statuses).Sessions() == |statuses|
  {
    if statuses != [] {
      SessionsAreRecognisedRecords(statuses[..|statuses| - 1]);
    }
  }

  /** The reducer as the source runs it: a loop that bumps one counter per record. */
  method TallyRecords(statuses: seq<string>) returns (counts: Counts)
    ensures counts == CountStatuses(statuses)
  {
    counts := Zero;
    var i := 0;
    while i < |statuses|
      invariant 0 <= i <= |statuses|
      invariant counts == CountStatuses(statuses[..i])
    {
      assert statuses[..i + 1][..i] == statuses[..i];
      var raw := statuses[i];
      assert CountStatuses(statuses[..i + 1]) == Tally(counts, raw);
      if raw == "In Person" {
        counts := counts.(inPerson := counts.inPerson + 1);
      } else if raw == "Online" {
        counts := counts.(online := counts.online + 1);
      } else if raw == "Recording" {
        counts := counts.(recording := counts.recording + 1);
      } else if raw == "Absent" {
        counts := counts.(absent := counts.absent + 1);
      }
      i := i + 1;
    }
    assert statuses[..i] == statuses;
  }

  /**
    `totalSessions > 0 ? Math.round(totalAttended / totalSessions * 100) : 0`,
    with `Math.round` (halves round up) done exactly over the integers.
  */
  function Percent(c: Counts): (p: nat)
    ensures p <= 100
    ensures c.Sessions() == 0 ==> p == 0
    ensures c.Sessions() > 0 ==> IsRoundedPercent(c, p)
    ensures c.Sessions() > 0 && c.absent == 0 ==> p == 100
    ensures c.Attended() == 0 ==> p == 0
  {
    var t := c.Sessions();
    if t == 0 then 0
    else
      var n := 200 * c.Attended() + t;
      var p := n / (2 * t);
      DivBounds(n, 2 * t, p);
      assert p <= 100 by {
        assert 2 * t * p <= n <= 201 * t < 2 * t * 101;
        if p > 100 {
          MulMonotone(2 * t, 101, p);
        }
      }
      assert c.absent == 0 ==> p == 100 by {
        if c.absent == 0 {
          assert n == 201 * t;
          assert 2 * t * 100 <= n < 2 * t * 101;
          if p < 100 {
            MulMonotone(2 * t, p + 1, 100);
          }
        }
      }
      assert c.Attended() == 0 ==> p == 0 by {
        if c.Attended() == 0 {
          assert n == t < 2 * t;
          if p > 0 {
            MulMonotone(2 * t, 1, p);
          }
        }
      }
      p
  }

  /**
    `p` is 100·attended/sessions rounded to the nearest integer, halves up:
    p − 1/2 ≤ 100·attended/sessions < p + 1/2.
  */
  ghost predicate IsRoundedPercent(c: Counts, p: int)
    requires c.Sessions() > 0
  {
    (2 * p - 1) * c.Sessions() <= 200 * c.Attended() < (2 * p + 1) * c.Sessions()
  }

  /** The rounding condition pins the percentage down: no other integer meets it. */
  lemma RoundedPercentUnique(c: Counts, q: int)
    requires c.Sessions() > 0
    requires IsRoundedPercent(c, q)
    ensures q == Percent(c)
  {
    var p := Percent(c);
    var t := c.Sessions();
    var a := 200 * c.Attended();
    assert (2 * p - 1) * t <= a < (2 * p + 1) * t;
    assert (2 * q - 1) * t <= a < (2 * q + 1) * t;
    if q < p {
      MulMonotone(t, 2 * q + 1, 2 * p - 1);
    } else if q > p {
      MulMonotone(t, 2 * p + 1, 2 * q - 1);
    }
  }

  lemma DivBounds(n: nat, d: nat, q: nat)
    requires d > 0 && q == n / d
    ensures d * q <= n < d * q + d
  {
  }

  lemma MulMonotone(k: nat, a: int, b: int)
    requires a <= b
    ensures k * a <= k * b
  {
  }
}
