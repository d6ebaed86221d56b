/**
  The create-class dialog: a name, a start time and a set of week days;
  the time is normalised to zero-padded `HH:MM` before the class is posted.
*/
module CreateClass {
  import opened Optional
  import opened Text

  const DaysOfWeek: seq<string> := ["Mon", "Tue", "Wed", "Thu", "Fri", "Sat", "Sun"]

  /** The day buttons are seven distinct labels. */
  lemma DaysOfWeekDistinct()
    ensures |DaysOfWeek| == 7
    ensures forall i, j :: 0 <= i < j < |DaysOfWeek| ==> DaysOfWeek[i] != DaysOfWeek[j]
  {
  }

  /** The result of `Number(text)` as far as this model follows it. */
  datatype Num = Value(n: nat) | NaN

  /**
    `Number(part)`: surrounding whitespace is ignored; blank text is 0, a
    run of decimal digits is its value, and anything else is taken as NaN.
  */
  function ParseNumber(part: string): (v: Num)
    ensures AllSpace(part) ==> v == Value(0)
    ensures AllDigits(part) && part != [] ==> v == Value(DigitsValue(part))
    ensures !AllSpace(part) && AllDigits(Trim(part)) ==> v == Value(DigitsValue(Trim(part)))
    ensures !AllDigits(Trim(part)) ==> v == NaN
  {
    var t := Trim(part);
    assert AllDigits(part) && part != [] ==> t == part by {
      if AllDigits(part) && part != [] {
        TrimUnpadded(part);
      }
    }
    if t == [] then Value(0)
    else if AllDigits(t) then Value(DigitsValue(t))
    else NaN
  }

  /** `value.toString()`. */
  function NumText(v: Num): (s: string)
    ensures v.Value? ==> s == NatToString(v.n)
    ensures v.NaN? ==> s == "NaN"
    ensures ':' !in s
  {
    match v
    case Value(n) =>
      var d := NatToString(n);
      assert forall i :: 0 <= i < |d| ==> d[i] != ':';
      d
    case NaN => "NaN"
  }

  /** `value.toString().padStart(2, "0")`. */
  function PadPart(v: Num): (s: string)
    ensures |s| >= 2 && |s| >= |NumText(v)|
    ensures ':' !in s
  {
    var t := NumText(v);
    var s := PadStart(t, 2, '0');
    assert forall i :: |s| - |t| <= i < |s| ==> s[i] == t[i - (|s| - |t|)] by {
      assert s[|s| - |t|..] == t;
    }
    assert forall i :: 0 <= i < |s| ==> s[i] != ':';
    s
  }

  /** A number below 100 pads to exactly two digits holding its value ("7" is "07"). */
  lemma PadPartValue(n: nat)
    requires n < 100
    ensures var s := PadPart(Value(n));
            |s| == 2 && AllDigits(s) && DigitsValue(s) == n
  {
    PadTwo(n);
  }

  /** The padded part is the number's text with '0's in front, up to two characters. */
  lemma PadPartShape(v: Num)
    ensures var t, s := NumText(v), PadPart(v);
            && |s| == (if |t| >= 2 then |t| else 2)
            && s[|s| - |t|..] == t
            && forall i :: 0 <= i < |s| - |t| ==> s[i] == '0'
  {
    assert PadPart(v) == PadStart(NumText(v), 2, '0');
  }

  /**
    `convertToMilitaryTime`: the hour and minute parts of `input.split(":")`,
    each read as a number and zero-padded to two places, joined by ':'.
    Input without a ':' has no minutes part, and `undefined.toString()`
    throws: that is None.
  */
  function ConvertToMilitaryTime(input: string): (r: Option<string>)
    ensures r.None? <==> ':' !in input
    ensures r.Some? ==> |r.value| >= 5
    ensures r.Some? ==> var (hours, minutes) := SplitTwo(input, ':').value;
                        r.value == TimeText(ParseNumber(hours), ParseNumber(minutes))
  {
    match SplitTwo(input, ':')
    case None => None
    case Some((hours, minutes)) => Some(TimeText(ParseNumber(hours), ParseNumber(minutes)))
  }

  /** The template `${hours…}:${minutes…}`: the padded hours, a ':', the padded minutes. */
  function TimeText(hours: Num, minutes: Num): (t: string)
    ensures |t| == |PadPart(hours)| + 1 + |PadPart(minutes)|
    ensures |t| >= 5
  {
    PadPart(hours) + ":" + PadPart(minutes)
  }

  /** Where the parts sit: the padded hours first, then ':', then the padded minutes. */
  lemma TimeTextParts(hours: Num, minutes: Num)
    ensures var t, h, m := TimeText(hours, minutes), PadPart(hours), PadPart(minutes);
            && t[..|h|] == h && t[|h|] == ':' && t[|h| + 1..] == m
  {
    ColonParts(PadPart(hours), PadPart(minutes));
  }

  lemma ColonParts(h: string, m: string)
    ensures var t := h + ":" + m;
            |t| == |h| + 1 + |m| && t[..|h|] == h && t[|h|] == ':' && t[|h| + 1..] == m
  {
    var t := h + ":" + m;
    assert t[..|h|] == h && t[|h| + 1..] == m;
  }

  /** The formatted time splits at its ':' back into the two padded parts. */
  lemma TimeTextSplits(hours: Num, minutes: Num)
    ensures SplitTwo(TimeText(hours, minutes), ':') == Some((PadPart(hours), PadPart(minutes)))
  {
    var h, m := PadPart(hours), PadPart(minutes);
    assert TimeText(hours, minutes) == h + [':'] + m;
    SplitJoined(h, m, ':');
  }

  /** Hours and minutes below 100 come out as `HH:MM`. */
  lemma TimeTextPadded(n: nat, k: nat)
    requires n < 100 && k < 100
    ensures var t := TimeText(Value(n), Value(k));
            && |t| == 5 && AllDigits(t[..2]) && AllDigits(t[3..])
            && DigitsValue(t[..2]) == n && DigitsValue(t[3..]) == k
            && IsPaddedTime(t)
  {
    PadPartValue(n);
    PadPartValue(k);
    TimeTextTwoDigitParts(Value(n), Value(k));
  }

  lemma TimeTextTwoDigitParts(hours: Num, minutes: Num)
    requires |PadPart(hours)| == 2 && AllDigits(PadPart(hours))
    requires |PadPart(minutes)| == 2 && AllDigits(PadPart(minutes))
    ensures var t := TimeText(hours, minutes);
            IsPaddedTime(t) && t[..2] == PadPart(hours) && t[3..] == PadPart(minutes)
  {
    PaddedJoin(TimeText(hours, minutes), PadPart(hours), PadPart(minutes));
  }

  lemma PaddedJoin(t: string, h: string, m: string)
    requires |h| == 2 && AllDigits(h) && |m| == 2 && AllDigits(m)
    requires t == h + ":" + m
    ensures IsPaddedTime(t) && t[..2] == h && t[3..] == m
  {
    ColonParts(h, m);
    PadPartDigits(h);
    PadPartDigits(m);
    ColonJoin(h, m);
  }

  /**
    A time typed as digits, a ':' and digits, each part below 100, comes
    out as `HH:MM` holding the same hours and minutes ("9:5" is "09:05").
  */
  lemma ConvertDigits(h: string, m: string)
    requires h != [] && AllDigits(h) && DigitsValue(h) < 100
    requires m != [] && AllDigits(m) && DigitsValue(m) < 100
    ensures var r := ConvertToMilitaryTime(h + ":" + m);
            && r.Some? && |r.value| == 5 && AllDigits(r.value[..2]) && AllDigits(r.value[3..])
            && IsPaddedTime(r.value)
            && DigitsValue(r.value[..2]) == DigitsValue(h) && DigitsValue(r.value[3..]) == DigitsValue(m)
  {
    assert ':' !in h by {
      assert forall i :: 0 <= i < |h| ==> h[i] != ':';
    }
    assert ':' !in m by {
      assert forall i :: 0 <= i < |m| ==> m[i] != ':';
    }
    SplitJoined(h, m, ':');
    assert h + ":" + m == h + [':'] + m;
    TimeTextPadded(DigitsValue(h), DigitsValue(m));
  }

  lemma PadPartDigits(h: string)
    requires |h| == 2 && AllDigits(h)
    ensures IsDigit(h[0]) && IsDigit(h[1])
  {
  }

  lemma ColonJoin(h: string, m: string)
    requires |h| == 2 && IsDigit(h[0]) && IsDigit(h[1])
    requires |m| == 2 && IsDigit(m[0]) && IsDigit(m[1])
    ensures IsPaddedTime(h + ":" + m)
  {
    var t := h + ":" + m;
    assert t[0] == h[0] && t[1] == h[1] && t[2] == ':' && t[3] == m[0] && t[4] == m[1];
  }

  /** `HH:MM` with two digits each: what `<input type="time">` delivers. */
  predicate IsPaddedTime(t: string) {
    |t| == 5 && IsDigit(t[0]) && IsDigit(t[1]) && t[2] == ':' && IsDigit(t[3]) && IsDigit(t[4])
  }

  /** The formatter leaves an already padded `HH:MM` as it is. */
  lemma PaddedTimeUnchanged(t: string)
    requires IsPaddedTime(t)
    ensures ConvertToMilitaryTime(t) == Some(t)
  {
    var h, m := t[..2], t[3..];
    assert |m| == 2 && AllDigits(m) by {
      assert forall i :: 0 <= i < |m| ==> m[i] == t[3 + i];
    }
    assert |h| == 2 && AllDigits(h) by {
      assert forall i :: 0 <= i < |h| ==> h[i] == t[i];
    }
    PaddedTimeSplit(t);
    PaddedPartUnchanged(h);
    PaddedPartUnchanged(m);
    assert t == h + ":" + m;
  }

  lemma PaddedTimeSplit(t: string)
    requires IsPaddedTime(t)
    ensures SplitTwo(t, ':') == Some((t[..2], t[3..]))
  {
    assert FindFrom(t, ':', 2) == 2;
    assert FindFrom(t, ':', 0) == 2;
    assert FindFrom(t, ':', 5) == 5;
    assert FindFrom(t, ':', 3) == 5;
  }

  /** Two digits read as a number and padded again give the same two digits. */
  lemma PaddedPartUnchanged(h: string)
    requires |h| == 2 && AllDigits(h)
    ensures PadPart(ParseNumber(h)) == h
  {
    var v := DigitsValue(h);
    assert ParseNumber(h) == Value(v);
    assert NumText(Value(v)) == NatToString(v);
    assert PadPart(Value(v)) == PadStart(NatToString(v), 2, '0');
    TwoDigitsRoundTrip(h);
  }

  /** So formatting twice is the same as formatting once, whenever the hours and minutes are below 100. */
  lemma ConvertIdempotent(input: string)
    requires ConvertToMilitaryTime(input).Some?
    requires var (hours, minutes) := SplitTwo(input, ':').value;
             && ParseNumber(hours).Value? && ParseNumber(hours).n < 100
             && ParseNumber(minutes).Value? && ParseNumber(minutes).n < 100
    ensures ConvertToMilitaryTime(ConvertToMilitaryTime(input).value) == ConvertToMilitaryTime(input)
  {
    var (hours, minutes) := SplitTwo(input, ':').value;
    var t := TimeText(ParseNumber(hours), ParseNumber(minutes));
    assert ConvertToMilitaryTime(input) == Some(t);
    TimeTextPadded(ParseNumber(hours).n, ParseNumber(minutes).n);
    PaddedTimeUnchanged(t);
  }

  /** The class posted to `/classes`. */
  datatype ClassPost = ClassPost(name: string, time: string, days: seq<string>)

  /**
    What `handleCreate` did: refused the form, threw while formatting the
    time (before any request), or posted the class.
  */
  datatype CreateResult = Refused | TimeThrew | Posted(post: ClassPost)

  /** The guard `!name || !time || days.length === 0`. */
  predicate Incomplete(name: string, time: string, days: seq<string>) {
    name == "" || time == "" || |days| == 0
  }

  class CreateClassForm {
    var name: string
    var time: string
    var days: seq<string>

    constructor ()
      ensures name == "" && time == "" && days == []
    {
      name := "";
      time := "";
      days := [];
    }

    method HandleDaysChange(newDays: seq<string>)
      modifies this
      ensures days == newDays && name == old(name) && time == old(time)
    {
      days := newDays;
    }

    /**
      `handleCreate`: an empty name, an empty time or no selected day is
      refused and nothing is sent. Otherwise the class is posted with the
      formatted time; success clears the form and closes the dialog
      (`closed`), failure keeps it.
    */
    method HandleCreate(succeeded: bool) returns (result: CreateResult, closed: bool)
      modifies this
      ensures result.Refused? <==> Incomplete(old(name), old(time), old(days))
      ensures result.TimeThrew? <==> !result.Refused? && ConvertToMilitaryTime(old(time)).None?
      ensures result.Posted? ==> ConvertToMilitaryTime(old(time)).Some?
      ensures result.Posted? ==>
                result.post == ClassPost(old(name), ConvertToMilitaryTime(old(time)).value, old(days))
      ensures closed <==> result.Posted? && succeeded
      ensures closed ==> name == "" && time == "" && days == []
      ensures !closed ==> name == old(name) && time == old(time) && days == old(days)
    {
      if Incomplete(name, time, days) {
        return Refused, false;
      }
      var militaryTime := ConvertToMilitaryTime(time);
      if militaryTime.None? {
        return TimeThrew, false;
      }
      result := Posted(ClassPost(name, militaryTime.value, days));
      closed := succeeded;
      if succeeded {
        name := "";
        time := "";
        days := [];
      }
    }
  }
}
