/**
  String helpers that the views rely on: `String.prototype.trim`, `toLowerCase`,
  `includes`, `split`, `padStart`, and the decimal rendering and parsing of
  non-negative integers (`Number.prototype.toString`, `Number(text)`).
  Strings are `seq<char>`; whitespace and case are the ASCII ones.
*/
module Text {
  import opened Optional

  /** The whitespace characters `trim` removes (the ASCII subset). */
  predicate IsSpace(c: char) {
    c == ' ' || c == '\t' || c == '\n' || c == '\r' || c == '\U{000B}' || c == '\U{000C}'
  }

  predicate AllSpace(s: string) {
    forall i :: 0 <= i < |s| ==> IsSpace(s[i])
  }

  /** The first index at or after `i` that does not hold whitespace (or `|s|`). */
  function SkipSpace(s: string, i: nat): (r: nat)
    requires i <= |s|
    ensures i <= r <= |s|
    ensures forall j :: i <= j < r ==> IsSpace(s[j])
    ensures r < |s| ==> !IsSpace(s[r])
    decreases |s| - i
  {
    if i < |s| && IsSpace(s[i]) then SkipSpace(s, i + 1) else i
  }

  /** The end of `s[lo..hi]` once its trailing whitespace is dropped. */
  function BackSpace(s: string, lo: nat, hi: nat): (r: nat)
    requires lo <= hi <= |s|
    ensures lo <= r <= hi
    ensures forall j :: r <= j < hi ==> IsSpace(s[j])
    ensures r > lo ==> !IsSpace(s[r - 1])
  {
    if hi > lo && IsSpace(s[hi - 1]) then BackSpace(s, lo, hi - 1) else hi
  }

  /** `s.trim()`: the slice of `s` left after dropping whitespace at both ends. */
  function Trim(s: string): (r: string)
    ensures exists a, b :: 0 <= a <= b <= |s| && r == s[a..b] && AllSpace(s[..a]) && AllSpace(s[b..])
    ensures r == [] <==> AllSpace(s)
    ensures r != [] ==> !IsSpace(r[0]) && !IsSpace(r[|r| - 1])
  {
    var a := SkipSpace(s, 0);
    var b := BackSpace(s, a, |s|);
    assert AllSpace(s[..a]) && AllSpace(s[b..]);
    assert a < |s| ==> !AllSpace(s);
    s[a..b]
  }

  /** The ASCII part of `toLowerCase`. */
  function LowerChar(c: char): (r: char)
    ensures 'A' <= c <= 'Z' ==> r as int == c as int + 32
    ensures !('A' <= c <= 'Z') ==> r == c
  {
    if 'A' <= c <= 'Z' then (c as int + 32) as char else c
  }

  /** `s.toLowerCase()` over ASCII letters. */
  function ToLower(s: string): (r: string)
    ensures |r| == |s|
    ensures forall i :: 0 <= i < |s| ==> r[i] == LowerChar(s[i])
  {
    if s == [] then [] else [LowerChar(s[0])] + ToLower(s[1..])
  }

  /** `hay.includes(needle)`: `needle` occurs in `hay` at some offset. */
  predicate Contains(hay: string, needle: string)
    decreases |hay|
  {
    needle <= hay || (hay != [] && Contains(hay[1..], needle))
  }

  /** `needle` sits in `hay` starting at offset `i`. */
  predicate OccursAt(hay: string, needle: string, i: int) {
    0 <= i <= |hay| - |needle| && hay[i..i + |needle|] == needle
  }

  lemma {:induction false} ContainsAt(hay: string, needle: string)
    ensures Contains(hay, needle) <==> exists i :: OccursAt(hay, needle, i)
    decreases |hay|
  {
    if needle <= hay {
      assert OccursAt(hay, needle, 0);
    } else if hay == [] {
      assert forall i :: !OccursAt(hay, needle, i);
    } else {
      ContainsAt(hay[1..], needle);
      if Contains(hay[1..], needle) {
        var i :| OccursAt(hay[1..], needle, i);
        assert hay[1..][i..i + |needle|] == hay[i + 1..i + 1 + |needle|];
        assert OccursAt(hay, needle, i + 1);
      }
      if exists i :: OccursAt(hay, needle, i) {
        var i :| OccursAt(hay, needle, i);
        assert i != 0;
        assert OccursAt(hay[1..], needle, i - 1);
      }
    }
  }

  /** The first index at or after `i` holding `c`, or `|s|` when there is none. */
  function FindFrom(s: string, c: char, i: nat): (r: nat)
    requires i <= |s|
    ensures i <= r <= |s|
    ensures forall j :: i <= j < r ==> s[j] != c
    ensures r < |s| ==> s[r] == c
    decreases |s| - i
  {
    if i < |s| && s[i] != c then FindFrom(s, c, i + 1) else i
  }

  /**
    The first two pieces of `s.split(sep)`, when there are two: the text
    before the first separator and the text between it and the next one
    (or the end). None when `sep` does not occur, so the split has one piece.
  */
  function SplitTwo(s: string, sep: char): (r: Option<(string, string)>)
    ensures r.None? <==> sep !in s
    ensures r.Some? ==> sep !in r.value.0 && sep !in r.value.1
    ensures r.Some? ==> s == r.value.0 + [sep] + r.value.1 ||
                        r.value.0 + [sep] + r.value.1 + [sep] <= s
  {
    var k := FindFrom(s, sep, 0);
    if k == |s| then
      assert forall j :: 0 <= j < |s| ==> s[j] != sep;
      None
    else
      var l := FindFrom(s, sep, k + 1);
      var a, b := s[..k], s[k + 1..l];
      assert s[..l] == a + [sep] + b;
      assert l == |s| ==> s == s[..l];
      assert l < |s| ==> s[..l + 1] == a + [sep] + b + [sep];
      Some((a, b))
  }

  /** The search stops at the first `c` from `i` on. */
  lemma {:induction false} FindFromAt(s: string, c: char, i: nat, k: nat)
    requires i <= k <= |s|
    requires forall j :: i <= j < k ==> s[j] != c
    requires k < |s| ==> s[k] == c
    ensures FindFrom(s, c, i) == k
    decreases k - i
  {
    if i < k {
      FindFromAt(s, c, i + 1, k);
    }
  }

  /** Two pieces joined by the separator split back into those pieces. */
  lemma SplitJoined(a: string, b: string, sep: char)
    requires sep !in a && sep !in b
    ensures SplitTwo(a + [sep] + b, sep) == Some((a, b))
  {
    var s := a + [sep] + b;
    assert forall j :: 0 <= j < |a| ==> s[j] == a[j];
    assert forall j :: |a| + 1 <= j < |s| ==> s[j] == b[j - |a| - 1];
    FindFromAt(s, sep, 0, |a|);
    FindFromAt(s, sep, |a| + 1, |s|);
    assert s[..|a|] == a;
    assert s[|a| + 1..|s|] == b;
  }

  /** A string whose ends are not whitespace trims to itself. */
  lemma TrimUnpadded(s: string)
    requires s != [] && !IsSpace(s[0]) && !IsSpace(s[|s| - 1])
    ensures Trim(s) == s
  {
    assert SkipSpace(s, 0) == 0;
    assert BackSpace(s, 0, |s|) == |s|;
    assert s[0..|s|] == s;
  }

  predicate IsDigit(c: char) {
    '0' <= c <= '9'
  }

  predicate AllDigits(s: string) {
    forall i :: 0 <= i < |s| ==> IsDigit(s[i])
  }

  function DigitChar(d: nat): (c: char)
    requires d < 10
    ensures IsDigit(c) && c as int - '0' as int == d
  {
    ('0' as int + d) as char
  }

  /** The value of a string of decimal digits, most significant first. */
  function DigitsValue(s: string): (n: nat)
    requires AllDigits(s)
  {
    if s == [] then 0
    else DigitsValue(s[..|s| - 1]) * 10 + (s[|s| - 1] as int - '0' as int)
  }

  /** `n.toString()` for a non-negative integer: its decimal digits without leading zeros. */
  function NatToString(n: nat): (s: string)
    ensures |s| >= 1 && AllDigits(s)
    ensures |s| > 1 ==> s[0] != '0'
    ensures n < 10 <==> |s| == 1
  {
    if n < 10 then [DigitChar(n)]
    else
      var s := NatToString(n / 10) + [DigitChar(n % 10)];
      assert s[0] == NatToString(n / 10)[0];
      s
  }

  lemma {:induction false} NatToStringRoundTrip(n: nat)
    ensures DigitsValue(NatToString(n)) == n
  {
    if n >= 10 {
      NatToStringRoundTrip(n / 10);
      var s := NatToString(n);
      assert s[..|s| - 1] == NatToString(n / 10);
    }
  }

  /** `s.padStart(width, c)`: `s` with copies of `c` in front up to `width` characters. */
  function PadStart(s: string, width: nat, c: char): (r: string)
    ensures |r| == if |s| >= width then |s| else width
    ensures r[|r| - |s|..] == s
    ensures forall i :: 0 <= i < |r| - |s| ==> r[i] == c
  {
    if |s| >= width then s else seq(width - |s|, _ => c) + s
  }

  lemma NatToStringOne(n: nat)
    requires n < 10
    ensures NatToString(n) == [DigitChar(n)]
  {
  }

  lemma NatToStringTwo(n: nat)
    requires 10 <= n < 100
    ensures NatToString(n) == [DigitChar(n / 10), DigitChar(n % 10)]
  {
    NatToStringOne(n / 10);
  }

  lemma PadOne(x: char)
    ensures PadStart([x], 2, '0') == ['0', x]
  {
  }

  lemma PadWide(s: string)
    requires |s| >= 2
    ensures PadStart(s, 2, '0') == s
  {
  }

  /** Zero-padding a number below 100 to two places gives two digits that read back as the number. */
  lemma PadTwo(n: nat)
    requires n < 100
    ensures var s := PadStart(NatToString(n), 2, '0');
            |s| == 2 && AllDigits(s) && DigitsValue(s) == n
  {
    var s := PadStart(NatToString(n), 2, '0');
    if n < 10 {
      NatToStringOne(n);
      PadOne(DigitChar(n));
      assert s == ['0', DigitChar(n)];
      TwoDigitsValue(s);
      assert CharDigit('0') == 0;
    } else {
      NatToStringTwo(n);
      PadWide(NatToString(n));
      assert s == [DigitChar(n / 10), DigitChar(n % 10)];
      TwoDigitsValue(s);
      assert CharDigit(s[0]) == n / 10 && CharDigit(s[1]) == n % 10;
    }
  }

  function CharDigit(c: char): (d: nat)
    requires IsDigit(c)
    ensures d < 10 && DigitChar(d) == c
  {
    c as int - '0' as int
  }

  lemma TwoDigitsValue(s: string)
    requires |s| == 2 && AllDigits(s)
    ensures DigitsValue(s) == 10 * CharDigit(s[0]) + CharDigit(s[1])
  {
    var p := s[..1];
    assert p[..0] == [];
    assert AllDigits(p) && p[0] == s[0];
    assert DigitsValue(p) == DigitsValue(p[..0]) * 10 + CharDigit(s[0]);
    assert s[..|s| - 1] == p;
  }

  /** Two decimal digits print back as themselves once the value is zero-padded to two places. */
  lemma TwoDigitsRoundTrip(s: string)
    requires |s| == 2 && AllDigits(s)
    ensures PadStart(NatToString(DigitsValue(s)), 2, '0') == s
  {
    TwoDigitsValue(s);
    var d0 := CharDigit(s[0]);
    var d1 := CharDigit(s[1]);
    var v := DigitsValue(s);
    if d0 == 0 {
      assert v == d1;
      NatToStringOne(v);
      PadOne(s[1]);
      assert s == ['0', s[1]];
    } else {
      assert v / 10 == d0 && v % 10 == d1;
      NatToStringTwo(v);
      PadWide(NatToString(v));
      assert s == [s[0], s[1]];
    }
  }
}
