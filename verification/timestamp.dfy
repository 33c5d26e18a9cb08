/** Timestamps in notes (main.ts): `getSeconds`, the `ts` regular expression of the block
    processor, and the `hh:mm:ss` formatter of the timestamp-insert command. */
module Timestamp {
  import opened Wrappers
  import opened Strings

  /** `(x || 0)` on a parsed field: NaN, undefined and 0 all read as 0. */
  function OrZero(field: Option<int>): int {
    field.GetOr(0)
  }

  /** Element `i` of an array, undefined past its end. */
  function Field(fields: seq<Option<int>>, i: nat): Option<int> {
    if i < |fields| then fields[i] else None
  }

  /** `getSeconds(ts)`: the fields between ':' parsed with `parseInt`; two fields are read as
      minutes and seconds, otherwise the first three are hours, minutes and seconds. */
  function GetSeconds(ts: string): int {
    var parts := Split(ts, ':');
    var parsed := seq(|parts|, i requires 0 <= i < |parts| => ParseInt(parts[i]));
    var fields := if |parsed| == 2 then [Some(0)] + parsed else parsed;
    OrZero(Field(fields, 0)) * 3600 + OrZero(Field(fields, 1)) * 60 + OrZero(Field(fields, 2))
  }

  /** A clock of `n` fields: `n` non-empty runs of decimal digits separated by ':'. */
  predicate IsClock(m: string, n: nat) {
    var parts := Split(m, ':');
    |parts| == n && forall i :: 0 <= i < n ==> |parts[i]| > 0 && AllDigits(parts[i])
  }

  lemma NoColonInDigits(s: string)
    requires AllDigits(s)
    ensures ':' !in s
  {
  }

  /** `getSeconds` of a two- or three-field clock is the weighted sum of its fields. */
  lemma GetSecondsOfClock(ts: string, n: nat)
    requires (n == 2 || n == 3) && IsClock(ts, n)
    ensures var parts := Split(ts, ':');
      GetSeconds(ts) == if n == 2 then DecimalValue(parts[0]) * 60 + DecimalValue(parts[1])
                        else DecimalValue(parts[0]) * 3600 + DecimalValue(parts[1]) * 60 + DecimalValue(parts[2])
  {
  }

  lemma ClockTwoFields(mm: string, ss: string)
    requires |mm| > 0 && AllDigits(mm) && |ss| > 0 && AllDigits(ss)
    ensures Split(mm + ":" + ss, ':') == [mm, ss] && IsClock(mm + ":" + ss, 2)
  {
    NoColonInDigits(mm);
    NoColonInDigits(ss);
    SplitCons(mm, ss, ':');
    SplitNoSeparator(ss, ':');
  }

  lemma ClockThreeFields(hh: string, mm: string, ss: string)
    requires |hh| > 0 && AllDigits(hh) && |mm| > 0 && AllDigits(mm) && |ss| > 0 && AllDigits(ss)
    ensures Split(hh + ":" + (mm + ":" + ss), ':') == [hh, mm, ss]
    ensures IsClock(hh + ":" + (mm + ":" + ss), 3)
  {
    ClockTwoFields(mm, ss);
    NoColonInDigits(hh);
    SplitCons(hh, mm + ":" + ss, ':');
  }

  /** `getSeconds("mm:ss")` is mm * 60 + ss. */
  lemma {:induction false} GetSecondsTwoFields(mm: string, ss: string)
    requires |mm| > 0 && AllDigits(mm) && |ss| > 0 && AllDigits(ss)
    ensures GetSeconds(mm + ":" + ss) == DecimalValue(mm) * 60 + DecimalValue(ss)
  {
    ClockTwoFields(mm, ss);
    GetSecondsOfClock(mm + ":" + ss, 2);
  }

  /** `getSeconds("hh:mm:ss")` is hh * 3600 + mm * 60 + ss. */
  lemma {:induction false} GetSecondsThreeFields(hh: string, mm: string, ss: string)
    requires |hh| > 0 && AllDigits(hh) && |mm| > 0 && AllDigits(mm) && |ss| > 0 && AllDigits(ss)
    ensures GetSeconds(hh + ":" + mm + ":" + ss)
         == DecimalValue(hh) * 3600 + DecimalValue(mm) * 60 + DecimalValue(ss)
  {
    ClockThreeFields(hh, mm, ss);
    assert hh + ":" + mm + ":" + ss == hh + ":" + (mm + ":" + ss);
    GetSecondsOfClock(hh + ":" + (mm + ":" + ss), 3);
  }

  /** A string without ':' is read as hours. */
  lemma {:induction false} GetSecondsOneField(hh: string)
    requires |hh| > 0 && AllDigits(hh)
    ensures GetSeconds(hh) == DecimalValue(hh) * 3600
  {
    NoColonInDigits(hh);
    SplitNoSeparator(hh, ':');
  }

  // ---------------------------------------------------------------------------------------
  // The regular expression /\d+:\d+:\d+|\d+:\d+/g. A greedy `\d+` followed by ':' can only
  // succeed with the longest run of digits, since a shorter run is followed by a digit.

  /** The end of the run of digits that starts at `i`. */
  function DigitRunEnd(s: string, i: nat): (e: nat)
    requires i <= |s|
    ensures i <= e <= |s|
    ensures forall k :: i <= k < e ==> IsDigit(s[k])
    ensures e == |s| || !IsDigit(s[e])
    decreases |s| - i
  {
    if i < |s| && IsDigit(s[i]) then DigitRunEnd(s, i + 1) else i
  }

  /** `\d+:` matched at `i` and followed by a digit: the position just after the ':'. */
  function RunAndColon(s: string, i: nat): (q: Option<nat>)
    requires i <= |s|
    ensures q.Some? ==> i + 2 <= q.value < |s| && IsDigit(s[q.value]) && s[q.value - 1] == ':'
    ensures q.Some? ==> forall k :: i <= k < q.value - 1 ==> IsDigit(s[k])
  {
    var e := DigitRunEnd(s, i);
    if i < e && e + 1 < |s| && s[e] == ':' && IsDigit(s[e + 1]) then Some(e + 1) else None
  }

  /** The end of a match of `\d+:\d+:\d+` at `p`. */
  function MatchThreeAt(s: string, p: nat): (e: Option<nat>)
    requires p <= |s|
    ensures e.Some? ==> p < e.value <= |s|
  {
    match RunAndColon(s, p)
    case None => None
    case Some(q) =>
      match RunAndColon(s, q)
      case None => None
      case Some(r) => Some(DigitRunEnd(s, r))
  }

  /** The end of a match of `\d+:\d+` at `p`. */
  function MatchTwoAt(s: string, p: nat): (e: Option<nat>)
    requires p <= |s|
    ensures e.Some? ==> p < e.value <= |s|
  {
    match RunAndColon(s, p)
    case None => None
    case Some(q) => Some(DigitRunEnd(s, q))
  }

  /** The end of a match of the alternation at `p`; the three-field branch is tried first. */
  function MatchAt(s: string, p: nat): (e: Option<nat>)
    requires p <= |s|
    ensures e.Some? ==> p < e.value <= |s|
  {
    if MatchThreeAt(s, p).Some? then MatchThreeAt(s, p) else MatchTwoAt(s, p)
  }

  /** The leftmost match at or after `from`, as (start, end). */
  function FirstMatchFrom(s: string, from: nat): (m: Option<(nat, nat)>)
    requires from <= |s|
    ensures m.Some? ==> from <= m.value.0 < |s| && MatchAt(s, m.value.0) == Some(m.value.1)
    ensures forall p :: from <= p < (if m.Some? then m.value.0 else |s|) ==> MatchAt(s, p).None?
    decreases |s| - from
  {
    if from == |s| then None
    else
      match MatchAt(s, from)
      case Some(e) => Some((from, e))
      case None => FirstMatchFrom(s, from + 1)
  }

  /** `s.match(re)[0]` under the `g` flag: the first match, if any. */
  function FirstMatch(s: string): (m: Option<(nat, nat)>)
    ensures m.Some? ==> m.value.0 < |s| && MatchAt(s, m.value.0) == Some(m.value.1)
    ensures m.Some? ==> forall p :: 0 <= p < m.value.0 ==> MatchAt(s, p).None?
    ensures m.None? <==> forall p :: 0 <= p <= |s| ==> MatchAt(s, p).None?
  {
    FirstMatchFrom(s, 0)
  }

  /** The seconds the block processor reads from a note's `ts` field: the first clock in it,
      through `getSeconds`; undefined when the field is absent, empty or holds no clock. */
  function ExtractSeconds(ts: Option<string>): (r: Option<int>)
    ensures r.Some? <==> Present(ts) && FirstMatch(ts.value).Some?
    ensures r.Some? ==> var (p, e) := FirstMatch(ts.value).value;
      r.value == GetSeconds(ts.value[p..e])
  {
    if !Present(ts) then None
    else
      match FirstMatch(ts.value)
      case None => None
      case Some((p, e)) => Some(GetSeconds(ts.value[p..e]))
  }

  lemma {:induction false} DigitRunEndAt(s: string, i: nat, j: nat)
    requires i <= j <= |s|
    requires forall k :: i <= k < j ==> IsDigit(s[k])
    ensures DigitRunEnd(s, i) >= j
    ensures j == |s| || !IsDigit(s[j]) ==> DigitRunEnd(s, i) == j
    decreases j - i
  {
    if i < j {
      DigitRunEndAt(s, i + 1, j);
    }
  }

  lemma ClockOfOneField(x: string)
    requires |x| > 0 && AllDigits(x)
    ensures IsClock(x, 1)
  {
    NoColonInDigits(x);
    SplitNoSeparator(x, ':');
  }

  lemma ClockCons(a: string, x: string, n: nat)
    requires |a| > 0 && AllDigits(a) && IsClock(x, n)
    ensures IsClock(a + ":" + x, n + 1)
  {
    NoColonInDigits(a);
    SplitCons(a, x, ':');
    var parts := Split(a + ":" + x, ':');
    assert parts == [a] + Split(x, ':');
    forall i | 0 <= i < n + 1
      ensures |parts[i]| > 0 && AllDigits(parts[i])
    {
      if i > 0 {
        assert parts[i] == Split(x, ':')[i - 1];
      }
    }
  }

  lemma ClockOne(m: string)
    requires IsClock(m, 1)
    ensures |m| > 0 && AllDigits(m)
  {
    JoinSplit(m, ':');
  }

  /** A slice that is a field, a ':' and the rest: where each part lies in `s`. */
  lemma SliceAtColon(s: string, p: nat, e: nat, a: string, rest: string)
    requires p <= e <= |s| && s[p..e] == a + ":" + rest
    ensures p + |a| < e && s[p + |a|] == ':'
    ensures s[p..p + |a|] == a && s[p + |a| + 1..e] == rest
  {
    var m := s[p..e];
    assert m[|a|] == ':';
    assert s[p..p + |a|] == m[..|a|];
    assert s[p + |a| + 1..e] == m[|a| + 1..];
  }

  /** A slice around a ':' is the part before it, the ':', and the part after it. */
  lemma SliceAroundColon(s: string, p: nat, q: nat, e: nat)
    requires p < q <= e <= |s| && s[q - 1] == ':'
    ensures s[p..e] == s[p..q - 1] + ":" + s[q..e]
  {
    assert s[p..e] == s[p..q - 1] + s[q - 1..q] + s[q..e];
  }

  /** A clock of `n >= 2` fields at `p` starts with a run of digits and a ':', after which a
      clock of `n - 1` fields follows. */
  lemma {:induction false} ClockStep(s: string, p: nat, e: nat, n: nat)
    requires n >= 2 && p <= e <= |s| && IsClock(s[p..e], n)
    ensures RunAndColon(s, p).Some?
    ensures var q := RunAndColon(s, p).value; q <= e && IsClock(s[q..e], n - 1)
  {
    var m := s[p..e];
    var parts := Split(m, ':');
    var a := parts[0];
    var rest := Join(parts[1..], ':');
    JoinSplit(m, ':');
    assert m == a + [':'] + rest;
    SplitJoin(parts[1..], ':');
    assert IsClock(rest, n - 1) by {
      forall i | 0 <= i < n - 1
        ensures |Split(rest, ':')[i]| > 0 && AllDigits(Split(rest, ':')[i])
      {
        assert Split(rest, ':')[i] == parts[i + 1];
      }
    }
    var q := p + |a| + 1;
    SliceAtColon(s, p, e, a, rest);
    assert forall k :: p <= k < p + |a| ==> s[k] == s[p..p + |a|][k - p];
    DigitRunEndAt(s, p, p + |a|);
    if n - 1 == 1 {
      ClockOne(rest);
    } else {
      var inner := Split(rest, ':');
      JoinSplit(rest, ':');
      assert rest[0] == inner[0][0] by {
        assert rest == Join(inner, ':');
        assert Join(inner, ':') == inner[0] + [':'] + Join(inner[1..], ':');
      }
    }
    assert IsDigit(s[q]);
  }

  /** Every match is a clock of two or three fields and ends where its last run of digits ends;
      a match of the two-field branch is a two-field clock. */
  lemma {:induction false} MatchIsClock(s: string, p: nat)
    requires p <= |s|
    ensures MatchTwoAt(s, p).Some? ==> IsClock(s[p..MatchTwoAt(s, p).value], 2)
    ensures MatchThreeAt(s, p).Some? ==> IsClock(s[p..MatchThreeAt(s, p).value], 3)
    ensures MatchAt(s, p).Some? ==> var e := MatchAt(s, p).value;
      (IsClock(s[p..e], 3) || IsClock(s[p..e], 2)) && (e == |s| || !IsDigit(s[e]))
  {
    if RunAndColon(s, p).Some? {
      var q := RunAndColon(s, p).value;
      var a := s[p..q - 1];
      var e2 := DigitRunEnd(s, q);
      assert AllDigits(s[q..e2]);
      ClockOfOneField(s[q..e2]);
      ClockCons(a, s[q..e2], 1);
      SliceAroundColon(s, p, q, e2);
      if RunAndColon(s, q).Some? {
        var r := RunAndColon(s, q).value;
        var e3 := DigitRunEnd(s, r);
        var b := s[q..r - 1];
        assert AllDigits(s[r..e3]);
        ClockOfOneField(s[r..e3]);
        ClockCons(b, s[r..e3], 1);
        SliceAroundColon(s, q, r, e3);
        ClockCons(a, s[q..e3], 2);
        SliceAroundColon(s, p, q, e3);
      }
    }
  }

  /** A three-field clock at `p` is matched by the three-field branch, and exactly when no digit
      follows it. */
  lemma {:induction false} ThreeFieldsPreferred(s: string, p: nat, e: nat)
    requires p <= e <= |s| && IsClock(s[p..e], 3)
    ensures MatchThreeAt(s, p).Some? && MatchAt(s, p) == MatchThreeAt(s, p)
    ensures MatchAt(s, p) == Some(e) <==> e == |s| || !IsDigit(s[e])
  {
    MatchIsClock(s, p);
    ClockStep(s, p, e, 3);
    var q := RunAndColon(s, p).value;
    ClockStep(s, q, e, 2);
    var r := RunAndColon(s, q).value;
    ClockOne(s[r..e]);
    assert forall k :: r <= k < e ==> s[k] == s[r..e][k - r];
    DigitRunEndAt(s, r, e);
  }

  /** A whole string that is a clock of two or three fields is matched entirely at position 0. */
  lemma {:induction false} WholeClockMatches(s: string, n: nat)
    requires (n == 2 || n == 3) && IsClock(s, n)
    ensures FirstMatch(s) == Some((0, |s|))
  {
    assert s[0..|s|] == s;
    if n == 3 {
      ThreeFieldsPreferred(s, 0, |s|);
    } else {
      ClockStep(s, 0, |s|, 2);
      var q := RunAndColon(s, 0).value;
      ClockOne(s[q..]);
      assert forall k :: q <= k < |s| ==> s[k] == s[q..][k - q];
      DigitRunEndAt(s, q, |s|);
    }
  }

  lemma NothingMatchesAt(s: string, p: nat)
    requires FirstMatch(s).None? && p <= |s|
    ensures RunAndColon(s, p).None?
  {
    if p < |s| {
      assert MatchAt(s, p).None?;
    }
  }

  /** The `ts` expression finds nothing exactly when the string contains no two-field clock
      anywhere; in particular a three-field clock always yields a match. */
  lemma {:induction false} NoMatchIffNoClock(s: string)
    ensures FirstMatch(s).None? <==>
      forall p, e :: 0 <= p <= e <= |s| ==> !IsClock(s[p..e], 2)
  {
    if FirstMatch(s).Some? {
      var p := FirstMatch(s).value.0;
      MatchIsClock(s, p);
      assert MatchTwoAt(s, p).Some?;
    } else {
      forall p, e | 0 <= p <= e <= |s|
        ensures !IsClock(s[p..e], 2)
      {
        if IsClock(s[p..e], 2) {
          ClockStep(s, p, e, 2);
          NothingMatchesAt(s, p);
          assert false;
        }
      }
    }
  }

  // ---------------------------------------------------------------------------------------
  // The formatter of the timestamp-insert command, on whole seconds.

  /** `leadingZero(n)`: the decimal numeral of `n`, with a '0' in front when `n < 10`. */
  function LeadingZero(n: nat): (r: string)
    ensures |r| >= 2 && AllDigits(r) && DecimalValue(r) == n
    ensures n < 10 ==> |r| == 2 && r[0] == '0'
    ensures n >= 10 ==> r[0] != '0'
    ensures (|r| == 2) == (n < 100)
  {
    if n < 10 then
      var d := DecimalString(n);
      var r := "0" + d;
      assert d[..0] == [] && NumeralValue(d, 10) == NumeralValue([], 10) * 10 + DigitIn(d[0], 10).value;
      assert r[..1] == "0" && r[..1][..0] == [];
      assert NumeralValue("0", 10) == NumeralValue([], 10) * 10 + DigitIn('0', 10).value;
      assert NumeralValue(r, 10) == NumeralValue(r[..1], 10) * 10 + DigitIn(r[1], 10).value;
      r
    else DecimalString(n)
  }

  /** The hours, minutes and seconds the formatter computes from `t` seconds: minutes and
      seconds are below 60, there are hours exactly from one hour on, and together they make `t`. */
  function Components(t: nat): (c: (nat, nat, nat))
    ensures c.1 < 60 && c.2 < 60
    ensures c.0 > 0 <==> t >= 3600
    ensures c.0 * 3600 + c.1 * 60 + c.2 == t
  {
    var hours := t / 3600;
    var minutes := (t - hours * 3600) / 60;
    var seconds := t - hours * 3600 - minutes * 60;
    (hours, minutes, seconds)
  }

  /** The hours field and its ':' appear only for a positive number of hours. */
  function TimeText(hours: nat, minutes: nat, seconds: nat): string {
    (if hours > 0 then LeadingZero(hours) + ":" else "")
      + LeadingZero(minutes) + ":" + LeadingZero(seconds)
  }

  /** The time text of the timestamp-insert command for `t` seconds. */
  function FormatTime(t: nat): string {
    var (hours, minutes, seconds) := Components(t);
    TimeText(hours, minutes, seconds)
  }

  lemma TimeTextShape(hours: nat, minutes: nat, seconds: nat)
    ensures var hh, mm, ss := LeadingZero(hours), LeadingZero(minutes), LeadingZero(seconds);
      TimeText(hours, minutes, seconds)
        == if hours > 0 then hh + ":" + (mm + ":" + ss) else mm + ":" + ss
  {
  }

  lemma {:induction false} TimeTextFields(hours: nat, minutes: nat, seconds: nat)
    ensures Split(TimeText(hours, minutes, seconds), ':')
         == (if hours > 0 then [LeadingZero(hours)] else []) + [LeadingZero(minutes), LeadingZero(seconds)]
    ensures IsClock(TimeText(hours, minutes, seconds), if hours > 0 then 3 else 2)
  {
    TimeTextShape(hours, minutes, seconds);
    ClockTwoFields(LeadingZero(minutes), LeadingZero(seconds));
    if hours > 0 {
      ClockThreeFields(LeadingZero(hours), LeadingZero(minutes), LeadingZero(seconds));
    }
  }

  /** The formatter omits the hours field exactly when the hours are 0; minutes and seconds are
      below 60; every field has at least two digits. */
  lemma {:induction false} FormatTimeFields(t: nat)
    ensures var parts := Split(FormatTime(t), ':');
      && |parts| == (if t >= 3600 then 3 else 2)
      && (forall i :: 0 <= i < |parts| ==> |parts[i]| >= 2 && AllDigits(parts[i]))
      && DecimalValue(parts[|parts| - 2]) < 60 && |parts[|parts| - 2]| == 2
      && DecimalValue(parts[|parts| - 1]) < 60 && |parts[|parts| - 1]| == 2
  {
    var (hours, minutes, seconds) := Components(t);
    TimeTextFields(hours, minutes, seconds);
  }

  /** The formatted time is a clock of two or three fields and `getSeconds` reads it back. */
  lemma {:induction false} FormatTimeParses(t: nat)
    ensures IsClock(FormatTime(t), if t >= 3600 then 3 else 2)
    ensures GetSeconds(FormatTime(t)) == t
  {
    var (hours, minutes, seconds) := Components(t);
    TimeTextFields(hours, minutes, seconds);
    GetSecondsOfClock(FormatTime(t), if t >= 3600 then 3 else 2);
  }

  /** Reading the formatted time as a `ts` field gives back the seconds: the `ts:` line the
      timestamp-insert command writes is read back by the block processor as the same time. */
  lemma {:induction false} FormatTimeRoundTrip(t: nat)
    ensures ExtractSeconds(Some(FormatTime(t))) == Some(t)
  {
    var s := FormatTime(t);
    FormatTimeParses(t);
    WholeClockMatches(s, if t >= 3600 then 3 else 2);
    assert s[0..|s|] == s;
  }
}
