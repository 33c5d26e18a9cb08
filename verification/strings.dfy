/** The JavaScript string primitives the plugin relies on: `split`/`join` on one character,
    `parseInt` without a radix, and `toFixed(0)` on a whole number. */
module Strings {
  import opened Wrappers

  /** The regular-expression class `\d`. */
  predicate IsDigit(c: char) {
    '0' <= c <= '9'
  }

  predicate AllDigits(s: string) {
    forall i :: 0 <= i < |s| ==> IsDigit(s[i])
  }

  /** The value of `c` as a digit in base 10 or 16, or None when `c` is not one. */
  function DigitIn(c: char, radix: nat): (d: Option<nat>)
    requires radix == 10 || radix == 16
    ensures d.Some? ==> d.value < radix
    ensures radix == 10 ==> (d.Some? <==> IsDigit(c))
  {
    if IsDigit(c) then Some(c as int - '0' as int)
    else if radix == 16 && 'a' <= c <= 'f' then Some(c as int - 'a' as int + 10)
    else if radix == 16 && 'A' <= c <= 'F' then Some(c as int - 'A' as int + 10)
    else None
  }

  predicate IsNumeral(s: string, radix: nat)
    requires radix == 10 || radix == 16
  {
    forall i :: 0 <= i < |s| ==> DigitIn(s[i], radix).Some?
  }

  /** The value of a numeral, most significant digit first. */
  function NumeralValue(s: string, radix: nat): nat
    requires radix == 10 || radix == 16
    requires IsNumeral(s, radix)
    decreases |s|
  {
    if |s| == 0 then 0
    else NumeralValue(s[..|s| - 1], radix) * radix + DigitIn(s[|s| - 1], radix).value
  }

  /** The value of a string of decimal digits. */
  function DecimalValue(s: string): nat
    requires AllDigits(s)
  {
    NumeralValue(s, 10)
  }

  function DigitChar(d: nat): (c: char)
    requires d < 10
    ensures IsDigit(c) && DigitIn(c, 10) == Some(d)
  {
    ('0' as int + d) as char
  }

  /** The decimal numeral of `n` without leading zeros: what `n.toFixed(0)` prints for a whole `n`
      below 10^21 that is exactly representable (up to 2^53); numbers here are unbounded. */
  function DecimalString(n: nat): (s: string)
    ensures |s| >= 1 && AllDigits(s)
    ensures DecimalValue(s) == n
    ensures (|s| == 1) == (n < 10)
    ensures (|s| <= 2) == (n < 100)
    ensures s[0] == '0' ==> n == 0
  {
    if n < 10 then
      var s := [DigitChar(n)];
      assert s[..|s| - 1] == [];
      assert NumeralValue(s, 10) == NumeralValue([], 10) * 10 + DigitIn(s[0], 10).value;
      s
    else
      var prefix := DecimalString(n / 10);
      var s := prefix + [DigitChar(n % 10)];
      assert s[..|s| - 1] == prefix;
      s
  }

  /** The characters `parseInt` skips before a numeral: ECMAScript white space and line
      terminators (of the Unicode space separators, only U+0020 and U+00A0 are included). */
  predicate IsJsSpace(c: char) {
    || c == ' ' || c == '\t' || c == '\n' || c == '\r' || c == '\U{B}' || c == '\U{C}'
    || c == '\U{A0}' || c == '\U{FEFF}' || c == '\U{2028}' || c == '\U{2029}'
  }

  /** `s` without its leading white space. */
  function TrimStart(s: string): (r: string)
    ensures |r| <= |s| && r == s[|s| - |r|..]
    ensures |r| > 0 ==> !IsJsSpace(r[0])
    ensures forall i :: 0 <= i < |s| - |r| ==> IsJsSpace(s[i])
    decreases |s|
  {
    if |s| > 0 && IsJsSpace(s[0]) then TrimStart(s[1..]) else s
  }

  /** The length of the longest prefix of `s` that is a numeral in `radix`. */
  function NumeralPrefix(s: string, radix: nat): (k: nat)
    requires radix == 10 || radix == 16
    ensures k <= |s| && IsNumeral(s[..k], radix)
    ensures k == |s| || DigitIn(s[k], radix).None?
    decreases |s|
  {
    if |s| > 0 && DigitIn(s[0], radix).Some? then
      var k := 1 + NumeralPrefix(s[1..], radix);
      assert forall i :: 1 <= i < k ==> s[..k][i] == s[1..][..k - 1][i - 1];
      k
    else 0
  }

  /** JavaScript's `parseInt(s)` with no radix; None stands for NaN. It skips leading white
      space, reads an optional sign and an optional `0x` prefix, then the longest numeral. */
  function ParseInt(s: string): (r: Option<int>)
    ensures |s| > 0 && AllDigits(s) ==> r == Some(DecimalValue(s))
    ensures |s| == 0 ==> r.None?
  {
    var t := TrimStart(s);
    var negative := |t| > 0 && t[0] == '-';
    var u := if |t| > 0 && (t[0] == '-' || t[0] == '+') then t[1..] else t;
    var hex := |u| >= 2 && u[0] == '0' && (u[1] == 'x' || u[1] == 'X');
    var radix := if hex then 16 else 10;
    var v := if hex then u[2..] else u;
    var k := NumeralPrefix(v, radix);
    if k == 0 then None
    else
      var m: int := NumeralValue(v[..k], radix);
      assert |s| > 0 && AllDigits(s) ==> v == s && k == |s| && v[..k] == s;
      var signed: int := if negative then -m else m;
      Some(signed)
  }

  /** JavaScript's `s.split(sep)` for a one-character separator: empty fields are kept. */
  function Split(s: string, sep: char): (parts: seq<string>)
    ensures |parts| >= 1
    ensures forall i :: 0 <= i < |parts| ==> sep !in parts[i]
    decreases |s|
  {
    if |s| == 0 then [""]
    else if s[0] == sep then [""] + Split(s[1..], sep)
    else
      var rest := Split(s[1..], sep);
      [[s[0]] + rest[0]] + rest[1..]
  }

  /** JavaScript's `parts.join(sep)` for a one-character separator. */
  function Join(parts: seq<string>, sep: char): string
    requires |parts| >= 1
    decreases |parts|
  {
    if |parts| == 1 then parts[0] else parts[0] + [sep] + Join(parts[1..], sep)
  }

  /** Joining the fields of a split gives back the string. */
  lemma {:induction false} JoinSplit(s: string, sep: char)
    ensures Join(Split(s, sep), sep) == s
    decreases |s|
  {
    if |s| > 0 {
      JoinSplit(s[1..], sep);
      var rest := Split(s[1..], sep);
      if s[0] == sep {
        assert Split(s, sep) == [""] + rest;
        assert ([""] + rest)[1..] == rest;
      } else {
        var parts := [[s[0]] + rest[0]] + rest[1..];
        assert Split(s, sep) == parts;
        if |rest| > 1 {
          assert parts[1..] == rest[1..];
        }
      }
    }
  }

  lemma {:induction false} SplitNoSeparator(a: string, sep: char)
    requires sep !in a
    ensures Split(a, sep) == [a]
    decreases |a|
  {
    if |a| > 0 {
      SplitNoSeparator(a[1..], sep);
      assert [a[0]] + a[1..] == a;
    }
  }

  lemma {:induction false} SplitCons(a: string, b: string, sep: char)
    requires sep !in a
    ensures Split(a + [sep] + b, sep) == [a] + Split(b, sep)
    decreases |a|
  {
    var s := a + [sep] + b;
    if |a| == 0 {
      assert s[1..] == b;
    } else {
      SplitCons(a[1..], b, sep);
      assert s[1..] == a[1..] + [sep] + b;
      assert [a[0]] + a[1..] == a;
    }
  }

  /** Splitting a join of separator-free fields gives back the fields. */
  lemma {:induction false} SplitJoin(parts: seq<string>, sep: char)
    requires |parts| >= 1
    requires forall i :: 0 <= i < |parts| ==> sep !in parts[i]
    ensures Split(Join(parts, sep), sep) == parts
    decreases |parts|
  {
    if |parts| == 1 {
      SplitNoSeparator(parts[0], sep);
    } else {
      SplitJoin(parts[1..], sep);
      SplitCons(parts[0], Join(parts[1..], sep), sep);
      assert parts == [parts[0]] + parts[1..];
    }
  }
}
