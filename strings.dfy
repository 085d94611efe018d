/**
 * Byte-string helpers shared by the whole model: the ordering `std::string`
 * uses (`operator<`, which compares characters as unsigned values) and the
 * decimal conversions of `std::to_string` and `std::from_chars`.
 */
module Strings {
  import opened Wrappers

  /** `a < b` for `std::string`: a proper prefix sorts first, otherwise the first differing character decides. */
  predicate LexLess(a: string, b: string)
    decreases |a|
  {
    if |a| == 0 then |b| > 0
    else if |b| == 0 then false
    else if a[0] != b[0] then a[0] < b[0]
    else LexLess(a[1..], b[1..])
  }

  lemma {:induction false} LexLessIrreflexive(a: string)
    ensures !LexLess(a, a)
    decreases |a|
  {
    if |a| > 0 { LexLessIrreflexive(a[1..]); }
  }

  lemma {:induction false} LexLessTransitive(a: string, b: string, c: string)
    requires LexLess(a, b) && LexLess(b, c)
    ensures LexLess(a, c)
    decreases |a|
  {
    if |a| > 0 && |b| > 0 && |c| > 0 && a[0] == b[0] && b[0] == c[0] {
      LexLessTransitive(a[1..], b[1..], c[1..]);
    }
  }

  /** Any two different strings are ordered one way or the other, never both. */
  lemma {:induction false} LexLessTrichotomy(a: string, b: string)
    ensures a == b || LexLess(a, b) || LexLess(b, a)
    ensures !(LexLess(a, b) && LexLess(b, a))
    decreases |a|
  {
    if |a| > 0 && |b| > 0 && a[0] == b[0] {
      LexLessTrichotomy(a[1..], b[1..]);
      if a[1..] == b[1..] {
        assert a == [a[0]] + a[1..] && b == [b[0]] + b[1..];
      }
    }
  }

  predicate IsDigit(c: char) { '0' <= c <= '9' }

  function DigitChar(d: nat): (c: char)
    requires d < 10
    ensures IsDigit(c) && c as int - '0' as int == d
  {
    ('0' as int + d) as char
  }

  /** `std::to_string` of an unsigned value: its decimal digits, most significant first, no leading zero. */
  function NatToString(n: nat): (s: string)
    ensures |s| > 0 && forall i :: 0 <= i < |s| ==> IsDigit(s[i])
    ensures |s| > 1 ==> s[0] != '0'
  {
    if n < 10 then [DigitChar(n)] else NatToString(n / 10) + [DigitChar(n % 10)]
  }

  /** The value of a string of decimal digits. */
  function DecimalValue(s: string): nat
    requires forall i :: 0 <= i < |s| ==> IsDigit(s[i])
  {
    if |s| == 0 then 0
    else
      assert IsDigit(s[|s| - 1]);
      10 * DecimalValue(s[..|s| - 1]) + (s[|s| - 1] as int - '0' as int)
  }

  /** Reading back what `NatToString` wrote gives the number. */
  lemma {:induction false} DecimalRoundTrip(n: nat)
    ensures DecimalValue(NatToString(n)) == n
  {
    if n >= 10 {
      var s := NatToString(n);
      assert s[..|s| - 1] == NatToString(n / 10);
      DecimalRoundTrip(n / 10);
    }
  }

  /** The length of the run of decimal digits `s` starts with. */
  function DigitRun(s: string): (n: nat)
    ensures n <= |s| && (forall i :: 0 <= i < n ==> IsDigit(s[i])) && (n < |s| ==> !IsDigit(s[n]))
    decreases |s|
  {
    if |s| == 0 || !IsDigit(s[0]) then 0 else 1 + DigitRun(s[1..])
  }

  /** The largest `unsigned` (32 bits). */
  const UintMax: nat := 0xFFFF_FFFF

  /** `std::errc` as `std::from_chars` reports it. */
  datatype Errc = NoError | InvalidArgument | ResultOutOfRange

  /** What `std::from_chars` answers: the error, how far it read, the value stored (0 when none is). */
  datatype FromCharsResult = FromCharsResult(ec: Errc, ptr: nat, value: nat)

  /**
   * `std::from_chars` into an `unsigned`, base 10: the digits the text
   * starts with; no digit is an invalid argument, and a value past 32 bits
   * is out of range though the pointer still passes every digit.
   */
  function FromChars(s: string): (r: FromCharsResult)
    ensures r.ptr <= |s|
  {
    var n := DigitRun(s);
    if n == 0 then FromCharsResult(InvalidArgument, 0, 0)
    else if DecimalValue(s[..n]) > UintMax then FromCharsResult(ResultOutOfRange, n, 0)
    else FromCharsResult(NoError, n, DecimalValue(s[..n]))
  }

  /** `from_chars` that must succeed and read the whole text, as the version parsers call it. */
  function ParseWhole(s: string): Option<nat>
  {
    var r := FromChars(s);
    if r.ec != NoError || r.ptr != |s| then None else Some(r.value)
  }

  /** The whole text is read exactly when it is a non-empty run of digits whose value fits 32 bits. */
  lemma ParseWholeMeaning(s: string)
    ensures ParseWhole(s).Some? <==>
      (|s| > 0 && (forall i :: 0 <= i < |s| ==> IsDigit(s[i])) && DecimalValue(s) <= UintMax)
    ensures ParseWhole(s).Some? ==> ParseWhole(s).value == DecimalValue(s) <= UintMax
  {
    var n := DigitRun(s);
    if |s| > 0 && (forall i :: 0 <= i < |s| ==> IsDigit(s[i])) {
      assert n == |s|;
      assert s[..n] == s;
    }
    if n == |s| {
      assert s[..n] == s;
    }
  }

  /** What `to_string` writes, `from_chars` reads back. */
  lemma ParseWholeRoundTrip(n: nat)
    requires n <= UintMax
    ensures ParseWhole(NatToString(n)) == Some(n)
  {
    DecimalRoundTrip(n);
    ParseWholeMeaning(NatToString(n));
  }

  /** Number of occurrences of `c` in `s`. */
  function Count(c: char, s: string): nat
  {
    if |s| == 0 then 0 else Count(c, s[..|s| - 1]) + (if s[|s| - 1] == c then 1 else 0)
  }

  lemma {:induction false} CountAppend(c: char, a: string, b: string)
    ensures Count(c, a + b) == Count(c, a) + Count(c, b)
    decreases |b|
  {
    if |b| > 0 {
      assert (a + b)[..|a + b| - 1] == a + b[..|b| - 1];
      CountAppend(c, a, b[..|b| - 1]);
    } else {
      assert a + b == a;
    }
  }

  lemma {:induction false} CountAbsent(c: char, s: string)
    requires c !in s
    ensures Count(c, s) == 0
  {
    if |s| > 0 {
      assert forall x :: x in s[..|s| - 1] ==> x in s;
      CountAbsent(c, s[..|s| - 1]);
    }
  }
}
