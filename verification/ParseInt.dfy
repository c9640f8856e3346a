/** Unsigned integer parsing (libls/ls_parse_int.c) and its inverse, printing with "%zu". */
module ParseInt {
  import opened Common

  const ERANGE: int := 34
  const EINVAL: int := 22

  predicate IsDigit(c: char) {
    '0' <= c <= '9'
  }

  predicate AllDigits(s: string) {
    forall i | 0 <= i < |s| :: IsDigit(s[i])
  }

  function DigitValue(c: char): (d: nat)
    requires IsDigit(c)
  {
    c as int - '0' as int
  }

  /** The length of the longest prefix of `s` made of digits. */
  function DigitRun(s: string): (n: nat)
    ensures n <= |s| && (forall i | 0 <= i < n :: IsDigit(s[i]))
    ensures n < |s| ==> !IsDigit(s[n])
  {
    if s == "" || !IsDigit(s[0]) then 0 else 1 + DigitRun(s[1..])
  }

  lemma {:induction false} DigitRunUnique(s: string, n: nat)
    requires n <= |s| && (forall i | 0 <= i < n :: IsDigit(s[i]))
    requires n < |s| ==> !IsDigit(s[n])
    ensures DigitRun(s) == n
  {
  }

  /** The number a string of decimal digits stands for; leading zeroes are allowed. */
  function Value(s: string): nat
    requires AllDigits(s)
  {
    if s == "" then 0 else 10 * Value(s[..|s| - 1]) + DigitValue(s[|s| - 1])
  }

  lemma {:induction false} ValueMonotone(s: string, i: nat)
    requires AllDigits(s) && i <= |s|
    ensures Value(s[..i]) <= Value(s)
  {
    if i == |s| {
      assert s[..i] == s;
    } else {
      ValueMonotone(s[..|s| - 1], i);
      assert s[..|s| - 1][..i] == s[..i];
    }
  }

  /** What printf("%zu") writes. */
  function Decimal(k: nat): (s: string)
    ensures s != "" && AllDigits(s)
  {
    if k < 10 then [('0' as int + k) as char] else Decimal(k / 10) + [('0' as int + k % 10) as char]
  }

  /** Reading back what was printed gives the number printed. */
  lemma {:induction false} ValueOfDecimal(k: nat)
    ensures Value(Decimal(k)) == k
  {
    var s := Decimal(k);
    if k < 10 {
      assert s[..|s| - 1] == "";
    } else {
      ValueOfDecimal(k / 10);
      assert s[..|s| - 1] == Decimal(k / 10);
    }
  }

  /** The digit loop: the parsed value, or -ERANGE exactly when the digits denote more than INT_MAX;
      every intermediate value fits a C int. */
  method StrtouB(s: string) returns (ret: int, end: nat)
    ensures end <= |s| && -ERANGE <= ret <= INT_MAX
    ensures 0 <= ret <==> Value(s[..DigitRun(s)]) <= INT_MAX
    ensures 0 <= ret ==> end == DigitRun(s) && ret == Value(s[..end])
    ensures ret < 0 ==> ret == -ERANGE
  {
    ret := 0;
    var i := 0;
    while i != |s|
      invariant 0 <= i <= |s| && (forall k | 0 <= k < i :: IsDigit(s[k]))
      invariant 0 <= ret <= INT_MAX && ret == Value(s[..i])
    {
      var digit := s[i] as int - '0' as int;
      if digit < 0 || digit > 9 {
        break;
      }
      assert s[..i + 1][..i] == s[..i];
      if ret > INT_MAX / 10 {
        OverflowIsFinal(s, i + 1);
        return -ERANGE, i;
      }
      ret := ret * 10;
      assert ret <= INT_MAX;
      if ret > INT_MAX - digit {
        OverflowIsFinal(s, i + 1);
        return -ERANGE, i;
      }
      ret := ret + digit;
      i := i + 1;
    }
    DigitRunUnique(s, i);
    end := i;
  }

  lemma {:induction false} OverflowIsFinal(s: string, i: nat)
    requires i <= |s| && (forall k | 0 <= k < i :: IsDigit(s[k])) && Value(s[..i]) > INT_MAX
    ensures Value(s[..DigitRun(s)]) > INT_MAX
  {
    var r := DigitRun(s);
    ValueMonotone(s[..r], i);
    assert s[..r][..i] == s[..i];
  }

  /** The result of parsing a whole string: a number or a negated errno value. */
  function FullStrtou(s: string): (r: int)
    ensures r <= INT_MAX
    ensures 0 <= r <==> s != "" && AllDigits(s) && Value(s) <= INT_MAX
    ensures 0 <= r ==> AllDigits(s) && r == Value(s)
  {
    var n := DigitRun(s);
    assert n == |s| ==> s[..n] == s;
    if s == "" then -EINVAL
    else if Value(s[..n]) > INT_MAX then -ERANGE
    else if n != |s| then -EINVAL
    else Value(s)
  }

  method FullStrtouB(s: string) returns (r: int)
    ensures r == FullStrtou(s)
  {
    if |s| == 0 {
      return -EINVAL;
    }
    var end;
    r, end := StrtouB(s);
    if r < 0 {
      return r;
    }
    if end != |s| {
      return -EINVAL;
    }
    assert s[..end] == s;
  }

  /** Exactly the printed form of k, up to leading zeroes, parses to k. */
  lemma {:induction false} PrintedIndexParses(k: nat)
    ensures FullStrtou(Decimal(k)) == if k <= INT_MAX then k else -ERANGE
  {
    var s := Decimal(k);
    ValueOfDecimal(k);
    DigitRunUnique(s, |s|);
    assert s[..|s|] == s;
  }
}
