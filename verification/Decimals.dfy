/** Decimal spelling of integers: strconv.FormatInt and strconv.ParseInt in base 10, 64 bits. */
module Decimals {
  import opened Basics

  const MINUS: byte := 45
  const PLUS: byte := 43
  const ZERO: byte := 48

  predicate IsDigit(c: byte) {
    ZERO <= c < ZERO + 10
  }

  function Digits(n: nat): (r: bytes)
    ensures |r| > 0 && forall i :: 0 <= i < |r| ==> IsDigit(r[i])
  {
    if n < 10 then [ZERO + n] else Digits(n / 10) + [ZERO + n % 10]
  }

  function Format(n: int): bytes {
    if n < 0 then [MINUS] + Digits(-n) else Digits(n)
  }

  /** The value of a string of digits; None if it is empty or holds anything else. */
  function DigitsValue(s: bytes): (r: Option<nat>)
    ensures r.Some? <==> |s| > 0 && forall i :: 0 <= i < |s| ==> IsDigit(s[i])
  {
    if s == [] || !IsDigit(s[|s| - 1]) then None
    else
      var last := s[|s| - 1] - ZERO;
      if |s| == 1 then Some(last)
      else
        var rest := DigitsValue(s[..|s| - 1]);
        if rest.None? then None else Some(10 * rest.value + last)
  }

  /** strconv.ParseInt(s, 10, 64): an optional sign, digits, and a value in range. */
  function ParseInt(s: bytes): Option<int> {
    if s == [] then None
    else
      var negative := s[0] == MINUS;
      var digits := DigitsValue(if s[0] == MINUS || s[0] == PLUS then s[1..] else s);
      if digits.None? then None
      else
        var size: int := digits.value;
        var n := if negative then -size else size;
        if -TWO_63 <= n < TWO_63 then Some(n) else None
  }

  lemma {:induction false} DigitsRead(n: nat)
    ensures DigitsValue(Digits(n)) == Some(n)
  {
    if n >= 10 {
      DigitsRead(n / 10);
      var s := Digits(n);
      assert s[..|s| - 1] == Digits(n / 10);
    }
  }

  /** Most significant digit first, and a sign. */
  lemma Spellings()
    ensures Format(0) == Ascii("0") && Format(120) == Ascii("120") && Format(-57) == Ascii("-57")
  {
    assert Digits(1) == [49] && Digits(12) == [49, 50] && Digits(120) == [49, 50, 48];
    assert Digits(5) == [53] && Digits(57) == [53, 55];
  }

  lemma ParseFormat(n: int)
    ensures ParseInt(Format(n)) == if -TWO_63 <= n < TWO_63 then Some(n) else None
  {
    DigitsRead(if n < 0 then -n else n);
    if n < 0 {
      assert Format(n)[1..] == Digits(-n);
    }
  }

  lemma FormatInjective(m: int, n: int)
    requires Format(m) == Format(n)
    ensures m == n
  {
    DigitsRead(if m < 0 then -m else m);
    DigitsRead(if n < 0 then -n else n);
    if m < 0 { assert Format(m)[1..] == Digits(-m) && Format(m)[0] == MINUS; }
    if n < 0 { assert Format(n)[1..] == Digits(-n) && Format(n)[0] == MINUS; }
    assert m >= 0 ==> IsDigit(Format(m)[0]);
    assert n >= 0 ==> IsDigit(Format(n)[0]);
  }

  lemma FormatIsPlain(n: int)
    ensures |Format(n)| > 0
    ensures forall i :: 0 <= i < |Format(n)| ==> IsDigit(Format(n)[i]) || Format(n)[i] == MINUS
  {
  }
}
