/** Datatypes shared by every module. */
module Basics {
  datatype Option<+T> = None | Some(value: T)

  /** An octet. Go's byte arithmetic is written out as arithmetic on naturals below 256. */
  type byte = x: int | 0 <= x < 256

  type bytes = seq<byte>

  /** The octets of an ASCII text. */
  function Ascii(text: string): bytes
    requires forall i :: 0 <= i < |text| ==> text[i] < '\U{80}'
  {
    seq(|text|, i requires 0 <= i < |text| && text[i] < '\U{80}' => text[i] as byte)
  }

  const TWO_63: int := 0x8000_0000_0000_0000
  const TWO_64: int := 0x1_0000_0000_0000_0000

  /** Two's complement truncation to Go's int64. */
  function Int64(n: int): int {
    (n + TWO_63) % TWO_64 - TWO_63
  }

  lemma {:induction false} SubsetSize<T>(a: set<T>, b: set<T>)
    requires a <= b
    ensures |a| <= |b|
    decreases a
  {
    if a != {} {
      var x :| x in a;
      SubsetSize(a - {x}, b - {x});
    }
  }

  lemma Member<T>(s: set<T>) returns (x: T)
    requires s != {}
    ensures x in s
  {
    x :| x in s;
  }

  lemma MulMonotone(m: nat, n: nat, g: nat)
    requires m <= n
    ensures m * g <= n * g
  {
  }

  /** q is the quotient when q * d is the last multiple not above n. */
  lemma QuotientIs(n: nat, d: nat, q: nat)
    requires d > 0 && q * d <= n < q * d + d
    ensures n / d == q
  {
    var k := n / d;
    if k > q { MulMonotone(q + 1, k, d); }
    if k < q { MulMonotone(k + 1, q, d); }
  }
}
