/**
 Base64 in the URL alphabet, unpadded and strict, written out digit by digit (sections 3.5 and 5 of
 RFC 4648): the encoding behind paseto.go's b64. Like Go's decoder it skips CR and LF anywhere.
*/
module Base64 {
  import opened Basics

  const CR: byte := 13
  const LF: byte := 10

  /** The digit for a sextet: A-Z, a-z, 0-9, '-' and '_'. */
  function Digit(v: nat): byte
    requires v < 64
  {
    if v < 26 then 65 + v
    else if v < 52 then 97 + v - 26
    else if v < 62 then 48 + v - 52
    else if v == 62 then 45
    else 95
  }

  /** The sextet a character stands for, if it is in the alphabet. */
  function Value(c: byte): (r: Option<nat>)
    ensures r.Some? ==> r.value < 64
  {
    if 65 <= c <= 90 then Some(c - 65)
    else if 97 <= c <= 122 then Some(c - 97 + 26)
    else if 48 <= c <= 57 then Some(c - 48 + 52)
    else if c == 45 then Some(62)
    else if c == 95 then Some(63)
    else None
  }

  /** One to three octets as two to four digits. */
  function EncodeGroup(b: bytes): bytes
    requires 1 <= |b| <= 3
  {
    if |b| == 1 then [Digit(b[0] / 4), Digit(b[0] % 4 * 16)]
    else if |b| == 2 then [Digit(b[0] / 4), Digit(b[0] % 4 * 16 + b[1] / 16), Digit(b[1] % 16 * 4)]
    else [Digit(b[0] / 4), Digit(b[0] % 4 * 16 + b[1] / 16), Digit(b[1] % 16 * 4 + b[2] / 64), Digit(b[2] % 64)]
  }

  function Encode(b: bytes): bytes {
    if |b| == 0 then []
    else if |b| < 3 then EncodeGroup(b)
    else EncodeGroup(b[..3]) + Encode(b[3..])
  }

  function Octets2(v0: nat, v1: nat): Option<bytes>
    requires v0 < 64 && v1 < 64
  {
    if v1 % 16 != 0 then None else Some([v0 * 4 + v1 / 16])
  }

  function Octets3(v0: nat, v1: nat, v2: nat): Option<bytes>
    requires v0 < 64 && v1 < 64 && v2 < 64
  {
    if v2 % 4 != 0 then None else Some([v0 * 4 + v1 / 16, v1 % 16 * 16 + v2 / 4])
  }

  function Octets4(v0: nat, v1: nat, v2: nat, v3: nat): Option<bytes>
    requires v0 < 64 && v1 < 64 && v2 < 64 && v3 < 64
  {
    Some([v0 * 4 + v1 / 16, v1 % 16 * 16 + v2 / 4, v2 % 4 * 64 + v3])
  }

  /** Two to four digits; the unused bits of a short tail must be zero. */
  function DecodeGroup(s: bytes): Option<bytes>
    requires 2 <= |s| <= 4
  {
    var v0, v1 := Value(s[0]), Value(s[1]);
    if v0.None? || v1.None? then None
    else if |s| == 2 then Octets2(v0.value, v1.value)
    else
      var v2 := Value(s[2]);
      if v2.None? then None
      else if |s| == 3 then Octets3(v0.value, v1.value, v2.value)
      else
        var v3 := Value(s[3]);
        if v3.None? then None else Octets4(v0.value, v1.value, v2.value, v3.value)
  }

  /** Decoding with no line breaks left: whole quanta, then a tail. */
  function DecodeDigits(s: bytes): Option<bytes> {
    if |s| == 0 then Some([])
    else if |s| == 1 then None
    else if |s| < 4 then DecodeGroup(s)
    else
      var first := DecodeGroup(s[..4]);
      var rest := DecodeDigits(s[4..]);
      if first.None? || rest.None? then None else Some(first.value + rest.value)
  }

  predicate IsBreak(c: byte) {
    c == CR || c == LF
  }

  function Strip(s: bytes): bytes {
    if s == [] then [] else (if IsBreak(s[0]) then [] else [s[0]]) + Strip(s[1..])
  }

  predicate Unbroken(s: bytes) {
    forall i :: 0 <= i < |s| ==> !IsBreak(s[i])
  }

  function Decode(s: bytes): Option<bytes> {
    DecodeDigits(Strip(s))
  }

  /** Three of the vectors of section 10 of RFC 4648 without their padding, and the two digits that only the URL alphabet has. */
  lemma Vectors()
    ensures Encode(Ascii("f")) == Ascii("Zg") && Encode(Ascii("fo")) == Ascii("Zm8") && Encode(Ascii("foo")) == Ascii("Zm9v")
    ensures Encode([251, 255]) == Ascii("-_8")
  {
    assert Encode([]) == [];
    assert Ascii("f") == [102] && Ascii("fo") == [102, 111] && Ascii("foo") == [102, 111, 111];
    assert EncodeGroup([102, 111, 111]) == [90, 109, 57, 118];
    assert Ascii("foo")[..3] == [102, 111, 111] && Ascii("foo")[3..] == [];
  }

  lemma ValueOfDigit(v: nat)
    requires v < 64
    ensures Value(Digit(v)) == Some(v)
  {
  }

  lemma DigitOfValue(c: byte)
    requires Value(c).Some?
    ensures Digit(Value(c).value) == c
  {
  }

  lemma GroupRoundTrip(b: bytes)
    requires 1 <= |b| <= 3
    ensures DecodeGroup(EncodeGroup(b)) == Some(b)
  {
    if |b| == 1 {
      assert b == [b[0]];
      OneOctet(b[0]);
    } else if |b| == 2 {
      assert b == [b[0], b[1]];
      TwoOctets(b[0], b[1]);
    } else {
      assert b == [b[0], b[1], b[2]];
      ThreeOctets(b[0], b[1], b[2]);
    }
  }

  /** A remainder and a quotient packed in one number come apart again. */
  lemma Unpack(high: nat, low: nat, k: nat)
    requires low < k && k in {4, 16, 64}
    ensures (high * k + low) / k == high && (high * k + low) % k == low
  {
  }

  lemma OneOctet(x: byte)
    ensures DecodeGroup(EncodeGroup([x])) == Some([x])
  {
    ValueOfDigit(x / 4);
    ValueOfDigit(x % 4 * 16);
  }

  lemma TwoOctets(x: byte, y: byte)
    ensures DecodeGroup(EncodeGroup([x, y])) == Some([x, y])
  {
    ValueOfDigit(x / 4);
    ValueOfDigit(x % 4 * 16 + y / 16);
    ValueOfDigit(y % 16 * 4);
    Unpack(x % 4, y / 16, 16);
    Unpack(y % 16, 0, 4);
  }

  lemma FourValues(v0: nat, v1: nat, v2: nat, v3: nat)
    requires v0 < 64 && v1 < 64 && v2 < 64 && v3 < 64
    ensures DecodeGroup([Digit(v0), Digit(v1), Digit(v2), Digit(v3)]) == Octets4(v0, v1, v2, v3)
  {
    ValueOfDigit(v0);
    ValueOfDigit(v1);
    ValueOfDigit(v2);
    ValueOfDigit(v3);
  }

  lemma ThreeOctets(x: byte, y: byte, z: byte)
    ensures DecodeGroup(EncodeGroup([x, y, z])) == Some([x, y, z])
  {
    FourValues(x / 4, x % 4 * 16 + y / 16, y % 16 * 4 + z / 64, z % 64);
    ThreeBack(x, y, z);
  }

  lemma ThreeBack(x: byte, y: byte, z: byte)
    ensures Octets4(x / 4, x % 4 * 16 + y / 16, y % 16 * 4 + z / 64, z % 64) == Some([x, y, z])
  {
    FirstBack(x, y);
    MiddleBack(x, y, z);
    LastBack(y, z);
  }

  lemma FirstBack(x: byte, y: byte)
    ensures x / 4 * 4 + (x % 4 * 16 + y / 16) / 16 == x
  {
    Unpack(x % 4, y / 16, 16);
  }

  lemma MiddleBack(x: byte, y: byte, z: byte)
    ensures (x % 4 * 16 + y / 16) % 16 * 16 + (y % 16 * 4 + z / 64) / 4 == y
  {
    Unpack(x % 4, y / 16, 16);
    Unpack(y % 16, z / 64, 4);
  }

  lemma LastBack(y: byte, z: byte)
    ensures (y % 16 * 4 + z / 64) % 4 * 64 + z % 64 == z
  {
    Unpack(y % 16, z / 64, 4);
  }

  lemma TwoDigits(v0: nat, v1: nat)
    requires v0 < 64 && v1 < 64 && Octets2(v0, v1).Some?
    ensures EncodeGroup(Octets2(v0, v1).value) == [Digit(v0), Digit(v1)]
  {
    Unpack(v0, v1 / 16, 4);
  }

  lemma ThreeDigits(v0: nat, v1: nat, v2: nat)
    requires v0 < 64 && v1 < 64 && v2 < 64 && Octets3(v0, v1, v2).Some?
    ensures EncodeGroup(Octets3(v0, v1, v2).value) == [Digit(v0), Digit(v1), Digit(v2)]
  {
    Unpack(v0, v1 / 16, 4);
    Unpack(v1 % 16, v2 / 4, 16);
  }

  lemma FourDigits(v0: nat, v1: nat, v2: nat, v3: nat)
    requires v0 < 64 && v1 < 64 && v2 < 64 && v3 < 64
    ensures EncodeGroup(Octets4(v0, v1, v2, v3).value) == [Digit(v0), Digit(v1), Digit(v2), Digit(v3)]
  {
    Unpack(v0, v1 / 16, 4);
    Unpack(v1 % 16, v2 / 4, 16);
    Unpack(v2 % 4, v3, 64);
  }

  /** A strict decoder accepts one spelling of each group. */
  lemma GroupCanonical(s: bytes)
    requires 2 <= |s| <= 4 && DecodeGroup(s).Some?
    ensures |DecodeGroup(s).value| == |s| - 1 && EncodeGroup(DecodeGroup(s).value) == s
  {
    var v0, v1 := Value(s[0]).value, Value(s[1]).value;
    DigitOfValue(s[0]);
    DigitOfValue(s[1]);
    if |s| == 2 {
      assert s == [Digit(v0), Digit(v1)];
      TwoDigits(v0, v1);
    } else {
      var v2 := Value(s[2]).value;
      DigitOfValue(s[2]);
      if |s| == 3 {
        assert s == [Digit(v0), Digit(v1), Digit(v2)];
        ThreeDigits(v0, v1, v2);
      } else {
        DigitOfValue(s[3]);
        assert s == [Digit(v0), Digit(v1), Digit(v2), Digit(Value(s[3]).value)];
        FourDigits(v0, v1, v2, Value(s[3]).value);
      }
    }
  }

  lemma {:induction false} DecodeEncodedDigits(b: bytes)
    ensures DecodeDigits(Encode(b)) == Some(b)
    decreases |b|
  {
    if |b| >= 3 {
      DecodeEncodedDigits(b[3..]);
      GroupRoundTrip(b[..3]);
      assert Encode(b)[..4] == EncodeGroup(b[..3]) && Encode(b)[4..] == Encode(b[3..]);
      assert b == b[..3] + b[3..];
    } else if |b| > 0 {
      GroupRoundTrip(b);
    }
  }

  lemma {:induction false} EncodeDecodedDigits(s: bytes)
    requires DecodeDigits(s).Some?
    ensures Encode(DecodeDigits(s).value) == s
    decreases |s|
  {
    if |s| >= 4 {
      EncodeDecodedDigits(s[4..]);
      GroupCanonical(s[..4]);
      var b := DecodeDigits(s).value;
      assert b[..3] == DecodeGroup(s[..4]).value && b[3..] == DecodeDigits(s[4..]).value;
      assert s == s[..4] + s[4..];
    } else if |s| > 0 {
      GroupCanonical(s);
    }
  }

  lemma {:induction false} EncodeIsUnbroken(b: bytes)
    ensures Unbroken(Encode(b))
    ensures forall i :: 0 <= i < |Encode(b)| ==> Value(Encode(b)[i]).Some?
    ensures Encode(b) == [] <==> b == []
    decreases |b|
  {
    if |b| >= 3 {
      EncodeIsUnbroken(b[3..]);
    }
  }

  lemma {:induction false} StripUnbroken(s: bytes)
    ensures Unbroken(Strip(s)) && |Strip(s)| <= |s|
    ensures Strip(s) == s <==> Unbroken(s)
    ensures forall c :: c in Strip(s) ==> c in s
    decreases |s|
  {
    if s != [] {
      StripUnbroken(s[1..]);
      if !IsBreak(s[0]) {
        assert Strip(s)[1..] == Strip(s[1..]);
      } else {
        assert |Strip(s)| < |s|;
      }
    }
  }

  lemma DecodeEncode(b: bytes)
    ensures Decode(Encode(b)) == Some(b)
  {
    EncodeIsUnbroken(b);
    StripUnbroken(Encode(b));
    DecodeEncodedDigits(b);
  }

  /** Re-encoding gives the text back, less its line breaks. */
  lemma EncodeDecode(s: bytes)
    requires Decode(s).Some?
    ensures Encode(Decode(s).value) == Strip(s)
  {
    EncodeDecodedDigits(Strip(s));
  }

  lemma {:induction false} EncodeGrows(b: bytes)
    ensures |b| <= |Encode(b)|
    decreases |b|
  {
    if |b| >= 3 { EncodeGrows(b[3..]); }
  }
}
