/** paseto/paseto.go: the v4.public token format. Ed25519 is a pair of functions given by the caller. */
module Paseto {
  import opened Basics
  import Base64

  /** "v4.public." */
  const HEADER: bytes := [118, 52, 46, 112, 117, 98, 108, 105, 99, 46]
  const DOT: byte := 46
  const SIGNATURE_SIZE := 64
  const PUBLIC_KEY_SIZE := 32
  const PRIVATE_KEY_SIZE := 64

  datatype Error = ErrMalformed | ErrWrongHeader | ErrBadSig | ErrKeySize

  datatype Result<+T> = Ok(value: T) | Failed(error: Error)

  datatype Parts = Parts(message: bytes, signature: bytes, footer: bytes)

  /** ed25519.Sign and ed25519.Verify. */
  type Signing = (bytes, bytes) -> bytes
  type Checking = (bytes, bytes, bytes) -> bool

  // ---- Pre-Authentication Encoding ----

  function Power(k: nat): (p: nat)
    ensures p > 0
  {
    if k == 0 then 1 else 256 * Power(k - 1)
  }

  /** byte(n >> 8*i). */
  function Octet(n: nat, i: nat): byte {
    n / Power(i) % 256
  }

  /** le64's octets, least significant first: the most significant bit is cleared. */
  function Le64(n: nat): bytes {
    seq(8, i requires 0 <= i < 8 => Octet(n % TWO_63, i))
  }

  /** The number some octets stand for, least significant first. */
  ghost function Number(b: bytes): nat {
    if b == [] then 0 else b[0] + 256 * Number(b[1..])
  }

  lemma DivideTwice(n: nat, p: nat)
    requires p > 0
    ensures n / (256 * p) == n / p / 256
  {
    var q := n / p;
    var r := q / 256;
    MulMonotone(r * 256, q, p);
    MulMonotone(q + 1, r * 256 + 256, p);
    assert (q + 1) * p == q * p + p;
    assert (r * 256 + 256) * p == r * 256 * p + 256 * p;
    assert r * 256 * p == r * (256 * p);
    QuotientIs(n, 256 * p, r);
  }

  lemma {:induction false} OctetsRead(n: nat, b: bytes, j: nat)
    requires j <= |b| && n < Power(|b|)
    requires forall i :: j <= i < |b| ==> b[i] == Octet(n, i)
    ensures Number(b[j..]) == n / Power(j)
    decreases |b| - j
  {
    if j == |b| {
      assert b[j..] == [];
      QuotientIs(n, Power(j), 0);
    } else {
      OctetsRead(n, b, j + 1);
      DivideTwice(n, Power(j));
      assert b[j..][1..] == b[j + 1..];
    }
  }

  lemma Le64Reads(n: nat)
    requires n < TWO_63
    ensures Number(Le64(n)) == n
  {
    assert Power(8) == TWO_64 by {
      assert Power(4) == 0x1_0000_0000 by { assert Power(2) == 0x1_0000; }
      assert Power(6) == 0x1_0000_0000_0000;
    }
    OctetsRead(n, Le64(n), 0);
    assert Le64(n)[0..] == Le64(n);
  }

  function Shifted(low: nat, high: nat): nat {
    low + 256 * high
  }

  /** Its octets, the least significant first. */
  lemma Le64Octets(n: nat)
    requires n < TWO_63
    ensures var b := Le64(n);
            n == Shifted(b[0], Shifted(b[1], Shifted(b[2], Shifted(b[3], Shifted(b[4], Shifted(b[5], Shifted(b[6], b[7])))))))
  {
    Le64Reads(n);
    var b := Le64(n);
    NumberFrom(b, 0);
    NumberFrom(b, 1);
    NumberFrom(b, 2);
    NumberFrom(b, 3);
    NumberFrom(b, 4);
    NumberFrom(b, 5);
    NumberFrom(b, 6);
    NumberFrom(b, 7);
    assert b[0..] == b && b[8..] == [];
  }

  lemma NumberFrom(b: bytes, j: nat)
    requires j < |b|
    ensures Number(b[j..]) == b[j] + 256 * Number(b[j + 1..])
  {
    assert b[j..][1..] == b[j + 1..];
  }

  function PaePieces(pieces: seq<bytes>): bytes {
    if pieces == [] then [] else Le64(|pieces[0]|) + pieces[0] + PaePieces(pieces[1..])
  }

  function PaeOf(pieces: seq<bytes>): bytes {
    Le64(|pieces|) + PaePieces(pieces)
  }

  /** The size pae allocates: one length word, and one for each piece beside its octets. */
  function PaeSize(pieces: seq<bytes>): nat {
    8 + PiecesSize(pieces)
  }

  function PiecesSize(pieces: seq<bytes>): nat {
    if pieces == [] then 0 else 8 + |pieces[0]| + PiecesSize(pieces[1..])
  }

  lemma {:induction false} PiecesSizeLast(pieces: seq<bytes>, p: bytes)
    ensures PiecesSize(pieces + [p]) == PiecesSize(pieces) + 8 + |p|
    ensures PaePieces(pieces + [p]) == PaePieces(pieces) + Le64(|p|) + p
    decreases |pieces|
  {
    if pieces == [] {
      assert ([] + [p])[1..] == [];
      assert PaePieces([p]) == Le64(|p|) + p + [];
    } else {
      PiecesSizeLast(pieces[1..], p);
      assert (pieces + [p])[1..] == pieces[1..] + [p];
    }
  }

  /** pae: the size is added up first, then the output is filled exactly to it. */
  method Pae(pieces: seq<bytes>) returns (out: bytes)
    ensures out == PaeOf(pieces)
    ensures |out| == PaeSize(pieces)
  {
    var size := 8;
    var i := 0;
    while i < |pieces|
      invariant 0 <= i <= |pieces|
      invariant size == 8 + PiecesSize(pieces[..i])
    {
      PiecesSizeLast(pieces[..i], pieces[i]);
      assert pieces[..i + 1] == pieces[..i] + [pieces[i]];
      size := size + 8 + |pieces[i]|;
      i := i + 1;
    }
    assert pieces[..i] == pieces;
    out := Le64(|pieces|);
    i := 0;
    while i < |pieces|
      invariant 0 <= i <= |pieces|
      invariant out == Le64(|pieces|) + PaePieces(pieces[..i])
      invariant |out| == 8 + PiecesSize(pieces[..i])
    {
      PiecesSizeLast(pieces[..i], pieces[i]);
      assert pieces[..i + 1] == pieces[..i] + [pieces[i]];
      out := out + Le64(|pieces[i]|);
      out := out + pieces[i];
      i := i + 1;
    }
    assert pieces[..i] == pieces;
  }

  /** What fits in a Go slice: every length is below 2^63. */
  ghost predicate Sized(pieces: seq<bytes>) {
    |pieces| < TWO_63 && forall i :: 0 <= i < |pieces| ==> |pieces[i]| < TWO_63
  }

  /** An independent reader of the encoding: n pieces off the front. */
  ghost function ReadPieces(n: nat, b: bytes): Option<(seq<bytes>, bytes)> {
    if n == 0 then Some(([], b))
    else if |b| < 8 then None
    else
      var k := Number(b[..8]);
      if |b| < 8 + k then None
      else
        var more := ReadPieces(n - 1, b[8 + k..]);
        if more.None? then None else Some(([b[8..8 + k]] + more.value.0, more.value.1))
  }

  lemma Slices(w: bytes, x: bytes, y: bytes)
    ensures (w + x + y)[..|w|] == w && (w + x + y)[|w|..|w| + |x|] == x && (w + x + y)[|w| + |x|..] == y
  {
  }

  lemma PiecesFirst(pieces: seq<bytes>, rest: bytes)
    requires pieces != []
    ensures PaePieces(pieces) + rest == Le64(|pieces[0]|) + pieces[0] + (PaePieces(pieces[1..]) + rest)
  {
  }

  lemma PieceReads(n: nat, p: bytes, more: bytes)
    requires |p| < TWO_63 && ReadPieces(n, more).Some?
    ensures var r := ReadPieces(n, more).value;
            ReadPieces(n + 1, Le64(|p|) + p + more) == Some(([p] + r.0, r.1))
  {
    Le64Reads(|p|);
    Slices(Le64(|p|), p, more);
  }

  lemma {:induction false} PiecesRead(pieces: seq<bytes>, rest: bytes)
    requires Sized(pieces)
    ensures ReadPieces(|pieces|, PaePieces(pieces) + rest) == Some((pieces, rest))
    decreases |pieces|
  {
    if pieces != [] {
      PiecesFirst(pieces, rest);
      PiecesRead(pieces[1..], rest);
      PieceReads(|pieces| - 1, pieces[0], PaePieces(pieces[1..]) + rest);
      assert [pieces[0]] + pieces[1..] == pieces;
    } else {
      assert PaePieces(pieces) + rest == rest;
    }
  }

  /** PAE is injective and no encoding is a prefix of another: where one list ends is decided by the octets. */
  lemma PaeDeterminesPieces(p: seq<bytes>, q: seq<bytes>, r: bytes, s: bytes)
    requires Sized(p) && Sized(q) && PaeOf(p) + r == PaeOf(q) + s
    ensures p == q && r == s
  {
    var a, b := PaeOf(p) + r, PaeOf(q) + s;
    assert a[..8] == Le64(|p|) && b[..8] == Le64(|q|);
    Le64Reads(|p|);
    Le64Reads(|q|);
    assert a[8..] == PaePieces(p) + r && b[8..] == PaePieces(q) + s;
    PiecesRead(p, r);
    PiecesRead(q, s);
  }

  // ---- tokens ----

  /** The token carrying these parts. */
  function Render(p: Parts): bytes {
    HEADER + Base64.Encode(p.message + p.signature)
    + (if |p.footer| > 0 then [DOT] + Base64.Encode(p.footer) else [])
  }

  /** The octets a signature covers. */
  function Payload(message: bytes, footer: bytes, implicit: bytes): bytes {
    PaeOf([HEADER, message, footer, implicit])
  }

  /** What is signed, octet by octet: four pieces, each after its size, the first being the header. */
  lemma PayloadOctets(message: bytes, footer: bytes, implicit: bytes)
    ensures Payload(message, footer, implicit)
            == Le64(4) + Le64(10) + Ascii("v4.public.") + Le64(|message|) + message + Le64(|footer|) + footer + Le64(|implicit|) + implicit
  {
    assert HEADER == Ascii("v4.public.");
    var pieces := [HEADER, message, footer, implicit];
    assert pieces[1..] == [message, footer, implicit];
    assert pieces[1..][1..] == [footer, implicit];
    assert pieces[1..][1..][1..] == [implicit];
    assert PaePieces([implicit]) == Le64(|implicit|) + implicit;
    assert PaePieces([footer, implicit]) == Le64(|footer|) + footer + PaePieces([implicit]);
    assert PaePieces([message, footer, implicit]) == Le64(|message|) + message + PaePieces([footer, implicit]);
  }

  /** A token is the header, the message with its 64-octet signature, and after a dot the footer if there is one. */
  lemma RenderedOctets(p: Parts)
    ensures Render(p) == Ascii("v4.public.") + Base64.Encode(p.message + p.signature)
                         + (if p.footer == [] then [] else Ascii(".") + Base64.Encode(p.footer))
  {
    assert HEADER == Ascii("v4.public.") && [DOT] == Ascii(".");
  }

  method Sign(sign: Signing, sk: bytes, message: bytes, footer: bytes, implicit: bytes) returns (r: Result<bytes>)
    ensures |sk| != PRIVATE_KEY_SIZE ==> r == Failed(ErrKeySize)
    ensures |sk| == PRIVATE_KEY_SIZE ==>
              r == Ok(Render(Parts(message, sign(sk, Payload(message, footer, implicit)), footer)))
  {
    if |sk| != PRIVATE_KEY_SIZE {
      return Failed(ErrKeySize);
    }
    var m2 := Pae([HEADER, message, footer, implicit]);
    var sig := sign(sk, m2);
    var b := HEADER;
    b := b + Base64.Encode(message + sig);
    assert b == b + [];
    if |footer| > 0 {
      b := b + [DOT];
      b := b + Base64.Encode(footer);
      assert b == HEADER + Base64.Encode(message + sig) + ([DOT] + Base64.Encode(footer));
    }
    return Ok(b);
  }

  /** strings.IndexByte. */
  function IndexOf(s: bytes, c: byte): (r: Option<nat>)
    ensures r.None? ==> c !in s
    ensures r.Some? ==> r.value < |s| && s[r.value] == c && c !in s[..r.value]
  {
    if s == [] then None
    else if s[0] == c then Some(0)
    else
      var r := IndexOf(s[1..], c);
      if r.None? then None
      else
        assert s[..r.value + 1] == [s[0]] + s[1..][..r.value];
        Some(r.value + 1)
  }

  /** The two parts after the header; None where Parse finds the footer part malformed. */
  function Split(rest: bytes): Option<(bytes, bytes)> {
    var i := IndexOf(rest, DOT);
    if i.None? then Some((rest, []))
    else
      var body, foot := rest[..i.value], rest[i.value + 1..];
      if foot == [] || IndexOf(foot, DOT).Some? then None else Some((body, foot))
  }

  function Parse(token: bytes): Result<Parts> {
    if !(HEADER <= token) then Failed(ErrWrongHeader)
    else
      var parts := Split(token[|HEADER|..]);
      if parts.None? then Failed(ErrMalformed)
      else
        var body := Base64.Decode(parts.value.0);
        if body.None? || |body.value| < SIGNATURE_SIZE then Failed(ErrMalformed)
        else
          var footer := if parts.value.1 != [] then Base64.Decode(parts.value.1) else Some([]);
          if footer.None? then Failed(ErrMalformed)
          else
            var n := |body.value| - SIGNATURE_SIZE;
            Ok(Parts(body.value[..n], body.value[n..], footer.value))
  }

  function Verify(check: Checking, pk: bytes, token: bytes, implicit: bytes): Result<(bytes, bytes)> {
    if |pk| != PUBLIC_KEY_SIZE then Failed(ErrKeySize)
    else
      match Parse(token)
      case Failed(e) => Failed(e)
      case Ok(p) =>
        if check(pk, Payload(p.message, p.footer, implicit), p.signature) then Ok((p.message, p.footer)) else Failed(ErrBadSig)
  }

  lemma EncodedHasNoDot(b: bytes)
    ensures DOT !in Base64.Encode(b)
  {
    Base64.EncodeIsUnbroken(b);
  }

  lemma IndexIs(s: bytes, c: byte, i: nat)
    requires i < |s| && s[i] == c && c !in s[..i]
    ensures IndexOf(s, c) == Some(i)
  {
    var r := IndexOf(s, c);
    assert r.Some?;
    assert forall j :: 0 <= j < r.value ==> s[j] == s[..r.value][j];
    assert forall j :: 0 <= j < i ==> s[j] == s[..i][j];
  }

  /** Split undoes joining two dotless parts. */
  lemma SplitJoined(body: bytes, foot: bytes)
    requires DOT !in body && DOT !in foot
    ensures Split(body + (if |foot| > 0 then [DOT] + foot else [])) == Some((body, foot))
  {
    var rest := body + (if |foot| > 0 then [DOT] + foot else []);
    if |foot| > 0 {
      assert rest[..|body|] == body && rest[|body| + 1..] == foot;
      IndexIs(rest, DOT, |body|);
    } else {
      assert rest == body;
    }
  }

  lemma HeaderOff(rest: bytes)
    ensures HEADER <= HEADER + rest && (HEADER + rest)[|HEADER|..] == rest
  {
  }

  /** What a token carries is what it was made from, for every message and footer. */
  lemma ParseRendered(p: Parts)
    requires |p.signature| == SIGNATURE_SIZE
    ensures Parse(Render(p)) == Ok(p)
  {
    var signed := p.message + p.signature;
    var body := Base64.Encode(signed);
    var foot := Base64.Encode(p.footer);
    EncodedHasNoDot(signed);
    EncodedHasNoDot(p.footer);
    Base64.EncodeIsUnbroken(p.footer);
    Base64.DecodeEncode(signed);
    Base64.DecodeEncode(p.footer);
    var rest := body + (if |foot| > 0 then [DOT] + foot else []);
    assert Render(p) == HEADER + rest;
    HeaderOff(rest);
    SplitJoined(body, foot);
    assert signed[..|p.message|] == p.message && signed[|p.message|..] == p.signature;
  }

  /** The token Parse took apart, as the pieces it found. */
  lemma ParsedPieces(token: bytes) returns (body: bytes, foot: bytes)
    requires Parse(token).Ok?
    ensures Base64.Decode(body) == Some(Parse(token).value.message + Parse(token).value.signature)
    ensures |Parse(token).value.signature| == SIGNATURE_SIZE
    ensures token == HEADER + body + (if foot == [] then [] else [DOT] + foot)
    ensures (if foot == [] then Some([]) else Base64.Decode(foot)) == Some(Parse(token).value.footer)
  {
    var rest := token[|HEADER|..];
    body, foot := Split(rest).value.0, Split(rest).value.1;
    assert token == HEADER + rest;
    SplitRebuilds(rest);
    assert token == HEADER + body + (if foot == [] then [] else [DOT] + foot);
    HalvesRebuild(Base64.Decode(body).value);
  }

  lemma SplitRebuilds(rest: bytes)
    requires Split(rest).Some?
    ensures var (body, foot) := Split(rest).value; rest == body + (if foot == [] then [] else [DOT] + foot)
  {
    var i := IndexOf(rest, DOT);
    if i.Some? {
      assert rest == rest[..i.value] + [DOT] + rest[i.value + 1..];
    }
  }

  /** A token as it is read: the header, and one or two dotless base64 parts, the first long enough for a signature. */
  ghost predicate Reads(token: bytes, body: bytes, foot: bytes) {
    && DOT !in body && DOT !in foot
    && token == Ascii("v4.public.") + (body + (if |foot| > 0 then [DOT] + foot else []))
    && Base64.Decode(body).Some? && |Base64.Decode(body).value| >= 64
    && (foot == [] || Base64.Decode(foot).Some?)
  }

  lemma SplitIsDotless(rest: bytes)
    requires Split(rest).Some?
    ensures DOT !in Split(rest).value.0 && DOT !in Split(rest).value.1
  {
  }

  /** Parse accepts exactly such tokens; the last 64 octets of the first part are the signature, and what comes before
      them the message. Another header is told apart from other faults. */
  lemma {:induction false} ParseOkIff(token: bytes)
    ensures Parse(token).Ok? <==> exists body, foot :: Reads(token, body, foot)
    ensures forall body, foot :: Reads(token, body, foot) ==>
              var p := Parse(token).value;
              && Base64.Decode(body).value == p.message + p.signature && |p.signature| == 64
              && p.footer == (if foot == [] then [] else Base64.Decode(foot).value)
    ensures Parse(token) == Failed(ErrWrongHeader) <==> !(Ascii("v4.public.") <= token)
    ensures Parse(token).Failed? && Ascii("v4.public.") <= token ==> Parse(token) == Failed(ErrMalformed)
  {
    assert HEADER == Ascii("v4.public.");
    if Parse(token).Ok? {
      var rest := token[|HEADER|..];
      assert token == HEADER + rest;
      SplitRebuilds(rest);
      SplitIsDotless(rest);
      assert Reads(token, Split(rest).value.0, Split(rest).value.1);
    }
    forall body, foot | Reads(token, body, foot)
      ensures Parse(token).Ok? && Base64.Decode(body).value == Parse(token).value.message + Parse(token).value.signature
      ensures |Parse(token).value.signature| == 64 && Parse(token).value.footer == (if foot == [] then [] else Base64.Decode(foot).value)
    {
      HeaderOff(body + (if |foot| > 0 then [DOT] + foot else []));
      SplitJoined(body, foot);
      HalvesRebuild(Base64.Decode(body).value);
    }
  }

  lemma HalvesRebuild(b: bytes)
    requires |b| >= SIGNATURE_SIZE
    ensures b == b[..|b| - SIGNATURE_SIZE] + b[|b| - SIGNATURE_SIZE..]
  {
  }

  lemma UnbrokenToken(body: bytes, foot: bytes)
    ensures Base64.Unbroken(HEADER + body + (if foot == [] then [] else [DOT] + foot))
            <==> Base64.Unbroken(body) && Base64.Unbroken(foot)
  {
    var token := HEADER + body + (if foot == [] then [] else [DOT] + foot);
    if Base64.Unbroken(token) {
      forall i | 0 <= i < |body| ensures !Base64.IsBreak(body[i]) {
        assert body[i] == token[|HEADER| + i];
      }
      forall i | 0 <= i < |foot| ensures !Base64.IsBreak(foot[i]) {
        assert foot[i] == token[|HEADER| + |body| + 1 + i];
      }
    }
  }

  /**
   Accepted tokens are canonical: re-encoding what Parse found gives back the very token, exactly when
   the token holds no CR and no LF.
  */
  lemma ParsedTokenIsCanonicalIff(token: bytes)
    requires Parse(token).Ok?
    ensures Render(Parse(token).value) == token <==> Base64.Unbroken(token)
  {
    var p := Parse(token).value;
    var body, foot := ParsedPieces(token);
    var signed := p.message + p.signature;
    var body', foot' := Base64.Encode(signed), Base64.Encode(p.footer);
    Base64.EncodeDecode(body);
    Base64.StripUnbroken(body);
    Base64.StripUnbroken(foot);
    Base64.EncodeIsUnbroken(signed);
    Base64.EncodeIsUnbroken(p.footer);
    if foot != [] { Base64.EncodeDecode(foot); }
    UnbrokenToken(body, foot);
    UnbrokenToken(body', foot');
    assert Render(p) == HEADER + body' + (if foot' == [] then [] else [DOT] + foot');
  }

  // ---- signing and verifying ----

  /** A key pair of a signature scheme that verifies what it signs. */
  ghost predicate KeyPair(sign: Signing, check: Checking, sk: bytes, pk: bytes) {
    && |sk| == PRIVATE_KEY_SIZE && |pk| == PUBLIC_KEY_SIZE
    && forall m :: |sign(sk, m)| == SIGNATURE_SIZE && check(pk, m, sign(sk, m))
  }

  lemma {:induction false} SignedTokenVerifies(sign: Signing, check: Checking, sk: bytes, pk: bytes, message: bytes, footer: bytes, implicit: bytes)
    requires KeyPair(sign, check, sk, pk)
    ensures Verify(check, pk, Render(Parts(message, sign(sk, Payload(message, footer, implicit)), footer)), implicit)
            == Ok((message, footer))
  {
    ParseRendered(Parts(message, sign(sk, Payload(message, footer, implicit)), footer));
  }

  datatype Statement = Statement(message: bytes, footer: bytes, implicit: bytes)

  ghost predicate Fits(s: Statement) {
    |s.message| < TWO_63 && |s.footer| < TWO_63 && |s.implicit| < TWO_63
  }

  function PayloadOf(s: Statement): bytes {
    Payload(s.message, s.footer, s.implicit)
  }

  /**
   The signature this token carries is not forged: if it checks, its owner has signed that payload, as one of
   these statements. Of other tokens and signatures it says nothing.
  */
  ghost predicate Unforged(check: Checking, pk: bytes, signed: set<Statement>, token: bytes, implicit: bytes) {
    Parse(token).Ok? ==>
      var p := Parse(token).value;
      check(pk, Payload(p.message, p.footer, implicit), p.signature) ==>
        exists s :: s in signed && Fits(s) && PayloadOf(s) == Payload(p.message, p.footer, implicit)
  }

  lemma PayloadDeterminesStatement(s: Statement, t: Statement)
    requires Fits(s) && Fits(t) && Payload(s.message, s.footer, s.implicit) == Payload(t.message, t.footer, t.implicit)
    ensures s == t
  {
    var p, q := [HEADER, s.message, s.footer, s.implicit], [HEADER, t.message, t.footer, t.implicit];
    assert PaeOf(p) + [] == PaeOf(q) + [];
    PaeDeterminesPieces(p, q, [], []);
    assert p[1] == q[1] && p[2] == q[2] && p[3] == q[3];
  }

  lemma ParsedSizes(token: bytes)
    requires Parse(token).Ok?
    ensures |Parse(token).value.message| <= |token| && |Parse(token).value.footer| <= |token|
  {
    var body, foot := ParsedPieces(token);
    var p := Parse(token).value;
    Base64.EncodeDecode(body);
    Base64.StripUnbroken(body);
    Base64.EncodeGrows(p.message + p.signature);
    if foot != [] {
      Base64.EncodeDecode(foot);
      Base64.StripUnbroken(foot);
      Base64.EncodeGrows(p.footer);
    }
  }

  /** A verified message, footer and implicit assertion were signed together: no octet of one can be taken
      for an octet of another. */
  lemma {:induction false} VerifiedWasSigned(check: Checking, pk: bytes, signed: set<Statement>, token: bytes, implicit: bytes)
    requires Unforged(check, pk, signed, token, implicit) && |token| < TWO_63 && |implicit| < TWO_63
    requires Verify(check, pk, token, implicit).Ok?
    ensures Statement(Verify(check, pk, token, implicit).value.0, Verify(check, pk, token, implicit).value.1, implicit) in signed
  {
    var p := Parse(token).value;
    ParsedSizes(token);
    var s :| s in signed && Fits(s) && PayloadOf(s) == Payload(p.message, p.footer, implicit);
    PayloadDeterminesStatement(Statement(p.message, p.footer, implicit), s);
  }

  /** The token a key pair signs for a statement. */
  function Issue(sign: Signing, sk: bytes, s: Statement): bytes {
    Render(Parts(s.message, sign(sk, PayloadOf(s)), s.footer))
  }

  /** With any key pair, every token issued for a statement counts as unforged: the two assumptions go together. */
  lemma {:induction false} IssuedIsUnforged(sign: Signing, check: Checking, sk: bytes, pk: bytes, signed: set<Statement>, s: Statement)
    requires KeyPair(sign, check, sk, pk) && s in signed && Fits(s)
    ensures Unforged(check, pk, signed, Issue(sign, sk, s), s.implicit)
    ensures Verify(check, pk, Issue(sign, sk, s), s.implicit) == Ok((s.message, s.footer))
  {
    ParseRendered(Parts(s.message, sign(sk, PayloadOf(s)), s.footer));
    SignedTokenVerifies(sign, check, sk, pk, s.message, s.footer, s.implicit);
  }

  /** The octet count of a message, over and over. */
  function CountSignature(m: bytes): (r: bytes)
    ensures |r| == SIGNATURE_SIZE
  {
    seq(SIGNATURE_SIZE, _ => |m| % 256)
  }

  lemma {:induction false} CountIsAScheme(sk: bytes, pk: bytes)
    requires |sk| == PRIVATE_KEY_SIZE && |pk| == PUBLIC_KEY_SIZE
    ensures KeyPair((_, m) => CountSignature(m), (_, m, sig) => sig == CountSignature(m), sk, pk)
  {
  }

  /** Such schemes exist: one that signs with the octet count of the message, say, and has signed one statement. */
  lemma {:induction false} AssumptionsHoldTogether(sk: bytes, pk: bytes, s: Statement)
    requires |sk| == PRIVATE_KEY_SIZE && |pk| == PUBLIC_KEY_SIZE && Fits(s)
    ensures exists sign, check :: KeyPair(sign, check, sk, pk) && Unforged(check, pk, {s}, Issue(sign, sk, s), s.implicit)
  {
    var sign: Signing := (_, m) => CountSignature(m);
    var check: Checking := (_, m, sig) => sig == CountSignature(m);
    CountIsAScheme(sk, pk);
    assert KeyPair(sign, check, sk, pk);
    IssuedIsUnforged(sign, check, sk, pk, {s}, s);
  }
}
