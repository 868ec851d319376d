/**
 Connect stream framing: revocations.go against anubistest/revocations.go. A frame is a flag octet, a
 four-octet big-endian length and a payload.
*/
module Framing {
  import opened Basics

  const TWO_32: nat := 0x1_0000_0000

  datatype Frame = Frame(flags: byte, payload: bytes)

  /** binary.BigEndian.PutUint32 of uint32(n): the conversion truncates. */
  function BigEndian32(n: nat): (r: bytes)
    ensures |r| == 4
  {
    var m := n % TWO_32;
    [m / 0x100_0000, m / 0x1_0000 % 256, m / 0x100 % 256, m % 256]
  }

  function FromBigEndian32(b: bytes): nat
    requires |b| == 4
  {
    0x100_0000 * (b[0] as int) + 0x1_0000 * (b[1] as int) + 256 * (b[2] as int) + b[3]
  }

  lemma BigEndianReads(n: nat)
    ensures FromBigEndian32(BigEndian32(n)) == n % TWO_32
  {
    var m := n % TWO_32;
    assert m / 0x1_0000 == m / 0x100 / 256;
    assert m / 0x100_0000 == m / 0x1_0000 / 256;
  }

  function Enveloped(f: Frame): bytes {
    [f.flags] + BigEndian32(|f.payload|) + f.payload
  }

  /** The frame's octets: the flags, then the size with its most significant octet first, then the payload. */
  lemma EnvelopeOctets(f: Frame)
    requires |f.payload| < TWO_32
    ensures var s := Enveloped(f);
            && |s| == 5 + |f.payload| && s[0] == f.flags && s[5..] == f.payload
            && 256 * (256 * (256 * (s[1] as int) + s[2]) + s[3]) + s[4] == |f.payload|
  {
    BigEndianReads(|f.payload|);
  }

  /** envelope, and connectEnvelope with no flags: the buffer is filled in place. */
  method Envelope(flags: byte, payload: bytes) returns (buf: array<byte>)
    ensures fresh(buf) && buf[..] == Enveloped(Frame(flags, payload))
  {
    buf := new byte[5 + |payload|](_ => 0);
    buf[0] := flags;
    var length := BigEndian32(|payload|);
    buf[1], buf[2], buf[3], buf[4] := length[0], length[1], length[2], length[3];
    var i := 0;
    while i < |payload|
      invariant 0 <= i <= |payload|
      invariant buf[..5] == [flags] + length
      invariant buf[5..5 + i] == payload[..i]
    {
      buf[5 + i] := payload[i];
      assert buf[5..5 + i + 1] == buf[5..5 + i] + [payload[i]];
      i := i + 1;
    }
    assert buf[..] == buf[..5] + buf[5..5 + i];
  }

  // ---- the stream under the frames ----

  /** How a body ends: orderly, or with a transport error. */
  datatype End = EOF | Broken

  datatype ReadError = AtEOF | UnexpectedEOF | TransportError

  function Flat(chunks: seq<bytes>): bytes {
    if chunks == [] then [] else chunks[0] + Flat(chunks[1..])
  }

  /** A response body that arrives in whatever chunks the network makes of it. */
  class Body {
    var chunks: seq<bytes>
    const end: End

    constructor (chunks: seq<bytes>, end: End)
      ensures this.chunks == chunks && this.end == end
    {
      this.chunks, this.end := chunks, end;
    }

    /** One Read: at most n octets, at most one chunk. */
    method Read(n: nat) returns (got: bytes, ended: bool)
      modifies this
      ensures ended <==> old(chunks) == []
      ensures |got| <= n && got + Flat(chunks) == Flat(old(chunks))
      ensures !ended ==> |chunks| < |old(chunks)| || (chunks != [] && |chunks| == |old(chunks)| && |got| == n)
    {
      if chunks == [] {
        return [], true;
      }
      var c := chunks[0];
      if |c| <= n {
        chunks := chunks[1..];
        return c, false;
      }
      chunks := [c[n..]] + chunks[1..];
      assert c == c[..n] + c[n..];
      return c[..n], false;
    }

    /** io.ReadFull. */
    method ReadFull(n: nat) returns (got: bytes, err: Option<ReadError>)
      modifies this
      ensures
        var s := Flat(old(chunks));
        && got + Flat(chunks) == s
        && (if |s| >= n then err == None && |got| == n
            else err == Some(if end == Broken then TransportError else if |s| == 0 then AtEOF else UnexpectedEOF))
    {
      got := [];
      while |got| < n
        invariant |got| <= n && got + Flat(chunks) == Flat(old(chunks))
        decreases |chunks|, n - |got|
      {
        var more, ended := Read(n - |got|);
        assert (got + more) + Flat(chunks) == got + (more + Flat(chunks));
        got := got + more;
        if ended {
          if end == Broken {
            return got, Some(TransportError);
          }
          return got, Some(if |got| == 0 then AtEOF else UnexpectedEOF);
        }
      }
      return got, None;
    }
  }

  // ---- frames ----

  datatype Failure = NoTrailer | Transport | TooLarge

  datatype Next = Got(frame: Frame, rest: bytes) | Failed(why: Failure)

  /** readEnvelope, on the octets still to come: both an empty and a cut-off frame read as an end of file. */
  function NextFrame(s: bytes, end: End, limit: nat): Next {
    var cut := if end == EOF then NoTrailer else Transport;
    if |s| < 5 then Failed(cut)
    else
      var size := FromBigEndian32(s[1..5]);
      if size > limit then Failed(TooLarge)
      else if |s| < 5 + size then Failed(cut)
      else Got(Frame(s[0], s[5..5 + size]), s[5 + size..])
  }

  /** The client's limit is four mebioctets, the server's one. */
  method ReadEnvelope(r: Body, limit: nat) returns (f: Frame, err: Option<Failure>)
    modifies r
    ensures match NextFrame(Flat(old(r.chunks)), r.end, limit)
            case Got(frame, rest) => err == None && f == frame && Flat(r.chunks) == rest
            case Failed(why) => err == Some(why)
  {
    ghost var s := Flat(r.chunks);
    f := Frame(0, []);
    var head, e := r.ReadFull(5);
    ghost var s' := Flat(r.chunks);
    assert s == head + s';
    if e.Some? {
      return f, Some(if e.value == TransportError then Transport else NoTrailer);
    }
    assert s[..5] == head && s[5..] == s';
    assert s[1..5] == head[1..5];
    var size := FromBigEndian32(head[1..5]);
    if size > limit {
      return f, Some(TooLarge);
    }
    var payload, e2 := r.ReadFull(size);
    assert s' == payload + Flat(r.chunks);
    if e2.Some? {
      return f, Some(if e2.value == TransportError then Transport else NoTrailer);
    }
    assert s[5..5 + size] == s'[..size] == payload;
    assert s[5 + size..] == s'[size..] == Flat(r.chunks);
    return Frame(head[0], payload), None;
  }

  /** The parts of a stream that begins with a frame. */
  lemma FirstFrame(f: Frame, rest: bytes)
    ensures var s := Enveloped(f) + rest;
            && |s| >= 5 && s[0] == f.flags && FromBigEndian32(s[1..5]) == |f.payload| % TWO_32
            && s[5..] == f.payload + rest
  {
    var s := Enveloped(f) + rest;
    assert s[1..5] == BigEndian32(|f.payload|);
    BigEndianReads(|f.payload|);
  }

  lemma CutAt(p: bytes, rest: bytes, s: bytes)
    requires |s| >= 5 && s[5..] == p + rest
    ensures s[5..5 + |p|] == p && s[5 + |p|..] == rest
  {
    assert s[5..5 + |p|] == s[5..][..|p|] && s[5 + |p|..] == s[5..][|p|..];
  }

  /** A frame reads back, with what follows it, exactly when its payload is within the reader's limit. */
  lemma EnvelopeReadsIff(f: Frame, rest: bytes, end: End, limit: nat)
    requires limit < TWO_32
    ensures NextFrame(Enveloped(f) + rest, end, limit) == Got(f, rest) <==> |f.payload| <= limit
  {
    FirstFrame(f, rest);
    CutAt(f.payload, rest, Enveloped(f) + rest);
  }

  /** A frame cut anywhere reads as a lost connection. */
  lemma CutFrameEnds(f: Frame, n: nat, end: End, limit: nat)
    requires |f.payload| <= limit < TWO_32 && n < |Enveloped(f)|
    ensures NextFrame(Enveloped(f)[..n], end, limit) == Failed(if end == EOF then NoTrailer else Transport)
  {
    var s := Enveloped(f)[..n];
    BigEndianReads(|f.payload|);
    if n >= 5 {
      assert s[1..5] == Enveloped(f)[1..5] == BigEndian32(|f.payload|);
    }
  }

  /** A frame over the limit is refused on its header. */
  lemma HeaderEnds(f: Frame, n: nat, end: End, limit: nat)
    requires limit < |f.payload| < TWO_32 && 5 <= n <= |Enveloped(f)|
    ensures NextFrame(Enveloped(f)[..n], end, limit) == Failed(TooLarge)
  {
    var s := Enveloped(f)[..n];
    assert s[1..5] == Enveloped(f)[1..5] == BigEndian32(|f.payload|);
    BigEndianReads(|f.payload|);
  }

  function Wire(frames: seq<Frame>): bytes {
    if frames == [] then [] else Enveloped(frames[0]) + Wire(frames[1..])
  }

  // ---- draining a revocation stream ----

  /** Flag 0x01. */
  predicate IsCompressed(flags: byte) {
    flags % 2 == 1
  }

  /** Flag 0x02. */
  predicate IsEndStream(flags: byte) {
    flags / 2 % 2 == 1
  }

  type Error = string

  /** What the closing frame says. */
  datatype Closing = Clean | Undecoded | Refusal(error: Error)

  /** How StreamRevocations ends. */
  datatype Outcome =
    | Cancelled
    | Unavailable(why: Failure)
    | CompressedFrame
    | Ended(closing: Closing)
    | NotARevocation
    | Stopped(error: Error)     // fn returned an error

  /**
   The consumer's side of the stream: how payloads decode, how a closing payload reads, and what fn answers
   to the newest of the revocations it has been handed.
  */
  datatype Consumer<!R> = Consumer(
    decode: bytes -> Option<R>,
    closing: bytes -> Closing,
    fn: seq<R> -> Option<Error>)

  /** What readRevocations does with one frame: hand it on, or stop. */
  function Take<R>(c: Consumer<R>, f: Frame, handed: seq<R>): (seq<R>, Option<Outcome>) {
    if IsCompressed(f.flags) then (handed, Some(CompressedFrame))
    else if IsEndStream(f.flags) then (handed, Some(Ended(c.closing(f.payload))))
    else
      var rev := c.decode(f.payload);
      if rev.None? then (handed, Some(NotARevocation))
      else
        var err := c.fn(handed + [rev.value]);
        (handed + [rev.value], if err.Some? then Some(Stopped(err.value)) else None)
  }

  /** readRevocations over the octets of the stream. */
  function Drain<R>(c: Consumer<R>, s: bytes, end: End, cancelled: bool, limit: nat, handed: seq<R>): (seq<R>, Outcome)
    decreases |s|
  {
    match NextFrame(s, end, limit)
    case Failed(why) => (handed, if cancelled then Cancelled else Unavailable(why))
    case Got(f, rest) =>
      var (handed', stop) := Take(c, f, handed);
      if stop.Some? then (handed', stop.value) else Drain(c, rest, end, cancelled, limit, handed')
  }

  /** The loop. It sees only the concatenation of the chunks, however they were cut. */
  method ReadRevocations<R>(c: Consumer<R>, r: Body, cancelled: bool, limit: nat) returns (handed: seq<R>, outcome: Outcome)
    modifies r
    ensures (handed, outcome) == Drain(c, Flat(old(r.chunks)), r.end, cancelled, limit, [])
  {
    handed := [];
    while true
      invariant Drain(c, Flat(r.chunks), r.end, cancelled, limit, handed)
                == Drain(c, Flat(old(r.chunks)), r.end, cancelled, limit, [])
      decreases |Flat(r.chunks)|
    {
      ghost var before := Flat(r.chunks);
      var f, err := ReadEnvelope(r, limit);
      if err.Some? {
        if cancelled {
          return handed, Cancelled;
        }
        return handed, Unavailable(err.value);
      }
      if IsCompressed(f.flags) {
        return handed, CompressedFrame;
      }
      if IsEndStream(f.flags) {
        return handed, Ended(c.closing(f.payload));
      }
      var rev := c.decode(f.payload);
      if rev.None? {
        return handed, NotARevocation;
      }
      handed := handed + [rev.value];
      var stop := c.fn(handed);
      if stop.Some? {
        return handed, Stopped(stop.value);
      }
    }
  }

  /** The frames handed on before the first that stops the stream, and that stop. */
  function Consume<R>(c: Consumer<R>, frames: seq<Frame>, handed: seq<R>): (seq<R>, Option<Outcome>) {
    if frames == [] then (handed, None)
    else
      var (handed', stop) := Take(c, frames[0], handed);
      if stop.Some? then (handed', stop) else Consume(c, frames[1..], handed')
  }

  ghost predicate Small(frames: seq<Frame>, limit: nat) {
    limit < TWO_32 && forall i :: 0 <= i < |frames| ==> |frames[i].payload| <= limit
  }

  /** Whatever list of frames was sent, the consumer is driven by exactly that list and then by the rest. */
  lemma {:induction false} DrainConsumesFrames<R>(
      c: Consumer<R>, frames: seq<Frame>, tail: bytes, end: End, cancelled: bool, limit: nat, handed: seq<R>)
    requires Small(frames, limit)
    ensures
      var (handed', stop) := Consume(c, frames, handed);
      Drain(c, Wire(frames) + tail, end, cancelled, limit, handed)
      == if stop.Some? then (handed', stop.value) else Drain(c, tail, end, cancelled, limit, handed')
    decreases |frames|
  {
    if frames == [] {
      assert Wire(frames) + tail == tail;
    } else {
      assert Wire(frames) + tail == Enveloped(frames[0]) + (Wire(frames[1..]) + tail);
      EnvelopeReadsIff(frames[0], Wire(frames[1..]) + tail, end, limit);
      DrainConsumesFrames(c, frames[1..], tail, end, cancelled, limit, Take(c, frames[0], handed).0);
    }
  }

  /** flags & mask != 0, for a mask of one bit. */
  predicate HasBit(flags: byte, mask: nat)
    requires mask > 0
  {
    flags / mask % 2 == 1
  }

  /** The two flags as bits of the octet. */
  lemma FlagsAreBits(b: bv8)
    ensures b & 0x01 != 0 <==> HasBit(b as int, 0x01)
    ensures b & 0x02 != 0 <==> HasBit(b as int, 0x02)
  {
  }

  predicate Plain(f: Frame) {
    !HasBit(f.flags, 0x01) && !HasBit(f.flags, 0x02)
  }

  /** A message frame whose payload decodes and whose revocation fn accepts, coming after these. */
  predicate Delivers<R(==)>(c: Consumer<R>, f: Frame, handed: seq<R>, rev: R) {
    && Plain(f)
    && c.decode(f.payload) == Some(rev) && c.fn(handed + [rev]).None?
  }

  /** Plain decodable frames are all handed on, in order, each once. */
  lemma {:induction false} GoodFramesAreHandedOn<R>(c: Consumer<R>, frames: seq<Frame>, revs: seq<R>, handed: seq<R>)
    requires |frames| == |revs|
    requires forall i :: 0 <= i < |frames| ==> Delivers(c, frames[i], handed + revs[..i], revs[i])
    ensures Consume(c, frames, handed) == (handed + revs, None)
    decreases |frames|
  {
    if frames == [] {
      assert handed + revs == handed;
    } else {
      assert handed + revs[..0] == handed;
      assert Delivers(c, frames[0], handed + revs[..0], revs[0]);
      var handed' := handed + [revs[0]];
      forall i | 0 <= i < |frames| - 1 ensures Delivers(c, frames[1..][i], handed' + revs[1..][..i], revs[1..][i]) {
        assert handed' + revs[1..][..i] == handed + revs[..i + 1];
        assert Delivers(c, frames[i + 1], handed + revs[..i + 1], revs[i + 1]);
      }
      GoodFramesAreHandedOn(c, frames[1..], revs[1..], handed');
      assert handed' + revs[1..] == handed + revs;
    }
  }

  /** Cutting a stream of good frames anywhere, however the connection ended, delivers exactly its complete frames,
      and then reports the connection lost, or the caller's own cancellation. */
  lemma {:induction false} CutStreamDeliversCompleteFrames<R>(
      c: Consumer<R>, frames: seq<Frame>, revs: seq<R>, cut: Frame, n: nat, end: End, cancelled: bool, limit: nat)
    requires Small(frames, limit) && |cut.payload| <= limit && n < |Enveloped(cut)|
    requires |frames| == |revs| && forall i :: 0 <= i < |frames| ==> Delivers(c, frames[i], revs[..i], revs[i])
    ensures Drain(c, Wire(frames) + Enveloped(cut)[..n], end, cancelled, limit, [])
            == (revs, if cancelled then Cancelled else Unavailable(if end == EOF then NoTrailer else Transport))
  {
    forall i | 0 <= i < |frames| ensures Delivers(c, frames[i], [] + revs[..i], revs[i]) {
      assert [] + revs[..i] == revs[..i];
    }
    GoodFramesAreHandedOn(c, frames, revs, []);
    assert [] + revs == revs;
    DrainConsumesFrames(c, frames, Enveloped(cut)[..n], end, cancelled, limit, []);
    CutFrameEnds(cut, n, end, limit);
  }

  /**
   What stops a stream after good frames, whatever follows. A frame with bit 0x01 is refused as compressed; one with bit
   0x02 and not that ends the stream with what its payload says, and is not handed on; a plain one that does not decode
   ends it; and a plain one that does is handed on, and ends it with the error fn answers, if it answers one.
  */
  lemma {:induction false} FirstStopDecides<R>(
      c: Consumer<R>, frames: seq<Frame>, revs: seq<R>, last: Frame, tail: bytes, end: End, cancelled: bool, limit: nat)
    requires Small(frames, limit) && |last.payload| <= limit
    requires |frames| == |revs| && forall i :: 0 <= i < |frames| ==> Delivers(c, frames[i], revs[..i], revs[i])
    ensures
      var (handed, outcome) := Drain(c, Wire(frames) + Enveloped(last) + tail, end, cancelled, limit, []);
      var rev := c.decode(last.payload);
      && (HasBit(last.flags, 0x01) ==> handed == revs && outcome == CompressedFrame)
      && (!HasBit(last.flags, 0x01) && HasBit(last.flags, 0x02) ==> handed == revs && outcome == Ended(c.closing(last.payload)))
      && (Plain(last) && rev.None? ==> handed == revs && outcome == NotARevocation)
      && (Plain(last) && rev.Some? && c.fn(revs + [rev.value]).Some? ==>
            handed == revs + [rev.value] && outcome == Stopped(c.fn(revs + [rev.value]).value))
  {
    forall i | 0 <= i < |frames| ensures Delivers(c, frames[i], [] + revs[..i], revs[i]) {
      assert [] + revs[..i] == revs[..i];
    }
    GoodFramesAreHandedOn(c, frames, revs, []);
    assert [] + revs == revs;
    assert Wire(frames) + Enveloped(last) + tail == Wire(frames) + (Enveloped(last) + tail);
    DrainConsumesFrames(c, frames, Enveloped(last) + tail, end, cancelled, limit, []);
    EnvelopeReadsIff(last, tail, end, limit);
  }

  /** And one over the limit ends it there, before its payload is read. */
  lemma {:induction false} OversizeFrameEnds<R>(
      c: Consumer<R>, frames: seq<Frame>, revs: seq<R>, last: Frame, n: nat, end: End, cancelled: bool, limit: nat)
    requires Small(frames, limit) && limit < |last.payload| < TWO_32 && 5 <= n <= |Enveloped(last)|
    requires |frames| == |revs| && forall i :: 0 <= i < |frames| ==> Delivers(c, frames[i], revs[..i], revs[i])
    ensures Drain(c, Wire(frames) + Enveloped(last)[..n], end, cancelled, limit, [])
            == (revs, if cancelled then Cancelled else Unavailable(TooLarge))
  {
    forall i | 0 <= i < |frames| ensures Delivers(c, frames[i], [] + revs[..i], revs[i]) {
      assert [] + revs[..i] == revs[..i];
    }
    GoodFramesAreHandedOn(c, frames, revs, []);
    assert [] + revs == revs;
    DrainConsumesFrames(c, frames, Enveloped(last)[..n], end, cancelled, limit, []);
    HeaderEnds(last, n, end, limit);
  }
}
