/**
 The protobuf wire form of anubis.v1.ErrorInfo: the decoder of client.go against the encoders of
 anubistest/server.go and client_test.go.
*/
module Protobuf {
  import opened Basics

  // ---- varints ----

  function EncodeVarint(n: nat): (r: bytes)
    ensures |r| >= 1
  {
    if n < 128 then [n] else [n % 128 + 128] + EncodeVarint(n / 128)
  }

  /** binary.Uvarint at octet i of the number: at most ten octets, the tenth at most 1. */
  function DecodeVarint(b: bytes, i: nat): (r: Option<(nat, nat)>)
    ensures r.Some? ==> 1 <= r.value.1 <= |b|
    decreases |b|
  {
    if b == [] || i == 10 then None
    else if b[0] < 128 then
      if i == 9 && b[0] > 1 then None else Some((b[0], 1))
    else
      var rest := DecodeVarint(b[1..], i + 1);
      if rest.None? then None else Some((b[0] % 128 + 128 * rest.value.0, rest.value.1 + 1))
  }

  /** What fits in the last k + 1 octets of a varint. */
  function Room(k: nat): nat {
    if k == 0 then 2 else 128 * Room(k - 1)
  }

  lemma {:induction false} VarintReads(n: nat, k: nat, rest: bytes)
    requires k <= 9 && n < Room(k)
    ensures DecodeVarint(EncodeVarint(n) + rest, 9 - k) == Some((n, |EncodeVarint(n)|))
    decreases k
  {
    var b := EncodeVarint(n) + rest;
    if n >= 128 {
      VarintReads(n / 128, k - 1, rest);
      assert b[1..] == EncodeVarint(n / 128) + rest;
    }
  }

  lemma RoomIs64Bits()
    ensures Room(9) == TWO_64
  {
    assert Room(3) == 0x40_0000 by { assert Room(2) == 0x8000; }
    assert Room(6) == 0x800_0000_0000;
  }

  /** The least significant seven bits come first: 150 and 300 are the octets that the protobuf encoding guide gives. */
  lemma VarintOctets()
    ensures EncodeVarint(150) == [0x96, 0x01] && EncodeVarint(300) == [0xAC, 0x02] && EncodeVarint(127) == [0x7F]
  {
    assert EncodeVarint(1) == [1] && EncodeVarint(2) == [2];
  }

  /** appendVarint. */
  method AppendVarint(dst: bytes, n: nat) returns (r: bytes)
    ensures r == dst + EncodeVarint(n)
  {
    r := dst;
    var m := n;
    while m >= 128
      invariant r + EncodeVarint(m) == dst + EncodeVarint(n)
    {
      assert r + [m % 128 + 128] + EncodeVarint(m / 128) == r + EncodeVarint(m);
      r := r + [m % 128 + 128];
      m := m / 128;
    }
    r := r + [m];
  }

  // ---- fields ----

  datatype Field = Field(number: nat, payload: bytes)

  const LENGTH_DELIMITED := 2

  function EncodeField(f: Field): bytes {
    EncodeVarint(f.number * 8 + LENGTH_DELIMITED) + EncodeVarint(|f.payload|) + f.payload
  }

  /** The guide's string field: number 2, with "testing". */
  lemma FieldOctets()
    ensures EncodeField(Field(2, Ascii("testing"))) == [0x12, 0x07] + Ascii("testing")
  {
    assert EncodeVarint(18) == [18] && EncodeVarint(7) == [7];
  }

  /** nextProtoField: the field and what follows it; None for a truncated field or another wire type. */
  function NextField(b: bytes): (r: Option<(Field, bytes)>)
    ensures r.Some? ==> |r.value.0.payload| + |r.value.1| + 2 <= |b|
  {
    var tag := DecodeVarint(b, 0);
    if tag.None? || tag.value.0 % 8 != LENGTH_DELIMITED then None
    else
      var b1 := b[tag.value.1..];
      Cut(tag.value.0 / 8, DecodeVarint(b1, 0), b1)
  }

  /** A field whose size begins b. */
  function Cut(number: nat, size: Option<(nat, nat)>, b: bytes): (r: Option<(Field, bytes)>)
    requires size.Some? ==> 1 <= size.value.1 <= |b|
    ensures r.Some? ==> |r.value.0.payload| + |r.value.1| + 1 <= |b|
  {
    if size.None? then None
    else
      var b2 := b[size.value.1..];
      if size.value.0 > |b2| then None else Some((Field(number, b2[..size.value.0]), b2[size.value.0..]))
  }

  /** Header, payload and rest rebuild the input, and the header is never shorter than two octets. */
  lemma NextFieldRebuilds(b: bytes)
    requires NextField(b).Some?
    ensures exists header :: |header| >= 2 && b == header + NextField(b).value.0.payload + NextField(b).value.1
  {
    var n := DecodeVarint(b, 0).value.1;
    var m := DecodeVarint(b[n..], 0).value.1;
    var header := b[..n + m];
    var b2 := b[n..][m..];
    assert b2 == b[n + m..];
    assert b == header + b2;
    var f, rest := NextField(b).value.0, NextField(b).value.1;
    assert b2 == f.payload + rest;
    assert b == header + f.payload + rest;
  }

  ghost predicate Sized(f: Field) {
    f.number < 0x1000_0000 && |f.payload| < TWO_63
  }

  lemma FieldReads(f: Field, rest: bytes)
    requires Sized(f)
    ensures NextField(EncodeField(f) + rest) == Some((f, rest)) && EncodeField(f) + rest != []
  {
    RoomIs64Bits();
    var tag, size := f.number * 8 + LENGTH_DELIMITED, |f.payload|;
    var t, l := EncodeVarint(tag), EncodeVarint(size);
    VarintReads(tag, 9, l + (f.payload + rest));
    VarintReads(size, 9, f.payload + rest);
    FourParts(t, l, f.payload, rest);
    CutReads(l, f, rest);
    HeaderReads(EncodeField(f) + rest, |t|, l + (f.payload + rest), |l|, f, rest);
  }

  /** A field begins with two varints, its tag and its size. */
  lemma HeaderReads(b: bytes, n: nat, b1: bytes, m: nat, f: Field, rest: bytes)
    requires DecodeVarint(b, 0) == Some((f.number * 8 + LENGTH_DELIMITED, n)) && b[n..] == b1
    requires DecodeVarint(b1, 0) == Some((|f.payload|, m)) && Cut(f.number, Some((|f.payload|, m)), b1) == Some((f, rest))
    ensures NextField(b) == Some((f, rest))
  {
  }

  lemma CutReads(l: bytes, f: Field, rest: bytes)
    requires |l| >= 1
    ensures Cut(f.number, Some((|f.payload|, |l|)), l + (f.payload + rest)) == Some((f, rest))
  {
    var b := l + (f.payload + rest);
    assert b[|l|..] == f.payload + rest;
    assert b[|l|..][..|f.payload|] == f.payload && b[|l|..][|f.payload|..] == rest;
  }

  lemma FourParts(a: bytes, b: bytes, c: bytes, d: bytes)
    ensures a + b + c + d == a + (b + (c + d)) && (a + (b + (c + d)))[|a|..] == b + (c + d)
  {
  }

  /** All the fields up to the end or the first that does not parse, and whether the end was reached. */
  function Fields(b: bytes): (seq<Field>, bool)
    decreases |b|
  {
    if b == [] then ([], true)
    else
      match NextField(b)
      case None => ([], false)
      case Some((f, rest)) =>
        var (more, clean) := Fields(rest);
        ([f] + more, clean)
  }

  function EncodeFields(fs: seq<Field>): bytes {
    if fs == [] then [] else EncodeField(fs[0]) + EncodeFields(fs[1..])
  }

  lemma FieldsFirst(b: bytes, f: Field, rest: bytes)
    requires b != [] && NextField(b) == Some((f, rest))
    ensures Fields(b) == ([f] + Fields(rest).0, Fields(rest).1)
  {
  }

  lemma {:induction false} FieldsRead(fs: seq<Field>)
    requires forall i :: 0 <= i < |fs| ==> Sized(fs[i])
    ensures Fields(EncodeFields(fs)) == (fs, true)
    decreases |fs|
  {
    if fs != [] {
      var rest := EncodeFields(fs[1..]);
      FieldReads(fs[0], rest);
      FieldsFirst(EncodeFields(fs), fs[0], rest);
      FieldsRead(fs[1..]);
      assert fs == [fs[0]] + fs[1..];
    }
  }

  // ---- messages: the last field of a number wins ----

  /** The payload of the last field with this number; empty if there is none. */
  function Last(fs: seq<Field>, number: nat): bytes {
    if fs == [] then []
    else if fs[|fs| - 1].number == number then fs[|fs| - 1].payload
    else Last(fs[..|fs| - 1], number)
  }

  /** The i-th field is the last with its number. */
  ghost predicate IsLast(fs: seq<Field>, i: nat) {
    i < |fs| && forall j :: i < j < |fs| ==> fs[j].number != fs[i].number
  }

  lemma {:induction false} LastIs(fs: seq<Field>, number: nat)
    ensures forall i: nat :: IsLast(fs, i) && fs[i].number == number ==> Last(fs, number) == fs[i].payload
    ensures (forall i :: 0 <= i < |fs| ==> fs[i].number != number) ==> Last(fs, number) == []
    decreases |fs|
  {
    if fs != [] {
      var front := fs[..|fs| - 1];
      LastIs(front, number);
      forall i: nat | IsLast(fs, i) && fs[i].number == number ensures Last(fs, number) == fs[i].payload {
        if i < |front| { assert IsLast(front, i); }
      }
    }
  }

  datatype ErrorInfo = ErrorInfo(code: bytes, requestID: bytes, details: map<bytes, bytes>)

  function EntryOf(payload: bytes): (bytes, bytes) {
    var fs := Fields(payload).0;
    (Last(fs, 1), Last(fs, 2))
  }

  /** The details map: entries in order, a later one replacing an earlier one of its key, and an entry with
      an empty key dropped. */
  function Details(fs: seq<Field>): map<bytes, bytes> {
    if fs == [] then map[]
    else
      var before := Details(fs[..|fs| - 1]);
      var f := fs[|fs| - 1];
      if f.number == 3 && EntryOf(f.payload).0 != [] then before[EntryOf(f.payload).0 := EntryOf(f.payload).1] else before
  }

  predicate IsEntry(f: Field, key: bytes) {
    f.number == 3 && EntryOf(f.payload).0 == key
  }

  /** The i-th field is the last entry of this key. */
  ghost predicate IsLastEntry(fs: seq<Field>, i: nat, key: bytes) {
    i < |fs| && IsEntry(fs[i], key) && forall j :: i < j < |fs| ==> !IsEntry(fs[j], key)
  }

  lemma {:induction false} IsLastEntryNext(front: seq<Field>, f: Field, i: nat, key: bytes)
    ensures IsLastEntry(front + [f], i, key) <==> if IsEntry(f, key) then i == |front| else IsLastEntry(front, i, key)
  {
    if IsLastEntry(front, i, key) && !IsEntry(f, key) {
      assert forall j :: i < j < |front| ==> (front + [f])[j] == front[j];
    }
    if IsLastEntry(front + [f], i, key) && !IsEntry(f, key) {
      assert forall j :: i < j < |front| ==> (front + [f])[j] == front[j];
    }
    assert (front + [f])[|front|] == f;
  }

  lemma {:induction false} DetailsAre(fs: seq<Field>, key: bytes)
    ensures forall i: nat :: key != [] && IsLastEntry(fs, i, key) ==> key in Details(fs) && Details(fs)[key] == EntryOf(fs[i].payload).1
    ensures key in Details(fs) ==> key != [] && exists i: nat :: IsLastEntry(fs, i, key)
    decreases |fs|
  {
    if fs != [] {
      var front, f := fs[..|fs| - 1], fs[|fs| - 1];
      assert fs == front + [f];
      DetailsAre(front, key);
      DetailsWith(front, f, key);
      forall i: nat | key != [] && IsLastEntry(fs, i, key) ensures key in Details(fs) && Details(fs)[key] == EntryOf(fs[i].payload).1 {
        IsLastEntryNext(front, f, i, key);
      }
      if key in Details(fs) {
        IsLastEntryNext(front, f, |front|, key);
        if !IsEntry(f, key) {
          var i: nat :| IsLastEntry(front, i, key);
          IsLastEntryNext(front, f, i, key);
        }
      }
    }
  }

  lemma {:induction false} DetailsWith(front: seq<Field>, f: Field, key: bytes)
    requires key != [] || key !in Details(front)
    ensures var all := Details(front + [f]);
            if key != [] && IsEntry(f, key) then key in all && all[key] == EntryOf(f.payload).1
            else (key in all <==> key in Details(front)) && (key in all ==> all[key] == Details(front)[key])
  {
    assert (front + [f])[..|front|] == front;
  }

  function InfoOf(fs: seq<Field>): ErrorInfo {
    ErrorInfo(Last(fs, 1), Last(fs, 2), Details(fs))
  }

  /** What decodeErrorInfo makes of a message: nothing unless every field parses. */
  function Decoded(b: bytes): Option<ErrorInfo> {
    if Fields(b).1 then Some(InfoOf(Fields(b).0)) else None
  }

  /** The fields read so far and the input that is left, in a loop over the fields of b. */
  ghost predicate Scanned(b: bytes, done: seq<Field>, raw: bytes) {
    done + Fields(raw).0 == Fields(b).0 && Fields(raw).1 == Fields(b).1
  }

  /** The next field of the input that is left, in such a loop. */
  method Scan(ghost b: bytes, ghost done: seq<Field>, raw: bytes) returns (next: Option<(Field, bytes)>)
    requires Scanned(b, done, raw) && raw != []
    ensures next.None? ==> Fields(b) == (done, false)
    ensures next.Some? ==> Scanned(b, done + [next.value.0], next.value.1) && |next.value.1| < |raw|
  {
    next := NextField(raw);
    if next.Some? {
      ghost var more := Fields(next.value.1).0;
      assert Fields(raw).0 == [next.value.0] + more;
      assert (done + [next.value.0]) + more == done + ([next.value.0] + more);
    } else {
      assert done + [] == done;
    }
  }

  lemma LastStep(done: seq<Field>, f: Field, number: nat)
    ensures Last(done + [f], number) == if f.number == number then f.payload else Last(done, number)
  {
    assert (done + [f])[..|done|] == done;
  }

  lemma DetailsStep(done: seq<Field>, f: Field)
    ensures f.number == 3 && EntryOf(f.payload).0 != [] ==>
              Details(done + [f]) == Details(done)[EntryOf(f.payload).0 := EntryOf(f.payload).1]
    ensures f.number != 3 || EntryOf(f.payload).0 == [] ==> Details(done + [f]) == Details(done)
  {
    assert (done + [f])[..|done|] == done;
  }

  // ---- the decoding loops, as folds over the fields ----

  function EntryWith(e: (bytes, bytes), f: Field): (bytes, bytes) {
    if f.number == 1 then (f.payload, e.1) else if f.number == 2 then (e.0, f.payload) else e
  }

  function EntryFold(fs: seq<Field>): (bytes, bytes) {
    if fs == [] then ([], []) else EntryWith(EntryFold(fs[..|fs| - 1]), fs[|fs| - 1])
  }

  function InfoWith(i: ErrorInfo, f: Field): ErrorInfo {
    if f.number == 1 then i.(code := f.payload)
    else if f.number == 2 then i.(requestID := f.payload)
    else if f.number == 3 && EntryOf(f.payload).0 != [] then i.(details := i.details[EntryOf(f.payload).0 := EntryOf(f.payload).1])
    else i
  }

  function InfoFold(fs: seq<Field>): ErrorInfo {
    if fs == [] then ErrorInfo([], [], map[]) else InfoWith(InfoFold(fs[..|fs| - 1]), fs[|fs| - 1])
  }

  lemma FoldStep(done: seq<Field>, f: Field)
    ensures EntryFold(done + [f]) == EntryWith(EntryFold(done), f) && InfoFold(done + [f]) == InfoWith(InfoFold(done), f)
  {
    assert (done + [f])[..|done|] == done;
  }

  /** The folds keep the last field of each number. */
  lemma {:induction false} EntryFoldIsLast(fs: seq<Field>)
    ensures EntryFold(fs) == (Last(fs, 1), Last(fs, 2))
    decreases |fs|
  {
    if fs != [] {
      EntryFoldIsLast(fs[..|fs| - 1]);
    }
  }

  lemma {:induction false} InfoFoldIsLast(fs: seq<Field>)
    ensures InfoFold(fs) == InfoOf(fs)
    decreases |fs|
  {
    if fs != [] {
      InfoFoldIsLast(fs[..|fs| - 1]);
    }
  }

  /** decodeMapEntry: it stops at the first field that does not parse and keeps what it has. */
  method DecodeMapEntry(b: bytes) returns (key: bytes, value: bytes)
    ensures (key, value) == EntryOf(b)
  {
    key, value := [], [];
    var raw := b;
    ghost var done: seq<Field> := [];
    while |raw| > 0
      invariant (key, value) == EntryFold(done)
      invariant Scanned(b, done, raw)
      decreases |raw|
    {
      var next := Scan(b, done, raw);
      if next.None? {
        EntryFoldIsLast(done);
        return;
      }
      var f := next.value.0;
      FoldStep(done, f);
      done := done + [f];
      raw := next.value.1;
      if f.number == 1 {
        key := f.payload;
      } else if f.number == 2 {
        value := f.payload;
      }
    }
    ScannedAll(b, done, raw);
    EntryFoldIsLast(done);
  }

  lemma ScannedAll(b: bytes, done: seq<Field>, raw: bytes)
    requires Scanned(b, done, raw) && raw == []
    ensures Fields(b) == (done, true)
  {
    assert done + [] == done;
  }

  /** decodeErrorInfo, past its base64 layer. */
  method DecodeErrorInfo(b: bytes) returns (r: Option<ErrorInfo>)
    ensures r == Decoded(b)
  {
    var code, requestID: bytes, details: map<bytes, bytes> := [], [], map[];
    var raw := b;
    ghost var done: seq<Field> := [];
    while |raw| > 0
      invariant ErrorInfo(code, requestID, details) == InfoFold(done)
      invariant Scanned(b, done, raw)
      decreases |raw|
    {
      var next := Scan(b, done, raw);
      if next.None? {
        return None;
      }
      var f := next.value.0;
      FoldStep(done, f);
      done := done + [f];
      raw := next.value.1;
      if f.number == 1 {
        code := f.payload;
      } else if f.number == 2 {
        requestID := f.payload;
      } else if f.number == 3 {
        var k, v := DecodeMapEntry(f.payload);
        if k != [] {
          details := details[k := v];
        }
      }
    }
    ScannedAll(b, done, raw);
    InfoFoldIsLast(done);
    return Some(ErrorInfo(code, requestID, details));
  }

  // ---- the encoders ----

  /** A field as appendField writes it: the tag is one octet, whatever the number. */
  function Part(number: nat, value: bytes): bytes {
    if value == [] then [] else [(number * 8 + LENGTH_DELIMITED) % 256] + EncodeVarint(|value|) + value
  }

  /** appendField: an empty value is left out. */
  method AppendField(dst: bytes, number: nat, value: bytes) returns (r: bytes)
    ensures r == dst + Part(number, value)
  {
    if value == [] {
      return dst + [];
    }
    r := dst + [(number * 8 + LENGTH_DELIMITED) % 256];
    r := AppendVarint(r, |value|);
    ThreeAfter(dst, [(number * 8 + LENGTH_DELIMITED) % 256], EncodeVarint(|value|), value);
    r := r + value;
  }

  lemma ThreeAfter(a: bytes, b: bytes, c: bytes, d: bytes)
    ensures a + b + c + d == a + (b + c + d)
  {
  }

  /** That is the wire form exactly for the numbers whose tag is one octet of a varint; ErrorInfo has two. */
  lemma PartIsFieldIff(number: nat, value: bytes)
    requires value != []
    ensures Part(number, value) == EncodeField(Field(number, value)) <==> number < 16
  {
    var tag := number * 8 + LENGTH_DELIMITED;
    if number < 16 {
      assert EncodeVarint(tag) == [tag];
    } else {
      assert EncodeVarint(tag)[0] == tag % 128 + 128;
      assert |EncodeVarint(tag)| > 1;
      assert |Part(number, value)| == 1 + |EncodeVarint(|value|)| + |value|;
    }
  }

  function NonEmpty(number: nat, value: bytes): seq<Field> {
    if value == [] then [] else [Field(number, value)]
  }

  /** encodeErrorInfo of anubistest. */
  method EncodeErrorInfo(code: bytes, requestID: bytes) returns (out: bytes)
    ensures out == EncodeFields(NonEmpty(1, code) + NonEmpty(2, requestID))
  {
    out := AppendField([], 1, code);
    EncodeNonEmpty(1, code);
    assert out == EncodeFields(NonEmpty(1, code));
    out := AppendField(out, 2, requestID);
    EncodeNonEmpty(2, requestID);
    EncodeConcat(NonEmpty(1, code), NonEmpty(2, requestID));
  }

  lemma EncodeNonEmpty(number: nat, value: bytes)
    requires number < 16
    ensures EncodeFields(NonEmpty(number, value)) == Part(number, value)
  {
    if value != [] {
      PartIsFieldIff(number, value);
      assert NonEmpty(number, value)[1..] == [];
    }
  }

  lemma {:induction false} EncodeConcat(a: seq<Field>, b: seq<Field>)
    ensures EncodeFields(a + b) == EncodeFields(a) + EncodeFields(b)
    decreases |a|
  {
    if a == [] {
      assert a + b == b;
    } else {
      EncodeConcat(a[1..], b);
      assert (a + b)[0] == a[0] && (a + b)[1..] == a[1..] + b;
      Associates(EncodeField(a[0]), EncodeFields(a[1..]), EncodeFields(b));
    }
  }

  lemma Associates(a: bytes, b: bytes, c: bytes)
    ensures a + (b + c) == (a + b) + c
  {
  }

  /** The message the wire format has for this information, its map entries in any order. */
  function MessageFields(code: bytes, requestID: bytes, entries: seq<(bytes, bytes)>): seq<Field> {
    [Field(1, code), Field(2, requestID)] + EntryFields(entries)
  }

  function EntryFields(entries: seq<(bytes, bytes)>): (r: seq<Field>)
    ensures |r| == |entries|
    ensures forall i :: 0 <= i < |r| ==> r[i] == Field(3, EncodeFields([Field(1, entries[i].0), Field(2, entries[i].1)]))
  {
    if entries == [] then []
    else [Field(3, EncodeFields([Field(1, entries[0].0), Field(2, entries[0].1)]))] + EntryFields(entries[1..])
  }

  /** The map the entries spell, later ones winning, without the empty key. */
  function EntryMap(entries: seq<(bytes, bytes)>): map<bytes, bytes> {
    if entries == [] then map[]
    else
      var before := EntryMap(entries[..|entries| - 1]);
      var e := entries[|entries| - 1];
      if e.0 == [] then before else before[e.0 := e.1]
  }

  ghost predicate SmallEntries(entries: seq<(bytes, bytes)>) {
    forall i :: 0 <= i < |entries| ==> |entries[i].0| < 0x1_0000_0000 && |entries[i].1| < 0x1_0000_0000
  }

  lemma EntryReads(key: bytes, value: bytes)
    requires |key| < TWO_63 && |value| < TWO_63
    ensures EntryOf(EncodeFields([Field(1, key), Field(2, value)])) == (key, value)
  {
    var fs := [Field(1, key), Field(2, value)];
    FieldsRead(fs);
    LastStep([], fs[0], 1);
    LastStep([], fs[0], 2);
    LastStep([fs[0]], fs[1], 1);
    LastStep([fs[0]], fs[1], 2);
    assert [] + [fs[0]] == [fs[0]] && [fs[0]] + [fs[1]] == fs;
  }

  lemma {:induction false} NoDetails(fs: seq<Field>)
    requires forall i :: 0 <= i < |fs| ==> fs[i].number != 3
    ensures Details(fs) == map[]
    decreases |fs|
  {
    if fs != [] {
      NoDetails(fs[..|fs| - 1]);
    }
  }

  /** These fields spell these entries. */
  ghost predicate Spell(tail: seq<Field>, entries: seq<(bytes, bytes)>) {
    |tail| == |entries| && forall i :: 0 <= i < |tail| ==> tail[i].number == 3 && EntryOf(tail[i].payload) == entries[i]
  }

  lemma {:induction false} EntryFieldsSpell(entries: seq<(bytes, bytes)>)
    requires SmallEntries(entries)
    ensures Spell(EntryFields(entries), entries)
  {
    forall i | 0 <= i < |entries| ensures EntryOf(EntryFields(entries)[i].payload) == entries[i] {
      EntryReads(entries[i].0, entries[i].1);
    }
  }

  /** One more entry at the end is one more assignment to the map. */
  lemma {:induction false} DetailsOfEntries(fs: seq<Field>, tail: seq<Field>, entries: seq<(bytes, bytes)>)
    requires Spell(tail, entries) && (forall i :: 0 <= i < |fs| ==> fs[i].number != 3)
    ensures Details(fs + tail) == EntryMap(entries)
    decreases |entries|
  {
    if entries == [] {
      NoDetails(fs);
      assert fs + tail == fs;
    } else {
      var n := |entries| - 1;
      DetailsOfEntries(fs, tail[..n], entries[..n]);
      LastOfTail(fs, tail);
      DetailsLast(fs + tail[..n], tail[n], entries[n]);
    }
  }

  lemma LastOfTail(fs: seq<Field>, tail: seq<Field>)
    requires tail != []
    ensures fs + tail == (fs + tail[..|tail| - 1]) + [tail[|tail| - 1]]
  {
  }

  lemma DetailsLast(done: seq<Field>, f: Field, e: (bytes, bytes))
    requires f.number == 3 && EntryOf(f.payload) == e
    ensures Details(done + [f]) == if e.0 == [] then Details(done) else Details(done)[e.0 := e.1]
  {
    DetailsStep(done, f);
  }

  lemma {:induction false} LastBefore(fs: seq<Field>, tail: seq<Field>, number: nat)
    requires forall i :: 0 <= i < |tail| ==> tail[i].number != number
    ensures Last(fs + tail, number) == Last(fs, number)
    decreases |tail|
  {
    if tail == [] {
      assert fs + tail == fs;
    } else {
      LastBefore(fs, tail[..|tail| - 1], number);
      assert (fs + tail)[..|fs + tail| - 1] == fs + tail[..|tail| - 1];
    }
  }

  lemma VarintSize(n: nat)
    requires n < TWO_64
    ensures |EncodeVarint(n)| <= 10
  {
    RoomIs64Bits();
    VarintIsShort(n, 9);
  }

  lemma {:induction false} VarintIsShort(n: nat, k: nat)
    requires n < Room(k)
    ensures |EncodeVarint(n)| <= k + 1
    decreases k
  {
    if n >= 128 { VarintIsShort(n / 128, k - 1); }
  }

  lemma EntriesAreSized(entries: seq<(bytes, bytes)>)
    requires SmallEntries(entries)
    ensures forall i :: 0 <= i < |entries| ==> Sized(EntryFields(entries)[i])
  {
    forall i | 0 <= i < |entries| ensures Sized(EntryFields(entries)[i]) {
      var f, g := Field(1, entries[i].0), Field(2, entries[i].1);
      VarintSize(f.number * 8 + 2);
      VarintSize(|f.payload|);
      VarintSize(g.number * 8 + 2);
      VarintSize(|g.payload|);
      assert [f, g][1..] == [g] && [g][1..] == [];
      assert EncodeFields([g]) == EncodeField(g) + EncodeFields([]);
      assert EncodeFields([f, g]) == EncodeField(f) + EncodeFields([g]);
    }
  }

  /** Decoding undoes the wire encoding of any code, request id and details, in whatever order the map was
      written; only a detail with an empty key is lost. */
  lemma DecodeUndoesWire(code: bytes, requestID: bytes, entries: seq<(bytes, bytes)>)
    requires |code| < TWO_63 && |requestID| < TWO_63 && SmallEntries(entries)
    ensures Decoded(EncodeFields(MessageFields(code, requestID, entries))) == Some(ErrorInfo(code, requestID, EntryMap(entries)))
  {
    var head := [Field(1, code), Field(2, requestID)];
    var fs := MessageFields(code, requestID, entries);
    EntriesAreSized(entries);
    FieldsRead(fs);
    LastBefore(head, EntryFields(entries), 1);
    LastBefore(head, EntryFields(entries), 2);
    assert head[..1] == [Field(1, code)];
    EntryFieldsSpell(entries);
    DetailsOfEntries(head, EntryFields(entries), entries);
  }

  /** For a map written out once per key, the decoded details are the map less its empty key. */
  lemma {:induction false} EntryMapIsTheMap(details: map<bytes, bytes>, entries: seq<(bytes, bytes)>)
    requires forall i :: 0 <= i < |entries| ==> entries[i].0 in details && details[entries[i].0] == entries[i].1
    requires forall k :: k in details ==> exists i :: 0 <= i < |entries| && entries[i].0 == k
    ensures EntryMap(entries) == details - {[]}
  {
    EntryMapHolds(entries);
    var m := EntryMap(entries);
    forall k | k in m ensures k in details && k != [] && m[k] == details[k] {
      var i :| 0 <= i < |entries| && entries[i] == (k, m[k]);
    }
    forall k | k in details && k != [] ensures k in m {
      var i :| 0 <= i < |entries| && entries[i].0 == k;
    }
    assert m.Keys == (details - {[]}).Keys;
  }

  lemma {:induction false} EntryMapHolds(entries: seq<(bytes, bytes)>)
    ensures forall i :: 0 <= i < |entries| && entries[i].0 != [] ==> entries[i].0 in EntryMap(entries)
    ensures forall k :: k in EntryMap(entries) ==> k != [] && exists i :: 0 <= i < |entries| && entries[i] == (k, EntryMap(entries)[k])
    decreases |entries|
  {
    if entries != [] {
      var front := entries[..|entries| - 1];
      EntryMapHolds(front);
      var m := EntryMap(entries);
      forall k | k in m ensures k != [] && exists i :: 0 <= i < |entries| && entries[i] == (k, m[k]) {
        var e := entries[|entries| - 1];
        if e.0 == k && k != [] {
          assert entries[|entries| - 1] == (k, m[k]);
        } else {
          assert k in EntryMap(front) && m[k] == EntryMap(front)[k];
          var i :| 0 <= i < |front| && front[i] == (k, EntryMap(front)[k]);
          assert entries[i] == (k, m[k]);
        }
      }
      forall i | 0 <= i < |entries| && entries[i].0 != [] ensures entries[i].0 in m {
        if i < |front| { assert front[i] == entries[i]; }
      }
    }
  }

  /** The server's encoder and the client's decoder agree, the empty strings it leaves out included. */
  lemma DecodeUndoesServer(code: bytes, requestID: bytes)
    requires |code| < TWO_63 && |requestID| < TWO_63
    ensures Decoded(EncodeFields(NonEmpty(1, code) + NonEmpty(2, requestID))) == Some(ErrorInfo(code, requestID, map[]))
  {
    var fs := NonEmpty(1, code) + NonEmpty(2, requestID);
    FieldsRead(fs);
    NoDetails(fs);
    LastBefore(NonEmpty(1, code), NonEmpty(2, requestID), 1);
    assert Last(fs, 2) == requestID by {
      if requestID == [] {
        assert fs == NonEmpty(1, code);
      } else {
        assert fs[|fs| - 1] == Field(2, requestID);
      }
    }
  }
}
