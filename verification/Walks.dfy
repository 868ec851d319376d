/**
 Small loops with a bound to justify: the ancestors of a node (anubistest/admin.go:318-335), an id nobody
 holds (anubistest/provision.go:618-626), and an int64 written into a buffer (anubistest/admin.go:370-390)
 and read back (client.go:350-363).
*/
module Walks {
  import opened Basics
  import opened Decimals

  // ---- ancestors ----

  datatype Row = Row(id: bytes, axis: bytes, name: bytes, parentId: bytes)

  /** The rows of an axis by id; of two rows with one id the later counts. */
  function ById(all: seq<Row>, axis: bytes): (m: map<bytes, Row>)
    ensures |m| <= |all|
  {
    if all == [] then map[]
    else
      var last := all[|all| - 1];
      var m := ById(all[..|all| - 1], axis);
      if last.axis == axis then m[last.id := last] else m
  }

  predicate IsOf(r: Row, axis: bytes, id: bytes) {
    r.axis == axis && r.id == id
  }

  /** all[i] is the last row of the axis with this id. */
  ghost predicate IsLast(all: seq<Row>, axis: bytes, id: bytes, i: nat) {
    i < |all| && IsOf(all[i], axis, id) && forall j :: i < j < |all| ==> !IsOf(all[j], axis, id)
  }

  lemma {:induction false} IsLastNext(front: seq<Row>, last: Row, axis: bytes, id: bytes, i: nat)
    ensures IsLast(front + [last], axis, id, i) <==> if IsOf(last, axis, id) then i == |front| else IsLast(front, axis, id, i)
  {
    assert forall j :: 0 <= j < |front| ==> (front + [last])[j] == front[j];
    assert (front + [last])[|front|] == last;
  }

  lemma {:induction false} ByIdIs(all: seq<Row>, axis: bytes, id: bytes)
    ensures forall i: nat :: IsLast(all, axis, id, i) ==> id in ById(all, axis) && ById(all, axis)[id] == all[i]
    ensures id in ById(all, axis) ==> exists i: nat :: IsLast(all, axis, id, i)
    decreases |all|
  {
    if all != [] {
      var front, last := all[..|all| - 1], all[|all| - 1];
      assert all == front + [last];
      ByIdIs(front, axis, id);
      forall i: nat | IsLast(all, axis, id, i) ensures id in ById(all, axis) && ById(all, axis)[id] == all[i] {
        IsLastNext(front, last, axis, id, i);
      }
      if id in ById(all, axis) {
        IsLastNext(front, last, axis, id, |front|);
        if !IsOf(last, axis, id) {
          var i: nat :| IsLast(front, axis, id, i);
          IsLastNext(front, last, axis, id, i);
        }
      }
    }
  }

  /** up is the ids from id to its top, each the parent of the one before: a complete chain. */
  ghost predicate Chain(byId: map<bytes, Row>, id: bytes, up: seq<bytes>)
    decreases |up|
  {
    if id == [] || id !in byId then up == []
    else up != [] && up[0] == id && Chain(byId, byId[id].parentId, up[1..])
  }

  /** Following parents from id comes to an end. */
  ghost predicate Ends(byId: map<bytes, Row>, id: bytes) {
    exists up :: Chain(byId, id, up)
  }

  /** The names of a chain, from the top down. */
  function NamesDown(byId: map<bytes, Row>, up: seq<bytes>): seq<bytes>
    requires forall id :: id in up ==> id in byId
  {
    if up == [] then [] else NamesDown(byId, up[1..]) + [byId[up[0]].name]
  }

  lemma {:induction false} NamesAre(byId: map<bytes, Row>, up: seq<bytes>, i: nat)
    requires (forall id :: id in up ==> id in byId) && i < |up|
    ensures |NamesDown(byId, up)| == |up| && NamesDown(byId, up)[|up| - 1 - i] == byId[up[i]].name
    decreases |up|
  {
    assert up == [up[0]] + up[1..];
    if |up| > 1 { NamesAre(byId, up[1..], if i == 0 then 0 else i - 1); }
  }

  lemma {:induction false} ChainIds(byId: map<bytes, Row>, id: bytes, up: seq<bytes>)
    requires Chain(byId, id, up)
    ensures forall x :: x in up ==> x in byId
    decreases |up|
  {
    if up != [] {
      ChainIds(byId, byId[id].parentId, up[1..]);
      assert up == [up[0]] + up[1..];
    }
  }

  /** What is left of a chain from one of its ids is the chain from there. */
  lemma {:induction false} ChainFrom(byId: map<bytes, Row>, id: bytes, up: seq<bytes>, i: nat)
    requires Chain(byId, id, up) && i < |up|
    ensures Chain(byId, up[i], up[i..])
    decreases |up|
  {
    if i > 0 {
      ChainFrom(byId, byId[id].parentId, up[1..], i - 1);
      assert up[1..][i - 1..] == up[i..];
    } else {
      assert up[0..] == up;
    }
  }

  lemma {:induction false} ChainIsUnique(byId: map<bytes, Row>, id: bytes, up: seq<bytes>, other: seq<bytes>)
    requires Chain(byId, id, up) && Chain(byId, id, other)
    ensures up == other
    decreases |up|
  {
    if up != [] {
      ChainIsUnique(byId, byId[id].parentId, up[1..], other[1..]);
      assert up == [up[0]] + up[1..] && other == [other[0]] + other[1..];
    }
  }

  /** A chain that ends meets no id twice, so it is no longer than the rows are many. */
  lemma ChainIsShort(byId: map<bytes, Row>, id: bytes, up: seq<bytes>)
    requires Chain(byId, id, up)
    ensures forall i, j :: 0 <= i < j < |up| ==> up[i] != up[j]
    ensures |up| <= |byId|
  {
    ChainIds(byId, id, up);
    forall i, j | 0 <= i < j < |up| ensures up[i] != up[j] {
      if up[i] == up[j] {
        ChainFrom(byId, id, up, i);
        ChainFrom(byId, id, up, j);
        ChainIsUnique(byId, up[i], up[i..], up[j..]);
      }
    }
    Distinct(up, byId.Keys);
  }

  lemma {:induction false} Distinct(s: seq<bytes>, keys: set<bytes>)
    requires (forall i, j :: 0 <= i < j < |s| ==> s[i] != s[j]) && forall x :: x in s ==> x in keys
    ensures |s| <= |keys|
    decreases |s|
  {
    if s != [] {
      forall x | x in s[1..] ensures x in keys - {s[0]} {
        var i :| 0 <= i < |s[1..]| && s[1..][i] == x;
        assert s[i + 1] == x;
      }
      Distinct(s[1..], keys - {s[0]});
    }
  }

  /**
   ancestorNames. On rows whose parents come to an end it is the whole chain of names, the top first; on a
   cycle it stops all the same, with as many names as there are rows.
  */
  method AncestorNames(all: seq<Row>, n: Row) returns (path: seq<bytes>)
    ensures |path| <= |all|
    ensures var byId := ById(all, n.axis);
            forall up :: Chain(byId, n.parentId, up) ==> (forall id :: id in up ==> id in byId) && path == NamesDown(byId, up)
    ensures !Ends(ById(all, n.axis), n.parentId) ==> |path| == |all|
  {
    var byId: map<bytes, Row> := map[];
    for i := 0 to |all|
      invariant byId == ById(all[..i], n.axis)
    {
      assert all[..i + 1][..i] == all[..i];
      if all[i].axis == n.axis {
        byId := byId[all[i].id := all[i]];
      }
    }
    assert all[..|all|] == all;
    path := [];
    var id := n.parentId;
    ghost var climbed: seq<bytes> := [];
    assert forall up: seq<bytes> :: [] + up == up;
    while id != [] && |path| < |all|
      invariant |path| == |climbed| <= |all| && (forall x :: x in climbed ==> x in byId)
      invariant path == NamesDown(byId, climbed)
      invariant forall up :: Chain(byId, id, up) <==> Chain(byId, n.parentId, climbed + up)
      invariant forall up :: Chain(byId, n.parentId, up) ==> climbed <= up
      decreases |all| - |path|
    {
      if id !in byId {
        break;
      }
      var p := byId[id];
      Climb(byId, n.parentId, climbed, id);
      path := [p.name] + path;
      climbed := climbed + [id];
      id := p.parentId;
    }
    Arrived(byId, n.parentId, climbed, id, |all|);
  }

  /** One step up. */
  lemma Climb(byId: map<bytes, Row>, start: bytes, climbed: seq<bytes>, id: bytes)
    requires id != [] && id in byId && forall x :: x in climbed ==> x in byId
    requires forall up :: Chain(byId, id, up) <==> Chain(byId, start, climbed + up)
    requires forall up :: Chain(byId, start, up) ==> climbed <= up
    ensures NamesDown(byId, climbed + [id]) == [byId[id].name] + NamesDown(byId, climbed)
    ensures forall up :: Chain(byId, byId[id].parentId, up) <==> Chain(byId, start, climbed + [id] + up)
    ensures forall up :: Chain(byId, start, up) ==> climbed + [id] <= up
  {
    NamesOfMore(byId, climbed, id);
    forall up ensures Chain(byId, byId[id].parentId, up) <==> Chain(byId, start, climbed + [id] + up) {
      assert climbed + [id] + up == climbed + ([id] + up);
      assert ([id] + up)[1..] == up;
      assert Chain(byId, id, [id] + up) <==> Chain(byId, start, climbed + ([id] + up));
    }
    forall up | Chain(byId, start, up) ensures climbed + [id] <= up {
      var rest := up[|climbed|..];
      assert up == climbed + rest;
      assert Chain(byId, id, rest);
    }
  }

  lemma {:induction false} NamesOfMore(byId: map<bytes, Row>, up: seq<bytes>, id: bytes)
    requires id in byId && forall x :: x in up ==> x in byId
    ensures NamesDown(byId, up + [id]) == [byId[id].name] + NamesDown(byId, up)
    decreases |up|
  {
    if up == [] {
      assert [id][1..] == [];
    } else {
      NamesOfMore(byId, up[1..], id);
      assert (up + [id])[1..] == up[1..] + [id];
    }
  }

  /** Where the walk stops, the chain is complete if it has an end: else it would be longer than the rows. */
  lemma Arrived(byId: map<bytes, Row>, start: bytes, climbed: seq<bytes>, id: bytes, n: nat)
    requires forall x :: x in climbed ==> x in byId
    requires forall up :: Chain(byId, id, up) <==> Chain(byId, start, climbed + up)
    requires forall up :: Chain(byId, start, up) ==> climbed <= up
    requires id == [] || id !in byId || |climbed| == n
    requires |byId| <= n
    ensures forall up :: Chain(byId, start, up) ==> up == climbed
    ensures !Ends(byId, start) ==> |climbed| == n
  {
    forall up | Chain(byId, start, up) ensures up == climbed {
      ChainIsShort(byId, start, up);
      var rest := up[|climbed|..];
      assert up == climbed + rest;
      assert Chain(byId, id, rest);
    }
    if id == [] || id !in byId {
      assert climbed + [] == climbed;
      assert Chain(byId, id, []);
      assert Chain(byId, start, climbed);
    }
  }

  // ---- fresh ids ----

  const UNDERSCORE: byte := 95

  function NumberedId(prefix: bytes, n: int): bytes {
    prefix + [UNDERSCORE] + Format(n)
  }

  lemma NumbersDiffer(prefix: bytes, m: int, n: int)
    requires NumberedId(prefix, m) == NumberedId(prefix, n)
    ensures m == n
  {
    assert NumberedId(prefix, m)[|prefix| + 1..] == Format(m) && NumberedId(prefix, n)[|prefix| + 1..] == Format(n);
    FormatInjective(m, n);
  }

  class Counter {
    var seq_: int

    /**
     freshID: the first number after the counter whose id is not taken. Whatever finite set of ids is
     taken, it finds one before it has tried more ids than are taken.
    */
    method FreshID(prefix: bytes, taken: set<bytes>) returns (id: bytes)
      modifies this
      ensures id == NumberedId(prefix, seq_) && id !in taken
      ensures old(seq_) < seq_ <= old(seq_) + |taken| + 1
      ensures forall n :: old(seq_) < n < seq_ ==> NumberedId(prefix, n) in taken
    {
      ghost var met: set<bytes> := {};
      while true
        invariant old(seq_) <= seq_ && met <= taken && |met| == seq_ - old(seq_)
        invariant forall n :: old(seq_) < n <= seq_ ==> NumberedId(prefix, n) in met
        invariant forall x :: x in met ==> exists n :: old(seq_) < n <= seq_ && x == NumberedId(prefix, n)
        decreases |taken - met|
      {
        seq_ := seq_ + 1;
        id := NumberedId(prefix, seq_);
        SubsetSize(met, taken);
        if id !in taken {
          return;
        }
        if id in met {
          var n :| old(seq_) < n <= seq_ - 1 && id == NumberedId(prefix, n);
          NumbersDiffer(prefix, n, seq_);
        }
        assert taken - met == (taken - (met + {id})) + {id};
        met := met + {id};
      }
    }
  }

  // ---- an int64 in a buffer ----

  /** itoa64 of the one number whose negation is itself: the digits loop does not run. */
  const LONE_SIGN: bytes := [MINUS]

  lemma {:induction false} DigitsAreFew(n: nat, k: nat)
    requires n < Power10(k) && k > 0
    ensures |Digits(n)| <= k
    decreases k
  {
    if n >= 10 {
      DigitsAreFew(n / 10, k - 1);
    }
  }

  function Power10(k: nat): nat {
    if k == 0 then 1 else 10 * Power10(k - 1)
  }

  lemma NineteenDigits()
    ensures TWO_63 <= Power10(19)
  {
    assert Power10(5) == 100_000;
    assert Power10(10) == 10_000_000_000;
    assert Power10(15) == 1_000_000_000_000_000;
    assert Power10(17) == 100_000_000_000_000_000;
  }

  lemma Int64Digits(m: nat)
    requires m < TWO_63
    ensures |Digits(m)| <= 19
  {
    NineteenDigits();
    DigitsAreFew(m, 19);
  }

  /** The loop of itoa64: the digits of n, written backwards from i. */
  method PutDigits(b: array<byte>, n: nat) returns (i: nat)
    requires |Digits(n)| <= b.Length && n > 0
    modifies b
    ensures i + |Digits(n)| == b.Length && b[i..] == Digits(n)
  {
    i := b.Length;
    var m := n;
    while m > 0
      invariant i <= b.Length
      invariant if m > 0 then Digits(n) == Digits(m) + b[i..] else Digits(n) == b[i..]
      decreases m
    {
      ghost var tail := b[i..];
      i := i - 1;
      b[i] := ZERO + m % 10;
      assert b[i..] == [ZERO + m % 10] + tail;
      LastDigit(m, tail);
      m := m / 10;
    }
  }

  lemma LastDigit(m: nat, tail: bytes)
    requires m > 0
    ensures |Digits(m) + tail| > |tail|
    ensures if m >= 10 then Digits(m) + tail == Digits(m / 10) + ([ZERO + m % 10] + tail) else Digits(m) + tail == [ZERO + m % 10] + tail
  {
    if m >= 10 {
      assert Digits(m / 10) + [ZERO + m % 10] + tail == Digits(m / 10) + ([ZERO + m % 10] + tail);
    }
  }

  /** Twenty-four octets are always enough; the least int64 is its own negation, and gets no digits. */
  method Itoa64(n: int) returns (s: bytes)
    requires -TWO_63 <= n < TWO_63
    ensures s == if n == -TWO_63 then LONE_SIGN else Format(n)
  {
    if n == 0 {
      return [ZERO];
    }
    var neg := n < 0;
    var m := if neg then Int64(-n) else n;
    assert m > 0 ==> Format(n) == (if neg then [MINUS] else []) + Digits(m) by {
      if m > 0 { assert m == if neg then -n else n; }
    }
    var b := new byte[24];
    var i: nat := b.Length;
    if m > 0 {
      Int64Digits(m);
      i := PutDigits(b, m);
    }
    if neg {
      ghost var tail := b[i..];
      i := i - 1;
      b[i] := MINUS;
      assert b[i..] == [MINUS] + tail;
    }
    return b[i..];
  }

  function TrimLeft(s: bytes, cut: set<byte>): bytes {
    if s != [] && s[0] in cut then TrimLeft(s[1..], cut) else s
  }

  function TrimRight(s: bytes, cut: set<byte>): bytes {
    if s != [] && s[|s| - 1] in cut then TrimRight(s[..|s| - 1], cut) else s
  }

  const QUOTE: byte := 34
  const NULL: bytes := [110, 117, 108, 108]
  const QUOTES: set<byte> := {QUOTE}
  const SPACES: set<byte> := {9, 10, 11, 12, 13, 32}

  function Trim(s: bytes, cut: set<byte>): bytes {
    TrimRight(TrimLeft(s, cut), cut)
  }

  /** pbInt64.UnmarshalJSON, of ASCII: the number with its quotes, or without. */
  function Unmarshal(b: bytes): Option<int> {
    var s := Trim(b, SPACES);
    if s == NULL || s == [QUOTE, QUOTE] || s == [] then Some(0) else ParseInt(Trim(s, QUOTES))
  }

  ghost predicate Within(s: bytes, cut: set<byte>) {
    forall c :: c in s ==> c in cut
  }

  lemma {:induction false} TrimsTo(left: bytes, core: bytes, right: bytes, cut: set<byte>)
    requires Within(left, cut) && Within(right, cut)
    requires core != [] && core[0] !in cut && core[|core| - 1] !in cut
    ensures Trim(left + core + right, cut) == core
    decreases |left| + |right|
  {
    if left != [] {
      var s := left + core + right;
      assert s[0] == left[0] && s[1..] == left[1..] + core + right;
      assert TrimLeft(s, cut) == TrimLeft(s[1..], cut);
      TrimsTo(left[1..], core, right, cut);
    } else if right != [] {
      var s := core + right;
      var init := right[..|right| - 1];
      assert left + core + right == s && left + core + init == core + init;
      assert s[..|s| - 1] == core + init && s[|s| - 1] == right[|right| - 1];
      assert (core + init)[0] == core[0];
      TrimsTo(left, core, init, cut);
      assert TrimRight(s, cut) == TrimRight(core + init, cut);
    } else {
      assert left + core + right == core;
    }
  }

  /** A number as protojson writes it, a JSON string, or as a JSON number; white space around it. */
  lemma {:induction false} ReadsNumber(left: bytes, n: bytes, right: bytes)
    requires Within(left, SPACES) && Within(right, SPACES)
    requires n != [] && forall i :: 0 <= i < |n| ==> IsDigit(n[i]) || n[i] == MINUS
    ensures Unmarshal(left + n + right) == ParseInt(n)
    ensures Unmarshal(left + ([QUOTE] + n + [QUOTE]) + right) == ParseInt(n)
  {
    var quoted := [QUOTE] + n + [QUOTE];
    assert n[0] !in SPACES && n[|n| - 1] !in SPACES && n[0] !in QUOTES && n[|n| - 1] !in QUOTES;
    TrimsTo(left, n, right, SPACES);
    TrimsTo(left, quoted, right, SPACES);
    TrimsTo([], n, [], QUOTES);
    assert [] + n + [] == n;
    TrimsTo([QUOTE], n, [QUOTE], QUOTES);
    assert n != NULL by { assert NULL[0] == 110; }
    assert |quoted| > 2 && quoted[0] == QUOTE;
  }

  /** What the one writes the other reads, for every int64 but the least. */
  lemma ReadsBackIff(n: int, left: bytes, right: bytes)
    requires -TWO_63 <= n < TWO_63 && Within(left, SPACES) && Within(right, SPACES)
    ensures var written := if n == -TWO_63 then LONE_SIGN else Format(n);
            && (Unmarshal(left + written + right) == Some(n) <==> n != -TWO_63)
            && (Unmarshal(left + ([QUOTE] + written + [QUOTE]) + right) == Some(n) <==> n != -TWO_63)
  {
    ParseFormat(n);
    FormatIsPlain(n);
    assert LONE_SIGN[1..] == [];
    ReadsNumber(left, if n == -TWO_63 then LONE_SIGN else Format(n), right);
  }
}
