/** cache.go, cacheKey: one octet string for every input a decision depended on, before it is hashed. */
module CacheKeys {
  import opened Basics
  import opened Orders
  import Decimals

  const NUL: byte := 0
  const EQUALS: byte := 61

  /** What authorize asks. Scopes is a Go map: its order of iteration is not part of the question. */
  datatype Question = Question(
    subject: bytes,
    permission: bytes,
    scopes: map<bytes, bytes>,
    methods: seq<bytes>,
    authTime: int)

  /** Every part followed by a NUL. */
  function Join(parts: seq<bytes>): bytes {
    if parts == [] then [] else parts[0] + [NUL] + Join(parts[1..])
  }

  function AxisParts(scopes: map<bytes, bytes>, axes: seq<bytes>): (r: seq<bytes>)
    requires forall axis :: axis in axes ==> axis in scopes
    ensures |r| == |axes| && forall i :: 0 <= i < |r| ==> r[i] == axes[i] + [EQUALS] + scopes[axes[i]]
  {
    if axes == [] then [] else [axes[0] + [EQUALS] + scopes[axes[0]]] + AxisParts(scopes, axes[1..])
  }

  lemma AxesAreKeys(scopes: map<bytes, bytes>)
    ensures forall axis :: axis in Ascending(scopes.Keys) <==> axis in scopes
  {
    forall axis ensures axis in Ascending(scopes.Keys) <==> axis in scopes {
      assert axis in Ascending(scopes.Keys) <==> axis in multiset(Ascending(scopes.Keys));
    }
  }

  /** The parts of a question in the order cacheKey writes them. */
  ghost function Parts(q: Question): seq<bytes> {
    AxesAreKeys(q.scopes);
    [q.subject, q.permission] + AxisParts(q.scopes, Ascending(q.scopes.Keys)) + Sort(q.methods)
  }

  ghost function Preimage(q: Question): bytes {
    Join(Parts(q)) + Decimals.Format(q.authTime)
  }

  lemma {:induction false} JoinAppend(p: seq<bytes>, q: seq<bytes>)
    ensures Join(p + q) == Join(p) + Join(q)
    decreases |p|
  {
    if p == [] {
      assert p + q == q;
    } else {
      JoinAppend(p[1..], q);
      assert (p + q)[1..] == p[1..] + q;
    }
  }

  lemma JoinOne(p: bytes)
    ensures Join([p]) == p + [NUL]
  {
    assert [p][1..] == [];
  }

  lemma JoinNext(parts: seq<bytes>, i: nat)
    requires i < |parts|
    ensures Join(parts[..i + 1]) == Join(parts[..i]) + (parts[i] + [NUL])
  {
    assert parts[..i + 1] == parts[..i] + [parts[i]];
    JoinAppend(parts[..i], [parts[i]]);
    JoinOne(parts[i]);
  }

  lemma Regroup(b: bytes, join: bytes, axis: bytes, scope: bytes)
    ensures b + join + axis + [EQUALS] + scope + [NUL] == b + (join + ((axis + [EQUALS] + scope) + [NUL]))
  {
  }

  /** The loop over the axes. */
  method WriteAxes(b0: bytes, scopes: map<bytes, bytes>, axes: seq<bytes>) returns (b: bytes)
    requires forall axis :: axis in axes ==> axis in scopes
    ensures b == b0 + Join(AxisParts(scopes, axes))
  {
    b := b0;
    var i := 0;
    ghost var parts := AxisParts(scopes, axes);
    while i < |axes|
      invariant 0 <= i <= |axes|
      invariant b == b0 + Join(parts[..i])
    {
      JoinNext(parts, i);
      Regroup(b0, Join(parts[..i]), axes[i], scopes[axes[i]]);
      b := b + axes[i] + [EQUALS] + scopes[axes[i]];
      b := b + [NUL];
      i := i + 1;
    }
    assert parts[..i] == parts;
  }

  /** The loop over the methods. */
  method WriteAll(b0: bytes, parts: seq<bytes>) returns (b: bytes)
    ensures b == b0 + Join(parts)
  {
    b := b0;
    var i := 0;
    while i < |parts|
      invariant 0 <= i <= |parts|
      invariant b == b0 + Join(parts[..i])
    {
      JoinNext(parts, i);
      b := b + parts[i];
      b := b + [NUL];
      i := i + 1;
    }
    assert parts[..i] == parts;
  }

  lemma JoinParts(subject: bytes, permission: bytes, a: seq<bytes>, m: seq<bytes>)
    ensures Join([subject, permission] + a + m) == subject + [NUL] + permission + [NUL] + Join(a) + Join(m)
  {
    JoinAppend([subject, permission] + a, m);
    JoinAppend([subject, permission], a);
    JoinAppend([subject], [permission]);
    JoinOne(subject);
    JoinOne(permission);
    assert [subject] + [permission] == [subject, permission];
  }

  /** cacheKey's builder. order is the order in which ranging over the scopes happened to go. */
  method CacheKey(q: Question, order: seq<bytes>) returns (b: bytes)
    requires multiset(order) == multiset(q.scopes.Keys)
    ensures b == Preimage(q)
  {
    SortIsAscending(order, q.scopes.Keys);
    AxesAreKeys(q.scopes);
    var axes := Sort(order);
    var methods := Sort(q.methods);
    b := q.subject;
    b := b + [NUL];
    b := b + q.permission;
    b := b + [NUL];
    b := WriteAxes(b, q.scopes, axes);
    b := WriteAll(b, methods);
    JoinParts(q.subject, q.permission, AxisParts(q.scopes, axes), methods);
    b := b + Decimals.Format(q.authTime);
  }

  // ---- when the preimage determines the question ----

  /** No NUL anywhere. */
  ghost predicate Clean(q: Question) {
    && NUL !in q.subject && NUL !in q.permission
    && (forall axis :: axis in q.scopes ==> NUL !in axis && NUL !in q.scopes[axis])
    && (forall m :: m in q.methods ==> NUL !in m)
  }

  /** The question uses no other axes and methods than these. */
  ghost predicate Uses(q: Question, axes: iset<bytes>, methods: iset<bytes>) {
    (forall axis :: axis in q.scopes ==> axis in axes) && (forall m :: m in q.methods ==> m in methods)
  }

  /** The same question: the order of the methods does not matter. */
  ghost predicate SameQuestion(q: Question, r: Question) {
    && q.subject == r.subject && q.permission == r.permission && q.scopes == r.scopes
    && multiset(q.methods) == multiset(r.methods) && q.authTime == r.authTime
  }

  /** A question without NUL over these names. */
  ghost predicate Asks(q: Question, axes: iset<bytes>, methods: iset<bytes>) {
    Clean(q) && Uses(q, axes, methods)
  }

  /** Equal preimages mean the same question, for all questions without NUL over these names. */
  ghost predicate Separates(axes: iset<bytes>, methods: iset<bytes>) {
    forall q, r :: Asks(q, axes, methods) && Asks(r, axes, methods) && Preimage(q) == Preimage(r) ==> SameQuestion(q, r)
  }

  /** The name goes on with a '=' where the axis ends. */
  predicate Begins(axis: bytes, name: bytes) {
    axis <= name && |axis| < |name| && name[|axis|] == EQUALS
  }

  /** No name begins with an axis and a '='. */
  ghost predicate Unambiguous(axes: iset<bytes>, methods: iset<bytes>) {
    forall axis, name :: axis in axes && (name in axes || name in methods) ==> !Begins(axis, name)
  }

  /** Where an octet first occurs; the length if it does not. */
  ghost function Find(s: bytes, c: byte): nat {
    if s == [] || s[0] == c then 0 else 1 + Find(s[1..], c)
  }

  lemma {:induction false} FindAfter(p: bytes, c: byte, a: bytes)
    requires c !in p
    ensures Find(p + [c] + a, c) == |p|
    decreases |p|
  {
    if p != [] {
      FindAfter(p[1..], c, a);
      assert (p + [c] + a)[1..] == p[1..] + [c] + a;
    }
  }

  /** The first separator ends the first part. */
  lemma FirstPart(p: bytes, q: bytes, c: byte, a: bytes, b: bytes)
    requires c !in p && c !in q && p + [c] + a == q + [c] + b
    ensures p == q && a == b
  {
    FindAfter(p, c, a);
    FindAfter(q, c, b);
    var s := p + [c] + a;
    assert p == s[..|p|] && q == s[..|p|];
    assert a == s[|p| + 1..] && b == s[|p| + 1..];
  }

  lemma JoinHasNul(p: seq<bytes>, a: bytes)
    requires NUL !in a
    ensures p != [] <==> NUL in Join(p) + a
    ensures p == [] ==> Join(p) + a == a
    ensures p != [] ==> Join(p) + a == p[0] + [NUL] + (Join(p[1..]) + a)
  {
    if p == [] {
      assert Join(p) + a == a;
    } else {
      assert Join(p) == p[0] + [NUL] + Join(p[1..]);
      assert Join(p) + a == p[0] + [NUL] + (Join(p[1..]) + a);
      assert (p[0] + [NUL] + (Join(p[1..]) + a))[|p[0]|] == NUL;
    }
  }

  lemma {:induction false} JoinDetermines(p: seq<bytes>, q: seq<bytes>, a: bytes, b: bytes)
    requires (forall i :: 0 <= i < |p| ==> NUL !in p[i]) && (forall i :: 0 <= i < |q| ==> NUL !in q[i])
    requires NUL !in a && NUL !in b && Join(p) + a == Join(q) + b
    ensures p == q && a == b
    decreases |p|
  {
    JoinHasNul(p, a);
    JoinHasNul(q, b);
    if p != [] {
      FirstPart(p[0], q[0], NUL, Join(p[1..]) + a, Join(q[1..]) + b);
      JoinDetermines(p[1..], q[1..], a, b);
      assert p == [p[0]] + p[1..] && q == [q[0]] + q[1..];
    }
  }

  /** A part that can be read as an axis and its node. */
  ghost predicate ReadsAsAxis(axes: iset<bytes>, part: bytes) {
    exists axis :: axis in axes && Begins(axis, part)
  }

  ghost function LeadingAxes(axes: iset<bytes>, s: seq<bytes>): nat {
    if s == [] || !ReadsAsAxis(axes, s[0]) then 0 else 1 + LeadingAxes(axes, s[1..])
  }

  lemma {:induction false} LeadingAre(axes: iset<bytes>, a: seq<bytes>, m: seq<bytes>)
    requires (forall i :: 0 <= i < |a| ==> ReadsAsAxis(axes, a[i])) && (forall i :: 0 <= i < |m| ==> !ReadsAsAxis(axes, m[i]))
    ensures LeadingAxes(axes, a + m) == |a|
    decreases |a|
  {
    if a == [] {
      assert a + m == m;
    } else {
      LeadingAre(axes, a[1..], m);
      assert (a + m)[1..] == a[1..] + m;
    }
  }

  /** Axis parts first, then methods: where the first kind stops is decided by the list. */
  lemma KindsDetermine(axes: iset<bytes>, a: seq<bytes>, m: seq<bytes>, a': seq<bytes>, m': seq<bytes>)
    requires a + m == a' + m'
    requires (forall i :: 0 <= i < |a| ==> ReadsAsAxis(axes, a[i])) && (forall i :: 0 <= i < |a'| ==> ReadsAsAxis(axes, a'[i]))
    requires (forall i :: 0 <= i < |m| ==> !ReadsAsAxis(axes, m[i])) && (forall i :: 0 <= i < |m'| ==> !ReadsAsAxis(axes, m'[i]))
    ensures a == a' && m == m'
  {
    LeadingAre(axes, a, m);
    LeadingAre(axes, a', m');
    var s := a + m;
    assert a == s[..|a|] && a' == s[..|a|] && m == s[|a|..] && m' == s[|a|..];
  }

  lemma PartsAreClean(q: Question)
    requires Clean(q)
    ensures forall i :: 0 <= i < |Parts(q)| ==> NUL !in Parts(q)[i]
    ensures NUL !in Decimals.Format(q.authTime)
  {
    Decimals.FormatIsPlain(q.authTime);
    AxesAreKeys(q.scopes);
    var m := Sort(q.methods);
    forall i | 0 <= i < |m| ensures NUL !in m[i] {
      SortedFrom(q.methods, i);
    }
    var axes := Ascending(q.scopes.Keys);
    var a := AxisParts(q.scopes, axes);
    forall i | 0 <= i < |a| ensures NUL !in a[i] {
      assert axes[i] in q.scopes;
    }
  }

  lemma SortedFrom(s: seq<bytes>, i: nat)
    requires i < |Sort(s)|
    ensures Sort(s)[i] in s
  {
    SortSorts(s);
    assert Sort(s)[i] in multiset(Sort(s));
  }

  ghost predicate Enumerates(order: seq<bytes>, scopes: map<bytes, bytes>, axes: iset<bytes>) {
    && (forall axis :: axis in order ==> axis in scopes)
    && (forall axis :: axis in scopes ==> axis in order && axis in axes)
  }

  /** A part names one axis, unless one of two begins with the other and a '='. */
  lemma AxisIsDetermined(a: bytes, x: bytes, b: bytes, y: bytes)
    requires a + [EQUALS] + x == b + [EQUALS] + y
    ensures (a == b && x == y) || Begins(a, b) || Begins(b, a)
  {
    var s := a + [EQUALS] + x;
    assert s[..|a|] == a && s[..|b|] == b && s[|a|] == EQUALS && s[|b|] == EQUALS;
    assert x == s[|a| + 1..] && y == s[|b| + 1..];
    assert |a| < |b| ==> s[..|a|] <= s[..|b|];
    assert |b| < |a| ==> s[..|b|] <= s[..|a|];
  }

  lemma AxesDetermine(s: map<bytes, bytes>, t: map<bytes, bytes>, a: seq<bytes>, b: seq<bytes>, axes: iset<bytes>, methods: iset<bytes>)
    requires Enumerates(a, s, axes) && Enumerates(b, t, axes) && AxisParts(s, a) == AxisParts(t, b) && Unambiguous(axes, methods)
    ensures s == t
  {
    assert |a| == |AxisParts(s, a)| == |AxisParts(t, b)| == |b|;
    forall i | 0 <= i < |a| ensures a[i] == b[i] && s[a[i]] == t[b[i]] {
      assert a[i] in axes && b[i] in axes;
      AxisIsDetermined(a[i], s[a[i]], b[i], t[b[i]]);
    }
    assert a == b;
    forall axis | axis in s ensures axis in t && s[axis] == t[axis] {
      var i :| 0 <= i < |a| && a[i] == axis;
    }
    assert s.Keys == t.Keys;
  }

  lemma AxisPartsRead(scopes: map<bytes, bytes>, order: seq<bytes>, axes: iset<bytes>)
    requires Enumerates(order, scopes, axes)
    ensures forall i :: 0 <= i < |order| ==> ReadsAsAxis(axes, AxisParts(scopes, order)[i])
  {
    forall i | 0 <= i < |order| ensures ReadsAsAxis(axes, AxisParts(scopes, order)[i]) {
      assert order[i] in scopes;
      assert Begins(order[i], AxisParts(scopes, order)[i]);
    }
  }

  lemma PartsDetermine(q: Question, r: Question, a: seq<bytes>, b: seq<bytes>, m: seq<bytes>, n: seq<bytes>,
                       axes: iset<bytes>, methods: iset<bytes>)
    requires Enumerates(a, q.scopes, axes) && Enumerates(b, r.scopes, axes) && Unambiguous(axes, methods)
    requires (forall i :: 0 <= i < |m| ==> m[i] in methods) && (forall i :: 0 <= i < |n| ==> n[i] in methods)
    requires [q.subject, q.permission] + AxisParts(q.scopes, a) + m == [r.subject, r.permission] + AxisParts(r.scopes, b) + n
    ensures q.subject == r.subject && q.permission == r.permission && q.scopes == r.scopes && m == n
  {
    var a', b' := AxisParts(q.scopes, a), AxisParts(r.scopes, b);
    TwoInFront(q.subject, q.permission, a', m, r.subject, r.permission, b', n);
    AxisPartsRead(q.scopes, a, axes);
    AxisPartsRead(r.scopes, b, axes);
    KindsDetermine(axes, a', m, b', n);
    AxesDetermine(q.scopes, r.scopes, a, b, axes, methods);
  }

  lemma TwoInFront(x: bytes, y: bytes, a: seq<bytes>, m: seq<bytes>, x': bytes, y': bytes, b: seq<bytes>, n: seq<bytes>)
    requires [x, y] + a + m == [x', y'] + b + n
    ensures x == x' && y == y' && a + m == b + n
  {
    var s, t := [x, y] + a + m, [x', y'] + b + n;
    assert s[0] == x && s[1] == y && s[2..] == a + m;
    assert t[0] == x' && t[1] == y' && t[2..] == b + n;
  }

  /** The order of the methods, and of the map, never changes the preimage. */
  lemma SamePreimage(q: Question, r: Question)
    requires SameQuestion(q, r)
    ensures Preimage(q) == Preimage(r)
  {
    SortSorts(q.methods);
    SortSorts(r.methods);
    SortedIsUnique(Sort(q.methods), Sort(r.methods));
  }

  lemma UnambiguousDetermines(q: Question, r: Question, axes: iset<bytes>, methods: iset<bytes>)
    requires Asks(q, axes, methods) && Asks(r, axes, methods) && Unambiguous(axes, methods)
    requires Preimage(q) == Preimage(r)
    ensures SameQuestion(q, r)
  {
    AxesAreKeys(q.scopes);
    AxesAreKeys(r.scopes);
    SortSorts(q.methods);
    SortSorts(r.methods);
    PartsAreClean(q);
    PartsAreClean(r);
    JoinDetermines(Parts(q), Parts(r), Decimals.Format(q.authTime), Decimals.Format(r.authTime));
    Decimals.FormatInjective(q.authTime, r.authTime);
    forall i | 0 <= i < |Sort(q.methods)| ensures Sort(q.methods)[i] in methods { SortedFrom(q.methods, i); }
    forall i | 0 <= i < |Sort(r.methods)| ensures Sort(r.methods)[i] in methods { SortedFrom(r.methods, i); }
    PartsDetermine(q, r, Ascending(q.scopes.Keys), Ascending(r.scopes.Keys), Sort(q.methods), Sort(r.methods), axes, methods);
  }

  /** A method that begins like an axis is taken for one. */
  lemma MethodCollides(subject: bytes, permission: bytes, axis: bytes, node: bytes, authTime: int)
    ensures
      var q := Question(subject, permission, map[axis := node], [], authTime);
      var r := Question(subject, permission, map[], [axis + [EQUALS] + node], authTime);
      Preimage(q) == Preimage(r) && !SameQuestion(q, r)
  {
    var q := Question(subject, permission, map[axis := node], [], authTime);
    var r := Question(subject, permission, map[], [axis + [EQUALS] + node], authTime);
    OneAxis(q, axis);
    AxesAreKeys(r.scopes);
    assert Ascending(r.scopes.Keys) == [] && AxisParts(r.scopes, []) == [];
    assert Sort(r.methods) == [axis + [EQUALS] + node] by { assert r.methods[1..] == []; }
    assert Parts(r) == [subject, permission] + [] + [axis + [EQUALS] + node];
    assert Parts(q) == Parts(r);
    assert axis in q.scopes && axis !in r.scopes;
  }

  /** An axis that begins like another is taken for that one and a longer node. */
  lemma AxisCollides(subject: bytes, permission: bytes, axis: bytes, rest: bytes, node: bytes, authTime: int)
    ensures
      var q := Question(subject, permission, map[axis := rest + [EQUALS] + node], [], authTime);
      var r := Question(subject, permission, map[axis + [EQUALS] + rest := node], [], authTime);
      Preimage(q) == Preimage(r) && !SameQuestion(q, r)
  {
    var longer := axis + [EQUALS] + rest;
    var q := Question(subject, permission, map[axis := rest + [EQUALS] + node], [], authTime);
    var r := Question(subject, permission, map[longer := node], [], authTime);
    OneAxis(q, axis);
    OneAxis(r, longer);
    assert axis + [EQUALS] + (rest + [EQUALS] + node) == longer + [EQUALS] + node;
    assert axis in q.scopes && |longer| > |axis|;
    assert axis !in r.scopes;
  }

  lemma OneAxis(q: Question, axis: bytes)
    requires q.scopes.Keys == {axis} && q.methods == []
    ensures Parts(q) == [q.subject, q.permission] + [axis + [EQUALS] + q.scopes[axis]] + []
  {
    AxesAreKeys(q.scopes);
    assert Ascending({axis}) == [axis] by { assert {axis} - {axis} == {}; }
    assert AxisParts(q.scopes, [axis]) == [axis + [EQUALS] + q.scopes[axis]];
  }

  /**
   Exactly when the key separates questions: over names without NUL, the preimage determines the question,
   for every NUL-free question that uses them, if and only if no axis and no method begins with an axis and
   a '='.
  */
  lemma SeparatesIff(axes: iset<bytes>, methods: iset<bytes>)
    requires forall name :: name in axes || name in methods ==> NUL !in name
    ensures Separates(axes, methods) <==> Unambiguous(axes, methods)
  {
    if Unambiguous(axes, methods) {
      forall q, r | Asks(q, axes, methods) && Asks(r, axes, methods) && Preimage(q) == Preimage(r) ensures SameQuestion(q, r)
      {
        UnambiguousDetermines(q, r, axes, methods);
      }
    } else {
      var axis, name :| axis in axes && (name in axes || name in methods) && Begins(axis, name);
      AmbiguityCollides(axes, methods, axis, name);
    }
  }

  lemma AmbiguityCollides(axes: iset<bytes>, methods: iset<bytes>, axis: bytes, name: bytes)
    requires axis in axes && (name in axes || name in methods) && Begins(axis, name) && NUL !in axis && NUL !in name
    ensures !Separates(axes, methods)
  {
    var rest := name[|axis| + 1..];
    assert name == axis + [EQUALS] + rest;
    assert NUL !in rest;
    if name in methods {
      MethodAmbiguity(axes, methods, axis, rest);
    } else {
      AxisAmbiguity(axes, methods, axis, rest);
    }
  }

  lemma MethodAmbiguity(axes: iset<bytes>, methods: iset<bytes>, axis: bytes, rest: bytes)
    requires axis in axes && axis + [EQUALS] + rest in methods && NUL !in axis && NUL !in rest
    ensures !Separates(axes, methods)
  {
    var q, r := Question([], [], map[axis := rest], [], 0), Question([], [], map[], [axis + [EQUALS] + rest], 0);
    MethodCollides([], [], axis, rest, 0);
    assert Asks(q, axes, methods) && Asks(r, axes, methods);
  }

  lemma AxisAmbiguity(axes: iset<bytes>, methods: iset<bytes>, axis: bytes, rest: bytes)
    requires axis in axes && axis + [EQUALS] + rest in axes && NUL !in axis && NUL !in rest
    ensures !Separates(axes, methods)
  {
    var q := Question([], [], map[axis := rest + [EQUALS] + []], [], 0);
    var r := Question([], [], map[axis + [EQUALS] + rest := []], [], 0);
    AxisCollides([], [], axis, rest, [], 0);
    assert Asks(q, axes, methods) && Asks(r, axes, methods);
  }

  /** Nor does the key separate questions with a NUL in them. */
  lemma NulCollides(a: bytes, b: bytes, c: bytes, authTime: int)
    ensures
      var q := Question(a + [NUL] + b, c, map[], [], authTime);
      var r := Question(a, b + [NUL] + c, map[], [], authTime);
      Preimage(q) == Preimage(r) && !SameQuestion(q, r)
  {
    var q := Question(a + [NUL] + b, c, map[], [], authTime);
    var r := Question(a, b + [NUL] + c, map[], [], authTime);
    AxesAreKeys(q.scopes);
    assert Parts(q) == [q.subject, q.permission] && Parts(r) == [r.subject, r.permission];
    JoinParts(q.subject, q.permission, [], []);
    JoinParts(r.subject, r.permission, [], []);
    assert [q.subject, q.permission] + [] + [] == Parts(q) && [r.subject, r.permission] + [] + [] == Parts(r);
    assert Join(Parts(q)) == Join(Parts(r));
    assert |q.subject| > |a|;
  }
}
