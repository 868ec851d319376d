/** Go's string order, and sorting by it. */
module Orders {
  import opened Basics

  /** a < b, octet by octet. */
  predicate Less(a: bytes, b: bytes) {
    if b == [] then false
    else if a == [] then true
    else a[0] < b[0] || (a[0] == b[0] && Less(a[1..], b[1..]))
  }

  lemma {:induction false} LessIsTotal(a: bytes, b: bytes)
    ensures a == b || Less(a, b) || Less(b, a)
    ensures !(Less(a, b) && Less(b, a))
    ensures Less(a, b) ==> a != b
    decreases |a|
  {
    if a != [] && b != [] {
      LessIsTotal(a[1..], b[1..]);
      if a[0] == b[0] && a[1..] == b[1..] {
        assert a == [a[0]] + a[1..] && b == [b[0]] + b[1..];
      }
    }
  }

  /** They agree up to a place where the first ends, or has the smaller octet. */
  ghost predicate PartsAt(a: bytes, b: bytes, k: nat) {
    k <= |a| && k < |b| && a[..k] == b[..k] && (k == |a| || a[k] < b[k])
  }

  /** The order is the one of Go's strings. */
  lemma {:induction false} LessIff(a: bytes, b: bytes)
    ensures Less(a, b) <==> exists k: nat :: PartsAt(a, b, k)
    decreases |a|
  {
    if b != [] && (a == [] || a[0] < b[0]) { assert PartsAt(a, b, 0); }
    if a != [] && b != [] {
      LessIff(a[1..], b[1..]);
      if k: nat :| PartsAt(a, b, k) {
        if k > 0 {
          assert a[..k][0] == b[..k][0] && a[..k][1..] == b[..k][1..];
          assert a[1..][..k - 1] == a[..k][1..] && b[1..][..k - 1] == b[..k][1..];
          assert PartsAt(a[1..], b[1..], k - 1);
        }
      }
      if k: nat :| PartsAt(a[1..], b[1..], k) {
        if a[0] == b[0] {
          assert a[..k + 1] == [a[0]] + a[1..][..k] && b[..k + 1] == [b[0]] + b[1..][..k];
          assert PartsAt(a, b, k + 1);
        }
      }
    }
  }

  lemma {:induction false} LessIsTransitive(a: bytes, b: bytes, c: bytes)
    requires Less(a, b) && Less(b, c)
    ensures Less(a, c)
    decreases |a|
  {
    if a != [] && a[0] == b[0] && b[0] == c[0] {
      LessIsTransitive(a[1..], b[1..], c[1..]);
    }
  }

  /** No element is below an earlier one. */
  ghost predicate Sorted(s: seq<bytes>) {
    forall i, j :: 0 <= i < j < |s| ==> !Less(s[j], s[i])
  }

  function Insert(x: bytes, s: seq<bytes>): seq<bytes> {
    if s == [] || !Less(s[0], x) then [x] + s else [s[0]] + Insert(x, s[1..])
  }

  /** sort.Strings, as a function. */
  function Sort(s: seq<bytes>): seq<bytes> {
    if s == [] then [] else Insert(s[0], Sort(s[1..]))
  }

  /** A least element goes in front. */
  lemma ConsSorted(x: bytes, s: seq<bytes>)
    requires Sorted(s) && forall y :: y in s ==> !Less(y, x)
    ensures Sorted([x] + s)
  {
    var t := [x] + s;
    forall i, j | 0 <= i < j < |t| ensures !Less(t[j], t[i]) {
      assert t[j] == s[j - 1];
      if i > 0 { assert t[i] == s[i - 1]; }
    }
  }

  lemma NoneBelow(x: bytes, s: seq<bytes>)
    requires Sorted(s) && s != [] && !Less(s[0], x)
    ensures forall y :: y in s ==> !Less(y, x)
  {
    forall j | 0 <= j < |s| ensures !Less(s[j], x) {
      LessIsTotal(x, s[0]);
      LessIsTotal(s[0], s[j]);
      if Less(s[j], x) && x != s[0] { LessIsTransitive(s[j], x, s[0]); }
    }
  }

  lemma {:induction false} InsertKeeps(x: bytes, s: seq<bytes>)
    requires Sorted(s)
    ensures Sorted(Insert(x, s)) && multiset(Insert(x, s)) == multiset(s) + multiset{x}
    decreases |s|
  {
    if s == [] {
    } else if !Less(s[0], x) {
      NoneBelow(x, s);
      ConsSorted(x, s);
    } else {
      var r := Insert(x, s[1..]);
      InsertKeeps(x, s[1..]);
      assert s == [s[0]] + s[1..];
      forall y | y in r ensures !Less(y, s[0]) {
        assert y in multiset(r);
        LessIsTotal(x, s[0]);
        assert y == x || y in s[1..];
      }
      ConsSorted(s[0], r);
    }
  }

  lemma {:induction false} SortSorts(s: seq<bytes>)
    ensures Sorted(Sort(s)) && multiset(Sort(s)) == multiset(s) && |Sort(s)| == |s|
    decreases |s|
  {
    if s != [] {
      SortSorts(s[1..]);
      InsertKeeps(s[0], Sort(s[1..]));
      assert s == [s[0]] + s[1..];
      assert |multiset(Sort(s))| == |multiset(s)|;
    }
  }

  lemma {:induction false} SameLeast(s: seq<bytes>, t: seq<bytes>)
    requires Sorted(s) && Sorted(t) && s != [] && t != [] && multiset(s) == multiset(t)
    ensures s[0] == t[0]
  {
    assert s[0] in multiset(t) && t[0] in multiset(s);
    var i :| 0 <= i < |t| && t[i] == s[0];
    var j :| 0 <= j < |s| && s[j] == t[0];
    LessIsTotal(s[0], t[0]);
  }

  lemma {:induction false} SameRest(s: seq<bytes>, t: seq<bytes>)
    requires s != [] && t != [] && s[0] == t[0] && multiset(s) == multiset(t)
    ensures multiset(s[1..]) == multiset(t[1..])
  {
    assert s == [s[0]] + s[1..] && t == [t[0]] + t[1..];
    assert multiset(s[1..]) == multiset(s) - multiset{s[0]};
    assert multiset(t[1..]) == multiset(t) - multiset{t[0]};
  }

  /** A sorted order is determined by what is in it. */
  lemma {:induction false} SortedIsUnique(s: seq<bytes>, t: seq<bytes>)
    requires Sorted(s) && Sorted(t) && multiset(s) == multiset(t)
    ensures s == t
    decreases |s|
  {
    assert |s| == |multiset(s)| == |multiset(t)| == |t|;
    if s != [] {
      SameLeast(s, t);
      SameRest(s, t);
      SortedIsUnique(s[1..], t[1..]);
      assert s == [s[0]] + s[1..] && t == [t[0]] + t[1..];
    }
  }

  /** The least of a set of strings. */
  ghost function Least(s: set<bytes>): (m: bytes)
    requires s != {}
    ensures m in s && forall x :: x in s ==> !Less(x, m)
    decreases s
  {
    var x :| x in s;
    if s == {x} then
      LessIsTotal(x, x);
      x
    else
      var rest := s - {x};
      assert s == rest + {x};
      var m := Least(rest);
      LessIsTotal(x, m);
      if Less(x, m) then
        assert forall y :: y in rest ==> !Less(y, x) by {
          forall y | y in rest ensures !Less(y, x) {
            LessIsTotal(y, x);
            if Less(y, x) { LessIsTransitive(y, x, m); }
          }
        }
        LessIsTotal(x, x);
        x
      else m
  }

  /** The elements of a set in order. */
  ghost function Ascending(s: set<bytes>): (r: seq<bytes>)
    ensures multiset(r) == multiset(s) && |r| == |s|
    decreases s
  {
    if s == {} then [] else
      assert s == (s - {Least(s)}) + {Least(s)};
      [Least(s)] + Ascending(s - {Least(s)})
  }

  lemma {:induction false} AscendingIsSorted(s: set<bytes>)
    ensures Sorted(Ascending(s))
    decreases s
  {
    if s != {} {
      var m := Least(s);
      var rest := Ascending(s - {m});
      AscendingIsSorted(s - {m});
      assert Ascending(s) == [m] + rest;
      forall j | 0 <= j < |rest| ensures !Less(rest[j], m) {
        assert rest[j] in multiset(rest);
        assert rest[j] in s;
      }
    }
  }

  /** Sorting any enumeration of a set gives its elements in order. */
  lemma SortIsAscending(order: seq<bytes>, s: set<bytes>)
    requires multiset(order) == multiset(s)
    ensures Sort(order) == Ascending(s)
  {
    SortSorts(order);
    AscendingIsSorted(s);
    SortedIsUnique(Sort(order), Ascending(s));
  }

  // ---- listings ----

  ghost predicate Strict(s: seq<bytes>) {
    forall i, j :: 0 <= i < j < |s| ==> Less(s[i], s[j])
  }

  /** a holds the elements of s in order. */
  ghost predicate Lists(a: seq<bytes>, s: set<bytes>) {
    Strict(a) && forall x :: x in a <==> x in s
  }

  lemma TailLists(a: seq<bytes>, s: set<bytes>)
    requires Lists(a, s) && a != []
    ensures Lists(a[1..], s - {a[0]})
  {
    assert a == [a[0]] + a[1..];
    LessIsTotal(a[0], a[0]);
    forall x | x in a[1..] ensures x != a[0] {
      var i :| 0 <= i < |a[1..]| && a[1..][i] == x;
      assert Less(a[0], a[i + 1]);
    }
  }

  lemma EmptyListing(a: seq<bytes>, s: set<bytes>)
    requires Lists(a, s)
    ensures a == [] <==> s == {}
  {
    if a != [] { assert a[0] in s; }
    if s != {} { var x :| x in s; assert x in a; }
  }

  /** A set has one listing, as long as the set is large. */
  lemma {:induction false} ListingIsUnique(a: seq<bytes>, b: seq<bytes>, s: set<bytes>)
    requires Lists(a, s) && Lists(b, s)
    ensures a == b && |a| == |s|
    decreases |a|
  {
    EmptyListing(a, s);
    EmptyListing(b, s);
    if a != [] {
      assert a[0] in b && b[0] in a;
      LessIsTotal(a[0], b[0]);
      assert a[0] == b[0];
      TailLists(a, s);
      TailLists(b, s);
      ListingIsUnique(a[1..], b[1..], s - {a[0]});
    }
  }

  lemma CountedTwice(a: seq<bytes>, i: nat, j: nat)
    requires i < j < |a| && a[i] == a[j]
    ensures multiset(a)[a[i]] >= 2
  {
    assert a == a[..j] + a[j..] && a[..j][i] == a[i] && a[j..][0] == a[j];
    assert multiset(a) == multiset(a[..j]) + multiset(a[j..]);
  }

  lemma SortLists(order: seq<bytes>, s: set<bytes>)
    requires multiset(order) == multiset(s)
    ensures Lists(Sort(order), s)
  {
    SortSorts(order);
    var a := Sort(order);
    forall x ensures x in a <==> x in s {
      assert x in a <==> x in multiset(a);
    }
    forall i, j | 0 <= i < j < |a| ensures Less(a[i], a[j]) {
      if a[i] == a[j] { CountedTwice(a, i, j); }
      LessIsTotal(a[i], a[j]);
    }
  }

  lemma AscendingLists(s: set<bytes>)
    ensures Lists(Ascending(s), s)
  {
    AscendingIsSorted(s);
    var a := Ascending(s);
    forall x ensures x in a <==> x in s {
      assert x in a <==> x in multiset(a);
    }
    forall i, j | 0 <= i < j < |a| ensures Less(a[i], a[j]) {
      if a[i] == a[j] { CountedTwice(a, i, j); }
      LessIsTotal(a[i], a[j]);
    }
  }
}
