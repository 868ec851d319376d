/**
 Keyset paging: the server's listing (anubistest/provision.go:296-348) and the client's walk over it
 (admin/provision.go:355-383). Rows come and go between two calls; a row is named by its slug.
*/
module Paging {
  import opened Basics
  import opened Orders

  datatype Page<Row> = Page(rows: seq<Row>, next: bytes)

  datatype Walk<Row> = Listed(all: seq<Row>) | Failed | TooMany | Repeated

  const MAX_APPLICATIONS := 10_000

  type Positive = n: int | n > 0 witness 1

  /** Both listings take the smaller of the server's page and the caller's. */
  function Size(configured: int, asked: int): Positive {
    var size := if configured < 1 then 50 else configured;
    if 0 < asked < size then asked else size
  }

  predicate Contains(s: bytes, sub: bytes) {
    exists i :: 0 <= i <= |s| - |sub| && sub <= s[i..]
  }

  predicate Selects(query: bytes, slug: bytes, name: bytes) {
    query == [] || Contains(slug, query) || Contains(name, query)
  }

  /** sub stands somewhere in s. */
  ghost predicate Stands(s: bytes, sub: bytes) {
    exists before, after :: s == before + sub + after
  }

  lemma ContainsIff(s: bytes, sub: bytes)
    ensures Contains(s, sub) <==> Stands(s, sub)
  {
    if Contains(s, sub) {
      var i :| 0 <= i <= |s| - |sub| && sub <= s[i..];
      assert s == s[..i] + sub + s[i..][|sub|..];
    }
    forall before, after | s == before + sub + after ensures Contains(s, sub) {
      assert s[|before|..] == sub + after;
      assert sub <= s[|before|..];
    }
  }

  /** A query finds exactly the rows that have it somewhere in their slug or their name; the empty one finds all. */
  lemma MatchingIff(applications: map<bytes, bytes>, query: bytes, slug: bytes)
    ensures slug in Matching(applications, query) <==>
              slug in applications && (Stands(slug, query) || Stands(applications[slug], query))
  {
    if slug in applications {
      ContainsIff(slug, query);
      ContainsIff(applications[slug], query);
      assert query == [] ==> slug == [] + query + slug;
    }
  }

  /** A page has as many rows as were asked for, but no more than the server's page, which is fifty unless configured. */
  lemma SizeIs(configured: int, asked: int)
    ensures var own := if configured >= 1 then configured else 50;
            && Size(configured, asked) in {asked, own} && Size(configured, asked) <= own
            && (if asked >= 1 then Size(configured, asked) <= asked else Size(configured, asked) == own)
  {
  }

  /** The slugs a query selects, of a table from slugs to names. */
  function Matching(applications: map<bytes, bytes>, query: bytes): set<bytes> {
    set slug | slug in applications && Selects(query, slug, applications[slug])
  }

  predicate IsAbove(slug: bytes, token: bytes) {
    token == [] || Less(token, slug)
  }

  ghost function Above(slugs: set<bytes>, token: bytes): set<bytes> {
    set slug | slug in slugs && IsAbove(slug, token)
  }

  /** Where the rows above a token begin. */
  lemma SuffixIsAbove(a: seq<bytes>, slugs: set<bytes>, token: bytes, n: int)
    requires Lists(a, slugs) && 0 <= n <= |a|
    requires forall i :: 0 <= i < |a| ==> (IsAbove(a[i], token) <==> n <= i)
    ensures Lists(a[n..], Above(slugs, token))
  {
    var rest := a[n..];
    forall x ensures x in rest <==> x in Above(slugs, token) {
      if x in Above(slugs, token) {
        assert x in a;
        var i :| 0 <= i < |a| && a[i] == x;
        assert rest[i - n] == x;
      }
      if x in rest {
        var i :| 0 <= i < |rest| && rest[i] == x;
        assert a[n + i] == x;
      }
    }
  }

  // ---- one page ----

  /** One call: the slugs its query selects, the page size and token it was asked with, and the listing of
      the slugs above that token. */
  datatype Call = Call(slugs: set<bytes>, size: Positive, token: bytes, rest: seq<bytes>)

  ghost predicate Fits(c: Call) {
    Lists(c.rest, Above(c.slugs, c.token))
  }

  /** What one page means: the first rows above the token, and the last of them if there are more. */
  function PageFrom(rest: seq<bytes>, size: Positive): Page<bytes> {
    if |rest| <= size then Page(rest, []) else Page(rest[..size], rest[size - 1])
  }

  function Answer(c: Call): Page<bytes> {
    PageFrom(c.rest, c.size)
  }

  /** A page is determined by the table, the size and the token. */
  lemma PageIsDetermined(c: Call, d: Call)
    requires Fits(c) && Fits(d) && c.slugs == d.slugs && c.size == d.size && c.token == d.token
    ensures Answer(c) == Answer(d)
  {
    ListingIsUnique(c.rest, d.rest, Above(c.slugs, c.token));
  }

  /** sort.SearchStrings: the first place whose string is not below x. */
  function Search(s: seq<bytes>, x: bytes): (n: nat)
    ensures n <= |s| && (forall i :: 0 <= i < n ==> Less(s[i], x)) && (n < |s| ==> !Less(s[n], x))
  {
    if s == [] || !Less(s[0], x) then 0 else 1 + Search(s[1..], x)
  }

  function Start(sorted: seq<bytes>, token: bytes): (n: nat)
    ensures n <= |sorted|
  {
    if token == [] then 0
    else
      var at := Search(sorted, token);
      if at < |sorted| && sorted[at] == token then at + 1 else at
  }

  lemma StartIsAbove(a: seq<bytes>, slugs: set<bytes>, token: bytes)
    requires Lists(a, slugs)
    ensures Lists(a[Start(a, token)..], Above(slugs, token))
  {
    var n := Start(a, token);
    if token != [] {
      var at := Search(a, token);
      forall i | 0 <= i < |a| ensures IsAbove(a[i], token) <==> n <= i {
        LessIsTotal(a[i], token);
        if at < i {
          LessIsTotal(a[at], token);
          assert Less(a[at], a[i]);
          if a[at] != token { LessIsTransitive(token, a[at], a[i]); }
        }
      }
    }
    SuffixIsAbove(a, slugs, token, n);
  }

  /** The map's rows come in any order. */
  method Select(applications: map<bytes, bytes>, query: bytes) returns (slugs: seq<bytes>)
    ensures multiset(slugs) == multiset(Matching(applications, query))
  {
    slugs := [];
    var left := applications.Keys;
    ghost var done: set<bytes> := {};
    while left != {}
      invariant left <= applications.Keys && left !! done
      invariant forall slug :: slug in done <==> slug in applications && slug !in left && Selects(query, slug, applications[slug])
      invariant multiset(slugs) == multiset(done)
      decreases left
    {
      ghost var some := Member(left);
      var slug :| slug in left;
      left := left - {slug};
      if query == [] || Contains(slug, query) || Contains(applications[slug], query) {
        slugs := slugs + [slug];
        done := done + {slug};
      }
    }
    assert done == Matching(applications, query);
  }

  method SortedSlugs(applications: map<bytes, bytes>, query: bytes) returns (slugs: seq<bytes>)
    ensures Lists(slugs, Matching(applications, query)) && |slugs| == |Matching(applications, query)|
  {
    slugs := Select(applications, query);
    SortLists(slugs, Matching(applications, query));
    slugs := Sort(slugs);
    ListingIsUnique(slugs, slugs, Matching(applications, query));
  }

  /** The slice of a sorted listing that one page is. */
  method Slice(slugs: seq<bytes>, size: Positive, token: bytes) returns (page: Page<bytes>)
    ensures page == PageFrom(slugs[Start(slugs, token)..], size)
  {
    var start := 0;
    if token != [] {
      start := Search(slugs, token);
      if start < |slugs| && slugs[start] == token {
        start := start + 1;
      }
    }
    var end := start + size;
    if end > |slugs| {
      end := |slugs|;
    }
    assert slugs[start..end] == slugs[start..][..end - start];
    page := Page(slugs[start..end], if end < |slugs| then slugs[end - 1] else []);
  }

  method ListApplications(applications: map<bytes, bytes>, applicationPage: int, query: bytes, pageSize: int, token: bytes)
    returns (page: Page<bytes>, total: nat, ghost call: Call)
    ensures call == Call(Matching(applications, query), Size(applicationPage, pageSize), token, call.rest) && Fits(call)
    ensures page == Answer(call)
    ensures total == |Matching(applications, query)|
  {
    var slugs := SortedSlugs(applications, query);
    total := |slugs|;
    StartIsAbove(slugs, Matching(applications, query), token);
    call := Call(Matching(applications, query), Size(applicationPage, pageSize), token, slugs[Start(slugs, token)..]);
    page := Slice(slugs, Size(applicationPage, pageSize), token);
  }

  // ---- a walk, as the calls it makes ----

  function Last(calls: seq<Call>): Call
    requires calls != []
  {
    calls[|calls| - 1]
  }

  function Before(calls: seq<Call>): seq<Call>
    requires calls != []
  {
    calls[..|calls| - 1]
  }

  /** Successive calls, the first with the token given, each other with the one its predecessor was
      answered with. */
  ghost predicate Chain(first: bytes, calls: seq<Call>) {
    calls != [] ==>
      && Chain(first, Before(calls))
      && Fits(Last(calls))
      && Follows(first, Before(calls), Last(calls).token)
  }

  ghost predicate Follows(first: bytes, calls: seq<Call>, token: bytes) {
    if calls == [] then token == first else token == Answer(Last(calls)).next != []
  }

  function All(calls: seq<Call>): seq<bytes> {
    if calls == [] then [] else All(Before(calls)) + Answer(Last(calls)).rows
  }

  /** token is not below any of a. */
  ghost predicate UpTo(a: seq<bytes>, token: bytes) {
    forall x :: x in a ==> x == token || Less(x, token)
  }

  /** A page's rows rise from above its token to the next one. */
  lemma PageRises(c: Call)
    requires Fits(c)
    ensures
      var page := Answer(c);
      && Strict(page.rows) && (forall x :: x in page.rows ==> x in c.slugs && IsAbove(x, c.token))
      && (page.next != [] ==> page.next in page.rows && UpTo(page.rows, page.next))
  {
    var page := Answer(c);
    forall x | x in page.rows ensures x in Above(c.slugs, c.token) {
      assert x in c.rest;
    }
    if |c.rest| > c.size {
      forall x | x in page.rows ensures x == page.next || Less(x, page.next) {
        var i :| 0 <= i < |page.rows| && page.rows[i] == x;
        if i < c.size - 1 { assert Less(c.rest[i], c.rest[c.size - 1]); }
      }
    }
  }

  lemma RisingJoin(a: seq<bytes>, token: bytes, b: seq<bytes>)
    requires Strict(a) && Strict(b)
    requires a != [] ==> UpTo(a, token) && forall y :: y in b ==> Less(token, y)
    ensures Strict(a + b)
    ensures forall t :: t in b && UpTo(b, t) ==> UpTo(a + b, t)
  {
    forall x, y | x in a && y in b ensures Less(x, y) {
      if x != token { LessIsTransitive(x, token, y); }
    }
    forall i, j | 0 <= i < j < |a + b| ensures Less((a + b)[i], (a + b)[j]) {
      if i < |a| && |a| <= j {
        assert a[i] in a && b[j - |a|] in b;
      }
    }
  }

  /** A walk's rows rise, and none is above the token it has reached. */
  lemma {:induction false} WalkRises(first: bytes, calls: seq<Call>)
    requires Chain(first, calls)
    ensures Strict(All(calls))
    ensures calls != [] && Answer(Last(calls)).next != [] ==> UpTo(All(calls), Answer(Last(calls)).next)
    decreases |calls|
  {
    if calls != [] {
      WalkRises(first, Before(calls));
      PageRises(Last(calls));
      RisingJoin(All(Before(calls)), Last(calls).token, Answer(Last(calls)).rows);
    }
  }

  /** Whatever a walk returns, one of its calls showed. */
  lemma {:induction false} RowsWereThere(first: bytes, calls: seq<Call>, x: bytes) returns (i: nat)
    requires Chain(first, calls) && x in All(calls)
    ensures i < |calls| && x in calls[i].slugs
    decreases |calls|
  {
    if x in Answer(Last(calls)).rows {
      i := |calls| - 1;
      PageRises(Last(calls));
    } else {
      i := RowsWereThere(first, Before(calls), x);
    }
  }

  /** A token in hand has not been handed out before. */
  lemma TokenIsNew(first: bytes, calls: seq<Call>)
    requires Chain(first, calls) && calls != [] && Answer(Last(calls)).next != []
    ensures Answer(Last(calls)).next in Answer(Last(calls)).rows
    ensures Answer(Last(calls)).next !in All(Before(calls))
  {
    var next := Answer(Last(calls)).next;
    PageRises(Last(calls));
    WalkRises(first, Before(calls));
    if next in All(Before(calls)) {
      LessIsTotal(next, Last(calls).token);
    }
  }

  /** A page of one row whose slug is empty names no next page, though more rows follow. */
  ghost predicate CutShort(slugs: set<bytes>, size: int, first: bytes) {
    first == [] && [] in slugs && size == 1 && slugs != {[]}
  }

  /** The empty slug comes first. */
  lemma EmptySlugIsFirst(a: seq<bytes>, slugs: set<bytes>, i: nat)
    requires Lists(a, slugs) && i < |a| && a[i] == []
    ensures i == 0 && (|a| == 1 <==> slugs == {[]})
  {
    NothingBelowEmpty(a, i);
    if |a| == 1 {
      forall x | x in slugs ensures x == [] { assert x in a; }
    } else {
      var x := a[1];
      assert x in slugs && Less(a[0], x);
    }
  }

  lemma NothingBelowEmpty(a: seq<bytes>, i: nat)
    requires Strict(a) && i < |a| && a[i] == []
    ensures i == 0
  {
    var x := a[0];
    assert 0 < i ==> Less(x, a[i]);
  }

  /** A page names no next one exactly when it reaches the end, unless it is cut short. */
  lemma LastPageIffComplete(c: Call)
    requires Fits(c)
    ensures if CutShort(c.slugs, c.size, c.token) then Answer(c) == Page([[]], [])
            else Answer(c).next == [] <==> |c.rest| <= c.size
  {
    var above := Above(c.slugs, c.token);
    if CutShort(c.slugs, c.size, c.token) {
      assert above == c.slugs && [] in c.rest;
      var i :| 0 <= i < |c.rest| && c.rest[i] == [];
      EmptySlugIsFirst(c.rest, above, i);
    }
    if |c.rest| > c.size && c.rest[c.size - 1] == [] {
      EmptySlugIsFirst(c.rest, above, c.size - 1);
      assert [] in c.rest;
      assert c.token == [];
      assert above == c.slugs;
      assert CutShort(c.slugs, c.size, c.token);
    }
  }

  lemma PageReaches(c: Call, x: bytes)
    requires Fits(c) && x in c.slugs && IsAbove(x, c.token)
    ensures x in Answer(c).rows || (|c.rest| > c.size && Less(Answer(c).next, x))
  {
    assert x in c.rest;
    var i :| 0 <= i < |c.rest| && c.rest[i] == x;
    if i < |Answer(c).rows| {
      assert Answer(c).rows[i] == x;
    } else {
      assert Less(c.rest[c.size - 1], c.rest[i]);
    }
  }

  /** A row that is there at every call is passed by only when it has been returned. */
  lemma {:induction false} WalkMisses(first: bytes, calls: seq<Call>, x: bytes)
    requires Chain(first, calls) && calls != []
    requires IsAbove(x, first) && forall i :: 0 <= i < |calls| ==> x in calls[i].slugs
    requires !CutShort(calls[0].slugs, calls[0].size, first)
    ensures x in All(calls) || (Answer(Last(calls)).next != [] && Less(Answer(Last(calls)).next, x))
    decreases |calls|
  {
    if |calls| > 1 {
      WalkMisses(first, Before(calls), x);
    }
    if x !in All(Before(calls)) {
      assert IsAbove(x, Last(calls).token);
      LastPageIffComplete(Last(calls));
      PageReaches(Last(calls), x);
    }
  }

  /** After n rows of a listing, the rows still to come are those above the last of them. */
  lemma ListingContinues(a: seq<bytes>, slugs: set<bytes>, first: bytes, n: nat)
    requires Lists(a, Above(slugs, first)) && 0 < n <= |a| && a[n - 1] != []
    ensures Lists(a[n..], Above(slugs, a[n - 1]))
  {
    var above := Above(slugs, first);
    var token := a[n - 1];
    forall i | 0 <= i < |a| ensures IsAbove(a[i], token) <==> n <= i {
      LessIsTotal(a[i], token);
      if i < n - 1 { assert Less(a[i], a[n - 1]); }
      if n <= i { assert Less(a[n - 1], a[i]); }
    }
    SuffixIsAbove(a, above, token, n);
    assert token in above;
    forall x | x in slugs && IsAbove(x, token) ensures IsAbove(x, first) {
      if first != [] { LessIsTransitive(first, token, x); }
    }
    assert Above(above, token) == Above(slugs, token);
  }

  lemma SliceJoins(a: seq<bytes>, m: nat, size: nat)
    requires m <= |a| && size > 0
    ensures a[..m] + a[m..] == a
    ensures m + size < |a| ==> a[..m] + a[m..][..size] == a[..m + size] && a[m..][size - 1] == a[m + size - 1]
  {
  }

  ghost predicate OneTable(calls: seq<Call>, slugs: set<bytes>, size: Positive) {
    forall i :: 0 <= i < |calls| ==> calls[i].slugs == slugs && calls[i].size == size
  }

  /** Over a table that does not change, a walk's pages are the sorted table cut in slices. */
  lemma {:induction false} WalkOfOneTable(first: bytes, calls: seq<Call>, slugs: set<bytes>, size: Positive, a: seq<bytes>)
    requires Chain(first, calls) && calls != [] && OneTable(calls, slugs, size)
    requires Lists(a, Above(slugs, first)) && !CutShort(slugs, size, first)
    ensures if Answer(Last(calls)).next == [] then All(calls) == a && |a| <= |calls| * size
            else |calls| * size < |a| && All(calls) == a[..|calls| * size] && Answer(Last(calls)).next == a[|calls| * size - 1]
    decreases |calls|
  {
    var n := |calls| - 1;
    var c := Last(calls);
    assert calls[n].slugs == slugs && calls[n].size == size;
    var m := n * size;
    assert |calls| * size == m + size;
    if n > 0 {
      WalkOfOneTable(first, Before(calls), slugs, size, a);
      ListingContinues(a, slugs, first, m);
    }
    assert All(Before(calls)) == a[..m];
    ListingIsUnique(c.rest, a[m..], Above(slugs, c.token));
    LastPageIffComplete(c);
    SliceJoins(a, m, size);
  }

  /** The walk over one table gives up exactly when a page that is not the last passes the cap. */
  lemma CapIsExact(n: nat, size: nat, pages: nat, cap: nat)
    requires size > 0 && pages > 0
    ensures (pages - 1) * size <= cap && n <= pages * size ==> n <= (cap / size + 1) * size
    ensures pages * size > cap && n > pages * size ==> n > (cap / size + 1) * size
  {
    var q := cap / size;
    assert cap == q * size + cap % size;
    if (pages - 1) * size <= cap {
      if pages - 1 > q { MulMonotone(q + 1, pages - 1, size); }
      MulMonotone(pages, q + 1, size);
    }
    if pages * size > cap {
      if pages <= q { MulMonotone(pages, q, size); }
      MulMonotone(q + 1, pages, size);
    }
  }

  /** r is what a walk over one table comes to: the sorted listing, unless it outgrows the cap. */
  ghost predicate IsWalkOf(r: Walk<bytes>, slugs: set<bytes>, size: Positive, first: bytes) {
    if |Above(slugs, first)| <= (MAX_APPLICATIONS / size + 1) * size then r.Listed? && Lists(r.all, Above(slugs, first))
    else r.TooMany?
  }

  lemma FirstPageNotCut(first: bytes, calls: seq<Call>)
    requires Chain(first, calls) && calls != [] && Answer(Last(calls)).next != []
    ensures !CutShort(calls[0].slugs, calls[0].size, first)
    decreases |calls|
  {
    if |calls| > 1 {
      FirstPageNotCut(first, Before(calls));
    } else {
      LastPageIffComplete(Last(calls));
    }
  }

  /** A finished walk has every row that was there throughout. */
  lemma FinishedWalk(first: bytes, calls: seq<Call>)
    requires Chain(first, calls) && calls != [] && Answer(Last(calls)).next == []
    ensures
      if CutShort(calls[0].slugs, calls[0].size, first) then All(calls) == [[]]
      else forall x :: IsAbove(x, first) && (forall i :: 0 <= i < |calls| ==> x in calls[i].slugs) ==> x in All(calls)
  {
    if CutShort(calls[0].slugs, calls[0].size, first) {
      if |calls| > 1 { FirstPageNotCut(first, Before(calls)); }
      LastPageIffComplete(calls[0]);
      assert All(Before(calls)) == [];
    } else {
      forall x | IsAbove(x, first) && (forall i :: 0 <= i < |calls| ==> x in calls[i].slugs) ensures x in All(calls) {
        WalkMisses(first, calls, x);
      }
    }
  }

  /** How a walk over one table stops: at its end, or at the first page that passes the cap. */
  lemma StoppedWalk(first: bytes, calls: seq<Call>, slugs: set<bytes>, size: Positive, a: seq<bytes>)
    requires Chain(first, calls) && calls != [] && OneTable(calls, slugs, size)
    requires Lists(a, Above(slugs, first)) && !CutShort(slugs, size, first)
    requires |All(Before(calls))| <= MAX_APPLICATIONS
    ensures Answer(Last(calls)).next == [] ==> IsWalkOf(Listed(All(calls)), slugs, size, first)
    ensures Answer(Last(calls)).next != [] && |All(calls)| > MAX_APPLICATIONS ==> IsWalkOf(TooMany, slugs, size, first)
  {
    WalkOfOneTable(first, calls, slugs, size, a);
    ListingIsUnique(a, a, Above(slugs, first));
    assert (|calls| - 1) * size <= MAX_APPLICATIONS by {
      if |calls| > 1 {
        WalkOfOneTable(first, Before(calls), slugs, size, a);
      }
    }
    CapIsExact(|a|, size, |calls|, MAX_APPLICATIONS);
  }

  // ---- the walk, against a table that changes between its calls ----

  /** What the i-th call of a walk finds. */
  datatype Moment = Down | Up(applications: map<bytes, bytes>, applicationPage: int)

  /** The slugs the i-th call's query selects. */
  function SlugsAt(world: nat -> Moment, query: bytes, i: nat): set<bytes> {
    if world(i).Up? then Matching(world(i).applications, query) else {}
  }

  function SizeAt(world: nat -> Moment, pageSize: int, i: nat): Positive {
    if world(i).Up? then Size(world(i).applicationPage, pageSize) else 1
  }

  /** These are the calls of a walk through world. */
  ghost predicate Made(world: nat -> Moment, query: bytes, pageSize: int, first: bytes, calls: seq<Call>) {
    && Chain(first, calls)
    && forall i :: 0 <= i < |calls| ==>
         world(i).Up? && calls[i].slugs == SlugsAt(world, query, i) && calls[i].size == SizeAt(world, pageSize, i)
  }

  /** The listing a finished walk returns: no slug twice, none that no call showed, and, unless its first
      page was cut short, every slug above its first token that was there at each of its n calls. */
  ghost predicate IsListing(world: nat -> Moment, query: bytes, pageSize: int, first: bytes, n: nat, all: seq<bytes>) {
    && Strict(all)
    && (forall x :: x in all ==> exists i: nat | i < n :: x in SlugsAt(world, query, i))
    && (if CutShort(SlugsAt(world, query, 0), SizeAt(world, pageSize, 0), first) then all == [[]]
        else forall x :: IsAbove(x, first) && (forall i: nat | i < n :: x in SlugsAt(world, query, i)) ==> x in all)
  }

  lemma {:induction false} ListedWalk(world: nat -> Moment, query: bytes, pageSize: int, first: bytes, calls: seq<Call>)
    requires Made(world, query, pageSize, first, calls) && calls != [] && Answer(Last(calls)).next == []
    ensures IsListing(world, query, pageSize, first, |calls|, All(calls))
  {
    WalkRises(first, calls);
    FinishedWalk(first, calls);
    forall x | x in All(calls) ensures exists i: nat | i < |calls| :: x in SlugsAt(world, query, i) {
      var i := RowsWereThere(first, calls, x);
      assert calls[i].slugs == SlugsAt(world, query, i);
    }
    assert calls[0].slugs == SlugsAt(world, query, 0);
    forall x | IsAbove(x, first) && (forall i: nat | i < |calls| :: x in SlugsAt(world, query, i))
      ensures forall i :: 0 <= i < |calls| ==> x in calls[i].slugs
    {
    }
  }

  /** The table and the page size stay as the first call finds them. */
  ghost predicate Unchanging(world: nat -> Moment) {
    world(0).Up? && forall i: nat :: world(i) == world(0)
  }

  lemma {:induction false} WalkOfUnchanging(world: nat -> Moment, query: bytes, pageSize: int, first: bytes, calls: seq<Call>)
    requires Made(world, query, pageSize, first, calls) && calls != [] && Unchanging(world)
    requires !CutShort(SlugsAt(world, query, 0), SizeAt(world, pageSize, 0), first)
    requires |All(Before(calls))| <= MAX_APPLICATIONS
    ensures var slugs, size := SlugsAt(world, query, 0), SizeAt(world, pageSize, 0);
            && (Answer(Last(calls)).next == [] ==> IsWalkOf(Listed(All(calls)), slugs, size, first))
            && (Answer(Last(calls)).next != [] && |All(calls)| > MAX_APPLICATIONS ==> IsWalkOf(TooMany, slugs, size, first))
  {
    var slugs, size := SlugsAt(world, query, 0), SizeAt(world, pageSize, 0);
    forall i | 0 <= i < |calls| ensures calls[i].slugs == slugs && calls[i].size == size {
      assert world(i) == world(0);
    }
    FirstCall(first, calls);
    StoppedWalk(first, calls, slugs, size, calls[0].rest);
  }

  lemma FirstCall(first: bytes, calls: seq<Call>)
    requires Chain(first, calls) && calls != []
    ensures Fits(calls[0]) && calls[0].token == first
    decreases |calls|
  {
    if |calls| > 1 {
      FirstCall(first, Before(calls));
    } else {
      assert Before(calls) == [];
    }
  }

  /** One more call, answered: what the walk may then conclude. */
  lemma {:induction false} NextCall(world: nat -> Moment, query: bytes, pageSize: int, first: bytes, calls: seq<Call>, call: Call)
    returns (more: seq<Call>)
    requires Made(world, query, pageSize, first, calls) && Follows(first, calls, call.token) && Fits(call)
    requires world(|calls|).Up? && call.slugs == SlugsAt(world, query, |calls|) && call.size == SizeAt(world, pageSize, |calls|)
    requires |All(calls)| <= MAX_APPLICATIONS
    ensures more == calls + [call] && Made(world, query, pageSize, first, more)
    ensures All(more) == All(calls) + Answer(call).rows
    ensures var next := Answer(call).next;
            if next == [] then IsListing(world, query, pageSize, first, |more|, All(more))
            else Follows(first, more, next) && next in All(more) && next !in All(calls)
    ensures Unchanging(world) && !CutShort(SlugsAt(world, query, 0), SizeAt(world, pageSize, 0), first) ==>
              var slugs, size := SlugsAt(world, query, 0), SizeAt(world, pageSize, 0);
              && (Answer(call).next == [] ==> IsWalkOf(Listed(All(more)), slugs, size, first))
              && (Answer(call).next != [] && |All(more)| > MAX_APPLICATIONS ==> IsWalkOf(TooMany, slugs, size, first))
  {
    more := calls + [call];
    assert Before(more) == calls && Last(more) == call;
    if Answer(call).next == [] {
      ListedWalk(world, query, pageSize, first, more);
    } else {
      TokenIsNew(first, more);
    }
    if Unchanging(world) && !CutShort(SlugsAt(world, query, 0), SizeAt(world, pageSize, 0), first) {
      WalkOfUnchanging(world, query, pageSize, first, more);
    }
  }

  /**
   The walk. It never meets a token twice, whatever happens between its calls, and what it returns is a
   listing of what was there; over a table that does not change it is the sorted listing, or the refusal
   when that outgrows the cap by more than a page.
  */
  method AllApplications(world: nat -> Moment, query: bytes, pageSize: int, first: bytes)
    returns (r: Walk<bytes>, ghost n: nat)
    ensures !r.Repeated?
    ensures (forall i: nat :: i < n ==> world(i).Up?) && (r.Failed? ==> world(n).Down?)
    ensures r.Listed? ==> IsListing(world, query, pageSize, first, n, r.all)
    ensures Unchanging(world) && !CutShort(SlugsAt(world, query, 0), SizeAt(world, pageSize, 0), first) ==>
              IsWalkOf(r, SlugsAt(world, query, 0), SizeAt(world, pageSize, 0), first)
  {
    var all: seq<bytes>, seen: set<bytes>, token, k: nat := [], {}, first, 0;
    ghost var calls: seq<Call> := [];
    n := 0;
    while true
      invariant n == k == |calls| && all == All(calls) && |all| <= MAX_APPLICATIONS
      invariant Made(world, query, pageSize, first, calls) && Follows(first, calls, token)
      invariant forall t :: t in seen ==> t in all
      decreases MAX_APPLICATIONS - |all|
    {
      if world(k).Down? {
        return Failed, n;
      }
      ghost var call;
      var page, total;
      page, total, call := ListApplications(world(k).applications, world(k).applicationPage, query, pageSize, token);
      calls := NextCall(world, query, pageSize, first, calls, call);
      all := all + page.rows;
      n := k + 1;
      if page.next == [] {
        return Listed(all), n;
      }
      if |all| > MAX_APPLICATIONS {
        return TooMany, n;
      }
      if page.next in seen {
        return Repeated, n;
      }
      seen := seen + {page.next};
      token := page.next;
      k := k + 1;
    }
  }
}
