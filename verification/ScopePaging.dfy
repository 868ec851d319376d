/**
 Offset paging over a list that only grows: the server's node listing (anubistest/admin.go:231-296) and
 the client's walk over it (admin/admin.go:636-665).
*/
module ScopePaging {
  import opened Basics
  import opened Decimals
  import opened Paging

  const MAX_SCOPE_NODES := 50_000

  /** folded is the name in lower case. */
  datatype Node = Node(id: bytes, axis: bytes, folded: bytes, archived: bool)

  datatype Query = Query(axis: bytes, folded: bytes, includeArchived: bool)

  predicate Shown(q: Query, n: Node) {
    n.axis == q.axis && (!n.archived || q.includeArchived) && (q.folded == [] || Contains(n.folded, q.folded))
  }

  /** The nodes a query selects, in the order they were added. */
  function Matched(q: Query, nodes: seq<Node>): (m: seq<Node>)
    ensures |m| <= |nodes|
  {
    if nodes == [] then []
    else
      var last := nodes[|nodes| - 1];
      Matched(q, nodes[..|nodes| - 1]) + if Shown(q, last) then [last] else []
  }

  /** A query finds exactly the nodes of its axis that have its text somewhere in their name, archived ones only on request. */
  lemma {:induction false} MatchedIff(q: Query, nodes: seq<Node>, n: Node)
    ensures n in Matched(q, nodes) <==>
              n in nodes && n.axis == q.axis && (n.archived ==> q.includeArchived) && Stands(n.folded, q.folded)
    decreases |nodes|
  {
    if nodes != [] {
      var front := nodes[..|nodes| - 1];
      MatchedIff(q, front, n);
      assert nodes == front + [nodes[|nodes| - 1]];
      ContainsIff(n.folded, q.folded);
      assert q.folded == [] ==> n.folded == [] + q.folded + n.folded;
    }
  }

  /** Adding nodes leaves what was selected before where it was. */
  lemma {:induction false} MatchedGrows(q: Query, earlier: seq<Node>, nodes: seq<Node>)
    requires earlier <= nodes
    ensures Matched(q, earlier) <= Matched(q, nodes)
    decreases |nodes|
  {
    if |earlier| < |nodes| {
      MatchedGrows(q, earlier, nodes[..|nodes| - 1]);
    } else {
      assert earlier == nodes;
    }
  }

  /** strconv.Atoi with its error dropped: 0 for what is no number, the nearest int64 for one out of range. */
  function Atoi(s: bytes): int {
    if s == [] then 0
    else
      var digits := DigitsValue(if s[0] == MINUS || s[0] == PLUS then s[1..] else s);
      if digits.None? then 0
      else
        var size: int := digits.value;
        var n := if s[0] == MINUS then -size else size;
        if n < -TWO_63 then -TWO_63 else if n >= TWO_63 then TWO_63 - 1 else n
  }

  lemma AtoiFormat(n: nat)
    requires n < TWO_63
    ensures Atoi(Format(n)) == n && Format(n) != []
  {
    DigitsRead(n);
    FormatIsPlain(n);
    assert IsDigit(Format(n)[0]);
  }

  /** Where a token says to resume, in a listing of n nodes. */
  function StartOf(token: bytes, n: nat): (start: nat)
    ensures start <= n
  {
    var start := if token == [] then 0 else Atoi(token);
    if start < 0 || start > n then n else start
  }

  /** One page of a listing, from where the token says. */
  function PageOf(m: seq<Node>, size: Positive, token: bytes): Page<Node> {
    var start := StartOf(token, |m|);
    if |m| - start <= size then Page(m[start..], [])
    else Page(m[start..start + size], Format(start + size))
  }

  method ListScopeNodes(nodes: seq<Node>, scopeNodePage: int, q: Query, pageSize: int, token: bytes) returns (page: Page<Node>)
    ensures page == PageOf(Matched(q, nodes), Size(scopeNodePage, pageSize), token)
  {
    var matched: seq<Node> := [];
    for i := 0 to |nodes|
      invariant matched == Matched(q, nodes[..i])
    {
      assert nodes[..i + 1][..i] == nodes[..i];
      if nodes[i].axis == q.axis && !(nodes[i].archived && !q.includeArchived) && !(q.folded != [] && !Contains(nodes[i].folded, q.folded)) {
        matched := matched + [nodes[i]];
      }
    }
    assert nodes[..|nodes|] == nodes;
    var size := Size(scopeNodePage, pageSize);
    var start := 0;
    if token != [] {
      start := Atoi(token);
      if start < 0 || start > |matched| {
        start := |matched|;
      }
    }
    var end := start + size;
    if end > |matched| {
      end := |matched|;
    }
    page := Page(matched[start..end], if end < |matched| then Format(end) else []);
  }

  // ---- the walk ----

  datatype Moment = Down | Up(nodes: seq<Node>, scopeNodePage: int)

  /** What the i-th call of a walk finds selected; a Go slice's length is an int64. */
  function At(world: nat -> Moment, q: Query, i: nat): seq<Node> {
    if world(i).Up? then Matched(q, world(i).nodes) else []
  }

  /** Nodes are added, and never taken away. */
  ghost predicate Grows(world: nat -> Moment) {
    forall i: nat, j: nat :: GrowsTo(world, i, j)
  }

  ghost predicate GrowsTo(world: nat -> Moment, i: nat, j: nat) {
    i <= j && world(i).Up? && world(j).Up? ==> world(i).nodes <= world(j).nodes && |world(j).nodes| < TWO_63
  }

  ghost predicate Unchanging(world: nat -> Moment) {
    world(0).Up? && forall i: nat :: world(i) == world(0)
  }

  /** What a walk over one table comes to. */
  function WalkOf(m: seq<Node>, size: Positive, first: bytes): Walk<Node> {
    var listing := m[StartOf(first, |m|)..];
    if |listing| <= (MAX_SCOPE_NODES / size + 1) * size then Listed(listing) else TooMany
  }

  /** After k pages a walk has the listing from begin to at, and at for a token. */
  ghost predicate Progress(world: nat -> Moment, q: Query, first: bytes, k: nat, all: seq<Node>, token: bytes, at: nat) {
    var begin := StartOf(first, |At(world, q, 0)|);
    && (forall i: nat :: i < k ==> world(i).Up?)
    && (if k == 0 then token == first && all == [] && at == begin
        else token == Format(at) && begin <= at < |At(world, q, k - 1)| && all == At(world, q, k - 1)[begin..at])
  }

  /** The next call resumes where the last page ended, in a list that still begins as it did. */
  lemma {:induction false} Resumes(world: nat -> Moment, q: Query, first: bytes, k: nat, all: seq<Node>, token: bytes, at: nat)
    requires Grows(world) && Progress(world, q, first, k, all, token, at) && world(k).Up?
    ensures
      var m := At(world, q, k);
      var begin := StartOf(first, |At(world, q, 0)|);
      begin <= at <= |m| && StartOf(token, |m|) == at && all == m[begin..at] && |m| < TWO_63
  {
    assert GrowsTo(world, k, k);
    if k > 0 {
      assert GrowsTo(world, k - 1, k);
      MatchedGrows(q, world(k - 1).nodes, world(k).nodes);
      AtoiFormat(at);
    }
  }

  /** One page more of a listing. */
  lemma TakePage(m: seq<Node>, begin: nat, at: nat, token: bytes, size: Positive)
    requires begin <= at <= |m| && StartOf(token, |m|) == at
    ensures var page := PageOf(m, size, token);
            if |m| - at <= size then page.next == [] && m[begin..at] + page.rows == m[begin..]
            else page.next == Format(at + size) != [] && m[begin..at] + page.rows == m[begin..at + size]
  {
    FormatIsPlain(at + size);
    if |m| - at <= size {
      assert m[begin..at] + m[at..] == m[begin..];
    } else {
      assert m[begin..at] + m[at..at + size] == m[begin..at + size];
    }
  }

  lemma {:induction false} NextPage(world: nat -> Moment, q: Query, first: bytes, k: nat, all: seq<Node>, token: bytes, at: nat,
                                    size: Positive, page: Page<Node>)
    requires Grows(world) && Progress(world, q, first, k, all, token, at) && world(k).Up?
    requires page == PageOf(At(world, q, k), size, token)
    ensures
      var m := At(world, q, k);
      var begin := StartOf(first, |At(world, q, 0)|);
      && begin <= at <= |m| && |all| == at - begin
      && if |m| - at <= size then page.next == [] && all + page.rows == m[begin..]
         else page.next == Format(at + size) != [] && Progress(world, q, first, k + 1, all + page.rows, page.next, at + size)
  {
    Resumes(world, q, first, k, all, token, at);
    TakePage(At(world, q, k), StartOf(first, |At(world, q, 0)|), at, token, size);
  }

  /** The tokens handed out so far say where earlier pages ended. */
  ghost predicate Behind(seen: set<bytes>, at: nat) {
    forall t :: t in seen ==> exists j: nat | j <= at :: t == Format(j)
  }

  lemma OffsetIsNew(seen: set<bytes>, at: nat, end: nat)
    requires at < end && Behind(seen, at)
    ensures Format(end) !in seen && Behind(seen + {Format(end)}, end)
  {
    if Format(end) in seen {
      var j: nat :| j <= at && Format(end) == Format(j);
      FormatInjective(end, j);
    }
    forall t | t in seen + {Format(end)} ensures exists j: nat | j <= end :: t == Format(j) {
      if t in seen {
        var j: nat :| j <= at && t == Format(j);
        assert j <= end;
      }
    }
  }

  /** Over one list, k pages of one size. */
  lemma Stops(m: seq<Node>, first: bytes, k: nat, size: Positive)
    requires k * size <= MAX_SCOPE_NODES
    ensures var listing := m[StartOf(first, |m|)..];
            && (|listing| <= k * size + size ==> WalkOf(m, size, first) == Listed(listing))
            && (|listing| > k * size + size > MAX_SCOPE_NODES ==> WalkOf(m, size, first) == TooMany)
  {
    assert (k + 1) * size == k * size + size;
    CapIsExact(|m[StartOf(first, |m|)..]|, size, k + 1, MAX_SCOPE_NODES);
  }

  /** Every page so far was a full one, if the list stays as it is. */
  ghost predicate Even(world: nat -> Moment, pageSize: int, k: nat, all: seq<Node>) {
    Unchanging(world) ==> |all| == k * Size(world(0).scopeNodePage, pageSize)
  }

  /** Over a list that stays as it is, r is what the walk comes to. */
  ghost predicate IsWalkOf(world: nat -> Moment, q: Query, pageSize: int, first: bytes, r: Walk<Node>) {
    Unchanging(world) ==> r == WalkOf(At(world, q, 0), Size(world(0).scopeNodePage, pageSize), first)
  }

  /** all is what the n-th call found, from where the first token said to begin. */
  ghost predicate IsListing(world: nat -> Moment, q: Query, first: bytes, n: nat, all: seq<Node>) {
    n > 0 && StartOf(first, |At(world, q, 0)|) <= |At(world, q, n - 1)| && all == At(world, q, n - 1)[StartOf(first, |At(world, q, 0)|)..]
  }

  lemma {:induction false} AfterPage(world: nat -> Moment, q: Query, pageSize: int, first: bytes, k: nat, all: seq<Node>, token: bytes, at: nat,
                                     page: Page<Node>)
    requires Grows(world) && Progress(world, q, first, k, all, token, at) && world(k).Up?
    requires page == PageOf(At(world, q, k), Size(world(k).scopeNodePage, pageSize), token)
    requires Even(world, pageSize, k, all) && |all| <= MAX_SCOPE_NODES
    ensures if page.next == [] then
              IsListing(world, q, first, k + 1, all + page.rows) && IsWalkOf(world, q, pageSize, first, Listed(all + page.rows))
            else
              var at' := at + Size(world(k).scopeNodePage, pageSize);
              && Progress(world, q, first, k + 1, all + page.rows, page.next, at') && page.next == Format(at')
              && |page.rows| > 0 && Even(world, pageSize, k + 1, all + page.rows)
              && (|all + page.rows| > MAX_SCOPE_NODES ==> IsWalkOf(world, q, pageSize, first, TooMany))
  {
    var size := Size(world(k).scopeNodePage, pageSize);
    NextPage(world, q, first, k, all, token, at, size, page);
    if Unchanging(world) {
      assert world(k) == world(0);
      Stops(At(world, q, 0), first, k, size);
      assert (k + 1) * size == k * size + size;
    }
  }

  /** Before its first call a walk has nothing, and no token behind it. */
  lemma BeforePages(world: nat -> Moment, q: Query, pageSize: int, first: bytes)
    requires Grows(world)
    ensures Progress(world, q, first, 0, [], first, StartOf(first, |At(world, q, 0)|))
    ensures Even(world, pageSize, 0, []) && Behind({}, StartOf(first, |At(world, q, 0)|))
  {
  }

  /** The k-th call of a walk. */
  method ScopeNodes(world: nat -> Moment, q: Query, pageSize: int, token: bytes, k: nat,
                    ghost first: bytes, ghost all: seq<Node>, ghost seen: set<bytes>, ghost at: nat)
    returns (page: Page<Node>, ghost at': nat)
    requires Grows(world) && world(k).Up?
    requires Progress(world, q, first, k, all, token, at) && Even(world, pageSize, k, all) && Behind(seen, at)
    requires |all| <= MAX_SCOPE_NODES
    ensures page == PageOf(At(world, q, k), Size(world(k).scopeNodePage, pageSize), token)
    ensures page.next == [] ==> IsListing(world, q, first, k + 1, all + page.rows)
    ensures page.next == [] ==> IsWalkOf(world, q, pageSize, first, Listed(all + page.rows))
    ensures page.next != [] ==> Progress(world, q, first, k + 1, all + page.rows, page.next, at')
    ensures page.next != [] ==> Even(world, pageSize, k + 1, all + page.rows)
    ensures page.next != [] ==> page.next !in seen && Behind(seen + {page.next}, at') && |page.rows| > 0
    ensures page.next != [] && |all + page.rows| > MAX_SCOPE_NODES ==> IsWalkOf(world, q, pageSize, first, TooMany)
  {
    page := ListScopeNodes(world(k).nodes, world(k).scopeNodePage, q, pageSize, token);
    AfterPage(world, q, pageSize, first, k, all, token, at, page);
    at' := at + Size(world(k).scopeNodePage, pageSize);
    OffsetIsNew(seen, at, at');
  }

  /**
   The walk never meets a token twice, and what it returns is the whole of what its last call found, from
   where its first token said to begin. Over a list that stays as it is it gives up exactly when the list
   outgrows the cap by more than a page.
  */
  method AllScopeNodes(world: nat -> Moment, q: Query, pageSize: int, first: bytes) returns (r: Walk<Node>, ghost n: nat)
    requires Grows(world)
    ensures !r.Repeated?
    ensures (forall i: nat :: i < n ==> world(i).Up?) && (r.Failed? ==> world(n).Down?)
    ensures r.Listed? ==> IsListing(world, q, first, n, r.all)
    ensures IsWalkOf(world, q, pageSize, first, r)
  {
    var all: seq<Node>, seen: set<bytes>, token := [], {}, first;
    var k: nat := 0;
    ghost var at: nat := StartOf(first, |At(world, q, 0)|);
    n := 0;
    BeforePages(world, q, pageSize, first);
    while true
      invariant n == k && |all| <= MAX_SCOPE_NODES
      invariant Progress(world, q, first, k, all, token, at) && Behind(seen, at)
      invariant Even(world, pageSize, k, all)
      decreases MAX_SCOPE_NODES - |all|
    {
      if world(k).Down? {
        return Failed, n;
      }
      var page;
      page, at := ScopeNodes(world, q, pageSize, token, k, first, all, seen, at);
      all := all + page.rows;
      n := k + 1;
      if page.next == [] {
        return Listed(all), n;
      }
      if |all| > MAX_SCOPE_NODES {
        return TooMany, n;
      }
      if page.next in seen {
        return Repeated, n;
      }
      seen := seen + {page.next};
      token := page.next;
      k := k + 1;
    }
  }
}
