/**
 anubistest/server.go:435-598: record shares, and the access links that open them.

 Each handler takes the lock once for its work, so a run is the sequence of those sections; looking a link
 up changes nothing.
*/
module Links {
  import opened Basics
  import opened Decimals

  datatype RecordShare = RecordShare(recordKind: bytes, recordRef: bytes, to: bytes, permissions: seq<bytes>, validUntil: int)

  /** bearers are the access tokens handed out for links. */
  datatype Tables = Tables(shares: map<bytes, RecordShare>, links: map<bytes, bytes>, bearers: set<bytes>, seq_: nat)

  const START := Tables(map[], map[], {}, 0)

  const SHARE_PREFIX: bytes := [115, 104, 97, 114, 101, 95]    // share_
  const LINK_PREFIX: bytes := [97, 110, 98, 95, 108, 107, 95]  // anb_lk_
  const BEARER: bytes := [66, 101, 97, 114, 101, 114, 32]      // Bearer and a space
  const ANUBIS: bytes := [97, 110, 117, 98, 105, 115]
  const CONSOLE: bytes := [99, 111, 110, 115, 111, 108, 101]
  const SLASH: byte := 47

  function ShareId(n: nat): bytes {
    SHARE_PREFIX + Format(n)
  }

  function LinkToken(n: nat): bytes {
    LINK_PREFIX + Format(n)
  }

  datatype Action =
    | Share(record: RecordShare)
    | Unshare(id: bytes)
    | CreateLink(id: bytes)
    | LookUp(clientId: bytes, tok: bytes)   // openAccessLink, up to the token it mints
    | Answer(look: nat, minted: bytes)      // and its last section, after section number look
    | Count                                 // another handler takes a number

  /** The links left once those of a share are deleted. */
  function Without(links: map<bytes, bytes>, id: bytes): map<bytes, bytes> {
    map tok | tok in links && links[tok] != id :: links[tok]
  }

  function Apply(s: Tables, a: Action): Tables {
    match a
    case Share(record) => s.(shares := s.shares[ShareId(s.seq_ + 1) := record], seq_ := s.seq_ + 1)
    case Unshare(id) => s.(shares := s.shares - {id}, links := Without(s.links, id))
    case CreateLink(id) =>
      if id !in s.shares then s
      else s.(links := Without(s.links, id)[LinkToken(s.seq_ + 1) := id], seq_ := s.seq_ + 1)
    case LookUp(_, _) => s
    case Answer(_, minted) => s.(bearers := s.bearers + {minted})
    case Count => s.(seq_ := s.seq_ + 1)
  }

  /** What opening a link finds. */
  function Opens(s: Tables, tok: bytes): Option<RecordShare> {
    if tok in s.links && s.links[tok] in s.shares then Some(s.shares[s.links[tok]]) else None
  }

  /** What openAccessLink finds for an application; Anubis's own are refused. */
  function Grants(s: Tables, clientId: bytes, tok: bytes): Option<RecordShare> {
    if clientId == ANUBIS || clientId == CONSOLE then None else Opens(s, tok)
  }

  // ---- the handlers ----

  /** strings.TrimPrefix(header, "Bearer "). */
  function Bearer(header: bytes): bytes {
    if BEARER <= header then header[|BEARER|..] else header
  }

  /** A request with this header is a link's. */
  predicate Refused(s: Tables, header: bytes) {
    Bearer(header) in s.bearers
  }

  datatype Reply = Ok(value: bytes) | LinkRefused | BadBody | NoCredential | NotFound | InvalidLink

  class Server {
    var shares: map<bytes, RecordShare>
    var links: map<bytes, bytes>
    var linkBearers: set<bytes>
    var seq_: nat

    function Value(): Tables
      reads this
    {
      Tables(shares, links, linkBearers, seq_)
    }

    constructor ()
      ensures Value() == START
    {
      shares, links, linkBearers, seq_ := map[], map[], {}, 0;
    }

    /** A link's access token signs nobody in; BearerIsRefusedIff says which tokens those are. */
    method RefuseLink(header: bytes) returns (link: bool)
      ensures link <==> Refused(Value(), header)
    {
      link := Bearer(header) in linkBearers;
    }

    method ShareRecord(header: bytes, req: Option<RecordShare>) returns (r: Reply)
      modifies this
      ensures r == if Refused(old(Value()), header) then LinkRefused else if req.None? then BadBody
                   else if header == [] then NoCredential else Ok(ShareId(old(seq_) + 1))
      ensures Value() == if r.Ok? then Apply(old(Value()), Share(req.value)) else old(Value())
    {
      var link := RefuseLink(header);
      if link {
        return LinkRefused;
      }
      if req.None? {
        return BadBody;
      }
      if header == [] {
        return NoCredential;
      }
      seq_ := seq_ + 1;
      var id := ShareId(seq_);
      shares := shares[id := req.value];
      return Ok(id);
    }

    /** for tok, id := range s.links: deletes the links of one share, in any order. */
    method DeleteLinks(id: bytes)
      modifies `links
      ensures links == Without(old(links), id)
    {
      var left := links.Keys;
      while left != {}
        invariant left <= links.Keys <= old(links).Keys
        invariant forall tok :: tok in links ==> links[tok] == old(links)[tok] && (tok in left || links[tok] != id)
        invariant forall tok :: tok in old(links) && old(links)[tok] != id ==> tok in links
        decreases left
      {
        ghost var some := Member(left);
        var tok :| tok in left;
        left := left - {tok};
        if links[tok] == id {
          links := links - {tok};
        }
      }
    }

    method UnshareRecord(header: bytes, id: bytes) returns (r: Reply)
      modifies this
      ensures r == if Refused(old(Value()), header) then LinkRefused else Ok([])
      ensures Value() == if r.Ok? then Apply(old(Value()), Unshare(id)) else old(Value())
    {
      var link := RefuseLink(header);
      if link {
        return LinkRefused;
      }
      shares := shares - {id};
      DeleteLinks(id);
      return Ok([]);
    }

    method CreateAccessLink(header: bytes, id: bytes) returns (r: Reply)
      modifies this
      ensures r == if Refused(old(Value()), header) then LinkRefused
                   else if id !in old(shares) then NotFound else Ok(LinkToken(old(seq_) + 1))
      ensures Value() == if r.Ok? then Apply(old(Value()), CreateLink(id)) else old(Value())
    {
      var link := RefuseLink(header);
      if link {
        return LinkRefused;
      }
      if id !in shares {
        return NotFound;
      }
      DeleteLinks(id);
      seq_ := seq_ + 1;
      var tok := LinkToken(seq_);
      links := links[tok := id];
      return Ok(tok);
    }

    /** minted is the access token the server signs for the share's recipient; from here on it is a link's.
        look is the place its look-up has in the run. */
    method OpenAccessLink(clientId: bytes, tok: bytes, minted: bytes, ghost look: nat) returns (r: Reply, found: Option<RecordShare>)
      modifies this
      ensures found == Grants(old(Value()), clientId, tok)
      ensures r == if found.None? then InvalidLink else Ok(minted)
      ensures Value() == if found.None? then old(Value()) else Apply(old(Value()), Answer(look, minted))
    {
      if tok !in links || links[tok] !in shares || clientId == ANUBIS || clientId == CONSOLE {
        return InvalidLink, None;
      }
      found := Some(shares[links[tok]]);
      linkBearers := linkBearers + {minted};
      r := Ok(minted);
    }
  }

  // ---- runs ----

  /** A run from empty tables: its sections, and the tables before, between and after them. */
  datatype History = History(acts: seq<Action>, states: seq<Tables>)

  ghost predicate IsRun(h: History) {
    && |h.states| == |h.acts| + 1
    && h.states[0] == START
    && (forall i :: 0 <= i < |h.acts| ==> h.states[i + 1] == Apply(h.states[i], h.acts[i]))
    && (forall i :: 0 <= i < |h.acts| && h.acts[i].Answer? ==> FollowsLookUp(h, i))
  }

  /** A token is answered only after a look-up that found a share, and once for each. */
  ghost predicate FollowsLookUp(h: History, i: nat)
    requires i < |h.acts| < |h.states| && h.acts[i].Answer?
  {
    var look := h.acts[i].look;
    && look < i && h.acts[look].LookUp? && Grants(h.states[look], h.acts[look].clientId, h.acts[look].tok).Some?
    && (forall j :: 0 <= j < i && h.acts[j].Answer? ==> h.acts[j].look != look)
  }

  ghost predicate IssuedShare(id: bytes, count: nat) {
    exists n: nat :: n <= count && id == ShareId(n)
  }

  ghost predicate IssuedLink(tok: bytes, count: nat) {
    exists n: nat :: n <= count && tok == LinkToken(n)
  }

  lemma FreshNames(count: nat)
    ensures !IssuedShare(ShareId(count + 1), count) && !IssuedLink(LinkToken(count + 1), count)
  {
    if IssuedShare(ShareId(count + 1), count) {
      var n: nat :| n <= count && ShareId(count + 1) == ShareId(n);
      assert ShareId(count + 1)[|SHARE_PREFIX|..] == Format(count + 1) && ShareId(n)[|SHARE_PREFIX|..] == Format(n);
      FormatInjective(count + 1, n);
    }
    if IssuedLink(LinkToken(count + 1), count) {
      var n: nat :| n <= count && LinkToken(count + 1) == LinkToken(n);
      assert LinkToken(count + 1)[|LINK_PREFIX|..] == Format(count + 1) && LinkToken(n)[|LINK_PREFIX|..] == Format(n);
      FormatInjective(count + 1, n);
    }
  }

  ghost predicate OneToAShare(links: map<bytes, bytes>) {
    forall t, u :: t in links && u in links && links[t] == links[u] ==> t == u
  }

  /** Every link is of a share there is, a share has one link at most, and every name was issued. */
  ghost predicate Invariant(s: Tables) {
    && (forall tok :: tok in s.links ==> s.links[tok] in s.shares && IssuedLink(tok, s.seq_))
    && OneToAShare(s.links)
    && (forall id :: id in s.shares ==> IssuedShare(id, s.seq_))
  }

  lemma IssuedLater(id: bytes, tok: bytes, count: nat)
    ensures IssuedShare(id, count) ==> IssuedShare(id, count + 1)
    ensures IssuedLink(tok, count) ==> IssuedLink(tok, count + 1)
  {
    if IssuedShare(id, count) {
      var n: nat :| n <= count && id == ShareId(n);
      assert n <= count + 1;
    }
    if IssuedLink(tok, count) {
      var n: nat :| n <= count && tok == LinkToken(n);
      assert n <= count + 1;
    }
  }

  lemma ShareKeepsInvariant(s: Tables, record: RecordShare)
    requires Invariant(s)
    ensures Invariant(Apply(s, Share(record)))
  {
    FreshNames(s.seq_);
    forall tok | tok in s.links ensures IssuedLink(tok, s.seq_ + 1) {
      IssuedLater([], tok, s.seq_);
    }
    forall id | id in s.shares ensures IssuedShare(id, s.seq_ + 1) {
      IssuedLater(id, [], s.seq_);
    }
  }

  predicate Maps(links: map<bytes, bytes>, tok: bytes, id: bytes) {
    tok in links && links[tok] == id
  }

  /** The links once a new one is made to a share. */
  function Relinked(links: map<bytes, bytes>, tok: bytes, id: bytes): map<bytes, bytes> {
    Without(links, id)[tok := id]
  }

  lemma RelinkingFits(links: map<bytes, bytes>, tok: bytes, id: bytes)
    requires OneToAShare(links) && tok !in links
    ensures OneToAShare(Relinked(links, tok, id))
    ensures forall t :: t in Relinked(links, tok, id) ==> t == tok || t in links
    ensures forall t, k :: Maps(Relinked(links, tok, id), t, k) <==> (t == tok && k == id) || (Maps(links, t, k) && k != id)
  {
  }

  lemma CreateKeepsInvariant(s: Tables, id: bytes)
    requires Invariant(s) && id in s.shares
    ensures Invariant(Apply(s, CreateLink(id)))
  {
    FreshNames(s.seq_);
    var tok := LinkToken(s.seq_ + 1);
    RelinkingFits(s.links, tok, id);
    assert IssuedLink(tok, s.seq_ + 1);
    var t := Apply(s, CreateLink(id));
    assert t.links == Relinked(s.links, tok, id);
    forall u | u in t.links ensures t.links[u] in t.shares && IssuedLink(u, t.seq_) {
      IssuedLater([], u, s.seq_);
    }
    forall k | k in t.shares ensures IssuedShare(k, t.seq_) {
      IssuedLater(k, [], s.seq_);
    }
  }

  lemma StepKeepsInvariant(s: Tables, a: Action)
    requires Invariant(s)
    ensures Invariant(Apply(s, a))
  {
    match a
    case Share(record) => ShareKeepsInvariant(s, record);
    case CreateLink(id) => if id in s.shares { CreateKeepsInvariant(s, id); }
    case Unshare(id) =>
    case LookUp(_, _) =>
    case Answer(_, _) =>
    case Count =>
      forall tok | tok in s.links ensures IssuedLink(tok, s.seq_ + 1) {
        IssuedLater([], tok, s.seq_);
      }
      forall k | k in s.shares ensures IssuedShare(k, s.seq_ + 1) {
        IssuedLater(k, [], s.seq_);
      }
  }

  lemma {:induction false} LinksFitShares(h: History, i: nat)
    requires IsRun(h) && i < |h.states|
    ensures Invariant(h.states[i])
  {
    if i > 0 {
      LinksFitShares(h, i - 1);
      StepKeepsInvariant(h.states[i - 1], h.acts[i - 1]);
    }
  }

  /** What ends the link of a share: ending the share, or making another link to it. */
  predicate Ends(a: Action, id: bytes) {
    a == Unshare(id) || a == CreateLink(id)
  }

  /** This section makes tok the link of a share. */
  predicate MakesLink(s: Tables, a: Action, tok: bytes, id: bytes) {
    a == CreateLink(id) && id in s.shares && tok == LinkToken(s.seq_ + 1)
  }

  /** This section makes a share under this name. */
  predicate MakesShare(s: Tables, a: Action, id: bytes, record: RecordShare) {
    a == Share(record) && id == ShareId(s.seq_ + 1)
  }

  /** Section i made tok the link of a share, and none after it and before the n-th has ended it. */
  ghost predicate LinkMade(h: History, i: nat, n: nat, tok: bytes, id: bytes)
    requires n <= |h.acts| < |h.states|
  {
    i < n && MakesLink(h.states[i], h.acts[i], tok, id) && forall j :: i < j < n ==> !Ends(h.acts[j], id)
  }

  ghost predicate ShareMade(h: History, i: nat, n: nat, id: bytes, record: RecordShare)
    requires n <= |h.acts| < |h.states|
  {
    i < n && MakesShare(h.states[i], h.acts[i], id, record) && forall j :: i < j < n ==> h.acts[j] != Unshare(id)
  }

  /** Of the first n sections, one made tok the link of a share, and none since has ended it. */
  ghost predicate LinkStands(h: History, n: nat, tok: bytes, id: bytes)
    requires n <= |h.acts| < |h.states|
  {
    exists i: nat :: LinkMade(h, i, n, tok, id)
  }

  ghost predicate ShareStands(h: History, n: nat, id: bytes, record: RecordShare)
    requires n <= |h.acts| < |h.states|
  {
    exists i: nat :: ShareMade(h, i, n, id, record)
  }

  lemma LinkMadeNext(h: History, i: nat, n: nat, tok: bytes, id: bytes)
    requires n < |h.acts| < |h.states|
    ensures LinkMade(h, i, n + 1, tok, id) <==>
            if i == n then MakesLink(h.states[n], h.acts[n], tok, id) else LinkMade(h, i, n, tok, id) && !Ends(h.acts[n], id)
  {
  }

  lemma ShareMadeNext(h: History, i: nat, n: nat, id: bytes, record: RecordShare)
    requires n < |h.acts| < |h.states|
    ensures ShareMade(h, i, n + 1, id, record) <==>
            if i == n then MakesShare(h.states[n], h.acts[n], id, record) else ShareMade(h, i, n, id, record) && h.acts[n] != Unshare(id)
  {
  }

  lemma LinkStandsNext(h: History, n: nat, tok: bytes, id: bytes)
    requires n < |h.acts| < |h.states|
    ensures LinkStands(h, n + 1, tok, id) <==>
            MakesLink(h.states[n], h.acts[n], tok, id) || (LinkStands(h, n, tok, id) && !Ends(h.acts[n], id))
  {
    LinkMadeNext(h, n, n, tok, id);
    if LinkStands(h, n + 1, tok, id) {
      var i: nat :| LinkMade(h, i, n + 1, tok, id);
      LinkMadeNext(h, i, n, tok, id);
      assert i != n ==> LinkMade(h, i, n, tok, id);
    }
    if LinkStands(h, n, tok, id) {
      var i: nat :| LinkMade(h, i, n, tok, id);
      LinkMadeNext(h, i, n, tok, id);
      assert !Ends(h.acts[n], id) ==> LinkMade(h, i, n + 1, tok, id);
    }
  }

  lemma ShareStandsNext(h: History, n: nat, id: bytes, record: RecordShare)
    requires n < |h.acts| < |h.states|
    ensures ShareStands(h, n + 1, id, record) <==>
            MakesShare(h.states[n], h.acts[n], id, record) || (ShareStands(h, n, id, record) && h.acts[n] != Unshare(id))
  {
    ShareMadeNext(h, n, n, id, record);
    if ShareStands(h, n + 1, id, record) {
      var i: nat :| ShareMade(h, i, n + 1, id, record);
      ShareMadeNext(h, i, n, id, record);
      assert i != n ==> ShareMade(h, i, n, id, record);
    }
    if ShareStands(h, n, id, record) {
      var i: nat :| ShareMade(h, i, n, id, record);
      ShareMadeNext(h, i, n, id, record);
      assert h.acts[n] != Unshare(id) ==> ShareMade(h, i, n + 1, id, record);
    }
  }

  predicate Leads(s: Tables, tok: bytes, id: bytes) {
    Maps(s.links, tok, id)
  }

  predicate Holds(s: Tables, id: bytes, record: RecordShare) {
    id in s.shares && s.shares[id] == record
  }

  /** How one section changes which link leads where. */
  lemma LeadsNext(s: Tables, a: Action, tok: bytes, id: bytes)
    requires Invariant(s)
    ensures Leads(Apply(s, a), tok, id) <==> MakesLink(s, a, tok, id) || (Leads(s, tok, id) && !Ends(a, id))
  {
    match a
    case Share(_) =>
    case Count =>
    case LookUp(_, _) =>
    case Answer(_, _) =>
    case Unshare(_) =>
    case CreateLink(k) =>
      if k in s.shares {
        FreshNames(s.seq_);
        RelinkingFits(s.links, LinkToken(s.seq_ + 1), k);
        assert Apply(s, a).links == Relinked(s.links, LinkToken(s.seq_ + 1), k);
      }
  }

  /** How one section changes which share is there. */
  lemma HoldsNext(s: Tables, a: Action, id: bytes, record: RecordShare)
    requires Invariant(s)
    ensures Holds(Apply(s, a), id, record) <==> MakesShare(s, a, id, record) || (Holds(s, id, record) && a != Unshare(id))
  {
    if a.Share? { FreshNames(s.seq_); }
  }

  /** A link leads to a share exactly while it is the last link made to it and the share has not ended. */
  lemma {:induction false} LinkLeadsIff(h: History, n: nat, tok: bytes, id: bytes)
    requires IsRun(h) && n <= |h.acts|
    ensures Leads(h.states[n], tok, id) <==> LinkStands(h, n, tok, id)
  {
    if n > 0 {
      LinkLeadsIff(h, n - 1, tok, id);
      LinksFitShares(h, n - 1);
      LeadsNext(h.states[n - 1], h.acts[n - 1], tok, id);
      LinkStandsNext(h, n - 1, tok, id);
    }
  }

  /** A share is there exactly from the section that made it to the one that ends it, and as it was made. */
  lemma {:induction false} ShareHoldsIff(h: History, n: nat, id: bytes, record: RecordShare)
    requires IsRun(h) && n <= |h.acts|
    ensures Holds(h.states[n], id, record) <==> ShareStands(h, n, id, record)
  {
    if n > 0 {
      ShareHoldsIff(h, n - 1, id, record);
      LinksFitShares(h, n - 1);
      HoldsNext(h.states[n - 1], h.acts[n - 1], id, record);
      ShareStandsNext(h, n - 1, id, record);
    }
  }

  /** A link opens a record exactly when it is the last link made to a share of it that has not ended. */
  lemma OpensIff(h: History, n: nat, tok: bytes, record: RecordShare)
    requires IsRun(h) && n <= |h.acts|
    ensures Opens(h.states[n], tok) == Some(record) <==>
            exists id :: LinkStands(h, n, tok, id) && ShareStands(h, n, id, record)
  {
    var s := h.states[n];
    if Opens(s, tok) == Some(record) {
      LinkLeadsIff(h, n, tok, s.links[tok]);
      ShareHoldsIff(h, n, s.links[tok], record);
    }
    forall id | LinkStands(h, n, tok, id) && ShareStands(h, n, id, record) ensures Opens(s, tok) == Some(record) {
      LinkLeadsIff(h, n, tok, id);
      ShareHoldsIff(h, n, id, record);
    }
  }

  /** A link that was made and no longer opens, because it was replaced or its share ended, opens in no later
      state. */
  lemma {:induction false} DeadLinkStaysDead(h: History, n: nat, m: nat, tok: bytes)
    requires IsRun(h) && n <= m <= |h.acts|
    requires IssuedLink(tok, h.states[n].seq_) && Opens(h.states[n], tok).None?
    ensures Opens(h.states[m], tok).None? && IssuedLink(tok, h.states[m].seq_)
    decreases m
  {
    LinksFitShares(h, n);
    if n < m {
      DeadLinkStaysDead(h, n, m - 1, tok);
      LinksFitShares(h, m - 1);
      DeadLinkNext(h.states[m - 1], h.acts[m - 1], tok);
    }
  }

  lemma DeadLinkNext(s: Tables, a: Action, tok: bytes)
    requires Invariant(s) && IssuedLink(tok, s.seq_) && Opens(s, tok).None?
    ensures Opens(Apply(s, a), tok).None? && IssuedLink(tok, Apply(s, a).seq_)
  {
    FreshNames(s.seq_);
    IssuedLater([], tok, s.seq_);
    assert tok !in s.links && tok != LinkToken(s.seq_ + 1);
    assert tok !in Apply(s, a).links;
  }

  /** Of all the links ever made to a share, at most one opens. */
  lemma OneLinkOpens(h: History, n: nat, t: bytes, u: bytes, id: bytes)
    requires IsRun(h) && n <= |h.acts| && LinkStands(h, n, t, id) && LinkStands(h, n, u, id)
    ensures t == u
  {
    LinksFitShares(h, n);
    LinkLeadsIff(h, n, t, id);
    LinkLeadsIff(h, n, u, id);
  }

  // ---- what a link's token is good for ----

  /** Of the first n sections, the i-th answered a link with this token. */
  ghost predicate Answered(h: History, i: nat, n: nat, tok: bytes)
    requires n <= |h.acts|
  {
    i < n && h.acts[i].Answer? && h.acts[i].minted == tok
  }

  lemma {:induction false} BearersWereAnswered(h: History, n: nat, tok: bytes)
    requires IsRun(h) && n <= |h.acts|
    ensures tok in h.states[n].bearers <==> exists i: nat :: Answered(h, i, n, tok)
  {
    if n > 0 {
      BearersWereAnswered(h, n - 1, tok);
      assert h.states[n] == Apply(h.states[n - 1], h.acts[n - 1]);
      if tok in h.states[n - 1].bearers {
        var i: nat :| Answered(h, i, n - 1, tok);
        assert Answered(h, i, n, tok);
      } else if tok in h.states[n].bearers {
        assert Answered(h, n - 1, n, tok);
      }
      forall i: nat | Answered(h, i, n, tok) ensures tok in h.states[n].bearers {
        if i < n - 1 { assert Answered(h, i, n - 1, tok); }
      }
    }
  }

  /**
   A bearer is refused exactly when an earlier openAccessLink answered with its token; and then a look-up
   before it found the record of a share, through the last link made to it, while it had not ended.
  */
  lemma BearerIsRefusedIff(h: History, n: nat, header: bytes)
    requires IsRun(h) && n <= |h.acts|
    ensures Refused(h.states[n], header) <==> exists i: nat :: Answered(h, i, n, Bearer(header))
    ensures forall i: nat :: Answered(h, i, n, Bearer(header)) ==> OpenedARecord(h, i)
  {
    BearersWereAnswered(h, n, Bearer(header));
    forall i: nat | Answered(h, i, n, Bearer(header)) ensures OpenedARecord(h, i) {
      assert FollowsLookUp(h, i);
      var look := h.acts[i].look;
      var record := Opens(h.states[look], h.acts[look].tok).value;
      OpensIff(h, look, h.acts[look].tok, record);
    }
  }

  /** So the token of a link is refused behind the word Bearer and a space, or on its own. */
  lemma MintedBearerIsRefused(h: History, n: nat, tok: bytes)
    requires IsRun(h) && n <= |h.acts|
    ensures Refused(h.states[n], Ascii("Bearer ") + tok) <==> exists i: nat :: Answered(h, i, n, tok)
    ensures !(Ascii("Bearer ") <= tok) ==> (Refused(h.states[n], tok) <==> exists i: nat :: Answered(h, i, n, tok))
  {
    assert BEARER == Ascii("Bearer ");
    assert (BEARER + tok)[|BEARER|..] == tok;
    BearersWereAnswered(h, n, tok);
  }

  /** The applications whose own audience self-service trusts open no link. */
  lemma OwnApplicationsOpenNothing(s: Tables, tok: bytes, clientId: bytes)
    ensures Grants(s, clientId, tok) == if clientId in {Ascii("anubis"), Ascii("console")} then None else Opens(s, tok)
  {
    assert ANUBIS == Ascii("anubis") && CONSOLE == Ascii("console");
  }

  ghost predicate OpenedARecord(h: History, i: nat)
    requires i < |h.acts| < |h.states| && h.acts[i].Answer?
  {
    var look := h.acts[i].look;
    && look < i && h.acts[look].LookUp?
    && exists id, record :: LinkStands(h, look, h.acts[look].tok, id) && ShareStands(h, look, id, record)
  }

  /** A run goes on with any section, an answer only after an unanswered look-up that found a share. */
  function Then(h: History, a: Action): History
    requires |h.states| > 0
  {
    History(h.acts + [a], h.states + [Apply(h.states[|h.states| - 1], a)])
  }

  lemma ThenIsRun(h: History, a: Action)
    requires IsRun(h) && (a.Answer? ==> FollowsLookUp(Then(h, a), |h.acts|))
    ensures IsRun(Then(h, a))
  {
    forall i | 0 <= i < |Then(h, a).acts| && Then(h, a).acts[i].Answer? ensures FollowsLookUp(Then(h, a), i) {
      if i < |h.acts| { assert FollowsLookUp(h, i); }
    }
  }

  /** A look-up found a record through this link, and has not been answered. */
  ghost predicate Pending(h: History, look: nat, tok: bytes)
    requires |h.acts| < |h.states|
  {
    && look < |h.acts| && h.acts[look].LookUp? && h.acts[look].tok == tok
    && Grants(h.states[look], h.acts[look].clientId, tok).Some?
    && (forall j :: 0 <= j < |h.acts| && h.acts[j].Answer? ==> h.acts[j].look != look)
  }

  /**
   The look-up's instant is what counts, not the answer's: a share that ends between the two sections has its link
   answered all the same, with a token good for its record though the link by then leads nowhere.
  */
  lemma AnsweredAfterItsShareEnded(h: History, look: nat, tok: bytes, id: bytes, minted: bytes) returns (g: History)
    requires IsRun(h) && Pending(h, look, tok) && LinkStands(h, |h.acts|, tok, id)
    ensures IsRun(g) && g.acts == h.acts + [Unshare(id), Answer(look, minted)]
    ensures Opens(g.states[|h.acts| + 1], tok).None? && minted in g.states[|h.acts| + 2].bearers
  {
    LinkLeadsIff(h, |h.acts|, tok, id);
    ThenIsRun(h, Unshare(id));
    g := Then(h, Unshare(id));
    ThenIsRun(g, Answer(look, minted));
    g := Then(g, Answer(look, minted));
  }

  /** There are such runs: the share made first, its link, and a look-up. */
  lemma APendingLookUp(record: RecordShare, clientId: bytes) returns (h: History)
    requires clientId != ANUBIS && clientId != CONSOLE
    ensures IsRun(h) && h.acts == [Share(record), CreateLink(ShareId(1)), LookUp(clientId, LinkToken(2))]
    ensures Pending(h, 2, LinkToken(2)) && LinkStands(h, 3, LinkToken(2), ShareId(1))
  {
    h := History([], [START]);
    ThenIsRun(h, Share(record));
    h := Then(h, Share(record));
    ThenIsRun(h, CreateLink(ShareId(1)));
    h := Then(h, CreateLink(ShareId(1)));
    ThenIsRun(h, LookUp(clientId, LinkToken(2)));
    h := Then(h, LookUp(clientId, LinkToken(2)));
    assert LinkMade(h, 1, 3, LinkToken(2), ShareId(1));
  }

  /** Once refused, always refused. */
  lemma {:induction false} RefusedStaysRefused(h: History, n: nat, m: nat, header: bytes)
    requires IsRun(h) && n <= m <= |h.acts| && Refused(h.states[n], header)
    ensures Refused(h.states[m], header)
    decreases m
  {
    if n < m {
      RefusedStaysRefused(h, n, m - 1, header);
      assert h.states[m] == Apply(h.states[m - 1], h.acts[m - 1]);
    }
  }

  /** The scope the token carries names the record by its kind and reference. */
  function RecordScope(kind: bytes, ref: bytes): bytes {
    kind + [SLASH] + ref
  }

  /** Records of these kinds have different scopes. */
  ghost predicate ScopesSeparate(kinds: iset<bytes>) {
    forall kind, ref, kind', ref' :: kind in kinds && kind' in kinds && RecordScope(kind, ref) == RecordScope(kind', ref')
      ==> kind == kind' && ref == ref'
  }

  /** The kind goes on with a slash where another ends. */
  predicate Begins(kind: bytes, kind': bytes) {
    kind <= kind' && |kind| < |kind'| && kind'[|kind|] == SLASH
  }

  lemma {:induction false} ScopeNamesOneRecord(kind: bytes, ref: bytes, kind': bytes, ref': bytes)
    requires RecordScope(kind, ref) == RecordScope(kind', ref')
    ensures (kind == kind' && ref == ref') || Begins(kind, kind') || Begins(kind', kind)
  {
    var s := RecordScope(kind, ref);
    assert s[..|kind|] == kind && s[..|kind'|] == kind' && s[|kind|] == SLASH && s[|kind'|] == SLASH;
    assert s[|kind| + 1..] == ref && s[|kind'| + 1..] == ref';
    assert |kind| < |kind'| ==> s[..|kind|] <= s[..|kind'|];
    assert |kind'| < |kind| ==> s[..|kind'|] <= s[..|kind|];
  }

  /** A kind that goes on with a slash where another ends names one of the other's records. */
  lemma SlashInKindCollides(a: bytes, b: bytes, c: bytes)
    ensures RecordScope(RecordScope(a, b), c) == RecordScope(a, RecordScope(b, c)) && RecordScope(a, b) != a
  {
    assert (a + [SLASH] + b) + [SLASH] + c == a + [SLASH] + (b + [SLASH] + c);
    assert |RecordScope(a, b)| > |a|;
  }

  /** Exactly when a scope names one record: when no kind in use goes on with a slash where another ends. */
  lemma ScopesSeparateIff(kinds: iset<bytes>)
    ensures ScopesSeparate(kinds) <==> forall kind, kind' :: kind in kinds && kind' in kinds ==> !Begins(kind, kind')
  {
    if forall kind, kind' :: kind in kinds && kind' in kinds ==> !Begins(kind, kind') {
      forall kind, ref, kind', ref' | kind in kinds && kind' in kinds && RecordScope(kind, ref) == RecordScope(kind', ref')
        ensures kind == kind' && ref == ref'
      {
        ScopeNamesOneRecord(kind, ref, kind', ref');
      }
    } else {
      var kind, kind' :| kind in kinds && kind' in kinds && Begins(kind, kind');
      var rest := kind'[|kind| + 1..];
      assert kind' == RecordScope(kind, rest);
      SlashInKindCollides(kind, rest, []);
      assert RecordScope(kind', []) == RecordScope(kind, RecordScope(rest, []));
    }
  }
}
