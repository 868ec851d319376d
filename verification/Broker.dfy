/**
 anubistest/revocations.go: the revocation broker. It drops rather than queues: each subscriber has a
 channel of sixteen slots, and a push never waits.

 First the broker run by one goroutine at a time, on channels shared with the subscribers; then any
 interleaving of pushers, stream handlers and departures.
*/
module Broker {
  import opened Basics

  const BUFFER := 16

  /** A send that does not block: into a full channel it is dropped. */
  function TrySend<T>(buffer: seq<T>, x: T): seq<T> {
    if |buffer| < BUFFER then buffer + [x] else buffer
  }

  class Channel<T> {
    var buffer: seq<T>

    constructor ()
      ensures buffer == []
    {
      buffer := [];
    }

    method Send(x: T)
      modifies this
      ensures buffer == TrySend(old(buffer), x)
    {
      if |buffer| < BUFFER {
        buffer := buffer + [x];
      }
    }
  }

  class RevocationBroker<T> {
    var revSubs: map<int, Channel<T>>
    var revSeq: int

    /** Ids were handed out in sequence, and no two subscribers share a channel. */
    ghost predicate Valid()
      reads this
    {
      && 0 <= revSeq && (forall id :: id in revSubs ==> 0 < id <= revSeq)
      && (forall i, j :: i in revSubs && j in revSubs && i != j ==> revSubs[i] != revSubs[j])
    }

    constructor ()
      ensures Valid() && revSubs == map[] && revSeq == 0
    {
      revSubs, revSeq := map[], 0;
    }

    method Subscribe() returns (ch: Channel<T>, id: int)
      requires Valid()
      modifies this
      ensures Valid() && fresh(ch) && ch.buffer == []
      ensures id !in old(revSubs) && revSubs == old(revSubs)[id := ch] && id == revSeq == old(revSeq) + 1
    {
      ch := new Channel<T>();
      revSeq := revSeq + 1;
      id := revSeq;
      assert forall i :: i in revSubs ==> allocated(revSubs[i]) && revSubs[i] != ch;
      revSubs := revSubs[id := ch];
    }

    method Unsubscribe(id: int)
      requires Valid()
      modifies this
      ensures Valid() && revSubs == old(revSubs) - {id} && revSeq == old(revSeq)
    {
      revSubs := revSubs - {id};
    }

    /** PushRevocation: every subscriber gets the event, or has a full channel; whatever order they are
        visited in. */
    method PushRevocation(x: T)
      requires Valid()
      modifies set id | id in revSubs :: revSubs[id]
      ensures forall id :: id in revSubs ==> revSubs[id].buffer == TrySend(old(revSubs[id].buffer), x)
    {
      var left := revSubs.Keys;
      while left != {}
        invariant left <= revSubs.Keys
        invariant forall id :: id in revSubs && id !in left ==> revSubs[id].buffer == TrySend(old(revSubs[id].buffer), x)
        invariant forall id :: id in left ==> revSubs[id].buffer == old(revSubs[id].buffer)
        decreases left
      {
        ghost var some := Member(left);
        var id :| id in left;
        revSubs[id].Send(x);
        left := left - {id};
      }
    }
  }

  // ---- pushers, handlers and departures, interleaved ----

  datatype Out = Synced | Event(push: nat)

  /**
   One StreamRevocations handler. queued is everything ever put in its channel, of which the first taken
   have been received and the first written of those have been written to the consumer.
  */
  datatype Sub = Sub(synced: bool, ended: bool, registered: bool, queued: seq<nat>, taken: nat, written: nat)

  /** One PushRevocation call: the subscribers it has still to visit, and history: those it found, those
      whose Synced had been written when it began, and the pushes that were over by then. */
  datatype Push = Push(pending: set<nat>, found: set<nat>, synced: set<nat>, after: set<nat>)

  /** dropped are the visits that found the channel full. */
  datatype State = State(subs: seq<Sub>, pushes: seq<Push>, dropped: set<(nat, nat)>)

  datatype Action =
    | Subscribe
    | WriteSynced(id: nat, ok: bool)
    | Deliver(id: nat, ok: bool)      // receive one event and write it
    | Leave(id: nat)                  // the consumer's context is done
    | Unsubscribe(id: nat)
    | Begin                           // a push takes its snapshot of the subscribers
    | Visit(p: nat, id: nat)          // and tries to send to one of them

  function Waiting(sub: Sub): seq<nat>
    requires sub.taken <= |sub.queued|
  {
    sub.queued[sub.taken..]
  }

  ghost predicate Enabled(s: State, a: Action) {
    match a
    case Subscribe => true
    case WriteSynced(id, _) => id < |s.subs| && !s.subs[id].synced && !s.subs[id].ended
    case Deliver(id, _) => id < |s.subs| && s.subs[id].synced && !s.subs[id].ended && s.subs[id].taken < |s.subs[id].queued|
    case Leave(id) => id < |s.subs| && s.subs[id].synced && !s.subs[id].ended
    case Unsubscribe(id) => id < |s.subs| && s.subs[id].ended && s.subs[id].registered
    case Begin => true
    case Visit(p, id) => p < |s.pushes| && id in s.pushes[p].pending && id < |s.subs| && s.subs[id].taken <= |s.subs[id].queued|
  }

  function Ids(s: State): set<nat> {
    set id: nat | id < |s.subs| && s.subs[id].registered
  }

  function SyncedIds(s: State): set<nat> {
    set id: nat | id < |s.subs| && s.subs[id].synced
  }

  function Over(s: State): set<nat> {
    set p: nat | p < |s.pushes| && s.pushes[p].pending == {}
  }

  ghost function Apply(s: State, a: Action): State
    requires Enabled(s, a)
  {
    match a
    case Subscribe => s.(subs := s.subs + [Sub(false, false, true, [], 0, 0)])
    case WriteSynced(id, ok) =>
      var sub := s.subs[id];
      s.(subs := s.subs[id := sub.(synced := ok, ended := !ok)])
    case Deliver(id, ok) =>
      var sub := s.subs[id];
      s.(subs := s.subs[id := sub.(taken := sub.taken + 1, written := if ok then sub.written + 1 else sub.written, ended := !ok)])
    case Leave(id) =>
      var sub := s.subs[id];
      s.(subs := s.subs[id := sub.(ended := true)])
    case Unsubscribe(id) =>
      var sub := s.subs[id];
      s.(subs := s.subs[id := sub.(registered := false)])
    case Begin => s.(pushes := s.pushes + [Push(Ids(s), Ids(s), SyncedIds(s), Over(s))])
    case Visit(p, id) =>
      var push := s.pushes[p];
      var sub := s.subs[id];
      var sent := TrySend(Waiting(sub), p);
      State(s.subs[id := sub.(queued := sub.queued[..sub.taken] + sent)],
            s.pushes[p := push.(pending := push.pending - {id})],
            if sent == Waiting(sub) then s.dropped + {(p, id)} else s.dropped)
  }

  ghost predicate Runs(s: State, acts: seq<Action>, t: State)
    decreases |acts|
  {
    if acts == [] then s == t
    else Enabled(s, acts[0]) && Runs(Apply(s, acts[0]), acts[1..], t)
  }

  const START := State([], [], {})

  ghost predicate Reachable(t: State) {
    exists acts :: Runs(START, acts, t)
  }

  /** What the consumer has been sent. */
  function Written(sub: Sub): seq<Out>
    requires sub.written <= |sub.queued|
  {
    (if sub.synced then [Synced] else []) + Events(sub.queued[..sub.written])
  }

  function Events(ps: seq<nat>): (r: seq<Out>)
    ensures |r| == |ps| && forall i :: 0 <= i < |r| ==> r[i] == Event(ps[i])
  {
    if ps == [] then [] else [Event(ps[0])] + Events(ps[1..])
  }

  // ---- the invariant ----

  ghost predicate SubFits(s: State, id: nat)
    requires id < |s.subs|
  {
    Fits(s.pushes, id, s.subs[id])
  }

  ghost predicate Fits(pushes: seq<Push>, id: nat, sub: Sub) {
    && sub.written <= sub.taken <= |sub.queued| && |sub.queued| - sub.taken <= BUFFER
    && (!sub.ended ==> sub.registered && sub.written == sub.taken)
    && (!sub.synced ==> sub.written == sub.taken == 0)
    && (forall i :: 0 <= i < |sub.queued| ==> sub.queued[i] < |pushes| && id !in pushes[sub.queued[i]].pending)
    && (forall i, j :: 0 <= i < j < |sub.queued| ==> sub.queued[i] != sub.queued[j])
    && (forall i, j :: 0 <= i < j < |sub.queued| ==> sub.queued[j] !in pushes[sub.queued[i]].after)
  }

  ghost predicate PushFits(s: State, p: nat)
    requires p < |s.pushes|
  {
    var push := s.pushes[p];
    && push.pending <= push.found
    && (forall q :: q in push.after ==> q < p && s.pushes[q].pending == {})
    && (forall id :: id in push.found ==> id < |s.subs| && Accounted(s, p, id))
    && (forall id :: id in push.synced ==> id < |s.subs| && (id in push.found || s.subs[id].ended))
  }

  ghost predicate Accounted(s: State, p: nat, id: nat)
    requires p < |s.pushes| && id < |s.subs|
  {
    id in s.pushes[p].pending || p in s.subs[id].queued || (p, id) in s.dropped
  }

  ghost predicate Invariant(s: State) {
    && (forall id :: 0 <= id < |s.subs| ==> SubFits(s, id))
    && (forall p :: 0 <= p < |s.pushes| ==> PushFits(s, p))
  }

  lemma BeginKeepsInvariant(s: State)
    requires Invariant(s)
    ensures Invariant(Apply(s, Begin))
  {
    var t := Apply(s, Begin);
    forall id | 0 <= id < |t.subs| ensures SubFits(t, id) {
      assert SubFits(s, id);
    }
    forall p | 0 <= p < |t.pushes| ensures PushFits(t, p) {
      if p < |s.pushes| {
        assert PushFits(s, p);
        assert forall id :: id in s.pushes[p].found ==> Accounted(s, p, id);
      } else {
        assert forall id :: id in SyncedIds(s) ==> SubFits(s, id);
      }
    }
  }

  /** The pushes once one of them has visited a subscriber. */
  function Visited(pushes: seq<Push>, p: nat, id: nat): seq<Push>
    requires p < |pushes|
  {
    var push := pushes[p];
    pushes[p := push.(pending := push.pending - {id})]
  }

  lemma VisitKeepsFit(pushes: seq<Push>, p: nat, id: nat, k: nat, sub: Sub)
    requires p < |pushes| && Fits(pushes, k, sub)
    ensures Fits(Visited(pushes, p, id), k, sub)
  {
  }

  /** A visit that finds room queues its push after those queued before, none of which came after it. */
  lemma QueueKeepsFit(pushes: seq<Push>, p: nat, id: nat, sub: Sub)
    requires p < |pushes| && id in pushes[p].pending
    requires Fits(pushes, id, sub) && |sub.queued| - sub.taken < BUFFER
    requires forall i :: 0 <= i < |sub.queued| ==> p !in pushes[sub.queued[i]].after
    ensures Fits(Visited(pushes, p, id), id, sub.(queued := sub.queued + [p]))
  {
    var all := sub.queued + [p];
    var now := Visited(pushes, p, id);
    forall i | 0 <= i < |all| ensures all[i] < |now| && id !in now[all[i]].pending {
      if i < |sub.queued| { assert all[i] == sub.queued[i]; }
    }
    forall i, j | 0 <= i < j < |all| ensures all[i] != all[j] && all[j] !in now[all[i]].after {
      assert all[i] == sub.queued[i];
      if j < |sub.queued| { assert all[j] == sub.queued[j]; }
    }
  }

  lemma VisitKeepsSub(s: State, p: nat, id: nat, k: nat)
    requires Invariant(s) && Enabled(s, Visit(p, id)) && k < |s.subs|
    ensures SubFits(Apply(s, Visit(p, id)), k)
  {
    var sub := s.subs[id];
    assert SubFits(s, k) && PushFits(s, p);
    VisitKeepsFit(s.pushes, p, id, k, s.subs[k]);
    if k == id {
      assert sub.queued[..sub.taken] + sub.queued[sub.taken..] == sub.queued;
      if |sub.queued| - sub.taken < BUFFER {
        forall i | 0 <= i < |sub.queued| ensures p !in s.pushes[sub.queued[i]].after {
          assert PushFits(s, sub.queued[i]);
        }
        QueueKeepsFit(s.pushes, p, id, sub);
        assert sub.queued[..sub.taken] + (sub.queued[sub.taken..] + [p]) == sub.queued + [p];
      }
    }
  }

  lemma VisitKeepsPush(s: State, p: nat, id: nat, q: nat)
    requires Invariant(s) && Enabled(s, Visit(p, id)) && q < |s.pushes|
    ensures PushFits(Apply(s, Visit(p, id)), q)
  {
    var t := Apply(s, Visit(p, id));
    var sub, sub' := s.subs[id], t.subs[id];
    assert SubFits(s, id) && PushFits(s, q);
    assert sub.queued[..sub.taken] + sub.queued[sub.taken..] == sub.queued;
    assert sub'.queued == if |sub.queued| - sub.taken < BUFFER then sub.queued + [p] else sub.queued;
    forall k | k in t.pushes[q].found ensures k < |t.subs| && Accounted(t, q, k) {
      assert Accounted(s, q, k);
      if k == id && q in sub.queued { assert q in sub'.queued; }
      if k == id && q == p && |sub'.queued| > |sub.queued| { assert sub'.queued[|sub.queued|] == p; }
    }
  }

  lemma VisitKeepsInvariant(s: State, p: nat, id: nat)
    requires Invariant(s) && Enabled(s, Visit(p, id))
    ensures Invariant(Apply(s, Visit(p, id)))
    ensures (p, id) in Apply(s, Visit(p, id)).dropped && (p, id) !in s.dropped ==> |Waiting(s.subs[id])| == BUFFER
  {
    var t := Apply(s, Visit(p, id));
    var sub, sub' := s.subs[id], t.subs[id];
    assert SubFits(s, id) && PushFits(s, p);
    assert sub.queued[..sub.taken] + sub.queued[sub.taken..] == sub.queued;
    assert sub'.queued == if |sub.queued| - sub.taken < BUFFER then sub.queued + [p] else sub.queued;
    forall k | 0 <= k < |t.subs| ensures SubFits(t, k) {
      VisitKeepsSub(s, p, id, k);
    }
    forall q | 0 <= q < |t.pushes| ensures PushFits(t, q) {
      VisitKeepsPush(s, p, id, q);
    }
  }

  /** A handler's own step: its channel keeps what was queued, and it neither returns nor forgets Synced. */
  lemma HandlerKeepsInvariant(s: State, t: State, id: nat)
    requires Invariant(s) && id < |s.subs| == |t.subs| && t == s.(subs := s.subs[id := t.subs[id]])
    requires var sub, sub' := s.subs[id], t.subs[id];
             && sub'.queued == sub.queued && sub'.written <= sub'.taken <= |sub.queued| && sub.taken <= sub'.taken
             && (sub.ended ==> sub'.ended) && (!sub'.ended ==> sub'.registered && sub'.written == sub'.taken)
             && (!sub'.synced ==> sub'.written == sub'.taken == 0)
    ensures Invariant(t)
  {
    forall k | 0 <= k < |t.subs| ensures SubFits(t, k) {
      assert SubFits(s, k);
    }
    forall p | 0 <= p < |t.pushes| ensures PushFits(t, p) {
      assert PushFits(s, p);
      assert forall k :: k in s.pushes[p].found ==> Accounted(s, p, k) && (Accounted(t, p, k) <==> Accounted(s, p, k));
    }
  }

  lemma SubscribeKeepsInvariant(s: State)
    requires Invariant(s)
    ensures Invariant(Apply(s, Subscribe))
  {
    var t := Apply(s, Subscribe);
    forall k | 0 <= k < |t.subs| ensures SubFits(t, k) {
      if k < |s.subs| { assert SubFits(s, k); }
    }
    forall p | 0 <= p < |t.pushes| ensures PushFits(t, p) {
      assert PushFits(s, p);
      assert forall k :: k in s.pushes[p].found ==> Accounted(s, p, k) && (Accounted(t, p, k) <==> Accounted(s, p, k));
    }
  }

  lemma StepKeepsInvariant(s: State, a: Action)
    requires Invariant(s) && Enabled(s, a)
    ensures Invariant(Apply(s, a))
  {
    match a
    case Subscribe => SubscribeKeepsInvariant(s);
    case Begin => BeginKeepsInvariant(s);
    case Visit(p, id) => VisitKeepsInvariant(s, p, id);
    case _ =>
      assert SubFits(s, a.id);
      HandlerKeepsInvariant(s, Apply(s, a), a.id);
  }

  lemma {:induction false} InvariantHolds(s: State, acts: seq<Action>, t: State)
    requires Invariant(s) && Runs(s, acts, t)
    ensures Invariant(t)
    decreases |acts|
  {
    if acts != [] {
      StepKeepsInvariant(s, acts[0]);
      InvariantHolds(Apply(s, acts[0]), acts[1..], t);
    }
  }

  lemma ReachableFits(t: State)
    requires Reachable(t)
    ensures Invariant(t)
  {
    var acts :| Runs(START, acts, t);
    InvariantHolds(START, acts, t);
  }

  // ---- the theorems ----

  /** The first thing a consumer gets is Synced; after it come pushes, none twice, and never one that was
      over before an earlier one began. */
  lemma SyncedFirstThenInOrder(t: State, id: nat)
    requires Reachable(t) && id < |t.subs|
    ensures
      var sub := t.subs[id];
      && sub.written <= |sub.queued|
      && (Written(sub) != [] ==> Written(sub)[0] == Synced)
      && (forall i :: 1 <= i < |Written(sub)| ==> Written(sub)[i].Event? && Written(sub)[i].push < |t.pushes|)
      && (forall i, j :: 1 <= i < j < |Written(sub)| ==>
            && Written(sub)[i].push != Written(sub)[j].push
            && Written(sub)[j].push !in t.pushes[Written(sub)[i].push].after)
  {
    ReachableFits(t);
    assert SubFits(t, id);
    var sub := t.subs[id];
    var w := Written(sub);
    if sub.synced {
      assert forall i :: 1 <= i < |w| ==> w[i] == Event(sub.queued[i - 1]);
    } else {
      assert w == [];
    }
  }

  /**
   Nothing is missed silently. A push begun after a subscriber's Synced was written, and since over, has
   been written to it or is waiting in its channel, unless the visit found the channel full or the
   subscriber's stream has ended.
  */
  lemma NothingIsMissedSilently(t: State, p: nat, id: nat)
    requires Reachable(t) && p < |t.pushes| && t.pushes[p].pending == {} && id in t.pushes[p].synced
    ensures id < |t.subs|
    ensures
      var sub := t.subs[id];
      && sub.written <= |sub.queued| && sub.taken <= |sub.queued|
      && (Event(p) in Written(sub) || p in Waiting(sub) || (p, id) in t.dropped || sub.ended)
  {
    ReachableFits(t);
    assert PushFits(t, p);
    assert SubFits(t, id);
    var sub := t.subs[id];
    if !sub.ended {
      assert Accounted(t, p, id);
      if p in sub.queued {
        var i :| 0 <= i < |sub.queued| && sub.queued[i] == p;
        if i < sub.taken {
          assert sub.queued[..sub.written][i] == p;
          var events := Events(sub.queued[..sub.written]);
          assert events[i] == Event(p);
          assert Event(p) in events;
        } else {
          assert Waiting(sub)[i - sub.taken] == p;
        }
      }
    }
  }

  /** A visit is recorded as dropped only if it found all sixteen slots taken. */
  lemma DropsFindAFullChannel(t: State, a: Action, p: nat, id: nat)
    requires Reachable(t) && Enabled(t, a) && (p, id) !in t.dropped && (p, id) in Apply(t, a).dropped
    ensures a == Visit(p, id) && |Waiting(t.subs[id])| == 16
  {
    ReachableFits(t);
    if a.Visit? {
      VisitKeepsInvariant(t, a.p, a.id);
    }
  }
}
