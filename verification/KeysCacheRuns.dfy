/**
 keys/key_cache.go under concurrency: any number of goroutines in GetAt, any interleaving of their lock
 sections, fetches that succeed, fail or panic, waits that are cancelled, and clocks read in any order.
*/
module KeysCacheRuns {
  import opened Basics
  import opened KeySets
  import opened KeysCaches

  /** One GetAt call; had says whether its first snapshot held a document, and begun, which is history, how
      many attempts were recorded then. */
  datatype Ask = Ask(kid: Kid, now: int, had: bool, begun: nat)

  /** A fetch that returned, at the instant its caller was called with. */
  datatype Attempt = Attempt(now: int, got: Fetched)

  /** How a call got past the hot path to its final snapshot. */
  datatype Route =
    | Hot
    | AfterThrottle(n: nat)     // the budget was read when n attempts had been recorded
    | AfterLead(k: nat)         // its own fetch was attempt k
    | AfterJoin(channel: nat)   // it waited for this channel until it closed
    | AfterCancel               // it stopped waiting

  datatype PC =
    | Idle
    | Refetching(ask: Ask)
    | Fetching(ask: Ask, channel: nat)                          // the request is out, no lock held
    | Recording(ask: Ask, channel: nat, got: Fetched)
    | Releasing(ask: Ask, channel: nat, ran: Option<nat>)       // ran: the attempt recorded; None after a panic
    | Closing(ask: Ask, channel: nat, ran: Option<nat>)
    | Waiting(ask: Ask, channel: nat)
    | Reading(ask: Ask, channel: nat)
    | Finishing(ask: Ask, err: Option<Error>, route: Route)

  /** A return of GetAt; seen counts the attempts recorded when it took its last snapshot. */
  datatype Return = Return(caller: nat, ask: Ask, answer: Answer, route: Route, seen: nat)

  /** owners, attempts, recorded and answers are history: the caller that made each channel, the fetches
      that returned in order, what each channel's fetch recorded, and the calls that returned. */
  datatype Sys = Sys(
    cache: Cache,
    pcs: map<nat, PC>,
    owners: seq<nat>,
    attempts: seq<Attempt>,
    recorded: map<nat, Option<nat>>,
    answers: seq<Return>)

  datatype Action =
    | Call(c: nat, kid: Kid, now: int)
    | Refetch(c: nat)
    | FetchEnds(c: nat, got: Fetched)
    | Panic(c: nat)
    | Record(c: nat)
    | Release(c: nat)
    | Close(c: nat)
    | Wake(c: nat)
    | Cancel(c: nat, why: Error)
    | ReadErr(c: nat)
    | GetEnds(c: nat)

  function At(s: Sys, c: nat): PC {
    if c in s.pcs then s.pcs[c] else Idle
  }

  ghost predicate Enabled(s: Sys, a: Action) {
    match a
    case Call(c, _, _) => At(s, c).Idle?
    case Refetch(c) => At(s, c).Refetching?
    case FetchEnds(c, _) => At(s, c).Fetching?
    case Panic(c) => At(s, c).Fetching?
    case Record(c) => At(s, c).Recording?
    case Release(c) => At(s, c).Releasing?
    case Close(c) => At(s, c).Closing? && At(s, c).channel < |s.cache.closed|
                     && (At(s, c).ran.Some? ==> At(s, c).ran.value < |s.attempts|)
    case Wake(c) => At(s, c).Waiting? && At(s, c).channel < |s.cache.closed| && s.cache.closed[At(s, c).channel]
    case Cancel(c, _) => At(s, c).Waiting?
    case ReadErr(c) => At(s, c).Reading?
    case GetEnds(c) => At(s, c).Finishing?
  }

  function ErrOf(got: Fetched): Option<Error> {
    if got.Failed? then Some(got.error) else None
  }

  ghost function Apply(s: Sys, a: Action): Sys
    requires Enabled(s, a)
  {
    match a
    case Call(c, kid, now) =>
      var hot := HotPath(s.cache, kid, now);
      var ask := Ask(kid, now, s.cache.keys.Some?, |s.attempts|);
      if hot.Some? then s.(answers := s.answers + [Return(c, ask, Key(hot.value), Hot, |s.attempts|)])
      else s.(pcs := s.pcs[c := Refetching(ask)])
    case Refetch(c) =>
      var ask := s.pcs[c].ask;
      var (cache, e) := RefetchSection(s.cache, ask.now);
      (match e
       case Join(ch) => s.(pcs := s.pcs[c := Waiting(ask, ch)])
       case Throttled(err) => s.(pcs := s.pcs[c := Finishing(ask, err, AfterThrottle(|s.attempts|))])
       case Lead(ch) => s.(cache := cache, owners := s.owners + [c], pcs := s.pcs[c := Fetching(ask, ch)]))
    case FetchEnds(c, got) =>
      s.(pcs := s.pcs[c := Recording(s.pcs[c].ask, s.pcs[c].channel, got)])
    case Panic(c) =>
      s.(recorded := s.recorded[s.pcs[c].channel := None],
         pcs := s.pcs[c := Releasing(s.pcs[c].ask, s.pcs[c].channel, None)])
    case Record(c) =>
      var pc := s.pcs[c];
      s.(cache := RecordSection(s.cache, pc.ask.now, pc.got),
         attempts := s.attempts + [Attempt(pc.ask.now, pc.got)],
         recorded := s.recorded[pc.channel := Some(|s.attempts|)],
         pcs := s.pcs[c := Releasing(pc.ask, pc.channel, Some(|s.attempts|))])
    case Release(c) =>
      s.(cache := ReleaseSection(s.cache),
         pcs := s.pcs[c := Closing(s.pcs[c].ask, s.pcs[c].channel, s.pcs[c].ran)])
    case Close(c) =>
      var pc := s.pcs[c];
      s.(cache := s.cache.(closed := s.cache.closed[pc.channel := true]),
         pcs := s.pcs[c := if pc.ran.Some?
                           then Finishing(pc.ask, ErrOf(s.attempts[pc.ran.value].got), AfterLead(pc.ran.value))
                           else Idle])
    case Wake(c) =>
      s.(pcs := s.pcs[c := Reading(s.pcs[c].ask, s.pcs[c].channel)])
    case Cancel(c, why) =>
      s.(pcs := s.pcs[c := Finishing(s.pcs[c].ask, Some(why), AfterCancel)])
    case ReadErr(c) =>
      s.(pcs := s.pcs[c := Finishing(s.pcs[c].ask, s.cache.lastErr, AfterJoin(s.pcs[c].channel))])
    case GetEnds(c) =>
      var pc := s.pcs[c];
      var answer := Finish(s.cache, pc.ask.kid, pc.ask.now, pc.ask.had, pc.err);
      s.(pcs := s.pcs[c := Idle],
         answers := s.answers + [Return(c, pc.ask, answer, pc.route, |s.attempts|)])
  }

  ghost predicate Runs(s: Sys, acts: seq<Action>, t: Sys)
    decreases |acts|
  {
    if acts == [] then s == t
    else Enabled(s, acts[0]) && Runs(Apply(s, acts[0]), acts[1..], t)
  }

  ghost function Start(timing: Timing): Sys {
    Sys(Empty(timing), map[], [], [], map[], [])
  }

  ghost predicate Reachable(timing: Timing, t: Sys) {
    exists acts :: Runs(Start(timing), acts, t)
  }

  // ---- single flight ----

  /** The caller holds the slot: a fetch is out, or its outcome is being recorded and the slot released. */
  predicate Holds(pc: PC) {
    pc.Fetching? || pc.Recording? || pc.Releasing?
  }

  /** The caller will close its channel. */
  predicate Owns(pc: PC) {
    Holds(pc) || pc.Closing?
  }

  ghost predicate CallerFits(s: Sys, c: nat)
    requires |s.owners| == |s.cache.closed| && c in s.pcs
  {
    var pc := s.pcs[c];
    && (Owns(pc) || pc.Waiting? || pc.Reading? ==> pc.channel < |s.owners|)
    && (Owns(pc) ==> !s.cache.closed[pc.channel] && s.owners[pc.channel] == c)
    && (Holds(pc) ==> s.cache.inflight == Some(pc.channel))
    && (pc.Reading? ==> s.cache.closed[pc.channel])
  }

  /** An open channel is owned by the caller that made it, who will close it. */
  ghost predicate ChannelFits(s: Sys, k: nat)
    requires |s.owners| == |s.cache.closed| && k < |s.owners|
  {
    !s.cache.closed[k] ==>
      && s.owners[k] in s.pcs && Owns(s.pcs[s.owners[k]]) && s.pcs[s.owners[k]].channel == k
      && (s.cache.inflight == Some(k) <==> Holds(s.pcs[s.owners[k]]))
  }

  ghost predicate Shape(s: Sys) {
    && |s.owners| == |s.cache.closed|
    && (forall c :: c in s.pcs ==> CallerFits(s, c))
    && (forall k :: 0 <= k < |s.owners| ==> ChannelFits(s, k))
    && (s.cache.inflight.Some? ==> s.cache.inflight.value < |s.owners| && !s.cache.closed[s.cache.inflight.value])
  }

  /** Caller c moves on, and neither the slot nor the channels change. */
  lemma AdvanceKeepsShape(s: Sys, t: Sys, c: nat)
    requires Shape(s) && c in t.pcs && t.pcs == s.pcs[c := t.pcs[c]] && t.owners == s.owners
    requires t.cache.inflight == s.cache.inflight && t.cache.closed == s.cache.closed
    requires Owns(t.pcs[c]) == Owns(At(s, c)) && Holds(t.pcs[c]) == Holds(At(s, c))
    requires Owns(t.pcs[c]) ==> t.pcs[c].channel == s.pcs[c].channel
    requires t.pcs[c].Waiting? || t.pcs[c].Reading? ==> t.pcs[c].channel < |t.owners|
    requires t.pcs[c].Reading? ==> t.cache.closed[t.pcs[c].channel]
    ensures Shape(t)
  {
    forall d | d in t.pcs ensures CallerFits(t, d) {
      if d in s.pcs { assert CallerFits(s, d); }
    }
    forall k | 0 <= k < |t.owners| ensures ChannelFits(t, k) {
      assert ChannelFits(s, k);
    }
  }

  lemma LeadKeepsShape(s: Sys, t: Sys, c: nat, ask: Ask)
    requires Shape(s) && !Owns(At(s, c)) && s.cache.inflight.None?
    requires t.owners == s.owners + [c] && t.pcs == s.pcs[c := Fetching(ask, |s.owners|)]
    requires t.cache == s.cache.(inflight := Some(|s.owners|), closed := s.cache.closed + [false])
    ensures Shape(t)
  {
    forall d | d in t.pcs ensures CallerFits(t, d) {
      if d != c { assert CallerFits(s, d); }
    }
    forall k | 0 <= k < |t.owners| ensures ChannelFits(t, k) {
      if k < |s.owners| { assert ChannelFits(s, k); }
    }
  }

  lemma ReleaseKeepsShape(s: Sys, c: nat)
    requires Shape(s) && Enabled(s, Release(c))
    ensures Shape(Apply(s, Release(c)))
  {
    var t := Apply(s, Release(c));
    assert CallerFits(s, c);
    forall d | d in t.pcs ensures CallerFits(t, d) {
      assert CallerFits(s, d);
    }
    forall k | 0 <= k < |t.owners| ensures ChannelFits(t, k) {
      assert ChannelFits(s, k);
      if !s.cache.closed[k] { assert CallerFits(s, s.owners[k]); }
    }
  }

  lemma CloseKeepsShape(s: Sys, c: nat)
    requires Shape(s) && Enabled(s, Close(c))
    ensures Shape(Apply(s, Close(c)))
  {
    var t := Apply(s, Close(c));
    assert CallerFits(s, c);
    assert ChannelFits(s, s.pcs[c].channel);
    forall d | d in t.pcs ensures CallerFits(t, d) {
      assert CallerFits(s, d);
    }
    forall k | 0 <= k < |t.owners| ensures ChannelFits(t, k) {
      assert ChannelFits(s, k);
    }
  }

  lemma CallKeepsShape(s: Sys, c: nat, kid: Kid, now: int)
    requires Shape(s) && Enabled(s, Call(c, kid, now))
    ensures Shape(Apply(s, Call(c, kid, now)))
  {
    var t := Apply(s, Call(c, kid, now));
    if t.pcs != s.pcs {
      AdvanceKeepsShape(s, t, c);
    } else {
      forall d | d in t.pcs ensures CallerFits(t, d) { assert CallerFits(s, d); }
      forall k | 0 <= k < |t.owners| ensures ChannelFits(t, k) { assert ChannelFits(s, k); }
    }
  }

  lemma StepKeepsShape(s: Sys, a: Action)
    requires Shape(s) && Enabled(s, a)
    ensures Shape(Apply(s, a))
  {
    var t := Apply(s, a);
    match a
    case Call(c, kid, now) => CallKeepsShape(s, c, kid, now);
    case Refetch(c) =>
      assert CallerFits(s, c);
      if RefetchSection(s.cache, s.pcs[c].ask.now).1.Lead? {
        LeadKeepsShape(s, t, c, s.pcs[c].ask);
      } else {
        AdvanceKeepsShape(s, t, c);
      }
    case Release(c) => ReleaseKeepsShape(s, c);
    case Close(c) => CloseKeepsShape(s, c);
    case _ =>
      assert CallerFits(s, a.c);
      AdvanceKeepsShape(s, t, a.c);
  }

  // ---- the cache is a function of the attempts ----

  /** The last attempt that got a document. */
  ghost function Latest(attempts: seq<Attempt>): (k: Option<nat>)
    ensures k.Some? ==> k.value < |attempts| && attempts[k.value].got.Got?
    ensures k.Some? ==> forall j :: k.value < j < |attempts| ==> attempts[j].got.Failed?
    ensures k.None? ==> forall j :: 0 <= j < |attempts| ==> attempts[j].got.Failed?
  {
    if attempts == [] then None
    else if attempts[|attempts| - 1].got.Got? then Some(|attempts| - 1)
    else Latest(attempts[..|attempts| - 1])
  }

  ghost function NextFetch(timing: Timing, attempts: seq<Attempt>): int {
    if attempts == [] then 0 else attempts[|attempts| - 1].now + Gap(timing, attempts[|attempts| - 1].got)
  }

  ghost function LastErr(attempts: seq<Attempt>): Option<Error> {
    if attempts == [] then None else ErrOf(attempts[|attempts| - 1].got)
  }

  /** Every fetch that returned started no earlier than the one before it allowed. */
  ghost predicate Spaced(timing: Timing, attempts: seq<Attempt>) {
    forall k :: 0 <= k < |attempts| ==> NextFetch(timing, attempts[..k]) <= attempts[k].now
  }

  ghost predicate CacheFits(s: Sys) {
    var latest := Latest(s.attempts);
    && s.cache.nextFetch == NextFetch(s.cache.timing, s.attempts)
    && s.cache.lastErr == LastErr(s.attempts)
    && (match latest
        case None => s.cache.keys == None
        case Some(k) => s.cache.keys == Some(s.attempts[k].got.keys) && s.cache.lastFetch == s.attempts[k].now)
  }

  ghost predicate WasClosed(s: Sys, ch: nat) {
    ch < |s.cache.closed| && s.cache.closed[ch] && ch in s.recorded
  }

  ghost predicate RouteFits(s: Sys, ask: Ask, err: Option<Error>, route: Route) {
    match route
    case Hot => false
    case AfterThrottle(n) => n <= |s.attempts| && ask.now < NextFetch(s.cache.timing, s.attempts[..n]) && err == LastErr(s.attempts[..n])
    case AfterLead(k) => k < |s.attempts| && s.attempts[k].now == ask.now && err == ErrOf(s.attempts[k].got)
    case AfterJoin(ch) => WasClosed(s, ch) && (s.recorded[ch].Some? ==> s.recorded[ch].value < |s.attempts|)
    case AfterCancel => err.Some?
  }

  ghost predicate StageFits(s: Sys, c: nat)
    requires c in s.pcs
  {
    var pc := s.pcs[c];
    && (pc.Fetching? || pc.Recording? ==> s.cache.nextFetch <= pc.ask.now)
    && (pc.Releasing? || pc.Closing? ==> pc.channel in s.recorded && s.recorded[pc.channel] == pc.ran)
    && ((pc.Releasing? || pc.Closing?) && pc.ran.Some? ==> pc.ran.value < |s.attempts| && s.attempts[pc.ran.value].now == pc.ask.now)
    && (pc.Finishing? ==> RouteFits(s, pc.ask, pc.err, pc.route))
  }

  /** What an answer that carries a key may rely on, in terms of the attempts recorded when it was read. */
  ghost predicate AnswerFits(s: Sys, i: nat)
    requires i < |s.answers|
  {
    var r := s.answers[i];
    && r.seen <= |s.attempts|
    && (r.answer.Key? ==>
          var done := s.attempts[..r.seen];
          && Latest(done).Some?
          && Lookup(done[Latest(done).value].got.keys, r.ask.kid, r.ask.now) == Some(r.answer.key)
          && (match r.route
              case Hot => r.ask.now - done[Latest(done).value].now < Ttl(s.cache.timing)
              case AfterThrottle(n) => n <= r.seen && r.ask.now < NextFetch(s.cache.timing, done[..n])
              case AfterLead(k) => k < r.seen && done[k].now == r.ask.now
              case AfterJoin(ch) => WasClosed(s, ch) && (s.recorded[ch].Some? ==> s.recorded[ch].value < r.seen)
              case AfterCancel => true))
  }

  ghost predicate History(s: Sys) {
    && CacheFits(s)
    && Spaced(s.cache.timing, s.attempts)
    && (forall c :: c in s.pcs ==> StageFits(s, c))
    && (forall i :: 0 <= i < |s.answers| ==> AnswerFits(s, i))
    && (forall k :: 0 <= k < |s.cache.closed| && s.cache.closed[k] ==> WasClosed(s, k))
    && (forall k :: k in s.recorded && s.recorded[k].Some? ==> s.recorded[k].value < |s.attempts|)
  }

  /** What never changes: attempts are appended, closed channels stay closed and keep what they recorded. */
  ghost predicate Extends(s: Sys, t: Sys) {
    && t.cache.timing == s.cache.timing
    && s.attempts <= t.attempts
    && (forall k :: WasClosed(s, k) ==> WasClosed(t, k) && t.recorded[k] == s.recorded[k])
  }

  lemma RoutesKept(s: Sys, t: Sys, ask: Ask, err: Option<Error>, route: Route)
    requires Extends(s, t) && RouteFits(s, ask, err, route)
    ensures RouteFits(t, ask, err, route)
  {
    if route.AfterThrottle? {
      assert t.attempts[..route.n] == s.attempts[..route.n];
    }
  }

  lemma AnswersKept(s: Sys, t: Sys, i: nat)
    requires Extends(s, t) && i < |s.answers| && i < |t.answers| && t.answers[i] == s.answers[i] && AnswerFits(s, i)
    ensures AnswerFits(t, i)
  {
    var r := s.answers[i];
    assert t.attempts[..r.seen] == s.attempts[..r.seen];
  }

  /** Caller c moves to a fitting stage; attempts, recorded, and the budget stay. */
  lemma QuietKeepsHistory(s: Sys, t: Sys, c: nat)
    requires History(s) && t.attempts == s.attempts && t.recorded == s.recorded
    requires t.cache.(inflight := None, closed := []) == s.cache.(inflight := None, closed := [])
    requires t.pcs == s.pcs || (c in t.pcs && t.pcs == s.pcs[c := t.pcs[c]] && StageFits(t, c))
    requires forall k :: 0 <= k < |t.cache.closed| && t.cache.closed[k] ==> WasClosed(t, k)
    requires forall k :: WasClosed(s, k) ==> WasClosed(t, k)
    requires t.answers == s.answers || (|t.answers| == |s.answers| + 1 && t.answers[..|s.answers|] == s.answers && AnswerFits(t, |s.answers|))
    ensures History(t)
  {
    assert Extends(s, t);
    forall d | d in t.pcs ensures StageFits(t, d) {
      if d != c || t.pcs == s.pcs {
        assert StageFits(s, d);
        if s.pcs[d].Finishing? { RoutesKept(s, t, s.pcs[d].ask, s.pcs[d].err, s.pcs[d].route); }
      }
    }
    forall i | 0 <= i < |t.answers| ensures AnswerFits(t, i) {
      if i < |s.answers| { AnswersKept(s, t, i); }
    }
  }

  lemma LatestOfAll(s: Sys)
    ensures s.attempts[..|s.attempts|] == s.attempts
  {
  }

  lemma CallKeepsHistory(s: Sys, c: nat, kid: Kid, now: int)
    requires History(s) && Enabled(s, Call(c, kid, now))
    ensures History(Apply(s, Call(c, kid, now)))
  {
    LatestOfAll(s);
    QuietKeepsHistory(s, Apply(s, Call(c, kid, now)), c);
  }

  lemma RefetchKeepsHistory(s: Sys, c: nat)
    requires Shape(s) && History(s) && Enabled(s, Refetch(c))
    ensures History(Apply(s, Refetch(c)))
  {
    LatestOfAll(s);
    var t := Apply(s, Refetch(c));
    assert forall k :: 0 <= k < |t.cache.closed| && t.cache.closed[k] ==> WasClosed(s, k);
    QuietKeepsHistory(s, t, c);
  }

  lemma CloseKeepsHistory(s: Sys, c: nat)
    requires Shape(s) && History(s) && Enabled(s, Close(c))
    ensures History(Apply(s, Close(c)))
  {
    assert StageFits(s, c);
    var t := Apply(s, Close(c));
    assert forall k :: 0 <= k < |t.cache.closed| && t.cache.closed[k] && k != s.pcs[c].channel ==> WasClosed(s, k);
    QuietKeepsHistory(s, t, c);
  }

  lemma ReturnKeepsHistory(s: Sys, c: nat)
    requires History(s) && Enabled(s, GetEnds(c))
    ensures History(Apply(s, GetEnds(c)))
  {
    LatestOfAll(s);
    assert StageFits(s, c);
    var t := Apply(s, GetEnds(c));
    QuietKeepsHistory(s, t, c);
  }

  lemma PanicKeepsHistory(s: Sys, c: nat)
    requires Shape(s) && History(s) && Enabled(s, Panic(c))
    ensures History(Apply(s, Panic(c)))
  {
    var t := Apply(s, Panic(c));
    assert CallerFits(s, c) && StageFits(s, c);
    assert Extends(s, t);
    forall d | d in t.pcs ensures StageFits(t, d) {
      assert StageFits(s, d) && CallerFits(s, d);
      if s.pcs[d].Finishing? { RoutesKept(s, t, s.pcs[d].ask, s.pcs[d].err, s.pcs[d].route); }
    }
    forall i | 0 <= i < |t.answers| ensures AnswerFits(t, i) {
      AnswersKept(s, t, i);
    }
  }

  /** One more attempt, begun when the budget allowed. */
  lemma SpacedWith(timing: Timing, attempts: seq<Attempt>, a: Attempt)
    requires Spaced(timing, attempts) && NextFetch(timing, attempts) <= a.now
    ensures Spaced(timing, attempts + [a])
  {
    forall k | 0 <= k < |attempts| + 1 ensures NextFetch(timing, (attempts + [a])[..k]) <= (attempts + [a])[k].now {
      PrefixWith(attempts, a, k);
    }
  }

  lemma PrefixWith(attempts: seq<Attempt>, a: Attempt, k: nat)
    requires k <= |attempts|
    ensures (attempts + [a])[..k] == attempts[..k] && attempts[..|attempts|] == attempts
  {
  }

  lemma LatestWith(attempts: seq<Attempt>, a: Attempt)
    ensures Latest(attempts + [a]) == if a.got.Got? then Some(|attempts|) else Latest(attempts)
  {
    assert (attempts + [a])[..|attempts|] == attempts;
  }

  lemma RecordKeepsBudget(s: Sys, c: nat)
    requires Shape(s) && History(s) && Enabled(s, Record(c))
    ensures var t := Apply(s, Record(c)); CacheFits(t) && Spaced(t.cache.timing, t.attempts)
  {
    assert StageFits(s, c);
    SpacedWith(s.cache.timing, s.attempts, Attempt(s.pcs[c].ask.now, s.pcs[c].got));
    LatestWith(s.attempts, Attempt(s.pcs[c].ask.now, s.pcs[c].got));
  }

  lemma RecordExtends(s: Sys, c: nat)
    requires Shape(s) && History(s) && Enabled(s, Record(c))
    ensures Extends(s, Apply(s, Record(c)))
  {
    assert CallerFits(s, c);
  }

  lemma RecordKeepsStage(s: Sys, c: nat, d: nat)
    requires Shape(s) && History(s) && Enabled(s, Record(c)) && d in s.pcs
    ensures StageFits(Apply(s, Record(c)), d)
  {
    RecordExtends(s, c);
    assert StageFits(s, d) && CallerFits(s, d) && CallerFits(s, c);
    if s.pcs[d].Finishing? { RoutesKept(s, Apply(s, Record(c)), s.pcs[d].ask, s.pcs[d].err, s.pcs[d].route); }
  }

  lemma RecordKeepsHistory(s: Sys, c: nat)
    requires Shape(s) && History(s) && Enabled(s, Record(c))
    ensures History(Apply(s, Record(c)))
  {
    var t := Apply(s, Record(c));
    RecordKeepsBudget(s, c);
    RecordExtends(s, c);
    forall d | d in t.pcs ensures StageFits(t, d) {
      RecordKeepsStage(s, c, d);
    }
    forall i | 0 <= i < |t.answers| ensures AnswerFits(t, i) {
      AnswersKept(s, t, i);
    }
    forall k | 0 <= k < |t.cache.closed| && t.cache.closed[k] ensures WasClosed(t, k) {
      assert WasClosed(s, k);
    }
  }

  lemma MoveKeepsHistory(s: Sys, a: Action)
    requires Shape(s) && History(s) && Enabled(s, a)
    requires a.FetchEnds? || a.Release? || a.Wake? || a.Cancel? || a.ReadErr?
    ensures History(Apply(s, a))
  {
    assert StageFits(s, a.c) && CallerFits(s, a.c);
    LatestOfAll(s);
    var t := Apply(s, a);
    match a
    case FetchEnds(c, _) => QuietKeepsHistory(s, t, c);
    case Release(c) => QuietKeepsHistory(s, t, c);
    case Wake(c) => QuietKeepsHistory(s, t, c);
    case Cancel(c, _) => QuietKeepsHistory(s, t, c);
    case ReadErr(c) => QuietKeepsHistory(s, t, c);
  }

  lemma StepKeepsHistory(s: Sys, a: Action)
    requires Shape(s) && History(s) && Enabled(s, a)
    ensures History(Apply(s, a))
  {
    match a
    case Call(c, kid, now) => CallKeepsHistory(s, c, kid, now);
    case Refetch(c) => RefetchKeepsHistory(s, c);
    case Panic(c) => PanicKeepsHistory(s, c);
    case Record(c) => RecordKeepsHistory(s, c);
    case Close(c) => CloseKeepsHistory(s, c);
    case GetEnds(c) => ReturnKeepsHistory(s, c);
    case _ => MoveKeepsHistory(s, a);
  }

  lemma {:induction false} InvariantHolds(s: Sys, acts: seq<Action>, t: Sys)
    requires Shape(s) && History(s) && Runs(s, acts, t)
    ensures Shape(t) && History(t) && t.cache.timing == s.cache.timing
    decreases |acts|
  {
    if acts != [] {
      var next := FirstStep(s, acts, t);
      InvariantHolds(next, acts[1..], t);
    }
  }

  lemma StepKeeps(s: Sys, a: Action) returns (t: Sys)
    requires Shape(s) && History(s) && Enabled(s, a)
    ensures t == Apply(s, a) && Shape(t) && History(t)
  {
    t := Apply(s, a);
    StepKeepsShape(s, a);
    StepKeepsHistory(s, a);
  }

  lemma TimingStays(s: Sys, a: Action)
    requires Enabled(s, a)
    ensures Apply(s, a).cache.timing == s.cache.timing
  {
  }

  lemma FirstStep(s: Sys, acts: seq<Action>, t: Sys) returns (next: Sys)
    requires Shape(s) && History(s) && Runs(s, acts, t) && acts != []
    ensures Shape(next) && History(next) && next.cache.timing == s.cache.timing && Runs(next, acts[1..], t)
  {
    TimingStays(s, acts[0]);
    next := StepKeeps(s, acts[0]);
  }

  lemma ReachableFits(timing: Timing, t: Sys)
    requires Reachable(timing, t)
    ensures Shape(t) && History(t) && t.cache.timing == timing
  {
    var acts :| Runs(Start(timing), acts, t);
    InvariantHolds(Start(timing), acts, t);
  }

  // ---- a call with nobody else running ----

  lemma {:induction false} RunsThen(s: Sys, acts: seq<Action>, t: Sys, a: Action) returns (acts': seq<Action>, t': Sys)
    requires Runs(s, acts, t) && Enabled(t, a)
    ensures Runs(s, acts', t') && acts' == acts + [a] && t' == Apply(t, a)
    decreases |acts|
  {
    acts', t' := acts + [a], Apply(t, a);
    if acts == [] {
      assert acts'[1..] == [];
      assert Runs(t', [], t');
    } else {
      var _, _ := RunsThen(Apply(s, acts[0]), acts[1..], t, a);
      assert acts'[1..] == acts[1..] + [a];
    }
  }

  /** The fetch of a call that leads, from the request to the closing of its channel. */
  lemma LeadAlone(s0: Sys, acts0: seq<Action>, s: Sys, c: nat, got: Fetched) returns (acts: seq<Action>, t: Sys)
    requires Runs(s0, acts0, s) && At(s, c).Fetching? && At(s, c).channel < |s.cache.closed|
    ensures Runs(s0, acts, t) && t.answers == s.answers
    ensures var pc := s.pcs[c];
            var recorded := ReleaseSection(RecordSection(s.cache, pc.ask.now, got));
            && t.cache == recorded.(closed := recorded.closed[pc.channel := true])
            && At(t, c) == Finishing(pc.ask, ErrOf(got), AfterLead(|s.attempts|))
            && t.attempts == s.attempts + [Attempt(pc.ask.now, got)]
  {
    acts, t := RunsThen(s0, acts0, s, FetchEnds(c, got));
    acts, t := RunsThen(s0, acts, t, Record(c));
    acts, t := RunsThen(s0, acts, t, Release(c));
    acts, t := RunsThen(s0, acts, t, Close(c));
  }

  /** A call that nobody overlaps is a run, by the hot path, the throttle or a fetch, and ends with the cache and the answer
      that GetAt ends with. */
  lemma CallAloneIsARun(s: Sys, c: nat, kid: Kid, now: int, got: Fetched) returns (acts: seq<Action>, t: Sys)
    requires s.cache.inflight.None? && At(s, c).Idle?
    ensures Runs(s, acts, t) && At(t, c).Idle?
    ensures t.cache == GetAtAlone(s.cache, kid, now, got).0
    ensures |t.answers| == |s.answers| + 1 && t.answers[..|s.answers|] == s.answers
    ensures var r := t.answers[|s.answers|];
            r.caller == c && r.ask.kid == kid && r.ask.now == now && r.answer == GetAtAlone(s.cache, kid, now, got).1
    ensures t.attempts == s.attempts || t.attempts == s.attempts + [Attempt(now, got)]
  {
    acts, t := RunsThen(s, [], s, Call(c, kid, now));
    if HotPath(s.cache, kid, now).None? {
      acts, t := RunsThen(s, acts, t, Refetch(c));
      if At(t, c).Fetching? {
        acts, t := LeadAlone(s, acts, t, c, got);
      }
      acts, t := RunsThen(s, acts, t, GetEnds(c));
    }
  }

  // ---- the theorems: single flight ----

  /** At most one fetch is out at any moment, and the slot names the channel its callers wait on. */
  lemma AtMostOneFetch(timing: Timing, t: Sys, c: nat)
    requires Reachable(timing, t) && c in t.pcs && t.pcs[c].Fetching?
    ensures t.cache.inflight == Some(t.pcs[c].channel)
    ensures forall d :: d in t.pcs && (t.pcs[d].Fetching? || t.pcs[d].Recording?) ==> d == c
  {
    ReachableFits(timing, t);
    assert CallerFits(t, c);
    forall d | d in t.pcs && (t.pcs[d].Fetching? || t.pcs[d].Recording?) ensures d == c {
      assert CallerFits(t, d);
    }
  }

  /** Nobody waits on a channel that nobody will close: it is closed, or the one caller that will close it,
      having found it open, is still on its way. */
  lemma WaitersAreServed(timing: Timing, t: Sys, c: nat)
    requires Reachable(timing, t) && c in t.pcs && t.pcs[c].Waiting?
    ensures
      var ch := t.pcs[c].channel;
      && ch < |t.cache.closed|
      && (!t.cache.closed[ch] ==>
            && (exists d :: d in t.pcs && Owns(t.pcs[d]) && t.pcs[d].channel == ch)
            && (forall d, e | d in t.pcs && e in t.pcs && Owns(t.pcs[d]) && Owns(t.pcs[e]) ::
                  t.pcs[d].channel == ch && t.pcs[e].channel == ch ==> d == e))
  {
    ReachableFits(timing, t);
    assert CallerFits(t, c);
    var ch := t.pcs[c].channel;
    assert ChannelFits(t, ch);
    forall d, e | d in t.pcs && e in t.pcs && Owns(t.pcs[d]) && Owns(t.pcs[e])
                  && t.pcs[d].channel == ch && t.pcs[e].channel == ch ensures d == e {
      assert CallerFits(t, d) && CallerFits(t, e);
    }
    if !t.cache.closed[ch] {
      assert Owns(t.pcs[t.owners[ch]]) && t.pcs[t.owners[ch]].channel == ch;
    }
  }

  /** Closing is never done twice, even after a panic. */
  lemma ChannelClosesOnce(timing: Timing, t: Sys, c: nat)
    requires Reachable(timing, t) && c in t.pcs && t.pcs[c].Closing?
    ensures Enabled(t, Close(c)) && !t.cache.closed[t.pcs[c].channel]
  {
    ReachableFits(timing, t);
    assert CallerFits(t, c) && StageFits(t, c);
  }

  // ---- the theorems: how often a document is fetched ----

  function MinGap(timing: Timing): (g: int)
    ensures g > 0
  {
    if MinRefetch(timing) < MinRetry(timing) then MinRefetch(timing) else MinRetry(timing)
  }

  /** Successive fetches are minRefetch apart after a success and minRetry apart after a failure. */
  lemma FetchesAreSpaced(timing: Timing, t: Sys, k: nat)
    requires Reachable(timing, t) && k + 1 < |t.attempts|
    ensures t.attempts[k].got.Got? ==> t.attempts[k + 1].now - t.attempts[k].now >= MinRefetch(timing)
    ensures t.attempts[k].got.Failed? ==> t.attempts[k + 1].now - t.attempts[k].now >= MinRetry(timing)
  {
    ReachableFits(timing, t);
    assert NextFetch(timing, t.attempts[..k + 1]) <= t.attempts[k + 1].now;
  }

  lemma {:induction false} FetchesSpread(timing: Timing, t: Sys, i: nat, j: nat)
    requires Reachable(timing, t) && i <= j < |t.attempts|
    ensures t.attempts[j].now - t.attempts[i].now >= (j - i) * MinGap(timing)
    decreases j
  {
    if i < j {
      FetchesSpread(timing, t, i, j - 1);
      FetchesAreSpaced(timing, t, j - 1);
      assert (j - i) * MinGap(timing) == (j - 1 - i) * MinGap(timing) + MinGap(timing);
    }
  }

  /** The n integers from lo on. */
  ghost function Span(lo: int, n: nat): (r: set<int>)
    ensures |r| == n
    ensures forall k :: k in r <==> lo <= k < lo + n
  {
    if n == 0 then {} else Span(lo, n - 1) + {lo + n - 1}
  }

  /** A window of length L sees at most 1 + L / min(minRefetch, minRetry) fetches, whoever asks for what. */
  lemma FetchRateIsBounded(timing: Timing, t: Sys, from: int, length: nat)
    requires Reachable(timing, t)
    ensures |set k | 0 <= k < |t.attempts| && from <= t.attempts[k].now <= from + length| <= 1 + length / MinGap(timing)
  {
    var g := MinGap(timing);
    var inside := set k | 0 <= k < |t.attempts| && from <= t.attempts[k].now <= from + length;
    if inside != {} {
      var i := Least(inside);
      var q := length / g;
      forall k | k in inside ensures i <= k < i + q + 1 {
        WindowHolds(timing, t, i, k, length);
      }
      assert inside <= Span(i, q + 1);
      SubsetSize(inside, Span(i, q + 1));
    }
  }

  lemma WindowHolds(timing: Timing, t: Sys, i: nat, k: nat, length: nat)
    requires Reachable(timing, t) && i <= k < |t.attempts| && t.attempts[k].now - t.attempts[i].now <= length
    ensures k - i <= length / MinGap(timing)
  {
    FetchesSpread(timing, t, i, k);
    Within(k - i, MinGap(timing), length);
  }

  lemma Within(n: nat, g: int, length: nat)
    requires g > 0 && n * g <= length
    ensures n <= length / g
  {
    var q := length / g;
    if n > q {
      MulMonotone(q + 1, n, g);
    }
  }

  lemma {:induction false} Least(s: set<int>) returns (i: int)
    requires s != {}
    ensures i in s && forall k :: k in s ==> i <= k
    decreases s
  {
    i := Member(s);
    if s != {i} {
      var rest := s - {i};
      assert s == rest + {i};
      var j := Least(rest);
      if j < i { i := j; }
    }
  }

  // ---- the theorems: how old an answer may be ----

  /** The last fetch that had returned when attempt n would have been next, failed. */
  predicate LastFailed(attempts: seq<Attempt>, n: nat) {
    0 < n <= |attempts| && attempts[n - 1].got.Failed?
  }

  lemma {:induction false} SpacedFrom(timing: Timing, attempts: seq<Attempt>, n: nat, k: nat)
    requires Spaced(timing, attempts) && n <= k < |attempts|
    ensures NextFetch(timing, attempts[..n]) <= attempts[k].now
    decreases k
  {
    assert NextFetch(timing, attempts[..k]) <= attempts[k].now;
    if n < k {
      SpacedFrom(timing, attempts, n, k - 1);
      assert attempts[..k][k - 1] == attempts[k - 1];
    }
  }

  /** An answered key is the one the latest document fetched gives for that kid and instant. */
  lemma AnswersComeFromTheLatestDocument(timing: Timing, t: Sys, i: nat)
    requires Reachable(timing, t) && i < |t.answers| && t.answers[i].answer.Key?
    ensures
      var r := t.answers[i];
      && r.seen <= |t.attempts|
      && Latest(t.attempts[..r.seen]).Some?
      && Lookup(t.attempts[Latest(t.attempts[..r.seen]).value].got.keys, r.ask.kid, r.ask.now) == Some(r.answer.key)
  {
    ReachableFits(timing, t);
    assert AnswerFits(t, i);
  }

  /** A kid that the last documents no longer name is not answered, however many fetches have failed since. */
  lemma WithdrawnKidStaysUnknown(timing: Timing, t: Sys, i: nat, p: nat)
    requires Reachable(timing, t) && i < |t.answers| && p < t.answers[i].seen <= |t.attempts|
    requires t.attempts[p].got.Got?
    requires forall q :: p <= q < t.answers[i].seen && t.attempts[q].got.Got? ==> t.answers[i].ask.kid !in t.attempts[q].got.keys
    ensures t.answers[i].answer.Refused?
  {
    ReachableFits(timing, t);
    assert AnswerFits(t, i);
    var done := t.attempts[..t.answers[i].seen];
    assert done[p].got.Got?;
    assert Latest(done).Some? && p <= Latest(done).value;
  }

  /** Why an answer may come from a document that is neither within the ttl nor within the budget. */
  datatype Excuse =
    | NoExcuse
    | FetchFailed                 // the fetch it relied on returned an error
    | FetchPanicked               // or never returned
    | JoinedLater(k: nat)         // it joined a fetch that was recorded, as attempt k, after the call began
    | JoinedRecorded(k: nat)      // it joined one recorded before, whose slot was not free yet
    | Cancelled                   // it gave up waiting

  ghost function ExcuseOf(t: Sys, r: Return): Excuse {
    match r.route
    case Hot => NoExcuse
    case AfterThrottle(n) => if LastFailed(t.attempts, n) then FetchFailed else NoExcuse
    case AfterLead(k) => if LastFailed(t.attempts, k + 1) then FetchFailed else NoExcuse
    case AfterJoin(ch) =>
      if ch !in t.recorded || t.recorded[ch].None? then FetchPanicked
      else
        var k := t.recorded[ch].value;
        if LastFailed(t.attempts, k + 1) then FetchFailed
        else if r.ask.begun <= k then JoinedLater(k)
        else JoinedRecorded(k)
    case AfterCancel => Cancelled
  }

  /** How old the document behind an answer was at the instant of its call. */
  ghost function Age(t: Sys, r: Return): int
    requires r.seen <= |t.attempts| && Latest(t.attempts[..r.seen]).Some?
  {
    r.ask.now - t.attempts[Latest(t.attempts[..r.seen]).value].now
  }

  /** A budget that held the call back when n attempts were recorded bounds the age of what it reads later. */
  lemma BudgetBoundsAge(timing: Timing, done: seq<Attempt>, n: nat, now: int)
    requires Spaced(timing, done) && n <= |done| && Latest(done).Some?
    requires now < NextFetch(timing, done[..n]) && !LastFailed(done, n)
    ensures now - done[Latest(done).value].now < MinRefetch(timing)
  {
    BudgetBounds(timing, done, n, now, Latest(done).value);
  }

  lemma {:induction false} BudgetBounds(timing: Timing, done: seq<Attempt>, n: nat, now: int, latest: nat)
    requires Spaced(timing, done) && n <= |done| && latest < |done|
    requires forall j :: latest < j < |done| ==> done[j].got.Failed?
    requires now < NextFetch(timing, done[..n]) && !LastFailed(done, n)
    ensures now - done[latest].now < MinRefetch(timing)
  {
    if n <= latest {
      SpacedFrom(timing, done, n, latest);
    } else {
      assert done[..n][n - 1] == done[n - 1];
    }
  }

  lemma OwnFetchBoundsAge(timing: Timing, done: seq<Attempt>, k: nat, now: int)
    requires Spaced(timing, done) && k < |done| && Latest(done).Some?
    requires done[k].now == now && !LastFailed(done, k + 1)
    ensures now - done[Latest(done).value].now <= 0
  {
    FetchesRise(timing, done, k, Latest(done).value);
  }

  /** A fetch that got a document is no later than the latest that did. */
  lemma {:induction false} FetchesRise(timing: Timing, done: seq<Attempt>, k: nat, latest: nat)
    requires Spaced(timing, done) && k < |done| && latest < |done|
    requires done[k].got.Got? && forall j :: latest < j < |done| ==> done[j].got.Failed?
    ensures done[k].now <= done[latest].now
  {
    if k < latest {
      SpacedFrom(timing, done, k + 1, latest);
      assert done[..k + 1][k] == done[k];
    }
  }

  /**
   Staleness. A key comes from a document younger than max(ttl, minRefetch), unless the fetch the call
   relied on failed or panicked, or the call gave up waiting. A call that joined a successful fetch is answered
   from that fetch's document or a later one, so no older than that fetch.
  */
  lemma StaleOnlyWhen(timing: Timing, t: Sys, i: nat)
    requires Reachable(timing, t) && i < |t.answers| && t.answers[i].answer.Key?
    ensures t.answers[i].seen <= |t.attempts| && Latest(t.attempts[..t.answers[i].seen]).Some?
    ensures match ExcuseOf(t, t.answers[i])
            case NoExcuse => Age(t, t.answers[i]) < Ttl(timing) || Age(t, t.answers[i]) < MinRefetch(timing)
            case JoinedLater(k) => t.answers[i].ask.begun <= k && NoOlderThan(t, t.answers[i], k)
            case JoinedRecorded(k) => k < t.answers[i].ask.begun && NoOlderThan(t, t.answers[i], k)
            case _ => true
  {
    ReachableFits(timing, t);
    assert AnswerFits(t, i);
    var r := t.answers[i];
    var done := t.attempts[..r.seen];
    SpacedPrefix(timing, t.attempts, r.seen);
    match r.route {
      case AfterThrottle(n) =>
        if !LastFailed(done, n) { BudgetBoundsAge(timing, done, n, r.ask.now); }
      case AfterLead(k) =>
        if !LastFailed(done, k + 1) { OwnFetchBoundsAge(timing, done, k, r.ask.now); }
      case AfterJoin(ch) =>
        if t.recorded[ch].Some? {
          var k := t.recorded[ch].value;
          if !LastFailed(t.attempts, k + 1) { FetchesRise(timing, done, k, Latest(done).value); }
        }
      case _ =>
    }
  }

  /** The document behind the answer is that of attempt k or a later one, and no older. */
  ghost predicate NoOlderThan(t: Sys, r: Return, k: nat)
    requires r.seen <= |t.attempts| && Latest(t.attempts[..r.seen]).Some?
  {
    k < r.seen && t.attempts[k].got.Got? && k <= Latest(t.attempts[..r.seen]).value && Age(t, r) <= r.ask.now - t.attempts[k].now
  }

  lemma SpacedPrefix(timing: Timing, attempts: seq<Attempt>, n: nat)
    requires Spaced(timing, attempts) && n <= |attempts|
    ensures Spaced(timing, attempts[..n])
  {
    forall k | 0 <= k < n ensures NextFetch(timing, attempts[..n][..k]) <= attempts[..n][k].now {
      assert attempts[..n][..k] == attempts[..k];
    }
  }

  // ---- giving up the wait is a further way to an old key ----

  /** One call fetches the document at instant 0; it is recorded, and the slot not yet free. */
  lemma FetchRecorded(timing: Timing, kid: Kid, keys: KeySet) returns (acts: seq<Action>, t: Sys)
    ensures Runs(Start(timing), acts, t) && At(t, 1).Idle? && At(t, 2).Idle? && t.answers == []
    ensures t.cache == Cache(timing, Some(keys), 0, MinRefetch(timing), None, Some(0), [false])
    ensures t.attempts == [Attempt(0, Got(keys))] && t.recorded == map[0 := Some(0)]
    ensures At(t, 0) == Releasing(Ask(kid, 0, false, 0), 0, Some(0))
  {
    var s := Start(timing);
    acts, t := RunsThen(s, [], s, Call(0, kid, 0));
    acts, t := RunsThen(s, acts, t, Refetch(0));
    assert t.pcs[0] == Fetching(Ask(kid, 0, false, 0), 0);
    acts, t := RunsThen(s, acts, t, FetchEnds(0, Got(keys)));
    acts, t := RunsThen(s, acts, t, Record(0));
  }

  /** It is released, the channel closed, and the call returns. */
  lemma LeaderReturns(timing: Timing, kid: Kid, keys: KeySet, acts0: seq<Action>, s: Sys) returns (acts: seq<Action>, t: Sys)
    requires Runs(Start(timing), acts0, s) && At(s, 0) == Releasing(Ask(kid, 0, false, 0), 0, Some(0))
    requires s.cache == Cache(timing, Some(keys), 0, MinRefetch(timing), None, Some(0), [false])
    requires s.attempts == [Attempt(0, Got(keys))]
    ensures Runs(Start(timing), acts, t) && t.pcs == s.pcs[0 := Idle] && t.attempts == s.attempts && t.recorded == s.recorded
    ensures t.cache == Cache(timing, Some(keys), 0, MinRefetch(timing), None, None, [true])
    ensures |t.answers| == |s.answers| + 1
  {
    acts, t := RunsThen(Start(timing), acts0, s, Release(0));
    acts, t := RunsThen(Start(timing), acts, t, Close(0));
    acts, t := RunsThen(Start(timing), acts, t, GetEnds(0));
  }

  /**
   The excuse for a cancelled wait is needed: at any later instant, a call whose wait is cancelled while
   another call's fetch is out answers from the old document, though no fetch has failed or ended.
  */
  lemma CancelledWaitMayBeStale(timing: Timing, kid: Kid, keys: KeySet, now: int)
    requires now >= Ttl(timing) && now >= MinRefetch(timing)
    requires Lookup(keys, kid, now).Some?
    ensures exists t, i: nat :: Reachable(timing, t) && i < |t.answers| && t.answers[i].ask.now == now
                                && t.answers[i].answer.Key? && t.attempts == [Attempt(0, Got(keys))]
                                && ExcuseOf(t, t.answers[i]) == Cancelled
  {
    var s := Start(timing);
    var acts, t := FetchRecorded(timing, kid, keys);
    acts, t := LeaderReturns(timing, kid, keys, acts, t);
    acts, t := SecondFetchOut(timing, kid, keys, now, acts, t);
    acts, t := RunsThen(s, acts, t, Call(2, kid, now));
    acts, t := RunsThen(s, acts, t, Refetch(2));
    acts, t := WaiterGivesUp(s, acts, t, Ask(kid, now, true, 1), 1);
    assert t.answers[1].answer == Key(Lookup(keys, kid, now).value);
    assert Reachable(timing, t);
  }

  lemma SecondFetchOut(timing: Timing, kid: Kid, keys: KeySet, now: int, acts0: seq<Action>, u: Sys) returns (acts: seq<Action>, t: Sys)
    requires now >= Ttl(timing) && now >= MinRefetch(timing)
    requires Runs(Start(timing), acts0, u) && At(u, 1).Idle? && At(u, 2).Idle?
    requires u.cache == Cache(timing, Some(keys), 0, MinRefetch(timing), None, None, [true])
    ensures Runs(Start(timing), acts, t) && At(t, 2).Idle? && t.attempts == u.attempts && t.answers == u.answers
    ensures t.cache == Cache(timing, Some(keys), 0, MinRefetch(timing), None, Some(1), [true, false])
  {
    acts, t := RunsThen(Start(timing), acts0, u, Call(1, kid, now));
    acts, t := RunsThen(Start(timing), acts, t, Refetch(1));
  }

  lemma WaiterGivesUp(s: Sys, acts0: seq<Action>, u: Sys, ask: Ask, ch: nat) returns (acts: seq<Action>, t: Sys)
    requires Runs(s, acts0, u) && At(u, 2) == Waiting(ask, ch)
    ensures Runs(s, acts, t) && t.attempts == u.attempts
    ensures exists err :: t.answers == u.answers + [Return(2, ask, Finish(u.cache, ask.kid, ask.now, ask.had, Some(err)), AfterCancel, |u.attempts|)]
  {
    var why: Error := "context canceled";
    acts, t := RunsThen(s, acts0, u, Cancel(2, why));
    acts, t := RunsThen(s, acts, t, GetEnds(2));
    assert t.answers == u.answers + [Return(2, ask, Finish(u.cache, ask.kid, ask.now, ask.had, Some(why)), AfterCancel, |u.attempts|)];
  }

  /**
   So is the excuse for a join: a call that begins, at any later instant, when a fetch has been recorded and its
   slot is not free yet, joins that fetch and answers from its document. Nothing has failed and nobody gave up.
  */
  lemma JoinMayBeStale(timing: Timing, kid: Kid, keys: KeySet, now: int)
    requires now >= Ttl(timing) && Lookup(keys, kid, now).Some?
    ensures exists t, i: nat :: Reachable(timing, t) && i < |t.answers| && t.answers[i].ask.now == now
                                && t.answers[i].answer.Key? && t.attempts == [Attempt(0, Got(keys))]
                                && ExcuseOf(t, t.answers[i]) == JoinedRecorded(0)
  {
    var s := Start(timing);
    var acts, t := FetchRecorded(timing, kid, keys);
    acts, t := RunsThen(s, acts, t, Call(1, kid, now));
    acts, t := RunsThen(s, acts, t, Refetch(1));
    assert t.pcs[1] == Waiting(Ask(kid, now, true, 1), 0);
    acts, t := LeaderReturns(timing, kid, keys, acts, t);
    acts, t := JoinerReturns(s, acts, t, Ask(kid, now, true, 1));
    assert t.answers[1].answer == Key(Lookup(keys, kid, now).value);
    assert Reachable(timing, t);
  }

  lemma JoinerReturns(s: Sys, acts0: seq<Action>, u: Sys, ask: Ask) returns (acts: seq<Action>, t: Sys)
    requires Runs(s, acts0, u) && At(u, 1) == Waiting(ask, 0) && u.cache.closed == [true]
    ensures Runs(s, acts, t) && t.attempts == u.attempts && t.recorded == u.recorded
    ensures t.answers == u.answers + [Return(1, ask, Finish(u.cache, ask.kid, ask.now, ask.had, u.cache.lastErr), AfterJoin(0), |u.attempts|)]
  {
    acts, t := RunsThen(s, acts0, u, Wake(1));
    acts, t := RunsThen(s, acts, t, ReadErr(1));
    acts, t := RunsThen(s, acts, t, GetEnds(1));
  }
}
