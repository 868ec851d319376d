/**
 authz.go:136-174 under concurrency: any number of authorize calls over one decision cache. A call looks into
 the cache; on a miss it asks the server, with no lock held, and stores the answer whenever it arrives. So
 the server's giving an answer and the client's storing it are two steps, and answers can overtake each other.
*/
module AuthorizeRuns {
  import opened Basics
  import opened CacheKeys
  import opened DecisionCaches

  /** What became of an answer: it is on its way to a call, was stored by a put, or reached nobody. */
  datatype Fate = OnItsWay(c: nat) | Stored(p: nat) | Lost

  /** An answer the server gave, and the instant it did. */
  datatype Given = Given(question: Question, decision: Decision, at: int, fate: Fate)

  datatype Stage = Asking(question: Question) | Answered(question: Question, i: nat)

  /** calls are those that missed; given, puts and sources are history: the server's answers in the order it
      gave them, the puts in the order the lock served them, and the answer each put stored. */
  datatype Sys = Sys(cache: Cache, calls: map<nat, Stage>, given: seq<Given>, puts: seq<Put>, sources: seq<nat>)

  datatype Step =
    | Look(c: nat, q: Question, now: int)
    | Decide(c: nat, d: Decision, at: int)
    | Store(c: nat, later: int)
    | Fail(c: nat)                                // the call gives up, before or after the server answered
    | Stray(q: Question, d: Decision, at: int)    // the server answers a call that has given up

  ghost predicate Enabled(s: Sys, a: Step) {
    match a
    case Look(c, q, _) => Askable(q) && c !in s.calls
    case Decide(c, _, _) => c in s.calls && s.calls[c].Asking?
    case Store(c, _) => c in s.calls && s.calls[c].Answered? && s.calls[c].i < |s.given|
    case Fail(c) => c in s.calls && (s.calls[c].Answered? ==> s.calls[c].i < |s.given|)
    case Stray(_, _, _) => true
  }

  ghost function Take(keyOf: Question -> Key, s: Sys, a: Step): Sys
    requires Enabled(s, a)
  {
    match a
    case Look(c, q, now) => if GetFrom(s.cache, keyOf(q), now).Some? then s else s.(calls := s.calls[c := Asking(q)])
    case Decide(c, d, at) =>
      var q := s.calls[c].question;
      s.(given := s.given + [Given(q, d, at, OnItsWay(c))], calls := s.calls[c := Answered(q, |s.given|)])
    case Store(c, later) =>
      var i := s.calls[c].i;
      var g := s.given[i];
      Sys(PutInto(s.cache, keyOf(g.question), g.decision, later), s.calls - {c}, s.given[i := g.(fate := Stored(|s.puts|))],
          s.puts + [Put(keyOf(g.question), g.decision, later)], s.sources + [i])
    case Fail(c) =>
      if s.calls[c].Asking? then s.(calls := s.calls - {c})
      else
        var i := s.calls[c].i;
        var g := s.given[i];
        s.(calls := s.calls - {c}, given := s.given[i := g.(fate := Lost)])
    case Stray(q, d, at) => s.(given := s.given + [Given(q, d, at, Lost)])
  }

  ghost predicate Runs(keyOf: Question -> Key, s: Sys, steps: seq<Step>, t: Sys)
    decreases |steps|
  {
    if steps == [] then s == t
    else Enabled(s, steps[0]) && Runs(keyOf, Take(keyOf, s, steps[0]), steps[1..], t)
  }

  function Start(ttl: int, maxSize: nat): Sys {
    Sys(Empty(ttl, maxSize), map[], [], [], [])
  }

  ghost predicate Reachable(keyOf: Question -> Key, ttl: int, maxSize: nat, t: Sys) {
    exists steps :: Runs(keyOf, Start(ttl, maxSize), steps, t)
  }

  // ---- the invariant ----

  ghost predicate PutFits(keyOf: Question -> Key, s: Sys, p: nat)
    requires p < |s.puts| == |s.sources|
  {
    s.sources[p] < |s.given| &&
    var g := s.given[s.sources[p]];
    g.fate == Stored(p) && s.puts[p].key == keyOf(g.question) && s.puts[p].decision == g.decision
  }

  ghost predicate GivenFits(s: Sys, i: nat)
    requires i < |s.given| && |s.puts| == |s.sources|
  {
    match s.given[i].fate
    case OnItsWay(c) => c in s.calls && s.calls[c] == Answered(s.given[i].question, i)
    case Stored(p) => p < |s.puts| && s.sources[p] == i
    case Lost => true
  }

  ghost predicate CallFits(s: Sys, c: nat)
    requires c in s.calls
  {
    s.calls[c].Answered? ==>
      var i := s.calls[c].i;
      i < |s.given| && s.given[i].question == s.calls[c].question && s.given[i].fate == OnItsWay(c)
  }

  ghost predicate Consistent(keyOf: Question -> Key, ttl: int, maxSize: nat, s: Sys) {
    && s.cache == Run(Empty(ttl, maxSize), s.puts)
    && Linked(keyOf, s)
  }

  ghost predicate Linked(keyOf: Question -> Key, s: Sys) {
    && |s.puts| == |s.sources|
    && (forall p :: 0 <= p < |s.puts| ==> PutFits(keyOf, s, p))
    && (forall i :: 0 <= i < |s.given| ==> GivenFits(s, i))
    && (forall c :: c in s.calls ==> CallFits(s, c))
  }

  lemma RunNext(c: Cache, puts: seq<Put>, p: Put)
    ensures Run(c, puts + [p]) == PutInto(Run(c, puts), p.key, p.decision, p.now)
  {
    assert (puts + [p])[..|puts|] == puts;
  }

  lemma {:induction false} LookKeepsLinked(keyOf: Question -> Key, s: Sys, c: nat, q: Question)
    requires Linked(keyOf, s) && c !in s.calls
    ensures Linked(keyOf, s.(calls := s.calls[c := Asking(q)]))
  {
    var t := s.(calls := s.calls[c := Asking(q)]);
    forall p | 0 <= p < |t.puts| ensures PutFits(keyOf, t, p) { assert PutFits(keyOf, s, p); }
    forall i | 0 <= i < |t.given| ensures GivenFits(t, i) { assert GivenFits(s, i); }
    forall d | d in t.calls ensures CallFits(t, d) {
      if d != c { assert CallFits(s, d); }
    }
  }

  lemma {:induction false} DecideKeepsLinked(keyOf: Question -> Key, s: Sys, a: Step)
    requires Linked(keyOf, s) && Enabled(s, a) && (a.Decide? || a.Stray?)
    ensures Linked(keyOf, Take(keyOf, s, a))
  {
    var t := Take(keyOf, s, a);
    forall p | 0 <= p < |t.puts| ensures PutFits(keyOf, t, p) { assert PutFits(keyOf, s, p); }
    forall i | 0 <= i < |t.given| ensures GivenFits(t, i) {
      if i < |s.given| { assert GivenFits(s, i); }
    }
    forall d | d in t.calls ensures CallFits(t, d) {
      if d in s.calls { assert CallFits(s, d); }
    }
  }

  lemma {:induction false} FailKeepsLinked(keyOf: Question -> Key, s: Sys, a: Step)
    requires Linked(keyOf, s) && Enabled(s, a) && a.Fail?
    ensures Linked(keyOf, Take(keyOf, s, a))
  {
    var t := Take(keyOf, s, a);
    assert CallFits(s, a.c);
    forall p | 0 <= p < |t.puts| ensures PutFits(keyOf, t, p) { assert PutFits(keyOf, s, p); }
    forall i | 0 <= i < |t.given| ensures GivenFits(t, i) { assert GivenFits(s, i); }
    forall d | d in t.calls ensures CallFits(t, d) { assert CallFits(s, d); }
  }

  lemma {:induction false} StoreKeepsLinked(keyOf: Question -> Key, s: Sys, a: Step)
    requires Linked(keyOf, s) && Enabled(s, a) && a.Store?
    ensures Linked(keyOf, Take(keyOf, s, a))
  {
    var t := Take(keyOf, s, a);
    assert CallFits(s, a.c);
    forall p | 0 <= p < |t.puts| ensures PutFits(keyOf, t, p) {
      if p < |s.puts| { assert PutFits(keyOf, s, p); }
    }
    forall i | 0 <= i < |t.given| ensures GivenFits(t, i) { assert GivenFits(s, i); }
    forall d | d in t.calls ensures CallFits(t, d) { assert CallFits(s, d); }
  }

  lemma {:induction false} StepKeepsConsistent(keyOf: Question -> Key, ttl: int, maxSize: nat, s: Sys, a: Step)
    requires Consistent(keyOf, ttl, maxSize, s) && Enabled(s, a)
    ensures Consistent(keyOf, ttl, maxSize, Take(keyOf, s, a))
  {
    match a
    case Look(c, q, _) => LookKeepsLinked(keyOf, s, c, q);
    case Decide(_, _, _) => DecideKeepsLinked(keyOf, s, a);
    case Stray(_, _, _) => DecideKeepsLinked(keyOf, s, a);
    case Fail(_) => FailKeepsLinked(keyOf, s, a);
    case Store(c, later) =>
      StoreKeepsLinked(keyOf, s, a);
      var g := s.given[s.calls[c].i];
      RunNext(Empty(ttl, maxSize), s.puts, Put(keyOf(g.question), g.decision, later));
  }

  lemma {:induction false} RunKeepsConsistent(keyOf: Question -> Key, ttl: int, maxSize: nat, s: Sys, steps: seq<Step>, t: Sys)
    requires Consistent(keyOf, ttl, maxSize, s) && Runs(keyOf, s, steps, t)
    ensures Consistent(keyOf, ttl, maxSize, t)
    decreases |steps|
  {
    if steps != [] {
      StepKeepsConsistent(keyOf, ttl, maxSize, s, steps[0]);
      RunKeepsConsistent(keyOf, ttl, maxSize, Take(keyOf, s, steps[0]), steps[1..], t);
    }
  }

  lemma {:induction false} ReachableIsConsistent(keyOf: Question -> Key, ttl: int, maxSize: nat, t: Sys)
    requires Reachable(keyOf, ttl, maxSize, t)
    ensures Consistent(keyOf, ttl, maxSize, t)
  {
    var steps :| Runs(keyOf, Start(ttl, maxSize), steps, t);
    RunKeepsConsistent(keyOf, ttl, maxSize, Start(ttl, maxSize), steps, t);
  }

  // ---- what the cache may show ----

  /** Equal keys mean equal questions, for the questions of this world. */
  ghost predicate KeySeparates(keyOf: Question -> Key, world: iset<Question>) {
    forall q, r :: q in world && r in world ==> (keyOf(q) == keyOf(r) <==> SameQuestion(q, r))
  }

  ghost predicate Injective(hash: bytes -> Key) {
    forall x, y :: hash(x) == hash(y) ==> x == y
  }

  /** The key that is a hash of the preimage separates NUL-free questions over unambiguous names. */
  lemma {:induction false} HashSeparates(hash: bytes -> Key, axes: iset<bytes>, methods: iset<bytes>)
    requires Injective(hash) && Unambiguous(axes, methods)
    ensures KeySeparates(q => hash(Preimage(q)), iset q | Asks(q, axes, methods))
  {
    forall q, r | Asks(q, axes, methods) && Asks(r, axes, methods)
      ensures hash(Preimage(q)) == hash(Preimage(r)) <==> SameQuestion(q, r)
    {
      if hash(Preimage(q)) == hash(Preimage(r)) { UnambiguousDetermines(q, r, axes, methods); }
      if SameQuestion(q, r) { SamePreimage(q, r); }
    }
  }

  /** All the server was asked is of this world. */
  ghost predicate Within(s: Sys, world: iset<Question>) {
    forall i :: 0 <= i < |s.given| ==> s.given[i].question in world
  }

  /** A later answer to the same question, and not a step-up refusal, which is never cached. */
  ghost predicate Later(s: Sys, q: Question, i: nat, j: nat) {
    i < j < |s.given| && SameQuestion(s.given[j].question, q) && s.given[j].decision.reason != STEP_UP_REQUIRED
  }

  /** Why an answer given later than the one put by p is not shown in its place: it reached nobody, has not
      arrived, or was stored before. */
  ghost predicate Overtaken(g: Given, p: nat) {
    g.fate.Lost? || g.fate.OnItsWay? || (g.fate.Stored? && g.fate.p < p)
  }

  /** What is shown is answer i, stored by put p. */
  ghost predicate IsFrom(s: Sys, ttl: int, q: Question, d: Decision, now: int, i: nat, p: nat) {
    && i < |s.given| && p < |s.puts| && s.given[i].fate == Stored(p)
    && SameQuestion(s.given[i].question, q) && s.given[i].decision == d && d.reason != STEP_UP_REQUIRED
    && now <= s.puts[p].now + ttl
    && (forall j: nat :: Later(s, q, i, j) ==> Overtaken(s.given[j], p))
  }

  /**
   Caching never answers one caller's question with another's answer. In every interleaving, what a look would
   be shown is an answer the server gave to that very question, stored at most ttl ago. It is the last such answer
   given exactly when none given later was lost, is on its way, or was stored before it.
  */
  lemma {:induction false} CachedAnswerIsTheServersOwn(keyOf: Question -> Key, world: iset<Question>, ttl: int, maxSize: nat,
                                                       s: Sys, q: Question, now: int)
    returns (i: nat, p: nat)
    requires maxSize > 0 && Reachable(keyOf, ttl, maxSize, s) && KeySeparates(keyOf, world) && Within(s, world) && q in world
    requires GetFrom(s.cache, keyOf(q), now).Some?
    ensures IsFrom(s, ttl, q, GetFrom(s.cache, keyOf(q), now).value, now, i, p)
    ensures (forall j: nat :: !Later(s, q, i, j)) <==> !exists j: nat :: Later(s, q, i, j) && Overtaken(s.given[j], p)
  {
    ReachableIsConsistent(keyOf, ttl, maxSize, s);
    var key := keyOf(q);
    GetShowsTheLastAnswer(ttl, maxSize, s.puts, key, now);
    p := LastFor(s.puts, key).value;
    assert PutFits(keyOf, s, p);
    i := s.sources[p];
    forall j: nat | Later(s, q, i, j) ensures Overtaken(s.given[j], p) {
      assert GivenFits(s, j);
      if s.given[j].fate.Stored? {
        var r := s.given[j].fate.p;
        assert PutFits(keyOf, s, r);
        assert Caches(s.puts[r], key);
      }
    }
  }

  // ---- how old a shown answer may be ----

  /** Every answer that entered the cache did so within this time of being given. */
  ghost predicate Prompt(s: Sys, delay: int) {
    |s.puts| == |s.sources| &&
    forall p :: 0 <= p < |s.puts| && s.puts[p].decision.reason != STEP_UP_REQUIRED && s.sources[p] < |s.given| ==>
      s.puts[p].now - s.given[s.sources[p]].at <= delay
  }

  /** If answers are stored within a delay of being given, what is shown was given at most ttl and the delay ago. */
  lemma {:induction false} PromptAnswersAreYoung(keyOf: Question -> Key, world: iset<Question>, ttl: int, maxSize: nat,
                                                 s: Sys, q: Question, now: int, delay: int)
    returns (i: nat)
    requires maxSize > 0 && Reachable(keyOf, ttl, maxSize, s) && KeySeparates(keyOf, world) && Within(s, world) && q in world
    requires GetFrom(s.cache, keyOf(q), now).Some? && Prompt(s, delay)
    ensures i < |s.given| && SameQuestion(s.given[i].question, q) && s.given[i].decision == GetFrom(s.cache, keyOf(q), now).value
    ensures now - s.given[i].at <= ttl + delay
  {
    var p;
    i, p := CachedAnswerIsTheServersOwn(keyOf, world, ttl, maxSize, s, q, now);
    ReachableIsConsistent(keyOf, ttl, maxSize, s);
    assert GivenFits(s, i) && PutFits(keyOf, s, p);
  }

  /**
   So a denial takes effect: once the server has stopped allowing a question, nothing allows it from the cache
   later than ttl and that delay.
  */
  lemma {:induction false} WithdrawalTakesEffect(keyOf: Question -> Key, world: iset<Question>, ttl: int, maxSize: nat,
                                                 s: Sys, q: Question, now: int, delay: int, end: int)
    requires maxSize > 0 && Reachable(keyOf, ttl, maxSize, s) && KeySeparates(keyOf, world) && Within(s, world) && q in world
    requires Prompt(s, delay) && now > end + ttl + delay
    requires forall i :: 0 <= i < |s.given| && SameQuestion(s.given[i].question, q) && s.given[i].decision.allow ==> s.given[i].at <= end
    ensures GetFrom(s.cache, keyOf(q), now).Some? ==> !GetFrom(s.cache, keyOf(q), now).value.allow
  {
    if GetFrom(s.cache, keyOf(q), now).Some? {
      var i := PromptAnswersAreYoung(keyOf, world, ttl, maxSize, s, q, now, delay);
    }
  }

  /** The bound is exact: an answer just stored is never shown later than ttl and the delay after it was given if
      and only if it was stored within the delay. */
  lemma {:induction false} AgeIsBoundedIff(keyOf: Question -> Key, ttl: int, maxSize: nat, s: Sys, c: nat, later: int, delay: int)
    requires Reachable(keyOf, ttl, maxSize, s) && Enabled(s, Store(c, later)) && maxSize > 0
    requires s.given[s.calls[c].i].decision.reason != STEP_UP_REQUIRED
    ensures var g := s.given[s.calls[c].i];
            var t := Take(keyOf, s, Store(c, later));
            (forall now :: GetFrom(t.cache, keyOf(g.question), now).Some? ==> now - g.at <= ttl + delay) <==> later - g.at <= delay
  {
    var g := s.given[s.calls[c].i];
    var t := Take(keyOf, s, Store(c, later));
    ReachableIsConsistent(keyOf, ttl, maxSize, s);
    CacheAgrees(ttl, maxSize, s.puts, keyOf(g.question));
    assert t.cache.live[keyOf(g.question)] == Entry(g.decision, later + ttl);
    assert GetFrom(t.cache, keyOf(g.question), later + ttl).Some?;
  }

  // ---- a late answer replaces a newer one ----

  lemma {:induction false} RunsThen(keyOf: Question -> Key, s: Sys, steps: seq<Step>, t: Sys, a: Step) returns (steps': seq<Step>, t': Sys)
    requires Runs(keyOf, s, steps, t) && Enabled(t, a)
    ensures Runs(keyOf, s, steps', t') && steps' == steps + [a] && t' == Take(keyOf, t, a)
    decreases |steps|
  {
    steps', t' := steps + [a], Take(keyOf, t, a);
    if steps == [] {
      assert steps'[1..] == [];
      assert Runs(keyOf, t', [], t');
    } else {
      var _, _ := RunsThen(keyOf, Take(keyOf, s, steps[0]), steps[1..], t, a);
      assert steps'[1..] == steps[1..] + [a];
    }
  }

  /** A call with nobody else running is a run: answered from the cache, or decided and stored, or failed. */
  lemma {:induction false} CallAloneIsARun(keyOf: Question -> Key, s: Sys, c: nat, q: Question, now: int, served: Option<Decision>,
                                           at: int, later: int)
    returns (steps: seq<Step>, t: Sys)
    requires Askable(q) && c !in s.calls
    ensures Runs(keyOf, s, steps, t) && t.calls == s.calls
    ensures t.cache == if GetFrom(s.cache, keyOf(q), now).Some? || served.None? then s.cache
                       else PutInto(s.cache, keyOf(q), served.value, later)
    ensures t.given == if GetFrom(s.cache, keyOf(q), now).Some? || served.None? then s.given
                       else s.given + [Given(q, served.value, at, Stored(|s.puts|))]
  {
    steps, t := RunsThen(keyOf, s, [], s, Look(c, q, now));
    if GetFrom(s.cache, keyOf(q), now).None? {
      if served.None? {
        steps, t := RunsThen(keyOf, s, steps, t, Fail(c));
      } else {
        steps, t := RunsThen(keyOf, s, steps, t, Decide(c, served.value, at));
        steps, t := RunsThen(keyOf, s, steps, t, Store(c, later));
        assert t.given == s.given + [Given(q, served.value, at, Stored(|s.puts|))];
      }
      assert t.calls == s.calls;
    }
  }

  const ALLOW := Decision(true, "granted", "", "")
  const DENY := Decision(false, "denied", "", "")

  /** Two calls miss; the server allows the one at instant 0 and denies the other at 1. */
  lemma {:induction false} TwoAnswers(keyOf: Question -> Key, ttl: int, maxSize: nat, q: Question) returns (steps: seq<Step>, t: Sys)
    requires Askable(q)
    ensures Runs(keyOf, Start(ttl, maxSize), steps, t) && t.cache == Empty(ttl, maxSize) && t.puts == [] && t.sources == []
    ensures t.calls == map[0 := Answered(q, 0), 1 := Answered(q, 1)]
    ensures t.given == [Given(q, ALLOW, 0, OnItsWay(0)), Given(q, DENY, 1, OnItsWay(1))]
  {
    var s := Start(ttl, maxSize);
    steps, t := RunsThen(keyOf, s, [], s, Look(0, q, 0));
    steps, t := RunsThen(keyOf, s, steps, t, Look(1, q, 0));
    steps, t := RunsThen(keyOf, s, steps, t, Decide(0, ALLOW, 0));
    steps, t := RunsThen(keyOf, s, steps, t, Decide(1, DENY, 1));
  }

  /**
   The delay cannot be left out, nor the order of storing: the denial given at 1 is stored at 2, the allowance given
   at 0 at any later instant, and ttl after that the cache still allows what has been denied since 1.
  */
  lemma {:induction false} LateAnswerIsShown(keyOf: Question -> Key, ttl: int, maxSize: nat, q: Question, late: int)
    requires Askable(q) && maxSize > 0 && late >= 2
    ensures exists t :: Reachable(keyOf, ttl, maxSize, t) && GetFrom(t.cache, keyOf(q), late + ttl) == Some(ALLOW)
                        && t.given == [Given(q, ALLOW, 0, Stored(1)), Given(q, DENY, 1, Stored(0))]
  {
    var s := Start(ttl, maxSize);
    var steps, t := TwoAnswers(keyOf, ttl, maxSize, q);
    steps, t := RunsThen(keyOf, s, steps, t, Store(1, 2));
    steps, t := RunsThen(keyOf, s, steps, t, Store(0, late));
    assert t.cache.live[keyOf(q)] == Entry(ALLOW, late + ttl);
    assert Reachable(keyOf, ttl, maxSize, t);
  }

  // ---- calls for one question that do not overlap ----

  /** No call for this question is out. */
  ghost predicate Alone(s: Sys, q: Question) {
    forall c :: c in s.calls ==> !SameQuestion(s.calls[c].question, q)
  }

  /** A run in which a call for a question begins only when no other for it is out. */
  ghost predicate RunsAlone(keyOf: Question -> Key, s: Sys, steps: seq<Step>, t: Sys)
    decreases |steps|
  {
    if steps == [] then s == t
    else
      && Enabled(s, steps[0]) && (steps[0].Look? ==> Alone(s, steps[0].q))
      && RunsAlone(keyOf, Take(keyOf, s, steps[0]), steps[1..], t)
  }

  /** One call for a question at most; nothing is given after an answer on its way to it, save what is lost; and
      answers to one question are stored in the order they were given. */
  ghost predicate InOrder(s: Sys) {
    && (forall c, d :: c in s.calls && d in s.calls && SameQuestion(s.calls[c].question, s.calls[d].question) ==> c == d)
    && (forall i, j :: 0 <= i < j < |s.given| ==> PairFits(s, i, j))
  }

  ghost predicate PairFits(s: Sys, i: nat, j: nat)
    requires i < |s.given| && j < |s.given|
  {
    var g, h := s.given[i], s.given[j];
    SameQuestion(g.question, h.question) && !h.fate.Lost? ==>
      !g.fate.OnItsWay? && (g.fate.Stored? && h.fate.Stored? ==> g.fate.p < h.fate.p)
  }

  lemma {:induction false} StepKeepsOrder(keyOf: Question -> Key, s: Sys, a: Step)
    requires Linked(keyOf, s) && InOrder(s) && Enabled(s, a) && (a.Look? ==> Alone(s, a.q))
    ensures InOrder(Take(keyOf, s, a))
  {
    var t := Take(keyOf, s, a);
    if a.Store? || a.Fail? { assert CallFits(s, a.c); }
    forall i, j | 0 <= i < j < |t.given| ensures PairFits(t, i, j) {
      if j < |s.given| {
        assert PairFits(s, i, j) && GivenFits(s, i) && GivenFits(s, j);
      } else {
        assert GivenFits(s, i);
      }
    }
  }

  lemma {:induction false} RunKeepsOrder(keyOf: Question -> Key, ttl: int, maxSize: nat, s: Sys, steps: seq<Step>, t: Sys)
    requires Consistent(keyOf, ttl, maxSize, s) && InOrder(s) && RunsAlone(keyOf, s, steps, t)
    ensures Consistent(keyOf, ttl, maxSize, t) && InOrder(t) && Runs(keyOf, s, steps, t)
    decreases |steps|
  {
    if steps != [] {
      StepKeepsConsistent(keyOf, ttl, maxSize, s, steps[0]);
      StepKeepsOrder(keyOf, s, steps[0]);
      RunKeepsOrder(keyOf, ttl, maxSize, Take(keyOf, s, steps[0]), steps[1..], t);
    }
  }

  /** If calls for one question do not overlap, a cached answer is the last the server gave to it, save answers that
      reached nobody: those to calls that had given up. */
  lemma {:induction false} AloneAnswersAreNewest(keyOf: Question -> Key, world: iset<Question>, ttl: int, maxSize: nat,
                                                 steps: seq<Step>, s: Sys, q: Question, now: int)
    returns (i: nat, p: nat)
    requires maxSize > 0 && RunsAlone(keyOf, Start(ttl, maxSize), steps, s)
    requires KeySeparates(keyOf, world) && Within(s, world) && q in world && Alone(s, q)
    requires GetFrom(s.cache, keyOf(q), now).Some?
    ensures IsFrom(s, ttl, q, GetFrom(s.cache, keyOf(q), now).value, now, i, p)
    ensures forall j: nat :: Later(s, q, i, j) ==> s.given[j].fate.Lost?
  {
    RunKeepsOrder(keyOf, ttl, maxSize, Start(ttl, maxSize), steps, s);
    assert Reachable(keyOf, ttl, maxSize, s);
    i, p := CachedAnswerIsTheServersOwn(keyOf, world, ttl, maxSize, s, q, now);
    forall j: nat | Later(s, q, i, j) ensures s.given[j].fate.Lost? {
      assert PairFits(s, i, j) && GivenFits(s, j);
    }
  }
}
