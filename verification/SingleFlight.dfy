/**
 tokensource.go against anubistest/server.go: any number of goroutines calling Token on one source,
 any interleaving with each other, with the lock sections of the server's handlers, with requests the
 network delays past the caller's patience, and with other sessions' traffic.
*/
module SingleFlight {
  import opened Basics
  import opened TokenTypes
  import opened TokenSources
  import R = RefreshServer

  /** Where one caller is. The names follow the code of Token and rotate. */
  datatype PC =
    | Idle
    | Waiting(flight: nat)
    | Leading(flight: nat, current: Tokens)                         // about to call refresh
    | Calling(flight: nat, current: Tokens, request: nat)           // refresh call outstanding
    | Adopting(flight: nat, current: Tokens, res: RefreshResult)    // refresh returned, lock not yet retaken
    | Notifying(flight: nat, rotated: Tokens, err: Option<Error>, hook: Option<nat>)
    | Closing(flight: nat, rotated: Tokens, err: Option<Error>)
    | Stuck(flight: nat, current: Tokens)                           // refresh panicked: the slot is never cleared
    | Gone(flight: nat)                                             // the callback panicked: the slot was cleared

  /** A call of the callback: which callback, for which flight, with which pair, and what it answered. */
  datatype Note = Note(hook: nat, flight: nat, tokens: Tokens, answer: Option<Error>)

  /** The callback registered and the pair held when a flight's refresh had come back. */
  datatype Adoption = Adoption(hook: Option<nat>, tokens: Tokens)

  /** How a call came to its answer: from its first lock section, at this instant and with this pair in the source;
      through a flight; or by giving up its wait. */
  datatype Via = AtOnce(now: int, held: Tokens) | Through(flight: nat) | GaveUp

  /** A return of Token. */
  datatype Return = Return(caller: nat, via: Via, tokens: Tokens, err: Option<Error>)

  /**
   The whole system. leaders, mine, adopted, notes, answers, faulty and reuse are history, read by no step:
   leaders are the callers that started each flight; mine are the requests this source sent; adopted what
   each flight found when it took the lock again; faulty records that a
   granted rotation missed its caller, or that a request was processed after its caller had given up;
   reuse records that the server has answered reuse for this session.
  */
  datatype Sys = Sys(
    source: Source,
    pcs: map<nat, PC>,
    server: R.State,
    session: R.Session,
    leaders: seq<nat>,
    mine: set<nat>,
    adopted: map<nat, Adoption>,
    notes: set<Note>,
    answers: seq<Return>,
    faulty: bool,
    reuse: bool)

  datatype Action =
    | Enter(c: nat, now: int)
    | Wake(c: nat)
    | Cancel(c: nat, why: Error)
    | Send(c: nat)
    | EndCall(c: nat, res: RefreshResult)
    | Adopt(c: nat, now: int)
    | Notify(c: nat, answer: Option<Error>)
    | Land(c: nat)
    | Panic(c: nat)                       // in refresh or in the callback; a caller that goes on after it is another
    | Register(hook: Option<nat>)
    | Server(step: R.Action)

  function At(s: Sys, c: nat): PC {
    if c in s.pcs then s.pcs[c] else Idle
  }

  /** The caller holds the slot. */
  predicate Refreshing(pc: PC) {
    pc.Leading? || pc.Calling? || pc.Adopting? || pc.Stuck?
  }

  /** The caller started its flight and has not closed it. */
  predicate Owns(pc: PC) {
    Refreshing(pc) || pc.Notifying? || pc.Closing? || pc.Gone?
  }

  predicate Panicked(pc: PC) {
    pc.Stuck? || pc.Gone?
  }

  predicate Delivers(h: R.Handler, res: RefreshResult) {
    h.Granted? && res.err.None? && res.next.Some? && res.next.value.refresh == h.next
  }

  /** What a refresh call can return: a failure at any time, and tokens only once the server granted
      them. The response may have lost its refresh token on the way. */
  predicate Plausible(h: R.Handler, res: RefreshResult) {
    res.err.None? ==> h.Granted? && res.next.Some? && res.next.value.refresh in {h.next, ""}
  }

  ghost predicate Awaited(s: Sys, request: nat) {
    exists c :: c in s.pcs && s.pcs[c].Calling? && s.pcs[c].request == request
  }

  ghost predicate Enabled(s: Sys, a: Action) {
    match a
    case Enter(c, _) => At(s, c).Idle?
    case Wake(c) => At(s, c).Waiting? && At(s, c).flight < |s.source.flights| && s.source.flights[At(s, c).flight].Closed?
    case Cancel(c, _) => At(s, c).Waiting?
    case Send(c) => At(s, c).Leading?
    case EndCall(c, res) =>
      At(s, c).Calling? && At(s, c).request < |s.server.handlers| && Plausible(s.server.handlers[At(s, c).request], res)
    case Adopt(c, _) => At(s, c).Adopting?
    case Notify(c, _) => At(s, c).Notifying?
    case Land(c) => At(s, c).Closing? && At(s, c).flight < |s.source.flights|
    case Panic(c) =>
      || At(s, c).Leading?
      || (At(s, c).Calling? && At(s, c).request < |s.server.handlers|)
      || (At(s, c).Notifying? && At(s, c).err.None? && At(s, c).hook.Some?)
    case Register(_) => true
    case Server(step) =>
      && R.Enabled(s.server, step)
      && (step.Check? && step.i !in s.mine ==> NotOurs(s, s.server.handlers[step.i].token))
  }

  /** Only this source presents the session's tokens: anybody else's are another session's or unknown. */
  predicate NotOurs(s: Sys, token: R.Token) {
    token in s.server.tables.issued ==> s.server.tables.issued[token] != s.session
  }

  ghost function Apply(s: Sys, a: Action): Sys
    requires Enabled(s, a)
  {
    match a
    case Enter(c, now) =>
      var (source, e) := EnterSection(s.source, now);
      var s' := s.(source := source);
      (match e
       case Fast(t) => s'.(answers := s.answers + [Return(c, AtOnce(now, s.source.tokens), t, None)])
       case Join(f) => s'.(pcs := s.pcs[c := Waiting(f)])
       case Refuse => s'.(answers := s.answers + [Return(c, AtOnce(now, s.source.tokens), EMPTY, Some(NO_REFRESH_TOKEN))])
       case Lead(f, current) => s'.(pcs := s.pcs[c := Leading(f, current)], leaders := s.leaders + [c]))
    case Wake(c) =>
      var f := s.pcs[c].flight;
      var flight := s.source.flights[f];
      s.(pcs := s.pcs[c := Idle], answers := s.answers + [Return(c, Through(f), flight.tokens, flight.err)])
    case Cancel(c, why) =>
      s.(pcs := s.pcs[c := Idle], answers := s.answers + [Return(c, GaveUp, EMPTY, Some(why))])
    case Send(c) =>
      var pc := s.pcs[c];
      var request := |s.server.handlers|;
      s.(server := R.Apply(s.server, R.Arrive(pc.current.refresh)),
         mine := s.mine + {request},
         pcs := s.pcs[c := Calling(pc.flight, pc.current, request)])
    case EndCall(c, res) =>
      var pc := s.pcs[c];
      var h := s.server.handlers[pc.request];
      s.(pcs := s.pcs[c := Adopting(pc.flight, pc.current, res)],
         faulty := s.faulty || (R.Rotates(h) && !Delivers(h, res)))
    case Adopt(c, now) =>
      var pc := s.pcs[c];
      var source := AdoptSection(s.source, pc.current, pc.res, now);
      s.(source := source,
         adopted := s.adopted[pc.flight := Adoption(source.onRotate, source.tokens)],
         pcs := s.pcs[c := Notifying(pc.flight, source.tokens, pc.res.err, source.onRotate)])
    case Notify(c, answer) =>
      var pc := s.pcs[c];
      s.(notes := if pc.err.None? && pc.hook.Some? then s.notes + {Note(pc.hook.value, pc.flight, pc.rotated, answer)} else s.notes,
         pcs := s.pcs[c := Closing(pc.flight, pc.rotated, AfterCallback(pc.err, pc.hook, answer))])
    case Land(c) =>
      var pc := s.pcs[c];
      var flight := Landed(pc.rotated, pc.err);
      s.(source := s.source.(flights := s.source.flights[pc.flight := flight]),
         pcs := s.pcs[c := Idle],
         answers := s.answers + [Return(c, Through(pc.flight), flight.tokens, flight.err)])
    case Panic(c) =>
      var pc := s.pcs[c];
      s.(pcs := s.pcs[c := if pc.Notifying? then Gone(pc.flight) else Stuck(pc.flight, pc.current)],
         faulty := s.faulty || (pc.Calling? && R.Rotates(s.server.handlers[pc.request])))
    case Register(hook) =>
      s.(source := s.source.(onRotate := hook))
    case Server(step) =>
      var server := R.Apply(s.server, step);
      s.(server := server,
         faulty := s.faulty || (step.Check? && step.i in s.mine && !Awaited(s, step.i)),
         reuse := s.reuse || (step.Check? && server.handlers[step.i].Refusing? && server.handlers[step.i].session == s.session))
  }

  ghost predicate Runs(s: Sys, acts: seq<Action>, t: Sys)
    decreases |acts|
  {
    if acts == [] then s == t
    else Enabled(s, acts[0]) && Runs(Apply(s, acts[0]), acts[1..], t)
  }

  /** A source over a live pair of an issued session, nobody calling, no request pending. */
  ghost predicate Initial(s: Sys) {
    && s.source.needsRefresh && s.source.inflight.None? && s.source.flights == []
    && s.pcs == map[] && s.leaders == [] && s.mine == {} && s.adopted == map[] && s.notes == {} && s.answers == []
    && !s.faulty && !s.reuse
    && s.server.handlers == []
    && "" !in s.server.tables.issued
    && HeldIsLive(s) && Ours(s, s.source.tokens.refresh)
  }

  /** The held refresh token is the one the server will accept. */
  ghost predicate HeldIsLive(s: Sys) {
    LiveUnused(s, s.source.tokens.refresh)
  }

  predicate LiveUnused(s: Sys, token: R.Token) {
    && s.session in s.server.tables.live && s.server.tables.live[s.session] == token
    && token !in s.server.tables.consumed
  }

  predicate Ours(s: Sys, token: R.Token) {
    token in s.server.tables.issued && s.server.tables.issued[token] == s.session
  }

  // ---- the single-flight invariant ----

  ghost predicate CallerFits(s: Sys, c: nat)
    requires |s.leaders| == |s.source.flights| && c in s.pcs
  {
    var pc := s.pcs[c];
    && (!pc.Idle? ==> pc.flight < |s.source.flights|)
    && (Owns(pc) ==> s.source.flights[pc.flight].Open? && s.leaders[pc.flight] == c)
    && (Refreshing(pc) ==> s.source.inflight == Some(pc.flight) && pc.current == s.source.tokens)
  }

  /** An open flight is owned by the caller that started it, who will close it. */
  ghost predicate FlightFits(s: Sys, f: nat)
    requires |s.leaders| == |s.source.flights| && f < |s.leaders|
  {
    s.source.flights[f].Open? ==>
      && s.leaders[f] in s.pcs && Owns(s.pcs[s.leaders[f]]) && s.pcs[s.leaders[f]].flight == f
      && (s.source.inflight == Some(f) <==> Refreshing(s.pcs[s.leaders[f]]))
  }

  ghost predicate Shape(s: Sys) {
    && s.source.needsRefresh
    && |s.leaders| == |s.source.flights|
    && (forall c :: c in s.pcs ==> CallerFits(s, c))
    && (forall f :: 0 <= f < |s.leaders| ==> FlightFits(s, f))
    && (s.source.inflight.Some? ==> s.source.inflight.value < |s.leaders| && s.source.flights[s.source.inflight.value].Open?)
  }

  /** A caller that was idle joins the flight under way. */
  lemma JoinKeepsShape(s: Sys, t: Sys, c: nat, f: nat)
    requires Shape(s) && At(s, c).Idle? && f < |s.leaders| && s.source.flights[f].Open?
    requires t.source == s.source && t.leaders == s.leaders && t.pcs == s.pcs[c := Waiting(f)]
    ensures Shape(t)
  {
    forall d | d in t.pcs ensures CallerFits(t, d) {
      if d != c { assert CallerFits(s, d); }
    }
    forall g | 0 <= g < |t.leaders| ensures FlightFits(t, g) {
      assert FlightFits(s, g);
    }
  }

  /** A caller that was idle starts a flight, the slot being empty. */
  lemma LeadKeepsShape(s: Sys, t: Sys, c: nat)
    requires Shape(s) && At(s, c).Idle? && s.source.inflight.None?
    requires t.leaders == s.leaders + [c]
    requires t.source == s.source.(inflight := Some(|s.leaders|), flights := s.source.flights + [Open])
    requires t.pcs == s.pcs[c := Leading(|s.leaders|, s.source.tokens)]
    ensures Shape(t)
  {
    forall d | d in t.pcs ensures CallerFits(t, d) {
      if d != c { assert CallerFits(s, d); }
    }
    forall g | 0 <= g < |t.leaders| ensures FlightFits(t, g) {
      if g < |s.leaders| { assert FlightFits(s, g); }
    }
  }

  /** A step of caller c that leaves the flights and the slot alone. */
  lemma AdvanceKeepsShape(s: Sys, t: Sys, c: nat)
    requires Shape(s) && c in s.pcs && c in t.pcs
    requires t.source == s.source && t.leaders == s.leaders && t.pcs == s.pcs[c := t.pcs[c]]
    requires Owns(t.pcs[c]) == Owns(s.pcs[c]) && Refreshing(t.pcs[c]) == Refreshing(s.pcs[c])
    requires Owns(s.pcs[c]) ==> t.pcs[c].flight == s.pcs[c].flight
    requires Refreshing(s.pcs[c]) ==> t.pcs[c].current == s.pcs[c].current
    requires !Owns(s.pcs[c]) ==> t.pcs[c].Idle?
    ensures Shape(t)
  {
    assert CallerFits(s, c);
    forall d | d in t.pcs ensures CallerFits(t, d) {
      assert CallerFits(s, d);
    }
    forall f | 0 <= f < |t.leaders| ensures FlightFits(t, f) {
      assert FlightFits(s, f);
    }
  }

  lemma AdoptKeepsShape(s: Sys, c: nat, now: int)
    requires Shape(s) && Enabled(s, Adopt(c, now))
    ensures Shape(Apply(s, Adopt(c, now)))
  {
    var t := Apply(s, Adopt(c, now));
    assert CallerFits(s, c);
    forall d | d in t.pcs ensures CallerFits(t, d) {
      assert CallerFits(s, d);
    }
    forall f | 0 <= f < |t.leaders| ensures FlightFits(t, f) {
      assert FlightFits(s, f);
      if s.source.flights[f].Open? {
        assert CallerFits(s, s.leaders[f]);
      }
    }
  }

  lemma LandKeepsShape(s: Sys, c: nat)
    requires Shape(s) && Enabled(s, Land(c))
    ensures Shape(Apply(s, Land(c)))
    ensures s.source.flights[s.pcs[c].flight].Open?
  {
    var t := Apply(s, Land(c));
    assert CallerFits(s, c);
    assert FlightFits(s, s.pcs[c].flight);
    forall d | d in t.pcs ensures CallerFits(t, d) {
      assert CallerFits(s, d);
    }
    forall f | 0 <= f < |t.leaders| ensures FlightFits(t, f) {
      assert FlightFits(s, f);
    }
  }

  lemma StepKeepsShape(s: Sys, a: Action)
    requires Shape(s) && Enabled(s, a)
    ensures Shape(Apply(s, a))
  {
    var t := Apply(s, a);
    match a
    case Enter(c, now) =>
      match EnterSection(s.source, now).1 {
        case Join(f) => JoinKeepsShape(s, t, c, f);
        case Lead(_, _) => LeadKeepsShape(s, t, c);
        case _ => SameCallersKeepShape(s, t);
      }
    case Wake(c) => AdvanceKeepsShape(s, t, c);
    case Cancel(c, _) => AdvanceKeepsShape(s, t, c);
    case Send(c) => AdvanceKeepsShape(s, t, c);
    case EndCall(c, _) => AdvanceKeepsShape(s, t, c);
    case Adopt(c, now) => AdoptKeepsShape(s, c, now);
    case Notify(c, _) => AdvanceKeepsShape(s, t, c);
    case Land(c) => LandKeepsShape(s, c);
    case Panic(c) => AdvanceKeepsShape(s, t, c);
    case Register(_) => SameCallersKeepShape(s, t);
    case Server(_) => SameCallersKeepShape(s, t);
  }

  lemma SameCallersKeepShape(s: Sys, t: Sys)
    requires Shape(s) && t.pcs == s.pcs && t.leaders == s.leaders
    requires t.source == s.source.(onRotate := t.source.onRotate)
    ensures Shape(t)
  {
    forall d | d in t.pcs ensures CallerFits(t, d) {
      assert CallerFits(s, d);
    }
    forall f | 0 <= f < |t.leaders| ensures FlightFits(t, f) {
      assert FlightFits(s, f);
    }
  }

  // ---- one result per flight, after the callback ----

  /** Whoever may see this result has had the callback run before, on that pair. */
  ghost predicate Persisted(s: Sys, f: nat, tokens: Tokens) {
    && f in s.adopted && s.adopted[f].tokens == tokens
    && (s.adopted[f].hook.Some? ==> Note(s.adopted[f].hook.value, f, tokens, None) in s.notes)
  }

  ghost predicate AnswerFits(s: Sys, i: nat)
    requires i < |s.answers|
  {
    var r := s.answers[i];
    && (r.err.Some? ==> r.tokens == EMPTY)
    && (r.via.Through? ==> r.via.flight < |s.source.flights| && s.source.flights[r.via.flight] == Closed(r.tokens, r.err))
    && (r.via.AtOnce? && r.err.None? ==> r.tokens == r.via.held)
    && (r.via.AtOnce? && InRange(r.via.held) ==> (r.err.None? <==> FarFromExpiry(r.via.held, r.via.now)))
    && (r.via.GaveUp? ==> r.err.Some?)
  }

  ghost predicate ResultFits(s: Sys, f: nat)
    requires f < |s.source.flights|
  {
    match s.source.flights[f]
    case Open => true
    case Closed(tokens, err) => if err.Some? then tokens == EMPTY else Persisted(s, f, tokens)
  }

  ghost predicate PendingFits(s: Sys, c: nat)
    requires c in s.pcs
  {
    match s.pcs[c]
    case Notifying(f, rotated, _, hook) => f in s.adopted && s.adopted[f] == Adoption(hook, rotated)
    case Closing(f, rotated, err) => err.None? ==> Persisted(s, f, rotated)
    case _ => true
  }

  /** An error a callback answered is its flight's, or about to be. */
  ghost predicate NoteFits(s: Sys, n: Note) {
    && n.flight < |s.source.flights| && n.flight < |s.leaders|
    && (n.answer.Some? ==>
          match s.source.flights[n.flight]
          case Closed(_, err) => err == n.answer
          case Open => s.leaders[n.flight] in s.pcs && s.pcs[s.leaders[n.flight]].Closing?
                       && s.pcs[s.leaders[n.flight]].flight == n.flight && s.pcs[s.leaders[n.flight]].err == n.answer)
  }

  ghost predicate ResultsFit(s: Sys) {
    forall f :: 0 <= f < |s.source.flights| ==> ResultFits(s, f)
  }

  ghost predicate Results(s: Sys) {
    && (forall i :: 0 <= i < |s.answers| ==> AnswerFits(s, i))
    && ResultsFit(s)
    && (forall c :: c in s.pcs ==> PendingFits(s, c))
    && (forall n :: n in s.notes ==> NoteFits(s, n))
  }

  /** A flight once closed keeps its result. */
  predicate FlightsKept(s: Sys, t: Sys) {
    && |s.source.flights| <= |t.source.flights|
    && (forall f :: 0 <= f < |s.source.flights| && s.source.flights[f].Closed? ==> t.source.flights[f] == s.source.flights[f])
  }

  /** One more answer, or none. */
  lemma AnswersKept(s: Sys, t: Sys)
    requires Results(s) && FlightsKept(s, t)
    requires t.answers == s.answers
             || (|t.answers| == |s.answers| + 1 && s.answers <= t.answers && AnswerFits(t, |s.answers|))
    ensures forall i :: 0 <= i < |t.answers| ==> AnswerFits(t, i)
  {
    forall i | 0 <= i < |t.answers| ensures AnswerFits(t, i) {
      if i < |s.answers| { assert AnswerFits(s, i); }
    }
  }

  lemma EnterAnswers(s: Sys, c: nat, now: int)
    requires Shape(s) && Results(s) && Enabled(s, Enter(c, now))
    ensures forall i :: 0 <= i < |Apply(s, Enter(c, now)).answers| ==> AnswerFits(Apply(s, Enter(c, now)), i)
  {
    ResultStep(s, Enter(c, now));
    if InRange(s.source.tokens) { EnterExits(s.source, now); }
    AnswersKept(s, Apply(s, Enter(c, now)));
  }

  lemma WakeAnswers(s: Sys, c: nat)
    requires Shape(s) && Results(s) && Enabled(s, Wake(c))
    ensures forall i :: 0 <= i < |Apply(s, Wake(c)).answers| ==> AnswerFits(Apply(s, Wake(c)), i)
  {
    ResultStep(s, Wake(c));
    assert ResultFits(s, s.pcs[c].flight);
    AnswersKept(s, Apply(s, Wake(c)));
  }

  lemma LandAnswers(s: Sys, c: nat)
    requires Shape(s) && Results(s) && Enabled(s, Land(c))
    ensures forall i :: 0 <= i < |Apply(s, Land(c)).answers| ==> AnswerFits(Apply(s, Land(c)), i)
  {
    ResultStep(s, Land(c));
    AnswersKept(s, Apply(s, Land(c)));
  }

  lemma AnswersStep(s: Sys, a: Action)
    requires Shape(s) && Results(s) && Enabled(s, a)
    ensures forall i :: 0 <= i < |Apply(s, a).answers| ==> AnswerFits(Apply(s, a), i)
  {
    match a
    case Enter(c, now) => EnterAnswers(s, c, now);
    case Wake(c) => WakeAnswers(s, c);
    case Land(c) => LandAnswers(s, c);
    case _ =>
      ResultStep(s, a);
      AnswersKept(s, Apply(s, a));
  }

  lemma StepKeepsResults(s: Sys, a: Action)
    requires Shape(s) && Results(s) && Enabled(s, a)
    ensures Results(Apply(s, a))
  {
    ResultStep(s, a);
    AnswersStep(s, a);
    NotesStep(s, a);
    forall c | c in Apply(s, a).pcs ensures PendingFits(Apply(s, a), c) {
      PendingStep(s, a, c);
    }
  }

  /** Steps that neither adopt, nor notify, nor land. */
  lemma OtherResults(s: Sys, t: Sys)
    requires Results(s) && t.adopted == s.adopted && t.notes == s.notes && s.source.flights <= t.source.flights
    requires forall f :: |s.source.flights| <= f < |t.source.flights| ==> t.source.flights[f].Open?
    ensures FlightsKept(s, t) && ResultsFit(t)
  {
    forall f | 0 <= f < |t.source.flights| ensures ResultFits(t, f) {
      if f < |s.source.flights| { assert ResultFits(s, f); }
    }
  }

  lemma AdoptResults(s: Sys, c: nat, now: int)
    requires Shape(s) && Results(s) && Enabled(s, Adopt(c, now))
    ensures FlightsKept(s, Apply(s, Adopt(c, now))) && ResultsFit(Apply(s, Adopt(c, now)))
  {
    assert CallerFits(s, c);
    var t := Apply(s, Adopt(c, now));
    forall f | 0 <= f < |t.source.flights| ensures ResultFits(t, f) { assert ResultFits(s, f); }
  }

  lemma NotifyResults(s: Sys, c: nat, answer: Option<Error>)
    requires Results(s) && Enabled(s, Notify(c, answer))
    ensures FlightsKept(s, Apply(s, Notify(c, answer))) && ResultsFit(Apply(s, Notify(c, answer)))
  {
    var t := Apply(s, Notify(c, answer));
    forall f | 0 <= f < |t.source.flights| ensures ResultFits(t, f) { assert ResultFits(s, f); }
  }

  lemma LandResults(s: Sys, c: nat)
    requires Shape(s) && Results(s) && Enabled(s, Land(c))
    ensures FlightsKept(s, Apply(s, Land(c))) && ResultsFit(Apply(s, Land(c)))
  {
    assert CallerFits(s, c) && PendingFits(s, c);
    var t := Apply(s, Land(c));
    forall f | 0 <= f < |t.source.flights| ensures ResultFits(t, f) { assert ResultFits(s, f); }
  }

  /** A closed flight keeps its result, and a flight closes only over a result that fits. */
  lemma ResultStep(s: Sys, a: Action)
    requires Shape(s) && Results(s) && Enabled(s, a)
    ensures FlightsKept(s, Apply(s, a)) && ResultsFit(Apply(s, a))
  {
    match a
    case Adopt(c, now) => AdoptResults(s, c, now);
    case Notify(c, answer) => NotifyResults(s, c, answer);
    case Land(c) => LandResults(s, c);
    case _ => OtherResults(s, Apply(s, a));
  }

  lemma NotifyNotes(s: Sys, c: nat, answer: Option<Error>)
    requires Shape(s) && Results(s) && Enabled(s, Notify(c, answer))
    ensures forall n :: n in Apply(s, Notify(c, answer)).notes ==> NoteFits(Apply(s, Notify(c, answer)), n)
  {
    assert CallerFits(s, c);
    var t := Apply(s, Notify(c, answer));
    forall n | n in t.notes ensures NoteFits(t, n) {
      if n in s.notes { assert NoteFits(s, n); }
    }
  }

  lemma LandNotes(s: Sys, c: nat)
    requires Shape(s) && Results(s) && Enabled(s, Land(c))
    ensures forall n :: n in Apply(s, Land(c)).notes ==> NoteFits(Apply(s, Land(c)), n)
  {
    assert CallerFits(s, c);
    var t := Apply(s, Land(c));
    forall n | n in t.notes ensures NoteFits(t, n) {
      assert NoteFits(s, n);
    }
  }

  /** Steps that call no callback and close no flight, and move no caller that is about to. */
  lemma OtherNotes(s: Sys, t: Sys)
    requires Results(s) && t.notes == s.notes && s.source.flights <= t.source.flights && s.leaders <= t.leaders
    requires forall c :: c in s.pcs && s.pcs[c].Closing? ==> c in t.pcs && t.pcs[c] == s.pcs[c]
    ensures forall n :: n in t.notes ==> NoteFits(t, n)
  {
    forall n | n in t.notes ensures NoteFits(t, n) {
      assert NoteFits(s, n);
    }
  }

  lemma EnterNotes(s: Sys, c: nat, now: int)
    requires Results(s) && Enabled(s, Enter(c, now))
    ensures forall n :: n in Apply(s, Enter(c, now)).notes ==> NoteFits(Apply(s, Enter(c, now)), n)
  {
    OtherNotes(s, Apply(s, Enter(c, now)));
  }

  lemma CallerNotes(s: Sys, a: Action)
    requires Results(s) && Enabled(s, a) && !a.Enter? && !a.Notify? && !a.Land? && !a.Register? && !a.Server?
    ensures forall n :: n in Apply(s, a).notes ==> NoteFits(Apply(s, a), n)
  {
    assert a.c in s.pcs && !s.pcs[a.c].Closing?;
    OtherNotes(s, Apply(s, a));
  }

  lemma NotesStep(s: Sys, a: Action)
    requires Shape(s) && Results(s) && Enabled(s, a)
    ensures forall n :: n in Apply(s, a).notes ==> NoteFits(Apply(s, a), n)
  {
    match a
    case Notify(c, answer) => NotifyNotes(s, c, answer);
    case Land(c) => LandNotes(s, c);
    case Enter(c, now) => EnterNotes(s, c, now);
    case Server(step) => OtherNotes(s, Apply(s, a));
    case Register(_) => OtherNotes(s, Apply(s, a));
    case _ => CallerNotes(s, a);
  }

  lemma AdoptPending(s: Sys, d: nat, now: int, c: nat)
    requires Shape(s) && Results(s) && Enabled(s, Adopt(d, now)) && c in s.pcs
    ensures PendingFits(Apply(s, Adopt(d, now)), c)
  {
    assert CallerFits(s, c) && CallerFits(s, d) && PendingFits(s, c);
  }

  lemma NotifyPending(s: Sys, d: nat, answer: Option<Error>, c: nat)
    requires Shape(s) && Results(s) && Enabled(s, Notify(d, answer)) && c in s.pcs
    ensures PendingFits(Apply(s, Notify(d, answer)), c)
  {
    assert PendingFits(s, c) && PendingFits(s, d);
  }

  /** Steps that neither adopt nor notify leave the pending results alone. */
  lemma OtherPending(s: Sys, t: Sys, c: nat)
    requires Results(s) && c in t.pcs && t.adopted == s.adopted && t.notes == s.notes
    requires t.pcs[c].Notifying? || t.pcs[c].Closing? ==> c in s.pcs && s.pcs[c] == t.pcs[c]
    ensures PendingFits(t, c)
  {
    if c in s.pcs { assert PendingFits(s, c); }
  }

  lemma PendingStep(s: Sys, a: Action, c: nat)
    requires Shape(s) && Results(s) && Enabled(s, a) && c in Apply(s, a).pcs
    ensures PendingFits(Apply(s, a), c)
  {
    var t := Apply(s, a);
    match a
    case Adopt(d, now) => AdoptPending(s, d, now, c);
    case Notify(d, answer) => NotifyPending(s, d, answer, c);
    case Enter(d, now) => OtherPending(s, t, c);
    case Wake(d) => OtherPending(s, t, c);
    case Cancel(d, _) => OtherPending(s, t, c);
    case Send(d) => OtherPending(s, t, c);
    case EndCall(d, _) => OtherPending(s, t, c);
    case Land(d) => OtherPending(s, t, c);
    case Panic(d) => OtherPending(s, t, c);
    case Register(_) => OtherPending(s, t, c);
    case Server(_) => OtherPending(s, t, c);
  }

  // ---- the rotation invariant ----

  ghost predicate RequestFits(s: Sys, i: nat) {
    && i < |s.server.handlers|
    && var h := s.server.handlers[i];
      && Ours(s, h.token)
      && (h.Passed? || h.Refusing? || h.Granted? ==> h.session == s.session)
      && (R.Rotates(h) ==> h.token in s.server.tables.consumed)
      && (h.Granted? ==> Ours(s, h.next))
  }

  predicate ForeignFits(s: Sys, i: nat)
    requires i < |s.server.handlers|
  {
    var h := s.server.handlers[i];
    h.Passed? || h.Refusing? || h.Granted? ==> h.session != s.session
  }

  ghost predicate CallFits(s: Sys, c: nat)
    requires c in s.pcs
  {
    match s.pcs[c]
    case Calling(_, current, r) => r in s.mine && r < |s.server.handlers| && s.server.handlers[r].token == current.refresh
    case Adopting(_, _, res) =>
      res.err.None? ==> res.next.Some? && (res.next.value.refresh == "" || Ours(s, res.next.value.refresh))
    case _ => true
  }

  /** What holds with or without faults. */
  ghost predicate Wire(s: Sys) {
    && "" !in s.server.tables.issued
    && Ours(s, s.source.tokens.refresh)
    && (forall i :: i in s.mine ==> RequestFits(s, i))
    && (forall i :: 0 <= i < |s.server.handlers| && i !in s.mine ==> ForeignFits(s, i))
    && (forall c :: c in s.pcs ==> CallFits(s, c))
  }

  lemma ServerKeepsWire(s: Sys, step: R.Action)
    requires Wire(s) && Enabled(s, Server(step))
    ensures Wire(Apply(s, Server(step)))
  {
    var t := Apply(s, Server(step));
    assert s.source.tokens.refresh in s.server.tables.issued;
    forall i | i in t.mine ensures RequestFits(t, i) {
      assert RequestFits(s, i);
    }
    forall i | 0 <= i < |t.server.handlers| && i !in t.mine ensures ForeignFits(t, i) {
      if i < |s.server.handlers| { assert ForeignFits(s, i); }
    }
    forall c | c in t.pcs ensures CallFits(t, c) {
      assert CallFits(s, c);
      if s.pcs[c].Calling? { assert RequestFits(s, s.pcs[c].request); }
    }
  }

  /** Steps of the source that send nothing: the server does not move, and no new tokens are adopted. */
  lemma QuietKeepsWire(s: Sys, t: Sys)
    requires Wire(s) && t.server == s.server && t.mine == s.mine && t.session == s.session
    requires t.source.tokens == s.source.tokens
    requires forall c :: c in t.pcs && (t.pcs[c].Calling? || t.pcs[c].Adopting?) ==> c in s.pcs && s.pcs[c] == t.pcs[c]
    ensures Wire(t)
  {
    forall i | i in t.mine ensures RequestFits(t, i) {
      assert RequestFits(s, i);
    }
    forall i | 0 <= i < |t.server.handlers| && i !in t.mine ensures ForeignFits(t, i) {
      assert ForeignFits(s, i);
    }
    forall c | c in t.pcs ensures CallFits(t, c) {
      if c in s.pcs { assert CallFits(s, c); }
    }
  }

  lemma SendKeepsWire(s: Sys, d: nat)
    requires Shape(s) && Wire(s) && Enabled(s, Send(d))
    ensures Wire(Apply(s, Send(d)))
  {
    var t := Apply(s, Send(d));
    assert CallerFits(s, d);
    forall i | i in t.mine ensures RequestFits(t, i) {
      if i in s.mine { assert RequestFits(s, i); }
    }
    forall i | 0 <= i < |t.server.handlers| && i !in t.mine ensures ForeignFits(t, i) {
      assert ForeignFits(s, i);
    }
    forall c | c in t.pcs ensures CallFits(t, c) {
      assert CallFits(s, c);
    }
  }

  /** The call ends, or its result is adopted: d's place and the held pair change, the server does not. */
  lemma EndKeepsWire(s: Sys, t: Sys, d: nat)
    requires Wire(s) && t.server == s.server && t.mine == s.mine && t.session == s.session
    requires d in t.pcs && CallFits(t, d) && Ours(t, t.source.tokens.refresh)
    requires forall c :: c in t.pcs && c != d ==> c in s.pcs && s.pcs[c] == t.pcs[c]
    ensures Wire(t)
  {
    forall i | i in t.mine ensures RequestFits(t, i) {
      assert RequestFits(s, i);
    }
    forall i | 0 <= i < |t.server.handlers| && i !in t.mine ensures ForeignFits(t, i) {
      assert ForeignFits(s, i);
    }
    forall c | c in t.pcs ensures CallFits(t, c) {
      if c != d { assert CallFits(s, c); }
    }
  }

  lemma EndCallKeepsWire(s: Sys, d: nat, res: RefreshResult)
    requires Wire(s) && Enabled(s, EndCall(d, res))
    ensures Wire(Apply(s, EndCall(d, res)))
  {
    assert CallFits(s, d) && RequestFits(s, s.pcs[d].request);
    EndKeepsWire(s, Apply(s, EndCall(d, res)), d);
  }

  lemma AdoptKeepsWire(s: Sys, d: nat, now: int)
    requires Shape(s) && Wire(s) && Enabled(s, Adopt(d, now))
    ensures Wire(Apply(s, Adopt(d, now)))
  {
    assert CallFits(s, d) && CallerFits(s, d);
    EndKeepsWire(s, Apply(s, Adopt(d, now)), d);
  }

  /** Steps of a caller that touch neither the server nor the held pair. */
  predicate Quiet(a: Action) {
    a.Enter? || a.Wake? || a.Cancel? || a.Notify? || a.Land? || a.Register?
  }

  lemma EnterKeepsWire(s: Sys, c: nat, now: int)
    requires Wire(s) && Enabled(s, Enter(c, now))
    ensures Wire(Apply(s, Enter(c, now)))
  {
    QuietKeepsWire(s, Apply(s, Enter(c, now)));
  }

  lemma QuietStepKeepsWire(s: Sys, a: Action)
    requires Wire(s) && Enabled(s, a) && (Quiet(a) || a.Panic?) && !a.Enter?
    ensures Wire(Apply(s, a))
  {
    var t := Apply(s, a);
    match a
    case Wake(_) => QuietKeepsWire(s, t);
    case Cancel(_, _) => QuietKeepsWire(s, t);
    case Notify(_, _) => QuietKeepsWire(s, t);
    case Land(_) => QuietKeepsWire(s, t);
    case Panic(_) => QuietKeepsWire(s, t);
    case Register(_) => QuietKeepsWire(s, t);
  }

  lemma StepKeepsWire(s: Sys, a: Action)
    requires Shape(s) && Wire(s) && Enabled(s, a)
    ensures Wire(Apply(s, a))
  {
    match a
    case Adopt(d, now) => AdoptKeepsWire(s, d, now);
    case EndCall(d, res) => EndCallKeepsWire(s, d, res);
    case Send(d) => SendKeepsWire(s, d);
    case Server(step) => ServerKeepsWire(s, step);
    case Enter(c, now) => EnterKeepsWire(s, c, now);
    case _ => QuietStepKeepsWire(s, a);
  }

  // ---- no fault so far: the held token is live whenever nothing is outstanding ----

  ghost predicate NotPresented(s: Sys, token: R.Token) {
    token != "" && forall i :: i in s.mine ==> i < |s.server.handlers| && s.server.handlers[i].token != token
  }

  ghost predicate SafeRequest(s: Sys, i: nat) {
    && i < |s.server.handlers|
    && var h := s.server.handlers[i];
      && !h.Refusing? && !h.Refused?
      && (h.Passed? ==> Awaited(s, i))
      && (h.token in s.server.tables.consumed || h.token == s.source.tokens.refresh)
  }

  ghost predicate SafeCall(s: Sys, c: nat)
    requires c in s.pcs
  {
    match s.pcs[c]
    case Leading(_, _) => HeldIsLive(s)
    case Stuck(_, _) => HeldIsLive(s)
    case Calling(_, _, r) =>
      r < |s.server.handlers| &&
      (match s.server.handlers[r]
       case Arrived(_) => HeldIsLive(s)
       case Lost(_) => HeldIsLive(s)
       case Passed(_, _) => s.session in s.server.tables.live && s.server.tables.live[s.session] == s.source.tokens.refresh
       case Granted(_, _, next) => LiveUnused(s, next) && NotPresented(s, next)
       case _ => false)
    case Adopting(_, _, res) =>
      if res.err.None? then
        && res.next.Some? && LiveUnused(s, res.next.value.refresh) && NotPresented(s, res.next.value.refresh)
        && s.source.tokens.refresh in s.server.tables.consumed
      else HeldIsLive(s)
    case _ => true
  }

  ghost predicate Safe(s: Sys) {
    && !s.reuse
    && (s.source.inflight.None? ==> HeldIsLive(s))
    && (forall i :: i in s.mine ==> SafeRequest(s, i))
    && (forall c :: c in s.pcs ==> SafeCall(s, c))
  }

  /** Steps that touch neither the server nor the held pair, and neither start nor end a refresh. */
  lemma QuietKeepsSafe(s: Sys, t: Sys)
    requires Safe(s) && t.server == s.server && t.mine == s.mine && t.session == s.session && t.reuse == s.reuse
    requires t.source.tokens == s.source.tokens && (t.source.inflight.None? ==> s.source.inflight.None?)
    requires forall c :: c in s.pcs && s.pcs[c].Calling? ==> c in t.pcs && t.pcs[c] == s.pcs[c]
    requires forall c :: c in t.pcs && Refreshing(t.pcs[c]) ==>
               (c in s.pcs && t.pcs[c] == s.pcs[c]) || (t.pcs[c].Leading? && s.source.inflight.None?)
    ensures Safe(t)
  {
    forall i | i in t.mine ensures SafeRequest(t, i) {
      assert SafeRequest(s, i);
      if s.server.handlers[i].Passed? {
        var c :| c in s.pcs && s.pcs[c].Calling? && s.pcs[c].request == i;
        assert c in t.pcs && t.pcs[c].Calling? && t.pcs[c].request == i;
      }
    }
    forall c | c in t.pcs ensures SafeCall(t, c) {
      if c in s.pcs { assert SafeCall(s, c); }
    }
  }

  lemma OnlyRefresher(s: Sys, c: nat, d: nat)
    requires Shape(s) && c in s.pcs && d in s.pcs && Refreshing(s.pcs[c]) && Refreshing(s.pcs[d])
    ensures c == d
  {
    assert CallerFits(s, c) && CallerFits(s, d);
  }

  lemma SendKeepsSafe(s: Sys, d: nat)
    requires Shape(s) && Wire(s) && Safe(s) && Enabled(s, Send(d))
    ensures Safe(Apply(s, Send(d)))
  {
    var t := Apply(s, Send(d));
    assert CallerFits(s, d) && SafeCall(s, d);
    forall i | i in t.mine ensures SafeRequest(t, i) {
      if i in s.mine {
        assert SafeRequest(s, i);
        if s.server.handlers[i].Passed? {
          var c :| c in s.pcs && s.pcs[c].Calling? && s.pcs[c].request == i;
          OnlyRefresher(s, c, d);
        }
      }
    }
    forall c | c in t.pcs ensures SafeCall(t, c) {
      assert SafeCall(s, c);
      if c != d && Refreshing(s.pcs[c]) { OnlyRefresher(s, c, d); }
    }
  }

  lemma EndCallKeepsSafe(s: Sys, d: nat, res: RefreshResult)
    requires Shape(s) && Wire(s) && Safe(s) && Enabled(s, EndCall(d, res))
    requires !Apply(s, EndCall(d, res)).faulty
    ensures Safe(Apply(s, EndCall(d, res)))
  {
    var t := Apply(s, EndCall(d, res));
    assert CallerFits(s, d) && CallFits(s, d) && SafeCall(s, d) && RequestFits(s, s.pcs[d].request);
    forall i | i in t.mine ensures SafeRequest(t, i) {
      assert SafeRequest(s, i);
      if s.server.handlers[i].Passed? {
        var c :| c in s.pcs && s.pcs[c].Calling? && s.pcs[c].request == i;
        OnlyRefresher(s, c, d);
      }
    }
    forall c | c in t.pcs ensures SafeCall(t, c) {
      assert SafeCall(s, c);
      if c != d && Refreshing(s.pcs[c]) { OnlyRefresher(s, c, d); }
    }
  }

  lemma PanicKeepsSafe(s: Sys, d: nat)
    requires Shape(s) && Wire(s) && Safe(s) && Enabled(s, Panic(d)) && !Apply(s, Panic(d)).faulty
    ensures Safe(Apply(s, Panic(d)))
  {
    var t := Apply(s, Panic(d));
    assert CallerFits(s, d) && SafeCall(s, d);
    forall i | i in t.mine ensures SafeRequest(t, i) {
      assert SafeRequest(s, i);
      if s.server.handlers[i].Passed? {
        var c :| c in s.pcs && s.pcs[c].Calling? && s.pcs[c].request == i;
        assert c in t.pcs && t.pcs[c].Calling? && t.pcs[c].request == i;
      }
    }
    forall c | c in t.pcs ensures SafeCall(t, c) {
      assert SafeCall(s, c);
      if c != d && Refreshing(s.pcs[c]) && Refreshing(s.pcs[d]) { OnlyRefresher(s, c, d); }
    }
  }

  lemma AdoptKeepsSafe(s: Sys, d: nat, now: int)
    requires Shape(s) && Wire(s) && Safe(s) && Enabled(s, Adopt(d, now))
    ensures Safe(Apply(s, Adopt(d, now)))
  {
    var t := Apply(s, Adopt(d, now));
    assert CallerFits(s, d) && CallFits(s, d) && SafeCall(s, d);
    forall i | i in t.mine ensures SafeRequest(t, i) {
      assert SafeRequest(s, i);
      if s.server.handlers[i].Passed? {
        var c :| c in s.pcs && s.pcs[c].Calling? && s.pcs[c].request == i;
        OnlyRefresher(s, c, d);
      }
    }
    forall c | c in t.pcs ensures SafeCall(t, c) {
      assert SafeCall(s, c);
      if c != d && Refreshing(s.pcs[c]) { OnlyRefresher(s, c, d); }
    }
  }

  /** What a server step leaves alone for this session, unless one of its own requests takes it. */
  lemma ForeignStep(s: Sys, step: R.Action)
    requires Wire(s) && Enabled(s, Server(step))
    requires step.Check? || step.Revoke? || step.Publish? ==> step.i !in s.mine
    ensures
      var t := R.Apply(s.server, step).tables;
      && (s.session in t.live <==> s.session in s.server.tables.live)
      && (s.session in t.live ==> t.live[s.session] == s.server.tables.live[s.session])
      && s.server.tables.consumed <= t.consumed
      && (forall token :: Ours(s, token) && token in t.consumed ==> token in s.server.tables.consumed)
      && (forall i :: i in s.mine && i < |s.server.handlers| ==>
            var h' := R.Apply(s.server, step).handlers[i];
            h' == s.server.handlers[i] || (step.Lose? && step.i == i && h' == R.Lost(s.server.handlers[i].token)))
      && (step.Check? ==> var h' := R.Apply(s.server, step).handlers[step.i]; h'.Refusing? ==> h'.session != s.session)
  {
    assert s.source.tokens.refresh in s.server.tables.issued;
    if step.Check? || step.Revoke? || step.Publish? { assert ForeignFits(s, step.i); }
  }

  lemma ForeignKeepsSafe(s: Sys, step: R.Action)
    requires Shape(s) && Wire(s) && Safe(s) && Enabled(s, Server(step))
    requires step.Check? || step.Revoke? || step.Publish? ==> step.i !in s.mine
    ensures Safe(Apply(s, Server(step)))
  {
    var t := Apply(s, Server(step));
    ForeignStep(s, step);
    forall i | i in t.mine ensures SafeRequest(t, i) {
      assert SafeRequest(s, i);
      if s.server.handlers[i].Passed? {
        var c :| c in s.pcs && s.pcs[c].Calling? && s.pcs[c].request == i;
        assert c in t.pcs && t.pcs[c].Calling? && t.pcs[c].request == i;
      }
    }
    forall c | c in t.pcs ensures SafeCall(t, c) {
      assert SafeCall(s, c) && CallFits(s, c);
      if s.pcs[c].Calling? { assert RequestFits(s, s.pcs[c].request); }
    }
  }

  lemma OwnKeepsSafe(s: Sys, step: R.Action)
    requires Shape(s) && Wire(s) && Safe(s) && Enabled(s, Server(step))
    requires (step.Check? || step.Revoke? || step.Publish?) && step.i in s.mine
    requires !Apply(s, Server(step)).faulty
    ensures Safe(Apply(s, Server(step)))
  {
    var t := Apply(s, Server(step));
    assert SafeRequest(s, step.i) && RequestFits(s, step.i);
    var d :| d in s.pcs && s.pcs[d].Calling? && s.pcs[d].request == step.i;
    assert CallerFits(s, d) && CallFits(s, d) && SafeCall(s, d);
    forall i | i in t.mine ensures SafeRequest(t, i) {
      assert SafeRequest(s, i);
      if t.server.handlers[i].Passed? && i != step.i {
        var c :| c in s.pcs && s.pcs[c].Calling? && s.pcs[c].request == i;
        OnlyRefresher(s, c, d);
      }
    }
    forall c | c in t.pcs ensures SafeCall(t, c) {
      assert SafeCall(s, c);
      if c != d && Refreshing(s.pcs[c]) { OnlyRefresher(s, c, d); }
    }
  }

  lemma EnterKeepsSafe(s: Sys, c: nat, now: int)
    requires Safe(s) && Enabled(s, Enter(c, now))
    ensures Safe(Apply(s, Enter(c, now)))
  {
    QuietKeepsSafe(s, Apply(s, Enter(c, now)));
  }

  lemma QuietStepKeepsSafe(s: Sys, a: Action)
    requires Shape(s) && Safe(s) && Enabled(s, a) && Quiet(a) && !a.Enter?
    ensures Safe(Apply(s, a))
  {
    var t := Apply(s, a);
    match a
    case Wake(_) => QuietKeepsSafe(s, t);
    case Cancel(_, _) => QuietKeepsSafe(s, t);
    case Notify(_, _) => QuietKeepsSafe(s, t);
    case Land(_) => QuietKeepsSafe(s, t);
    case Register(_) => QuietKeepsSafe(s, t);
  }

  lemma StepKeepsSafe(s: Sys, a: Action)
    requires Shape(s) && Wire(s) && Safe(s) && Enabled(s, a) && !Apply(s, a).faulty
    ensures Safe(Apply(s, a))
  {
    match a
    case Adopt(d, now) => AdoptKeepsSafe(s, d, now);
    case EndCall(d, res) => EndCallKeepsSafe(s, d, res);
    case Send(d) => SendKeepsSafe(s, d);
    case Server(step) =>
      if (step.Check? || step.Revoke? || step.Publish?) && step.i in s.mine {
        OwnKeepsSafe(s, step);
      } else {
        ForeignKeepsSafe(s, step);
      }
    case Panic(d) => PanicKeepsSafe(s, d);
    case Enter(c, now) => EnterKeepsSafe(s, c, now);
    case _ => QuietStepKeepsSafe(s, a);
  }

  // ---- a fault has happened and reuse has not been answered yet: every token the source can send is dead ----

  ghost predicate DoomedCall(s: Sys, c: nat)
    requires c in s.pcs
  {
    match s.pcs[c]
    case Calling(_, _, r) => r < |s.server.handlers| && !R.Rotates(s.server.handlers[r])
    case Adopting(_, _, res) => res.err.None? ==> res.next.Some? && res.next.value.refresh == ""
    case _ => true
  }

  ghost predicate Doomed(s: Sys) {
    && s.source.tokens.refresh in s.server.tables.consumed
    && (forall i :: i in s.mine ==> i < |s.server.handlers| && s.server.handlers[i].token in s.server.tables.consumed)
    && (forall c :: c in s.pcs ==> DoomedCall(s, c))
  }

  lemma FaultDooms(s: Sys, a: Action)
    requires Shape(s) && Wire(s) && Safe(s) && !s.faulty && Enabled(s, a)
    requires Apply(s, a).faulty && !Apply(s, a).reuse
    ensures Doomed(Apply(s, a))
  {
    var t := Apply(s, a);
    match a {
      case EndCall(d, res) =>
        assert CallerFits(s, d) && CallFits(s, d) && RequestFits(s, s.pcs[d].request);
        forall i | i in t.mine ensures t.server.handlers[i].token in t.server.tables.consumed {
          assert SafeRequest(s, i);
        }
        forall c | c in t.pcs ensures DoomedCall(t, c) {
          if c != d && Refreshing(s.pcs[c]) { OnlyRefresher(s, c, d); }
        }
      case Panic(d) =>
        assert CallerFits(s, d) && CallFits(s, d) && SafeCall(s, d) && RequestFits(s, s.pcs[d].request);
        forall i | i in t.mine ensures t.server.handlers[i].token in t.server.tables.consumed {
          assert SafeRequest(s, i);
        }
        forall c | c in t.pcs ensures DoomedCall(t, c) {
          if c != d && Refreshing(s.pcs[c]) { OnlyRefresher(s, c, d); }
        }
      case Server(step) =>
        assert SafeRequest(s, step.i) && RequestFits(s, step.i);
        forall c | c in t.pcs ensures DoomedCall(t, c) {
          assert SafeCall(s, c) && CallFits(s, c) && CallerFits(s, c);
        }
        if s.source.inflight.Some? {
          var f := s.source.inflight.value;
          var c := s.leaders[f];
          assert FlightFits(s, f);
          assert Refreshing(s.pcs[c]);
          assert SafeCall(s, c) && CallFits(s, c) && CallerFits(s, c);
          if s.pcs[c].Calling? { assert RequestFits(s, s.pcs[c].request); }
        }
        forall i | i in t.mine ensures t.server.handlers[i].token in t.server.tables.consumed {
          assert SafeRequest(s, i);
        }
    }
  }

  /** Steps of the source: d moves, and what it sends or adopts is dead. */
  lemma CallerKeepsDoomed(s: Sys, t: Sys, d: nat)
    requires Doomed(s) && t.server.tables == s.server.tables && s.server.handlers <= t.server.handlers
    requires forall i :: i in t.mine && i !in s.mine ==>
               i < |t.server.handlers| && t.server.handlers[i].token in t.server.tables.consumed
    requires t.source.tokens.refresh in t.server.tables.consumed
    requires d in t.pcs ==> DoomedCall(t, d)
    requires forall c :: c in t.pcs && c != d ==> c in s.pcs && t.pcs[c] == s.pcs[c]
    ensures Doomed(t)
  {
    forall c | c in t.pcs ensures DoomedCall(t, c) {
      if c != d { assert DoomedCall(s, c); }
    }
  }

  lemma ServerKeepsDoomed(s: Sys, step: R.Action)
    requires Wire(s) && Doomed(s) && Enabled(s, Server(step)) && !Apply(s, Server(step)).reuse
    ensures Doomed(Apply(s, Server(step)))
  {
    var t := Apply(s, Server(step));
    if (step.Check? || step.Revoke? || step.Publish?) && step.i in s.mine {
      assert RequestFits(s, step.i);
    } else {
      ForeignStep(s, step);
    }
    forall c | c in t.pcs ensures DoomedCall(t, c) {
      assert DoomedCall(s, c) && CallFits(s, c);
    }
  }

  lemma SendKeepsDoomed(s: Sys, d: nat)
    requires Shape(s) && Doomed(s) && Enabled(s, Send(d))
    ensures Doomed(Apply(s, Send(d)))
  {
    assert CallerFits(s, d);
    CallerKeepsDoomed(s, Apply(s, Send(d)), d);
  }

  lemma EndCallKeepsDoomed(s: Sys, d: nat, res: RefreshResult)
    requires Doomed(s) && Enabled(s, EndCall(d, res))
    ensures Doomed(Apply(s, EndCall(d, res)))
  {
    assert DoomedCall(s, d);
    CallerKeepsDoomed(s, Apply(s, EndCall(d, res)), d);
  }

  lemma AdoptKeepsDoomed(s: Sys, d: nat, now: int)
    requires Shape(s) && Doomed(s) && Enabled(s, Adopt(d, now))
    ensures Doomed(Apply(s, Adopt(d, now)))
  {
    assert CallerFits(s, d) && DoomedCall(s, d);
    CallerKeepsDoomed(s, Apply(s, Adopt(d, now)), d);
  }

  lemma EnterKeepsDoomed(s: Sys, d: nat, now: int)
    requires Doomed(s) && Enabled(s, Enter(d, now))
    ensures Doomed(Apply(s, Enter(d, now)))
  {
    CallerKeepsDoomed(s, Apply(s, Enter(d, now)), d);
  }

  lemma StepKeepsDoomed(s: Sys, a: Action)
    requires Shape(s) && Wire(s) && Doomed(s) && Enabled(s, a) && !Apply(s, a).reuse
    ensures Doomed(Apply(s, a))
  {
    match a
    case Server(step) => ServerKeepsDoomed(s, step);
    case Register(_) => assert forall c :: c in s.pcs ==> DoomedCall(s, c);
    case Enter(d, now) => EnterKeepsDoomed(s, d, now);
    case Send(d) => SendKeepsDoomed(s, d);
    case EndCall(d, res) => EndCallKeepsDoomed(s, d, res);
    case Adopt(d, now) => AdoptKeepsDoomed(s, d, now);
    case _ => CallerKeepsDoomed(s, Apply(s, a), a.c);
  }

  // ---- the theorems ----

  ghost predicate Invariant(s: Sys) {
    && Shape(s) && Results(s) && Wire(s)
    && (!s.faulty ==> Safe(s))
    && (s.faulty && !s.reuse ==> Doomed(s))
  }

  lemma StepKeepsInvariant(s: Sys, a: Action)
    requires Invariant(s) && Enabled(s, a)
    ensures Invariant(Apply(s, a))
  {
    StepKeepsShape(s, a);
    StepKeepsResults(s, a);
    StepKeepsWire(s, a);
    var t := Apply(s, a);
    if !t.faulty {
      StepKeepsSafe(s, a);
    } else if !t.reuse {
      if s.faulty {
        StepKeepsDoomed(s, a);
      } else {
        FaultDooms(s, a);
      }
    }
  }

  lemma {:induction false} InvariantHolds(s: Sys, acts: seq<Action>, t: Sys)
    requires Invariant(s) && Runs(s, acts, t)
    ensures Invariant(t)
    decreases |acts|
  {
    if acts != [] {
      StepKeepsInvariant(s, acts[0]);
      InvariantHolds(Apply(s, acts[0]), acts[1..], t);
    }
  }

  ghost predicate Reachable(t: Sys) {
    exists s, acts :: Initial(s) && Runs(s, acts, t)
  }

  lemma ReachableFits(t: Sys)
    requires Reachable(t)
    ensures Invariant(t)
  {
    var s, acts :| Initial(s) && Runs(s, acts, t);
    InvariantHolds(s, acts, t);
  }

  /**
   The reason TokenSource exists. In every run, as long as each rotation the server grants reaches the
   call that asked for it and no request is processed after its call was given up, the server never
   answers reuse; and whenever no refresh is outstanding, the held token is the one the server accepts.
  */
  lemma NeverReportsItselfForTheft(t: Sys)
    requires Reachable(t) && !t.faulty
    ensures !t.reuse
    ensures t.source.inflight.None? ==> HeldIsLive(t)
  {
    ReachableFits(t);
  }

  /** The condition is exact: after a fault, the next request of this source to arrive is answered reuse. */
  lemma FaultMakesNextRequestTheft(t: Sys, i: nat)
    requires Reachable(t) && i in t.mine && i < |t.server.handlers| && t.server.handlers[i].Arrived?
    ensures t.faulty ==> Apply(t, Server(R.Check(i))).reuse
    ensures !Apply(t, Server(R.Check(i))).faulty ==> !Apply(t, Server(R.Check(i))).reuse
  {
    ReachableFits(t);
    assert RequestFits(t, i);
    StepKeepsInvariant(t, Server(R.Check(i)));
  }

  /** At most one refresh is outstanding; the source's slot names its flight, whose channel is open; and
      the held pair is the one it was started with. */
  lemma AtMostOneRefresh(t: Sys, c: nat)
    requires Reachable(t) && c in t.pcs && Refreshing(t.pcs[c])
    ensures t.source.inflight == Some(t.pcs[c].flight)
    ensures t.pcs[c].flight < |t.source.flights| && t.source.flights[t.pcs[c].flight] == Open
    ensures t.source.tokens == t.pcs[c].current
    ensures forall d :: d in t.pcs && Refreshing(t.pcs[d]) ==> d == c
  {
    ReachableFits(t);
    assert CallerFits(t, c);
    forall d | d in t.pcs && Refreshing(t.pcs[d]) ensures d == c {
      OnlyRefresher(t, c, d);
    }
  }

  ghost predicate LeaderPanicked(t: Sys, f: nat) {
    exists d :: d in t.pcs && Panicked(t.pcs[d]) && t.pcs[d].flight == f
  }

  ghost predicate WillBeClosed(t: Sys, f: nat) {
    exists d :: d in t.pcs && Owns(t.pcs[d]) && !Panicked(t.pcs[d]) && t.pcs[d].flight == f
  }

  /** A flight waited for is closed or its leader is still on its way to close it, unless that leader panicked. */
  lemma WaitersAreServed(t: Sys, c: nat)
    requires Reachable(t) && c in t.pcs && t.pcs[c].Waiting?
    ensures
      var f := t.pcs[c].flight;
      f < |t.source.flights| && (t.source.flights[f].Closed? || WillBeClosed(t, f) <==> !LeaderPanicked(t, f))
  {
    ReachableFits(t);
    assert CallerFits(t, c);
    var f := t.pcs[c].flight;
    assert FlightFits(t, f);
    if t.source.flights[f].Open? {
      assert Owns(t.pcs[t.leaders[f]]) && t.pcs[t.leaders[f]].flight == f;
    }
    forall d | d in t.pcs && Owns(t.pcs[d]) && t.pcs[d].flight == f
      ensures t.source.flights[f].Open? && d == t.leaders[f]
    {
      assert CallerFits(t, d);
    }
  }

  /** What a leader's panic leaves behind for good. */
  ghost predicate LeftBy(t: Sys, c: nat, u: Sys) {
    && c in t.pcs && c in u.pcs && u.pcs[c] == t.pcs[c] && Panicked(t.pcs[c])
    && t.pcs[c].flight < |u.source.flights| && u.source.flights[t.pcs[c].flight].Open?
    && (t.pcs[c].Stuck? ==> u.source.inflight == Some(t.pcs[c].flight) && u.source.tokens == t.source.tokens && u.mine == t.mine)
  }

  /** A step of a caller under way; the one left behind takes none. */
  lemma CallerKeepsLeft(t: Sys, c: nat, u: Sys, a: Action)
    requires Shape(u) && LeftBy(t, c, u) && Enabled(u, a) && !a.Register? && !a.Server? && !a.Enter?
    ensures LeftBy(t, c, Apply(u, a))
  {
    assert a.c in u.pcs && CallerFits(u, c) && CallerFits(u, a.c);
    if t.pcs[c].Stuck? && Refreshing(u.pcs[a.c]) { OnlyRefresher(u, a.c, c); }
  }

  lemma StepKeepsLeft(t: Sys, c: nat, u: Sys, a: Action)
    requires Shape(u) && LeftBy(t, c, u) && Enabled(u, a)
    ensures LeftBy(t, c, Apply(u, a))
  {
    match a
    case Register(_) =>
    case Server(_) =>
    case Enter(_, _) => assert CallerFits(u, c);
    case _ => CallerKeepsLeft(t, c, u, a);
  }

  lemma {:induction false} RunKeepsLeft(t: Sys, c: nat, u: Sys, acts: seq<Action>, v: Sys)
    requires Invariant(u) && LeftBy(t, c, u) && Runs(u, acts, v)
    ensures LeftBy(t, c, v)
    decreases |acts|
  {
    if acts != [] {
      StepKeepsLeft(t, c, u, acts[0]);
      StepKeepsInvariant(u, acts[0]);
      RunKeepsLeft(t, c, Apply(u, acts[0]), acts[1..], v);
    }
  }

  /**
   Whatever happens after a leader's panic, its flight is never closed. If it panicked in refresh, the slot stays
   taken as well: the source sends no request again and never changes its pair, and every call that wants a
   new one joins the flight that nobody closes.
  */
  lemma PanicIsForever(t: Sys, c: nat, acts: seq<Action>, u: Sys)
    requires Reachable(t) && c in t.pcs && Panicked(t.pcs[c]) && Runs(t, acts, u)
    ensures LeftBy(t, c, u)
    ensures t.pcs[c].Stuck? ==> forall now :: !IsValid(t.source.tokens, now) ==> EnterSection(u.source, now).1 == Join(t.pcs[c].flight)
  {
    ReachableFits(t);
    assert CallerFits(t, c);
    RunKeepsLeft(t, c, t, acts, u);
  }

  /** A flight's channel is closed once: whoever closes it finds it open. */
  lemma FlightClosesOnce(t: Sys, c: nat)
    requires Reachable(t) && c in t.pcs && t.pcs[c].Closing?
    ensures t.pcs[c].flight < |t.source.flights| && t.source.flights[t.pcs[c].flight].Open?
    ensures forall d :: d in t.pcs && Owns(t.pcs[d]) && t.pcs[d].flight == t.pcs[c].flight ==> d == c
  {
    ReachableFits(t);
    assert CallerFits(t, c);
    forall d | d in t.pcs && Owns(t.pcs[d]) && t.pcs[d].flight == t.pcs[c].flight ensures d == c {
      assert CallerFits(t, d);
    }
  }

  /** Everybody served by one flight gets one answer. */
  lemma OneAnswerPerFlight(t: Sys, i: nat, j: nat)
    requires Reachable(t) && i < |t.answers| && j < |t.answers|
    requires t.answers[i].via.Through? && t.answers[i].via == t.answers[j].via
    ensures t.answers[i].tokens == t.answers[j].tokens && t.answers[i].err == t.answers[j].err
  {
    ReachableFits(t);
    assert AnswerFits(t, i) && AnswerFits(t, j);
  }

  /** An answered pair is the one its flight left in the source, the registered callback has already run on
      it, and an error comes with no tokens. */
  lemma AnswersArePersisted(t: Sys, i: nat)
    requires Reachable(t) && i < |t.answers|
    ensures t.answers[i].err.Some? ==> t.answers[i].tokens == EMPTY
    ensures t.answers[i].via.Through? && t.answers[i].err.None? ==> Persisted(t, t.answers[i].via.flight, t.answers[i].tokens)
  {
    ReachableFits(t);
    assert AnswerFits(t, i);
    if t.answers[i].via.Through? && t.answers[i].err.None? {
      assert ResultFits(t, t.answers[i].via.flight);
    }
  }

  /** A pair answered without waiting is the one the source held then, and was more than thirty seconds from expiry: it
      was answered for that reason alone. */
  lemma HeldPairIsGood(t: Sys, i: nat)
    requires Reachable(t) && i < |t.answers| && !t.answers[i].via.Through?
    ensures t.answers[i].err.None? ==> t.answers[i].via.AtOnce? && t.answers[i].tokens == t.answers[i].via.held
    ensures t.answers[i].via.AtOnce? && InRange(t.answers[i].via.held) ==>
              (t.answers[i].err.None? <==> FarFromExpiry(t.answers[i].via.held, t.answers[i].via.now))
  {
    ReachableFits(t);
    assert AnswerFits(t, i);
  }

  /** What a callback answers is not lost: an error of its own is the error of every call its flight serves. */
  lemma CallbackErrorIsAnswered(t: Sys, n: Note, i: nat)
    requires Reachable(t) && n in t.notes && n.answer.Some?
    requires i < |t.answers| && t.answers[i].via == Through(n.flight)
    ensures t.answers[i].err == n.answer && t.answers[i].tokens == EMPTY
  {
    ReachableFits(t);
    assert AnswerFits(t, i) && NoteFits(t, n);
  }

  // ---- the condition cannot be weakened to "every granted rotation reached its caller" ----

  lemma {:induction false} RunsThen(s: Sys, acts: seq<Action>, t: Sys, a: Action) returns (acts': seq<Action>, t': Sys)
    requires Runs(s, acts, t) && Enabled(t, a)
    ensures Runs(s, acts', t') && acts' == acts + [a] && t' == Apply(t, a)
    decreases |acts|
  {
    acts', t' := acts + [a], Apply(t, a);
    if acts == [] {
      assert acts'[1..] == [];
      assert Runs(t', [], t');
    } else {
      var _, _ := RunsThen(Apply(s, acts[0]), acts[1..], t, a);
      assert acts'[1..] == acts[1..] + [a];
    }
  }

  /** A session that has just signed in, with a pair that has to be refreshed. */
  ghost function SignedIn(session: R.Session, pair: Tokens): Sys {
    Sys(Source(true, pair, None, None, []), map[], R.SignedIn(session, pair.refresh), session,
        [], {}, map[], {}, [], false, false)
  }

  /** Every rotation the server granted was delivered to the call that asked for it. */
  ghost predicate GrantsDelivered(s: Sys) {
    forall i :: 0 <= i < |s.server.handlers| && s.server.handlers[i].Granted? ==>
      s.source.tokens.refresh == s.server.handlers[i].next
  }

  lemma CallOut(s0: Sys, acts0: seq<Action>, s: Sys) returns (acts: seq<Action>, t: Sys)
    requires Runs(s0, acts0, s) && At(s, 0).Idle? && s.source.inflight.None?
    requires s.source.needsRefresh && s.source.tokens.access == "" && s.source.tokens.refresh != ""
    ensures Runs(s0, acts, t)
    ensures t == s.(source := s.source.(inflight := Some(|s.source.flights|), flights := s.source.flights + [Open]),
                    leaders := s.leaders + [0],
                    server := s.server.(handlers := s.server.handlers + [R.Arrived(s.source.tokens.refresh)]),
                    mine := s.mine + {|s.server.handlers|},
                    pcs := s.pcs[0 := Calling(|s.source.flights|, s.source.tokens, |s.server.handlers|)])
  {
    acts, t := RunsThen(s0, acts0, s, Enter(0, 0));
    acts, t := RunsThen(s0, acts, t, Send(0));
    assert s.pcs[0 := Leading(|s.source.flights|, s.source.tokens)][0 := t.pcs[0]] == s.pcs[0 := t.pcs[0]];
  }

  /** From a sign-in: one call panics in refresh, and the next waits for it. */
  lemma PanicStrandsCallers(session: R.Session, pair: Tokens)
    requires pair.access == "" && pair.refresh != ""
    ensures exists t :: Reachable(t) && At(t, 0).Stuck? && At(t, 1) == Waiting(At(t, 0).flight) && !t.faulty
  {
    var s := SignedIn(session, pair);
    assert Initial(s);
    var acts, t := CallOut(s, [], s);
    acts, t := RunsThen(s, acts, t, Panic(0));
    acts, t := RunsThen(s, acts, t, Enter(1, 0));
    assert Reachable(t);
  }

  lemma GiveUp(s0: Sys, acts0: seq<Action>, s: Sys, why: Error) returns (acts: seq<Action>, t: Sys)
    requires Runs(s0, acts0, s) && At(s, 0).Calling? && At(s, 0).flight < |s.source.flights|
    requires At(s, 0).request < |s.server.handlers| && s.server.handlers[At(s, 0).request].Arrived?
    ensures Runs(s0, acts, t) && At(t, 0).Idle? && t.server == s.server && t.mine == s.mine && t.session == s.session
    ensures t.source.tokens == s.source.tokens && t.source.inflight.None? && t.source.needsRefresh == s.source.needsRefresh
    ensures |t.source.flights| == |s.source.flights|
  {
    acts, t := RunsThen(s0, acts0, s, EndCall(0, RefreshResult(None, Some(why))));
    acts, t := RunsThen(s0, acts, t, Adopt(0, 0));
    acts, t := RunsThen(s0, acts, t, Notify(0, None));
    acts, t := RunsThen(s0, acts, t, Land(0));
  }

  /** The second of two requests is granted, delivered and adopted. */
  lemma RotateFirst(s0: Sys, acts0: seq<Action>, s: Sys, next: Tokens) returns (acts: seq<Action>, t: Sys)
    requires Runs(s0, acts0, s) && At(s, 0).Calling? && At(s, 0).request == 1 && s.mine == {0, 1}
    requires var token := s.source.tokens.refresh;
             && s.server.handlers == [R.Arrived(token), R.Arrived(token)] && Ours(s, token) && LiveUnused(s, token)
             && token != "" && next.refresh != token && next.refresh != ""
             && next.refresh !in s.server.tables.issued && next.refresh !in s.server.tables.consumed
    ensures Runs(s0, acts, t) && t.source.tokens.refresh == next.refresh && t.mine == {0, 1} && t.session == s.session
    ensures var token := s.source.tokens.refresh;
            && t.server.handlers == [R.Arrived(token), R.Granted(token, s.session, next.refresh)]
            && Ours(t, token) && token in t.server.tables.consumed
  {
    var token := s.source.tokens.refresh;
    acts, t := RunsThen(s0, acts0, s, Server(R.Check(1)));
    assert t.server.handlers == [R.Arrived(token), R.Passed(token, s.session)];
    acts, t := RunsThen(s0, acts, t, Server(R.Publish(1, next.refresh)));
    assert t.server.handlers == [R.Arrived(token), R.Granted(token, s.session, next.refresh)];
    acts, t := RunsThen(s0, acts, t, EndCall(0, RefreshResult(Some(next), None)));
    acts, t := RunsThen(s0, acts, t, Adopt(0, 0));
  }

  /**
   A call gives up before its request arrives, the next call rotates and is answered in full, and then
   the first request arrives: the server reports theft, though it granted nothing that was not delivered.
  */
  lemma LateRequestIsTheft(session: R.Session, pair: Tokens, next: Tokens)
    requires pair.access == "" && pair.refresh != "" && next.refresh != "" && pair.refresh != next.refresh
    ensures exists t :: Reachable(t) && t.reuse && GrantsDelivered(t)
  {
    var s := SignedIn(session, pair);
    assert Initial(s);
    var acts, t := CallOut(s, [], s);
    acts, t := GiveUp(s, acts, t, "deadline exceeded");
    acts, t := CallOut(s, acts, t);
    assert t.server.handlers == [R.Arrived(pair.refresh), R.Arrived(pair.refresh)];
    acts, t := RotateFirst(s, acts, t, next);
    acts, t := RunsThen(s, acts, t, Server(R.Check(0)));
    assert t.server.handlers == [R.Refusing(pair.refresh, session), R.Granted(pair.refresh, session, next.refresh)];
    assert Reachable(t);
  }
}
