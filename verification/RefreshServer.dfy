/**
 The rotating-token server: the refresh handler of anubistest/server.go and the tables it shares
 with IssueSession.

 A handler takes the mutex two or three times, so its lock sections are separate steps and any
 number of handlers interleave between them.
*/
module RefreshServer {
  import opened Basics

  type Token = string
  type Session = string

  /** The three tables the handlers share: session -> live token, token -> session, tokens used. */
  datatype Tables = Tables(live: map<Session, Token>, issued: map<Token, Session>, consumed: set<Token>)

  /** How far one refresh request has come. */
  datatype Handler =
    | Arrived(token: Token)                                  // sent, not yet checked
    | Lost(token: Token)                                     // never reaches the server
    | Passed(token: Token, session: Session)                 // checked and consumed, successor not published
    | Refusing(token: Token, session: Session)               // refused, family not yet revoked
    | Granted(token: Token, session: Session, next: Token)   // successor published
    | Refused(token: Token)                                  // answered as a revoked family

  datatype State = State(tables: Tables, handlers: seq<Handler>)

  datatype Action =
    | Arrive(token: Token)
    | Lose(i: nat)
    | Check(i: nat)
    | Revoke(i: nat)
    | Publish(i: nat, next: Token)
    | Issue(session: Session, token: Token)

  // ---- the lock sections ----

  /** The token a session's map entry reads as; a missing entry reads as the empty string. */
  function LiveToken(t: Tables, session: Session): Token {
    if session in t.live then t.live[session] else ""
  }

  /** First lock section, with the branch taken right after it. */
  function CheckSection(t: Tables, token: Token): (Tables, Handler) {
    var known := token in t.issued;
    var live := known && LiveToken(t, t.issued[token]) == token;
    var alreadyUsed := token in t.consumed;
    var t' := if live then t.(consumed := t.consumed + {token}) else t;
    if !known then (t', Refused(token))
    else if alreadyUsed || !live then (t', Refusing(token, t.issued[token]))
    else (t', Passed(token, t.issued[token]))
  }

  /** Lock section of a refusal: the whole family dies. */
  function RevokeSection(t: Tables, session: Session): Tables {
    t.(live := t.live - {session})
  }

  /** Lock section of a grant: the successor becomes the session's live token. */
  function PublishSection(t: Tables, session: Session, next: Token): Tables {
    t.(live := t.live[session := next], issued := t.issued[next := session])
  }

  // ---- the step system ----

  /** A random token: not empty, never issued, and not a string anybody is already presenting. */
  ghost predicate Fresh(s: State, token: Token) {
    && token != ""
    && token !in s.tables.issued
    && token !in s.tables.consumed
    && forall i | 0 <= i < |s.handlers| :: s.handlers[i].token != token
  }

  ghost predicate Enabled(s: State, a: Action) {
    match a
    case Arrive(_) => true
    case Lose(i) => i < |s.handlers| && s.handlers[i].Arrived?
    case Check(i) => i < |s.handlers| && s.handlers[i].Arrived?
    case Revoke(i) => i < |s.handlers| && s.handlers[i].Refusing?
    case Publish(i, next) => i < |s.handlers| && s.handlers[i].Passed? && Fresh(s, next)
    case Issue(session, token) =>
      session !in s.tables.issued.Values && session !in s.tables.live && Fresh(s, token)
  }

  ghost function Apply(s: State, a: Action): State
    requires Enabled(s, a)
  {
    match a
    case Arrive(token) => s.(handlers := s.handlers + [Arrived(token)])
    case Lose(i) => s.(handlers := s.handlers[i := Lost(s.handlers[i].token)])
    case Check(i) =>
      var (t, h) := CheckSection(s.tables, s.handlers[i].token);
      State(t, s.handlers[i := h])
    case Revoke(i) =>
      State(RevokeSection(s.tables, s.handlers[i].session),
            s.handlers[i := Refused(s.handlers[i].token)])
    case Publish(i, next) =>
      var h := s.handlers[i];
      State(PublishSection(s.tables, h.session, next),
            s.handlers[i := Granted(h.token, h.session, next)])
    case Issue(session, token) =>
      s.(tables := PublishSection(s.tables, session, token))
  }

  ghost predicate Runs(s: State, acts: seq<Action>, t: State)
    decreases |acts|
  {
    if acts == [] then s == t
    else Enabled(s, acts[0]) && Runs(Apply(s, acts[0]), acts[1..], t)
  }

  // ---- a refresh token gains at most one successor ----

  predicate Rotates(h: Handler) {
    h.Passed? || h.Granted?
  }

  ghost predicate OneSuccessorEach(s: State) {
    forall i, j :: 0 <= i < j < |s.handlers| && Rotates(s.handlers[i]) && Rotates(s.handlers[j])
      ==> s.handlers[i].token != s.handlers[j].token
  }

  ghost predicate RotatedAreConsumed(s: State) {
    forall i :: 0 <= i < |s.handlers| && Rotates(s.handlers[i]) ==> s.handlers[i].token in s.tables.consumed
  }

  lemma {:induction false} SuccessorsStayUnique(s: State, acts: seq<Action>, t: State)
    requires OneSuccessorEach(s) && RotatedAreConsumed(s) && Runs(s, acts, t)
    ensures OneSuccessorEach(t) && RotatedAreConsumed(t)
    decreases |acts|
  {
    if acts != [] {
      SuccessorsStayUnique(Apply(s, acts[0]), acts[1..], t);
    }
  }

  /** Whatever is presented, in whatever interleaving, no token is rotated twice. */
  lemma TokenRotatesAtMostOnce(tables: Tables, acts: seq<Action>, t: State, i: nat, j: nat)
    requires Runs(State(tables, []), acts, t)
    requires i < |t.handlers| && j < |t.handlers| && i != j
    requires t.handlers[i].Granted? && t.handlers[j].Granted?
    ensures t.handlers[i].token != t.handlers[j].token
  {
    SuccessorsStayUnique(State(tables, []), acts, t);
    var k, l := if i < j then i else j, if i < j then j else i;
    assert Rotates(t.handlers[k]) && Rotates(t.handlers[l]);
  }

  // ---- when a revoked session stays revoked ----

  /** Some handler of the session sits between consuming its token and publishing the successor. */
  ghost predicate MidRotation(s: State, session: Session) {
    exists i :: 0 <= i < |s.handlers| && s.handlers[i].Passed? && s.handlers[i].session == session
  }

  /** Reuse has been detected, and the refusing handler has run its revocation. */
  ghost predicate Revoked(s: State, session: Session) {
    session in s.tables.issued.Values && session !in s.tables.live
  }

  /** In no continuation does the session have a live token. */
  ghost predicate NeverLiveAgain(s: State, session: Session) {
    forall acts, t :: Runs(s, acts, t) ==> session !in t.tables.live
  }

  lemma StepKeepsRevoked(s: State, a: Action, session: Session)
    requires Enabled(s, a) && Revoked(s, session) && !MidRotation(s, session)
    requires "" !in s.tables.issued
    ensures Revoked(Apply(s, a), session) && !MidRotation(Apply(s, a), session)
    ensures "" !in Apply(s, a).tables.issued
  {
    var t := Apply(s, a);
    var token :| token in s.tables.issued && s.tables.issued[token] == session;
    assert token in t.tables.issued && t.tables.issued[token] == session;
    if i :| 0 <= i < |t.handlers| && t.handlers[i].Passed? && t.handlers[i].session == session {
      assert false;
    }
  }

  lemma {:induction false} RevokedStaysRevoked(s: State, acts: seq<Action>, t: State, session: Session)
    requires Runs(s, acts, t) && Revoked(s, session) && !MidRotation(s, session)
    requires "" !in s.tables.issued
    ensures session !in t.tables.live
    decreases |acts|
  {
    if acts != [] {
      StepKeepsRevoked(s, acts[0], session);
      RevokedStaysRevoked(Apply(s, acts[0]), acts[1..], t, session);
    }
  }

  ghost function Longest(ts: set<Token>): (n: nat)
    ensures forall t :: t in ts ==> |t| <= n
  {
    if ts == {} then 0
    else
      var t :| t in ts;
      var n := Longest(ts - {t});
      if n < |t| then |t| else n
  }

  lemma FreshTokenExists(s: State) returns (token: Token)
    ensures Fresh(s, token)
  {
    var presented := set i | 0 <= i < |s.handlers| :: s.handlers[i].token;
    var all := s.tables.issued.Keys + s.tables.consumed + presented;
    token := seq(Longest(all) + 1, _ => 'x');
    assert token !in all;
    forall i | 0 <= i < |s.handlers| ensures s.handlers[i].token != token {
      assert s.handlers[i].token in presented;
    }
  }

  /**
   Exactly when a revocation is final. A session whose reuse was detected can only come back
   through a handler that had already consumed the session's token and not yet published.
  */
  lemma RevocationIsFinalIff(s: State, session: Session)
    requires Revoked(s, session) && "" !in s.tables.issued
    ensures NeverLiveAgain(s, session) <==> !MidRotation(s, session)
  {
    if !MidRotation(s, session) {
      forall acts, t | Runs(s, acts, t) ensures session !in t.tables.live {
        RevokedStaysRevoked(s, acts, t, session);
      }
    } else {
      var i :| 0 <= i < |s.handlers| && s.handlers[i].Passed? && s.handlers[i].session == session;
      var next := FreshTokenExists(s);
      var a := Publish(i, next);
      var t := Apply(s, a);
      assert Runs(t, [], t);
      assert [a][1..] == [];
      assert Runs(s, [a], t);
      assert session in t.tables.live;
    }
  }

  lemma {:induction false} RunsThen(s: State, acts: seq<Action>, t: State, a: Action)
    requires Runs(s, acts, t) && Enabled(t, a)
    ensures Runs(s, acts + [a], Apply(t, a))
    decreases |acts|
  {
    if acts == [] {
      assert ([] + [a])[1..] == [];
      assert Runs(Apply(t, a), [], Apply(t, a));
    } else {
      RunsThen(Apply(s, acts[0]), acts[1..], t, a);
      assert (acts + [a])[1..] == acts[1..] + [a];
    }
  }

  /** A session that has just signed in, seen by a server with no request pending. */
  ghost function SignedIn(session: Session, token: Token): State {
    State(Tables(map[session := token], map[token := session], {}), [])
  }

  /**
   The interleaving that defeats revocation, from one sign-in: the second presentation is refused and
   the family revoked, and then the first handler publishes, so the session is live after its reuse
   has been answered.
  */
  lemma ReuseBetweenSectionsRevives(session: Session, token: Token, next: Token)
    requires token != "" && next != "" && token != next
    ensures exists acts, t :: && Runs(SignedIn(session, token), acts, t)
                              && t.handlers == [Granted(token, session, next), Refused(token)]
                              && t.tables.live == map[session := next]
  {
    var s0 := SignedIn(session, token);
    var s1 := Apply(s0, Arrive(token));
    RunsThen(s0, [], s0, Arrive(token));
    var s2 := Apply(s1, Arrive(token));
    RunsThen(s0, [] + [Arrive(token)], s1, Arrive(token));
    var acts := [] + [Arrive(token)] + [Arrive(token)];
    var s3 := Apply(s2, Check(0));
    RunsThen(s0, acts, s2, Check(0));
    var s4 := Apply(s3, Check(1));
    RunsThen(s0, acts + [Check(0)], s3, Check(1));
    assert s4.handlers == [Passed(token, session), Refusing(token, session)];
    acts := acts + [Check(0)] + [Check(1)];
    var s5 := Apply(s4, Revoke(1));
    RunsThen(s0, acts, s4, Revoke(1));
    var s6 := Apply(s5, Publish(0, next));
    RunsThen(s0, acts + [Revoke(1)], s5, Publish(0, next));
    assert s6.tables.live == map[session := next];
  }

  // ---- handlers run one at a time ----

  /** One refresh request served from start to end with nobody else running. */
  function Serve(t: Tables, token: Token, next: Token): (Tables, Option<Token>) {
    var (t', h) := CheckSection(t, token);
    match h
    case Passed(_, session) => (PublishSection(t', session, next), Some(next))
    case Refusing(_, session) => (RevokeSection(t', session), None)
    case _ => (t', None)
  }

  /** Requests served one after another: the successors drawn are fresh each time. */
  ghost predicate ServesSerially(t: Tables, requests: seq<(Token, Token)>, t': Tables)
    decreases |requests|
  {
    if requests == [] then t == t'
    else
      requests[0].1 != "" && requests[0].1 !in t.issued
      && ServesSerially(Serve(t, requests[0].0, requests[0].1).0, requests[1..], t')
  }

  lemma {:induction false} SerialDeadStaysDead(t: Tables, requests: seq<(Token, Token)>, t': Tables, session: Session)
    requires ServesSerially(t, requests, t') && "" !in t.issued
    requires session !in t.live && session in t.issued.Values
    ensures session !in t'.live && "" !in t'.issued
    decreases |requests|
  {
    if requests != [] {
      var earlier :| earlier in t.issued && t.issued[earlier] == session;
      var u := Serve(t, requests[0].0, requests[0].1).0;
      assert earlier in u.issued && u.issued[earlier] == session;
      SerialDeadStaysDead(u, requests[1..], t', session);
    }
  }

  /**
   With handlers run one at a time, once any token of a session has been refused, no token of that
   session refreshes again, whatever is served in between.
  */
  lemma SerialReuseIsFinal(t: Tables, reused: Token, drawn: Token, requests: seq<(Token, Token)>, t': Tables,
                           token: Token, next: Token)
    requires "" !in t.issued && reused in t.issued
    requires Serve(t, reused, drawn).1 == None
    requires ServesSerially(Serve(t, reused, drawn).0, requests, t')
    requires token in t'.issued && t'.issued[token] == t.issued[reused]
    ensures Serve(t', token, next).1 == None
  {
    var session := t.issued[reused];
    var u := Serve(t, reused, drawn).0;
    assert reused in u.issued && u.issued[reused] == session;
    SerialDeadStaysDead(u, requests, t', session);
  }

  /** The session accepts this token. */
  predicate Accepts(t: Tables, token: Token) {
    && token in t.issued && t.issued[token] in t.live && t.live[t.issued[token]] == token
    && token !in t.consumed
  }

  /**
   What a refresh answers. A token is refreshed exactly when its session accepts it; the answer is the token drawn for
   this request, which the session accepts from then on in place of the one presented, and no other session's
   token changes.
  */
  lemma RefreshAnswersTheLiveToken(t: Tables, token: Token, next: Token)
    requires "" !in t.issued && next !in t.issued && next !in t.consumed && next != ""
    ensures var (t', r) := Serve(t, token, next);
            && (r.Some? <==> Accepts(t, token))
            && (r.Some? ==> r.value == next && Accepts(t', r.value) && !Accepts(t', token) && t'.issued[r.value] == t.issued[token])
            && (forall other :: other != token && other in t.issued && (token in t.issued ==> t.issued[other] != t.issued[token]) ==>
                  (Accepts(t', other) <==> Accepts(t, other)))
  {
  }

  /** So what was answered is what to present next. */
  lemma AnsweredTokenRefreshes(t: Tables, token: Token, next: Token, drawn: Token)
    requires "" !in t.issued && next !in t.issued && next !in t.consumed && next != ""
    requires drawn !in t.issued && drawn !in t.consumed && drawn != "" && drawn != next && drawn != token
    requires Serve(t, token, next).1.Some?
    ensures var (t', r) := Serve(t, token, next);
            Serve(t', r.value, drawn).1 == Some(drawn)
  {
    RefreshAnswersTheLiveToken(t, token, next);
    RefreshAnswersTheLiveToken(Serve(t, token, next).0, next, drawn);
  }

  /** A request served alone is a run of its lock sections: it arrives, is checked, and publishes or revokes; and the
      handler is granted the token the request is answered with, or none. */
  lemma ServedAloneIsARun(s: State, token: Token, next: Token) returns (acts: seq<Action>, u: State, h: Handler)
    requires Fresh(s, next) && next != token
    ensures Runs(s, acts, u) && u == State(Serve(s.tables, token, next).0, s.handlers + [h])
    ensures Serve(s.tables, token, next).1 == if h.Granted? then Some(h.next) else None
    ensures h.Granted? ==> h.token == token && token in s.tables.issued && h.session == s.tables.issued[token]
    ensures h.Granted? || h == Refused(token)
  {
    var i := |s.handlers|;
    assert Runs(s, [], s);
    RunsThen(s, [], s, Arrive(token));
    u := Apply(s, Arrive(token));
    RunsThen(s, [] + [Arrive(token)], u, Check(i));
    u := Apply(u, Check(i));
    acts := [] + [Arrive(token)] + [Check(i)];
    if u.handlers[i].Passed? {
      RunsThen(s, acts, u, Publish(i, next));
      acts, u := acts + [Publish(i, next)], Apply(u, Publish(i, next));
    } else if u.handlers[i].Refusing? {
      RunsThen(s, acts, u, Revoke(i));
      acts, u := acts + [Revoke(i)], Apply(u, Revoke(i));
    }
    h := u.handlers[i];
    assert u.handlers == s.handlers + [h];
  }

  /** A granted token is spent: presented again before any other request it is refused. */
  lemma SpentTokenIsRefused(t: Tables, token: Token, next: Token, next': Token)
    requires "" !in t.issued && token != next
    requires Serve(t, token, next).1.Some?
    ensures Serve(Serve(t, token, next).0, token, next').1 == None
  {
  }

  class Server {
    var liveRefresh: map<Session, Token>
    var issued: map<Token, Session>
    var consumed: set<Token>

    ghost function View(): Tables
      reads this
    {
      Tables(liveRefresh, issued, consumed)
    }

    constructor ()
      ensures View() == Tables(map[], map[], {})
    {
      liveRefresh, issued, consumed := map[], map[], {};
    }

    method IssueSession(session: Session, token: Token)
      modifies this
      ensures View() == PublishSection(old(View()), session, token)
      ensures token !in old(consumed) ==> Accepts(View(), token)
    {
      liveRefresh := liveRefresh[session := token];
      issued := issued[token := session];
    }

    /** The whole handler, with no other handler between its lock sections. */
    method Refresh(token: Token, random: Token) returns (next: Option<Token>)
      modifies this
      ensures (View(), next) == Serve(old(View()), token, random)
      ensures "" !in old(issued) ==> (next.Some? <==> Accepts(old(View()), token))
      ensures next.Some? && random !in old(consumed) && random != token ==> Accepts(View(), next.value)
    {
      var known := token in issued;
      var session := if known then issued[token] else "";
      var live := known && (if session in liveRefresh then liveRefresh[session] else "") == token;
      var alreadyUsed := token in consumed;
      if live {
        consumed := consumed + {token};
      }
      if !known || alreadyUsed || !live {
        if known {
          liveRefresh := liveRefresh - {session};
        }
        return None;
      }
      liveRefresh := liveRefresh[session := random];
      issued := issued[random := session];
      return Some(random);
    }
  }
}
