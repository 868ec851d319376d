/**
 tokensource.go: one TokenSource, as the lock sections of Token and rotate.

 The functions say what each section does to the source as a value; the class runs them on fields and
 on flight objects shared between the callers, and is proved to do exactly that.
*/
module TokenSources {
  import opened Basics
  import opened TokenTypes

  type Error = string

  const NO_REFRESH_TOKEN: Error := "the access token has expired and there is no refresh token"

  /** One rotation: its done channel is open, or closed over a result. */
  datatype Flight = Open | Closed(tokens: Tokens, err: Option<Error>)

  /** What ts.refresh returned: a pair and an error, either of which may be nil. */
  datatype RefreshResult = RefreshResult(next: Option<Tokens>, err: Option<Error>)

  /** How Token leaves its first lock section. */
  datatype Entry<F> =
    | Fast(tokens: Tokens)
    | Join(flight: F)
    | Refuse
    | Lead(flight: F, current: Tokens)

  /** The source. Callbacks are known by number; flights by their position in the order of creation. */
  datatype Source = Source(
    needsRefresh: bool,
    tokens: Tokens,
    onRotate: Option<nat>,
    inflight: Option<nat>,
    flights: seq<Flight>)

  /** Token, up to where it waits, fails or leads. */
  function EnterSection(s: Source, now: int): (Source, Entry<nat>) {
    if IsValid(s.tokens, now) then (s, Fast(s.tokens))
    else if s.inflight.Some? then (s, Join(s.inflight.value))
    else if s.needsRefresh && s.tokens.refresh == "" then (s, Refuse)
    else
      var f := |s.flights|;
      (s.(inflight := Some(f), flights := s.flights + [Open]), Lead(f, s.tokens))
  }

  /** The pair adopted from a refresh: stamped if it has no issue time, the old refresh token carried
      forward if it brought none. */
  function Stamped(next: Tokens, current: Tokens, now: int): Tokens {
    var stamped := if next.issuedAt == ZERO_TIME then next.(issuedAt := now) else next;
    if stamped.refresh == "" then stamped.(refresh := current.refresh) else stamped
  }

  /** rotate's lock section. */
  function AdoptSection(s: Source, current: Tokens, res: RefreshResult, now: int): Source {
    var s' := if res.err.None? && res.next.Some?
              then s.(tokens := Stamped(res.next.value, current, now))
              else s;
    s'.(inflight := None)
  }

  /** The error a flight ends with, given what the callback answered if it ran. */
  function AfterCallback(err: Option<Error>, hook: Option<nat>, answer: Option<Error>): Option<Error> {
    if err.None? && hook.Some? && answer.Some? then answer else err
  }

  function Landed(rotated: Tokens, err: Option<Error>): Flight {
    Closed(if err.Some? then EMPTY else rotated, err)
  }

  /** One caller running Token alone, from the first lock to the return. */
  function TokenAlone(s: Source, now: int, res: RefreshResult, later: int, answer: Option<Error>)
    : (Source, Tokens, Option<Error>)
    requires s.inflight.None?
  {
    var (s1, e) := EnterSection(s, now);
    match e
    case Fast(t) => (s1, t, None)
    case Join(_) => (s1, EMPTY, None)
    case Refuse => (s1, EMPTY, Some(NO_REFRESH_TOKEN))
    case Lead(f, current) =>
      var s2 := AdoptSection(s1, current, res, later);
      var err := AfterCallback(res.err, s2.onRotate, answer);
      var flight := Landed(s2.tokens, err);
      (s2.(flights := s2.flights[f := flight]), flight.tokens, err)
  }

  // ---- what a call answers ----

  /** When the held pair is answered as it is, and what a call does otherwise. */
  lemma EnterExits(s: Source, now: int)
    requires InRange(s.tokens)
    ensures
      var (s', e) := EnterSection(s, now);
      if FarFromExpiry(s.tokens, now) then s' == s && e == Fast(s.tokens)
      else if s.inflight.Some? then s' == s && e == Join(s.inflight.value)
      else if s.needsRefresh && s.tokens.refresh == "" then s' == s && e == Refuse
      else e == Lead(|s.flights|, s.tokens) && s'.tokens == s.tokens && s'.inflight == Some(|s.flights|)
  {
  }

  /** A lifetime too long for a time.Duration can wrap: the shortest such lifetime counts as long over the moment
      the pair is issued. */
  lemma LongLifetimeIsExpired(s: Source)
    requires s.tokens.expiresIn == 9_223_372_037 && s.tokens.issuedAt >= TWO_63 && s.tokens.access != ""
    ensures FarFromExpiry(s.tokens, s.tokens.issuedAt) && !EnterSection(s, s.tokens.issuedAt).1.Fast?
  {
  }

  /** The pair held after a refresh: what it brought, with the issue time and the refresh token it may lack. */
  ghost predicate Adopts(held: Tokens, res: RefreshResult, later: int, kept: Tokens) {
    if res.err.Some? || res.next.None? then kept == held
    else
      var next := res.next.value;
      && kept.access == next.access && kept.kind == next.kind && kept.expiresIn == next.expiresIn && kept.session == next.session
      && kept.issuedAt == (if next.issuedAt == ZERO_TIME then later else next.issuedAt)
      && kept.refresh == (if next.refresh == "" then held.refresh else next.refresh)
  }

  /**
   One call alone. A pair far from its expiry is answered and nothing changes. Otherwise the pair that refresh brings is
   held from then on, even if the callback fails; it is answered if neither failed, and else the first error, alone.
  */
  lemma TokenAloneAnswers(s: Source, now: int, res: RefreshResult, later: int, answer: Option<Error>)
    requires s.inflight.None? && InRange(s.tokens)
    ensures
      var (s', t, err) := TokenAlone(s, now, res, later, answer);
      if FarFromExpiry(s.tokens, now) then s' == s && t == s.tokens && err.None?
      else if s.needsRefresh && s.tokens.refresh == "" then s' == s && t == EMPTY && err.Some?
      else
        && Adopts(s.tokens, res, later, s'.tokens) && s'.inflight.None? && s'.onRotate == s.onRotate
        && err == (if res.err.Some? then res.err else if s.onRotate.Some? then answer else None)
        && t == (if err.Some? then EMPTY else s'.tokens)
        && s'.flights == s.flights + [Closed(t, err)]
  {
  }

  /** What a refresh brought serves the calls after it, until thirty seconds before it expires, with no second refresh. */
  lemma RefreshedPairIsServed(s: Source, now: int, next: Tokens, later: int, answer: Option<Error>,
                              now': int, res': RefreshResult, later': int, answer': Option<Error>)
    requires s.inflight.None? && InRange(s.tokens) && InRange(next) && !FarFromExpiry(s.tokens, now)
    requires s.tokens.refresh != "" && next.access != "" && next.issuedAt == ZERO_TIME
    requires now' + 30 * SECOND < later + next.expiresIn * SECOND
    ensures
      var (s', _, _) := TokenAlone(s, now, RefreshResult(Some(next), None), later, answer);
      TokenAlone(s', now', res', later', answer') == (s', s'.tokens, None) && s'.tokens.access == next.access
  {
    TokenAloneAnswers(s, now, RefreshResult(Some(next), None), later, answer);
    var (s', _, _) := TokenAlone(s, now, RefreshResult(Some(next), None), later, answer);
    TokenAloneAnswers(s', now', res', later', answer');
  }

  class FlightCell {
    var done: bool
    var tokens: Tokens
    var err: Option<Error>

    ghost function View(): Flight
      reads this
    {
      if done then Closed(tokens, err) else Open
    }

    constructor ()
      ensures !done
    {
      done, tokens, err := false, EMPTY, None;
    }
  }

  class TokenSource {
    const needsRefreshToken: bool
    var tokens: Tokens
    var onRotate: Option<nat>
    var inflight: FlightCell?
    ghost var log: seq<FlightCell>          // every flight ever started
    ghost var current: Option<nat>          // the place of inflight in the log

    ghost predicate Valid()
      reads this
    {
      && (forall i, j :: 0 <= i < j < |log| ==> log[i] != log[j])
      && (inflight == null <==> current.None?)
      && (current.Some? ==> current.value < |log| && log[current.value] == inflight)
    }

    ghost function View(): Source
      reads this, log
    {
      Source(needsRefreshToken, tokens, onRotate, current,
             seq(|log|, i requires 0 <= i < |log| reads this, log => log[i].View()))
    }

    /** The class's entry names the flight object the specification's entry numbers. */
    ghost predicate Names(e: Entry<FlightCell>, spec: Entry<nat>)
      reads this
    {
      match (e, spec)
      case (Fast(t), Fast(u)) => t == u
      case (Join(c), Join(f)) => f < |log| && log[f] == c
      case (Refuse, Refuse) => true
      case (Lead(c, t), Lead(f, u)) => f < |log| && log[f] == c && t == u
      case _ => false
    }

    constructor (needsRefreshToken: bool, tokens: Tokens)
      ensures Valid() && View() == Source(needsRefreshToken, tokens, None, None, [])
    {
      this.needsRefreshToken := needsRefreshToken;
      this.tokens := tokens;
      onRotate, inflight := None, null;
      log, current := [], None;
    }

    method OnRotate(hook: Option<nat>)
      requires Valid()
      modifies this
      ensures Valid() && View() == old(View()).(onRotate := hook)
    {
      onRotate := hook;
    }

    method Current() returns (t: Tokens)
      ensures t == View().tokens
    {
      t := tokens;
    }

    method Enter(now: int) returns (e: Entry<FlightCell>)
      requires Valid()
      modifies this
      ensures Valid()
      ensures View() == EnterSection(old(View()), now).0
      ensures Names(e, EnterSection(old(View()), now).1)
      ensures InRange(old(tokens)) ==> (e.Fast? <==> FarFromExpiry(old(tokens), now))
      ensures if e.Lead? then fresh(e.flight) && !e.flight.done && log == old(log) + [e.flight] else log == old(log)
    {
      if IsValid(tokens, now) {
        return Fast(tokens);
      }
      if inflight != null {
        return Join(inflight);
      }
      if needsRefreshToken && tokens.refresh == "" {
        return Refuse;
      }
      var f := new FlightCell();
      inflight := f;
      log, current := log + [f], Some(|log|);
      return Lead(f, tokens);
    }

    method Adopt(before: Tokens, res: RefreshResult, now: int) returns (rotated: Tokens, hook: Option<nat>)
      requires Valid()
      modifies this
      ensures Valid() && log == old(log)
      ensures View() == AdoptSection(old(View()), before, res, now)
      ensures rotated == View().tokens && hook == View().onRotate
    {
      if res.err.None? && res.next.Some? {
        var next := res.next.value;
        if next.issuedAt == ZERO_TIME {
          next := next.(issuedAt := now);
        }
        if next.refresh == "" {
          next := next.(refresh := before.refresh);
        }
        tokens := next;
      }
      hook := onRotate;
      rotated := tokens;
      inflight := null;
      current := None;
    }

    /** The end of rotate: the callback's answer is folded in and the flight closed. */
    method Land(f: FlightCell, ghost k: nat, rotated: Tokens, refreshErr: Option<Error>, hook: Option<nat>, answer: Option<Error>)
      requires Valid() && k < |log| && log[k] == f && !f.done
      modifies f
      ensures Valid() && f.done
      ensures View() == old(View()).(flights := old(View()).flights[k := Landed(rotated, AfterCallback(refreshErr, hook, answer))])
    {
      var err := refreshErr;
      if err.None? && hook.Some? {
        if answer.Some? {
          err := answer;
        }
      }
      f.tokens, f.err := rotated, err;
      if err.Some? {
        f.tokens := EMPTY;
      }
      f.done := true;
    }

    /** Token with no other caller running: what refresh and the callback answer are parameters. */
    method Token(now: int, res: RefreshResult, later: int, answer: Option<Error>) returns (t: Tokens, err: Option<Error>)
      requires Valid() && inflight == null
      modifies this
      ensures Valid()
      ensures (View(), t, err) == TokenAlone(old(View()), now, res, later, answer)
      ensures InRange(old(tokens)) && FarFromExpiry(old(tokens), now) ==> t == old(tokens) && err.None?
    {
      var e := Enter(now);
      match e {
        case Fast(held) =>
          return held, None;
        case Refuse =>
          return EMPTY, Some(NO_REFRESH_TOKEN);
        case Lead(f, before) =>
          ghost var k := |old(log)|;
          var rotated, hook := Adopt(before, res, later);
          Land(f, k, rotated, res.err, hook, answer);
          assert View().flights[k] == log[k].View() == Closed(f.tokens, f.err);
          return f.tokens, f.err;
        case Join(_) =>
          assert false;
      }
    }
  }
}
