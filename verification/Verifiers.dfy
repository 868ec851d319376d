/** verifier.go:88-141 and claims.go:91-112: what makes a token acceptable, from its octets to its claims. */
module Verifiers {
  import opened Basics
  import KeySets
  import KeysCaches
  import Runs = KeysCacheRuns
  import Paseto

  type Kid = KeySets.Kid

  datatype Claims = Claims(issuer: string, audience: seq<string>, expires: int, notBefore: int, version: int, subject: string)

  /** A duration is in nanoseconds. */
  datatype Config = Config(issuer: string, audience: string, leeway: int)

  datatype Refusal =
    | BadToken(error: Paseto.Error) | BadFooter | NoKey(cause: KeysCaches.Error) | BadClaims | ErrTokenVersion
    | ErrExpired | ErrNotYetValid | ErrIssuer | ErrNoAudience | ErrAudience

  datatype Outcome = Accepted(claims: Claims) | Refused(why: Refusal)

  /** A number an int64 field can hold. */
  predicate IsInt64(n: int) {
    -TWO_63 <= n < TWO_63
  }

  /** int64(leeway / time.Second), rounding toward zero. */
  function Seconds(leeway: int): int {
    if leeway >= 0 then leeway / KeySets.SECOND else -(-leeway / KeySets.SECOND)
  }

  /** Claims.Validate; n is the instant in Unix seconds, and the sums wrap as int64 sums do. */
  function Validate(c: Claims, n: int, v: Config): Option<Refusal> {
    var l := Seconds(v.leeway);
    if c.expires != 0 && n > Int64(c.expires + l) then Some(ErrExpired)
    else if c.notBefore != 0 && n < Int64(c.notBefore - l) then Some(ErrNotYetValid)
    else if v.issuer != "" && c.issuer != v.issuer then Some(ErrIssuer)
    else if v.audience == "" then Some(ErrNoAudience)
    else if v.audience in c.audience then None
    else Some(ErrAudience)
  }

  predicate ForThisService(c: Claims, v: Config) {
    (v.issuer == "" || c.issuer == v.issuer) && v.audience != "" && v.audience in c.audience
  }

  /** The claims are for this service, from this issuer, and of this time give or take the leeway. */
  predicate Acceptable(c: Claims, n: int, v: Config) {
    && (c.expires == 0 || n <= c.expires + Seconds(v.leeway))
    && (c.notBefore == 0 || c.notBefore - Seconds(v.leeway) <= n)
    && ForThisService(c, v)
  }

  /** The claims and the leeway are int64s, and the instant is within half of them. */
  predicate Ordinary(c: Claims, n: int, v: Config) {
    IsInt64(c.expires) && IsInt64(c.notBefore) && IsInt64(v.leeway) && -TWO_63 / 2 <= n < TWO_63 / 2
  }

  /** A sum too large for int64, which wraps to a number far below every instant. */
  predicate Over(sum: int) {
    sum >= TWO_63
  }

  /** A sum too small for int64, which wraps to a number far above every instant. */
  predicate Under(sum: int) {
    sum < -TWO_63
  }

  lemma Int64Wraps(n: int)
    requires -TWO_64 <= n < TWO_64
    ensures Int64(n) == if Under(n) then n + TWO_64 else if Over(n) then n - TWO_64 else n
  {
  }

  /** A leeway counts in whole seconds, and the rest of it is dropped whatever its sign. */
  lemma SecondsTruncate(leeway: int)
    ensures var rest := leeway - Seconds(leeway) * 1_000_000_000;
            -1_000_000_000 < rest < 1_000_000_000 && (leeway >= 0 ==> rest >= 0) && (leeway <= 0 ==> rest <= 0)
  {
  }

  lemma LeewayIsShort(leeway: int)
    requires IsInt64(leeway)
    ensures -0x1_0000_0000_0000 <= Seconds(leeway) <= 0x1_0000_0000_0000
    ensures leeway >= 0 ==> Seconds(leeway) >= 0
  {
  }

  /** An expiry passes when it is not over, or when the sum with a negative leeway wraps upward. */
  predicate ExpiryPasses(c: Claims, n: int, v: Config) {
    var sum := c.expires + Seconds(v.leeway);
    c.expires == 0 || Under(sum) || (!Over(sum) && n <= sum)
  }

  /** A beginning passes when it is past, or when the difference with a negative leeway wraps downward. */
  predicate BeginningPasses(c: Claims, n: int, v: Config) {
    var sum := c.notBefore - Seconds(v.leeway);
    c.notBefore == 0 || Over(sum) || (!Under(sum) && sum <= n)
  }

  /** What Validate accepts, for every leeway. */
  lemma ValidateAcceptsIff(c: Claims, n: int, v: Config)
    requires Ordinary(c, n, v)
    ensures Validate(c, n, v).None? <==> ExpiryPasses(c, n, v) && BeginningPasses(c, n, v) && ForThisService(c, v)
  {
    LeewayIsShort(v.leeway);
    Int64Wraps(c.expires + Seconds(v.leeway));
    Int64Wraps(c.notBefore - Seconds(v.leeway));
  }

  /**
   When Validate is wrong: it refuses acceptable claims exactly when an expiry wraps downward or a beginning
   upward, and accepts others exactly when an expiry wraps upward or a beginning downward and nothing else
   stands against them. With a leeway that is not negative it never accepts wrongly.
  */
  lemma WrongVerdictIff(c: Claims, n: int, v: Config)
    requires Ordinary(c, n, v)
    ensures
      var late, early := c.expires + Seconds(v.leeway), c.notBefore - Seconds(v.leeway);
      && (Validate(c, n, v).Some? && Acceptable(c, n, v) <==>
            Acceptable(c, n, v) && ((c.expires != 0 && Over(late)) || (c.notBefore != 0 && Under(early))))
      && (Validate(c, n, v).None? && !Acceptable(c, n, v) <==>
            && ExpiryPasses(c, n, v) && BeginningPasses(c, n, v) && ForThisService(c, v)
            && ((c.expires != 0 && Under(late)) || (c.notBefore != 0 && Over(early))))
      && (v.leeway >= 0 && Validate(c, n, v).None? ==> Acceptable(c, n, v))
  {
    LeewayIsShort(v.leeway);
    ValidateAcceptsIff(c, n, v);
  }

  /** The cases are there: within a leeway of the largest int64 an expiry is taken for one long past. */
  lemma LatestExpiryIsExpired(c: Claims, n: int, v: Config)
    requires Ordinary(c, n, v) && c.expires == TWO_63 - 1 && Seconds(v.leeway) > 0
    ensures Validate(c, n, v) == Some(ErrExpired) && n <= c.expires
  {
    LeewayIsShort(v.leeway);
    Int64Wraps(c.expires + Seconds(v.leeway));
  }

  /** And with a leeway of less than no second, the largest beginning is taken for one long past. */
  lemma LatestBeginningPasses(c: Claims, n: int, v: Config)
    requires Ordinary(c, n, v) && c.notBefore == TWO_63 - 1 && Seconds(v.leeway) < 0 && c.expires == 0 && ForThisService(c, v)
    ensures Validate(c, n, v).None? && n < c.notBefore && !Acceptable(c, n, v)
  {
    LeewayIsShort(v.leeway);
    Int64Wraps(c.notBefore - Seconds(v.leeway));
  }

  // ---- keys ----

  /** The pinned key that answers to a kid at an instant. */
  function Pin(pinned: Option<KeySets.KeySet>, kid: Kid, now: int): Option<bytes> {
    if pinned.None? then None else KeySets.Lookup(pinned.value, kid, now)
  }

  /** Verifier.key: a pinned key if there is one for the kid, else what the cache answers if it is asked. */
  function KeyGiven(pinned: Option<KeySets.KeySet>, kid: Kid, now: int, answer: KeysCaches.Answer): KeysCaches.Answer {
    var pin := Pin(pinned, kid, now);
    if pin.Some? then KeysCaches.Key(pin.value) else answer
  }

  /** And with no other call running. */
  function KeyFor(pinned: Option<KeySets.KeySet>, cache: Option<KeysCaches.Cache>, kid: Kid, now: int, got: KeysCaches.Fetched): KeysCaches.Answer
    requires cache.Some? ==> cache.value.inflight.None?
  {
    KeyGiven(pinned, kid, now, if cache.None? then KeysCaches.Refused(KeysCaches.UNKNOWN_KID)
                               else KeysCaches.GetAtAlone(cache.value, kid, now, got).1)
  }

  /** The cache is asked only for a kid no pinned key answers to. */
  function CacheAfter(pinned: Option<KeySets.KeySet>, cache: KeysCaches.Cache, kid: Kid, now: int, got: KeysCaches.Fetched): KeysCaches.Cache
    requires cache.inflight.None?
  {
    if Pin(pinned, kid, now).Some? then cache else KeysCaches.GetAtAlone(cache, kid, now, got).0
  }

  /** A pinned key is answered without asking the cache; for any other kid the cache is asked, if there is one. */
  lemma PinsAskNothing(pinned: Option<KeySets.KeySet>, cache: KeysCaches.Cache, kid: Kid, now: int, got: KeysCaches.Fetched)
    requires cache.inflight.None?
    ensures
      var (after, answer) := (CacheAfter(pinned, cache, kid, now, got), KeyFor(pinned, Some(cache), kid, now, got));
      if pinned.Some? && kid in pinned.value && KeySets.InWindow(pinned.value[kid], now)
      then after == cache && answer == KeysCaches.Key(pinned.value[kid].key)
      else (after, answer) == KeysCaches.GetAtAlone(cache, kid, now, got)
  {
  }

  // ---- verification ----

  /** encoding/json: what the footer and the message decode to, or None where it fails. */
  type FooterDecoding = bytes -> Option<Kid>
  type ClaimsDecoding = bytes -> Option<Claims>

  /** The kid a token names, before anything about it is verified. */
  function NamedKid(footerKid: FooterDecoding, footer: bytes): Option<Kid> {
    if footer == [] then Some("") else footerKid(footer)
  }

  /** The kid a token names. */
  function KidOf(footerKid: FooterDecoding, token: bytes): Option<Kid> {
    match Paseto.Parse(token)
    case Failed(_) => None
    case Ok(parts) => NamedKid(footerKid, parts.footer)
  }

  /** From the key to the claims. */
  function Judge(v: Config, check: Paseto.Checking, claimsOf: ClaimsDecoding, pk: bytes, token: bytes, now: int): Outcome {
    match Paseto.Verify(check, pk, token, [])
    case Failed(e) => Refused(BadToken(e))
    case Ok(signed) =>
      var c := claimsOf(signed.0);
      if c.None? then Refused(BadClaims)
      else if c.value.version != 0 && c.value.version != 1 then Refused(ErrTokenVersion)
      else
        var bad := Validate(c.value, KeySets.Unix(now), v);
        if bad.Some? then Refused(bad.value) else Accepted(c.value)
  }

  /** From the answer to a key lookup. */
  function Decide(v: Config, check: Paseto.Checking, claimsOf: ClaimsDecoding, answer: KeysCaches.Answer, token: bytes, now: int): Outcome {
    match answer
    case Refused(e) => Refused(NoKey(e))
    case Key(pk) => Judge(v, check, claimsOf, pk, token, now)
  }

  /** Verifier.Verify, given what the cache answers if it is asked. Nothing of a token is used before its signature is
      checked but its kid, to look a key up. */
  function VerdictGiven(v: Config, check: Paseto.Checking, footerKid: FooterDecoding, claimsOf: ClaimsDecoding, token: bytes, now: int,
                        pinned: Option<KeySets.KeySet>, answer: KeysCaches.Answer): Outcome
  {
    match Paseto.Parse(token)
    case Failed(e) => Refused(BadToken(e))
    case Ok(parts) =>
      var kid := NamedKid(footerKid, parts.footer);
      if kid.None? then Refused(BadFooter)
      else Decide(v, check, claimsOf, KeyGiven(pinned, kid.value, now, answer), token, now)
  }

  /** And with no other call running. */
  function VerifyToken(v: Config, check: Paseto.Checking, footerKid: FooterDecoding, claimsOf: ClaimsDecoding, token: bytes, now: int,
                       pinned: Option<KeySets.KeySet>, cache: Option<KeysCaches.Cache>, got: KeysCaches.Fetched): Outcome
    requires cache.Some? ==> cache.value.inflight.None?
  {
    var kid := KidOf(footerKid, token);
    VerdictGiven(v, check, footerKid, claimsOf, token, now, pinned,
                 if kid.None? then KeysCaches.Refused(KeysCaches.UNKNOWN_KID) else KeyFor(None, cache, kid.value, now, got))
  }

  /** A document a key in force may come from: a pinned one, or one the cache holds or fetches. */
  predicate Vouches(pinned: Option<KeySets.KeySet>, cache: Option<KeysCaches.Cache>, got: KeysCaches.Fetched, kid: Kid, now: int, pk: bytes) {
    || (pinned.Some? && KeySets.Lookup(pinned.value, kid, now) == Some(pk))
    || (cache.Some? && cache.value.keys.Some? && KeySets.Lookup(cache.value.keys.value, kid, now) == Some(pk))
    || (cache.Some? && got.Got? && KeySets.Lookup(got.keys, kid, now) == Some(pk))
  }

  lemma KeyIsVouchedFor(pinned: Option<KeySets.KeySet>, cache: Option<KeysCaches.Cache>, kid: Kid, now: int, got: KeysCaches.Fetched)
    requires cache.Some? ==> cache.value.inflight.None?
    requires KeyFor(pinned, cache, kid, now, got).Key?
    ensures Vouches(pinned, cache, got, kid, now, KeyFor(pinned, cache, kid, now, got).key)
  {
  }

  /**
   Whatever is accepted was issued: its claims are those of a message that the key named by the footer signed,
   with that footer and no implicit assertion; the key is in a document that vouches for it, inside its window
   at the very instant the claims are acceptable.
  */
  lemma {:induction false} AcceptedWasIssued(v: Config, check: Paseto.Checking, footerKid: FooterDecoding, claimsOf: ClaimsDecoding,
                                             token: bytes, now: int, pinned: Option<KeySets.KeySet>, cache: Option<KeysCaches.Cache>,
                                             got: KeysCaches.Fetched, issued: bytes -> set<Paseto.Statement>)
    returns (s: Paseto.Statement, kid: Kid, pk: bytes)
    requires cache.Some? ==> cache.value.inflight.None?
    requires |token| < TWO_63
    requires forall kid, pk :: Vouches(pinned, cache, got, kid, now, pk) ==> Paseto.Unforged(check, pk, issued(pk), token, [])
    requires VerifyToken(v, check, footerKid, claimsOf, token, now, pinned, cache, got).Accepted?
    ensures s in issued(pk) && NamedKid(footerKid, s.footer) == Some(kid) && Vouches(pinned, cache, got, kid, now, pk)
    ensures IsOf(v, claimsOf, s, VerifyToken(v, check, footerKid, claimsOf, token, now, pinned, cache, got).claims, now)
  {
    kid := NamedKid(footerKid, Paseto.Parse(token).value.footer).value;
    KeyIsVouchedFor(pinned, cache, kid, now, got);
    pk := KeyFor(pinned, cache, kid, now, got).key;
    s := JudgedWasIssued(v, check, claimsOf, pk, token, now, issued(pk));
  }

  /** These are the claims of the statement, acceptable at the instant. */
  ghost predicate IsOf(v: Config, claimsOf: ClaimsDecoding, s: Paseto.Statement, c: Claims, now: int) {
    var n := KeySets.Unix(now);
    && s.implicit == [] && claimsOf(s.message) == Some(c) && 0 <= c.version <= 1
    && (Ordinary(c, n, v) ==> ExpiryPasses(c, n, v) && BeginningPasses(c, n, v) && ForThisService(c, v))
    && (Ordinary(c, n, v) && v.leeway >= 0 ==> Acceptable(c, n, v))
  }

  lemma {:induction false} JudgedWasIssued(v: Config, check: Paseto.Checking, claimsOf: ClaimsDecoding, pk: bytes, token: bytes, now: int,
                                           issued: set<Paseto.Statement>)
    returns (s: Paseto.Statement)
    requires |token| < TWO_63 && Paseto.Unforged(check, pk, issued, token, [])
    requires Judge(v, check, claimsOf, pk, token, now).Accepted?
    ensures s in issued && Paseto.Parse(token).Ok? && s.footer == Paseto.Parse(token).value.footer
    ensures IsOf(v, claimsOf, s, Judge(v, check, claimsOf, pk, token, now).claims, now)
  {
    Paseto.VerifiedWasSigned(check, pk, issued, token, []);
    var parts := Paseto.Parse(token).value;
    s := Paseto.Statement(parts.message, parts.footer, []);
    var c := claimsOf(parts.message).value;
    if Ordinary(c, KeySets.Unix(now), v) {
      ValidateAcceptsIff(c, KeySets.Unix(now), v);
      WrongVerdictIff(c, KeySets.Unix(now), v);
    }
  }

  /** And what is issued is accepted: a signed token whose kid leads to the signer's key, with acceptable
      claims. */
  lemma {:induction false} IssuedIsAccepted(v: Config, sign: Paseto.Signing, check: Paseto.Checking, footerKid: FooterDecoding,
                                            claimsOf: ClaimsDecoding, sk: bytes, pk: bytes, message: bytes, footer: bytes, now: int,
                                            pinned: Option<KeySets.KeySet>, cache: Option<KeysCaches.Cache>, got: KeysCaches.Fetched, kid: Kid, c: Claims)
    requires cache.Some? ==> cache.value.inflight.None?
    requires Paseto.KeyPair(sign, check, sk, pk) && NamedKid(footerKid, footer) == Some(kid)
    requires KeyFor(pinned, cache, kid, now, got) == KeysCaches.Key(pk)
    requires claimsOf(message) == Some(c) && 0 <= c.version <= 1
    requires Ordinary(c, KeySets.Unix(now), v) && ExpiryPasses(c, KeySets.Unix(now), v) && BeginningPasses(c, KeySets.Unix(now), v)
    requires ForThisService(c, v)
    ensures var token := Paseto.Render(Paseto.Parts(message, sign(sk, Paseto.Payload(message, footer, [])), footer));
            VerifyToken(v, check, footerKid, claimsOf, token, now, pinned, cache, got) == Accepted(c)
  {
    Paseto.SignedTokenVerifies(sign, check, sk, pk, message, footer, []);
    Paseto.ParseRendered(Paseto.Parts(message, sign(sk, Paseto.Payload(message, footer, [])), footer));
    ValidateAcceptsIff(c, KeySets.Unix(now), v);
  }

  class Verifier {
    const cfg: Config
    const pinned: Option<KeySets.KeySet>
    const cache: KeysCaches.KeysCache?

    /** NewVerifier wants keys from somewhere; nobody else is fetching. */
    ghost predicate Valid()
      reads cache
    {
      (cache == null ==> pinned.Some?) && (cache != null ==> cache.Valid() && cache.inflight == null)
    }

    ghost function Cached(): Option<KeysCaches.Cache>
      reads cache, if cache == null then [] else cache.log
    {
      if cache == null then None else Some(cache.View())
    }

    constructor (cfg: Config, pinned: Option<KeySets.KeySet>, cache: KeysCaches.KeysCache?)
      ensures this.cfg == cfg && this.pinned == pinned && this.cache == cache
    {
      this.cfg, this.pinned, this.cache := cfg, pinned, cache;
    }

    method KeyOf(kid: Kid, now: int, got: KeysCaches.Fetched) returns (a: KeysCaches.Answer)
      requires Valid()
      modifies if cache == null then {} else {cache}
      ensures cache != null ==> cache.Valid()
      ensures a == KeyFor(pinned, old(Cached()), kid, now, got)
      ensures cache != null ==> cache.View() == CacheAfter(pinned, old(cache.View()), kid, now, got)
    {
      if pinned.Some? {
        var pk := KeySets.Lookup(pinned.value, kid, now);
        if pk.Some? {
          return KeysCaches.Key(pk.value);
        }
        if cache == null {
          return KeysCaches.Refused(KeysCaches.UNKNOWN_KID);
        }
      }
      a := cache.GetAt(kid, now, got);
    }

    method Verify(check: Paseto.Checking, footerKid: FooterDecoding, claimsOf: ClaimsDecoding, token: bytes, now: int, got: KeysCaches.Fetched)
      returns (r: Outcome)
      requires Valid()
      modifies if cache == null then {} else {cache}
      ensures r == VerifyToken(cfg, check, footerKid, claimsOf, token, now, pinned, old(Cached()), got)
    {
      var parsed := Paseto.Parse(token);
      if parsed.Failed? {
        return Refused(BadToken(parsed.error));
      }
      var footer := parsed.value.footer;
      var kid := "";
      if |footer| > 0 {
        var tf := footerKid(footer);
        if tf.None? {
          return Refused(BadFooter);
        }
        kid := tf.value;
      }
      var pk := KeyOf(kid, now, got);
      if pk.Refused? {
        return Refused(NoKey(pk.error));
      }
      return Judge(cfg, check, claimsOf, pk.key, token, now);
    }
  }

  /** A keys URL as url.Parse splits it; loopback says whether its host is localhost or a loopback address. */
  datatype KeysURL = Unset | Unparsable | Parsed(scheme: string, loopback: bool)

  /** checkKeysURL: https, or http to this very host. */
  predicate Protected(u: KeysURL) {
    u.Parsed? && (u.scheme == "https" || (u.scheme == "http" && u.loopback))
  }

  /** NewVerifier: an audience and keys are wanted, over a protected URL; only a leeway of zero is replaced. cache is
      the cache over the URL, if there is one. */
  method NewVerifier(cfg: Config, pinned: Option<KeySets.KeySet>, url: KeysURL, cache: KeysCaches.KeysCache?) returns (v: Verifier?)
    requires (cache == null <==> url.Unset?) && (cache != null ==> cache.Valid() && cache.inflight == null)
    ensures v != null <==> cfg.audience != "" && (if url.Unset? then pinned.Some? else Protected(url))
    ensures v != null ==> fresh(v) && v.Valid() && v.pinned == pinned && v.cache == cache && v.cfg.leeway != 0
    ensures v != null ==> v.cfg == if cfg.leeway == 0 then cfg.(leeway := 60 * KeySets.SECOND) else cfg
  {
    if cfg.audience == "" {
      return null;
    }
    if url.Unset? && pinned.None? {
      return null;
    }
    var checked := if cfg.leeway == 0 then cfg.(leeway := 60 * KeySets.SECOND) else cfg;
    if !url.Unset? {
      var ok := CheckKeysURL(url);
      if !ok {
        return null;
      }
    }
    v := new Verifier(checked, pinned, cache);
  }

  method CheckKeysURL(url: KeysURL) returns (ok: bool)
    requires !url.Unset?
    ensures ok <==> Protected(url)
  {
    if url.Unparsable? {
      return false;
    }
    match url.scheme {
      case "https" => return true;
      case "http" => return url.loopback;
      case _ => return false;
    }
  }

  // ---- with any number of verifications sharing the cache ----

  /** If no pinned key answers to the token's kid at this instant, call i asked the cache for it then, and got answer. */
  ghost predicate Asked(footerKid: FooterDecoding, pinned: Option<KeySets.KeySet>, token: bytes, now: int,
                        t: Runs.Sys, i: nat, answer: KeysCaches.Answer)
  {
    var kid := KidOf(footerKid, token);
    kid.Some? && Pin(pinned, kid.value, now).None? ==>
      && i < |t.answers| && t.answers[i].ask.kid == kid.value && t.answers[i].ask.now == now
      && t.answers[i].answer == answer
  }

  /** The key is in the last document fetched when the cache answered, in its window at that instant, and the answer
      was young or had one of the excuses of StaleOnlyWhen. */
  ghost predicate FromLatest(timing: KeysCaches.Timing, t: Runs.Sys, i: nat, pk: bytes) {
    i < |t.answers| &&
    var r := t.answers[i];
    && r.seen <= |t.attempts| && Runs.Latest(t.attempts[..r.seen]).Some?
    && KeySets.Lookup(t.attempts[Runs.Latest(t.attempts[..r.seen]).value].got.keys, r.ask.kid, r.ask.now) == Some(pk)
    && (Runs.ExcuseOf(t, r) == Runs.NoExcuse ==>
          Runs.Age(t, r) < KeysCaches.Ttl(timing) || Runs.Age(t, r) < KeysCaches.MinRefetch(timing))
  }

  /**
   Whatever runs beside it, an accepted token was issued: by a statement whose footer names the kid, under a pinned
   key that answers to it at that instant or, where none does, under the last fetched document's.
  */
  lemma {:induction false} AcceptedConcurrently(timing: KeysCaches.Timing, t: Runs.Sys, i: nat, answer: KeysCaches.Answer, v: Config,
                                                check: Paseto.Checking, footerKid: FooterDecoding, claimsOf: ClaimsDecoding,
                                                token: bytes, now: int, pinned: Option<KeySets.KeySet>,
                                                issued: bytes -> set<Paseto.Statement>)
    returns (s: Paseto.Statement, kid: Kid, pk: bytes)
    requires Runs.Reachable(timing, t) && Asked(footerKid, pinned, token, now, t, i, answer)
    requires |token| < TWO_63
    requires KidOf(footerKid, token).Some? ==>
               var a := KeyGiven(pinned, KidOf(footerKid, token).value, now, answer);
               a.Key? ==> Paseto.Unforged(check, a.key, issued(a.key), token, [])
    requires VerdictGiven(v, check, footerKid, claimsOf, token, now, pinned, answer).Accepted?
    ensures s in issued(pk) && NamedKid(footerKid, s.footer) == Some(kid)
    ensures IsOf(v, claimsOf, s, VerdictGiven(v, check, footerKid, claimsOf, token, now, pinned, answer).claims, now)
    ensures if Pin(pinned, kid, now).Some? then pk == Pin(pinned, kid, now).value else FromLatest(timing, t, i, pk)
  {
    kid := KidOf(footerKid, token).value;
    pk := KeyGiven(pinned, kid, now, answer).key;
    if Pin(pinned, kid, now).None? {
      Runs.AnswersComeFromTheLatestDocument(timing, t, i);
      Runs.StaleOnlyWhen(timing, t, i);
    }
    s := JudgedWasIssued(v, check, claimsOf, pk, token, now, issued(pk));
  }

  /** Fetch p got a document, and neither it nor any got since, up to what call i saw, has the kid. */
  ghost predicate Withdrawn(t: Runs.Sys, i: nat, p: nat, kid: Kid) {
    && i < |t.answers| && p < t.answers[i].seen <= |t.attempts| && t.attempts[p].got.Got?
    && (forall q :: p <= q < t.answers[i].seen && t.attempts[q].got.Got? ==> kid !in t.attempts[q].got.keys)
  }

  /**
   Once a withdrawal has been fetched, a token naming the withdrawn kid is refused, however it is signed, unless a
   pinned key answers to the kid at that instant; and then that key alone judges it.
  */
  lemma {:induction false} WithdrawnKidNeedsAPin(timing: KeysCaches.Timing, t: Runs.Sys, i: nat, p: nat, answer: KeysCaches.Answer,
                                                 v: Config, check: Paseto.Checking, footerKid: FooterDecoding,
                                                 claimsOf: ClaimsDecoding, token: bytes, now: int, pinned: Option<KeySets.KeySet>)
    requires Runs.Reachable(timing, t) && Asked(footerKid, pinned, token, now, t, i, answer)
    requires KidOf(footerKid, token).Some?
    requires Pin(pinned, KidOf(footerKid, token).value, now).None? ==> Withdrawn(t, i, p, KidOf(footerKid, token).value)
    ensures var pin := Pin(pinned, KidOf(footerKid, token).value, now);
            var verdict := VerdictGiven(v, check, footerKid, claimsOf, token, now, pinned, answer);
            if pin.Some? then verdict == Judge(v, check, claimsOf, pin.value, token, now) else verdict.Refused? && verdict.why.NoKey?
  {
    if Pin(pinned, KidOf(footerKid, token).value, now).None? {
      Runs.WithdrawnKidStaysUnknown(timing, t, i, p);
    }
  }
}
