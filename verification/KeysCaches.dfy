/**
 keys/key_cache.go: the cache as its lock sections. The functions say what each section does to the
 cache as a value; the class runs them on fields and on the channels callers wait on.
*/
module KeysCaches {
  import opened Basics
  import opened KeySets

  type Error = string

  const DEFAULT_TTL := 300 * SECOND
  const DEFAULT_MIN_REFETCH := 30 * SECOND
  const DEFAULT_MIN_RETRY := SECOND
  const UNKNOWN_KID: Error := "unknown kid"

  /** What a fetch produced. */
  datatype Fetched = Got(keys: KeySet) | Failed(error: Error)

  /** The configured durations, as set by the caller. */
  datatype Timing = Timing(ttl: int, minRefetch: int, minRetry: int)

  /** The cache. Channels are numbered in the order they were made; closed says which are closed. */
  datatype Cache = Cache(
    timing: Timing,
    keys: Option<KeySet>,
    lastFetch: int,
    nextFetch: int,
    lastErr: Option<Error>,
    inflight: Option<nat>,
    closed: seq<bool>)

  /** How refetch leaves its first lock section. */
  datatype Entry<C> =
    | Join(channel: C)
    | Throttled(err: Option<Error>)
    | Lead(channel: C)

  datatype Answer = Key(key: Key) | Refused(error: Error)

  function Ttl(t: Timing): int {
    if t.ttl <= 0 then DEFAULT_TTL else t.ttl
  }

  function MinRefetch(t: Timing): int {
    if t.minRefetch <= 0 then DEFAULT_MIN_REFETCH else t.minRefetch
  }

  function MinRetry(t: Timing): int {
    if t.minRetry <= 0 then DEFAULT_MIN_RETRY else t.minRetry
  }

  /** A duration that is not positive stands for the default: five minutes, thirty seconds, one second. */
  lemma Defaults(t: Timing)
    ensures Ttl(t) == if t.ttl > 0 then t.ttl else 300_000_000_000
    ensures MinRefetch(t) == if t.minRefetch > 0 then t.minRefetch else 30_000_000_000
    ensures MinRetry(t) == if t.minRetry > 0 then t.minRetry else 1_000_000_000
  {
  }

  function Empty(t: Timing): Cache {
    Cache(t, None, 0, 0, None, None, [])
  }

  /** The hot path of GetAt: a current document holding the kid. */
  function HotPath(c: Cache, kid: Kid, now: int): Option<Key> {
    if c.keys.Some? && now - c.lastFetch < Ttl(c.timing) then Lookup(c.keys.value, kid, now) else None
  }

  /** refetch up to where it waits, is throttled, or leads. */
  function RefetchSection(c: Cache, now: int): (Cache, Entry<nat>) {
    if c.inflight.Some? then (c, Join(c.inflight.value))
    else if now < c.nextFetch then (c, Throttled(c.lastErr))
    else (c.(inflight := Some(|c.closed|), closed := c.closed + [false]), Lead(|c.closed|))
  }

  /** How long after a fetch at an instant the next may start. */
  function Gap(t: Timing, got: Fetched): int {
    if got.Got? then MinRefetch(t) else MinRetry(t)
  }

  /** The lock section after a fetch that returned. */
  function RecordSection(c: Cache, now: int, got: Fetched): Cache {
    var c' := match got
      case Got(keys) => c.(lastErr := None, keys := Some(keys), lastFetch := now)
      case Failed(e) => c.(lastErr := Some(e));
    c'.(nextFetch := now + Gap(c.timing, got))
  }

  /** The deferred lock section. */
  function ReleaseSection(c: Cache): Cache {
    c.(inflight := None)
  }

  /** GetAt's ending, after refetch: had says whether the first snapshot held a document. */
  function Finish(c: Cache, kid: Kid, now: int, had: bool, err: Option<Error>): Answer {
    if err.Some? && !had then Refused(err.value)
    else if c.keys.Some? && Lookup(c.keys.value, kid, now).Some? then Key(Lookup(c.keys.value, kid, now).value)
    else Refused(UNKNOWN_KID)
  }

  /** A whole GetAt with nobody else running; got is what a fetch would return. */
  function GetAtAlone(c: Cache, kid: Kid, now: int, got: Fetched): (Cache, Answer)
    requires c.inflight.None?
  {
    var hot := HotPath(c, kid, now);
    if hot.Some? then (c, Key(hot.value))
    else
      var (c1, e) := RefetchSection(c, now);
      if e.Lead? then
        var c2 := ReleaseSection(RecordSection(c1, now, got));
        var c3 := c2.(closed := c2.closed[e.channel := true]);
        (c3, Finish(c3, kid, now, c.keys.Some?, c3.lastErr))
      else (c1, Finish(c1, kid, now, c.keys.Some?, c1.lastErr))
  }

  /** The document held after a call that asked for one: what it fetched, or the one held before. */
  function HeldAfter(c: Cache, got: Fetched): Option<KeySet> {
    if got.Got? then Some(got.keys) else c.keys
  }

  /** The answer a document gives; none of it for a kid it lacks or one outside its window. */
  ghost predicate Gives(keys: Option<KeySet>, kid: Kid, now: int, a: Answer) {
    if keys.Some? && kid in keys.value && InWindow(keys.value[kid], now) then a == Key(keys.value[kid].key) else a == Refused(UNKNOWN_KID)
  }

  /**
   What one call alone answers. A young document that gives the kid's key is answered from, and nothing changes. Otherwise
   a fetch goes out unless the last one was too recent, and the answer is given by the document held then: by the
   fetched one if it came. Without any document the answer is why.
  */
  lemma GetAtAloneAnswers(c: Cache, kid: Kid, now: int, got: Fetched)
    requires c.inflight.None?
    ensures
      var (c', a) := GetAtAlone(c, kid, now, got);
      var young := c.keys.Some? && now - c.lastFetch < Ttl(c.timing);
      if young && kid in c.keys.value && InWindow(c.keys.value[kid], now) then c' == c && a == Key(c.keys.value[kid].key)
      else if now < c.nextFetch then
        c' == c && (if c.keys.None? && c.lastErr.Some? then a == Refused(c.lastErr.value) else Gives(c.keys, kid, now, a))
      else
        && c'.keys == HeldAfter(c, got) && c'.inflight.None?
        && c'.lastFetch == (if got.Got? then now else c.lastFetch)
        && c'.nextFetch == now + (if got.Got? then MinRefetch(c.timing) else MinRetry(c.timing))
        && (if c.keys.None? && got.Failed? then a == Refused(got.error) else Gives(HeldAfter(c, got), kid, now, a))
  {
  }

  class Channel {
    var closed: bool

    constructor ()
      ensures !closed
    {
      closed := false;
    }
  }

  class KeysCache {
    const timing: Timing
    var keys: Option<KeySet>
    var lastFetch: int
    var nextFetch: int
    var lastErr: Option<Error>
    var inflight: Channel?
    ghost var log: seq<Channel>        // every channel ever made
    ghost var current: Option<nat>     // the place of inflight in the log

    ghost predicate Valid()
      reads this
    {
      && (forall i, j :: 0 <= i < j < |log| ==> log[i] != log[j])
      && (inflight == null <==> current.None?)
      && (current.Some? ==> current.value < |log| && log[current.value] == inflight)
    }

    ghost function View(): Cache
      reads this, log
    {
      Cache(timing, keys, lastFetch, nextFetch, lastErr, current,
            seq(|log|, i requires 0 <= i < |log| reads this, log => log[i].closed))
    }

    constructor (timing: Timing)
      ensures Valid() && View() == Empty(timing)
    {
      this.timing := timing;
      keys, lastFetch, nextFetch, lastErr, inflight := None, 0, 0, None, null;
      log, current := [], None;
    }

    method Snapshot() returns (held: Option<KeySet>, fetched: int)
      ensures held == View().keys && fetched == View().lastFetch
    {
      held, fetched := keys, lastFetch;
    }

    method Refetch(now: int) returns (e: Entry<Channel>)
      requires Valid()
      modifies this
      ensures Valid() && View() == RefetchSection(old(View()), now).0
      ensures match RefetchSection(old(View()), now).1
              case Join(k) => e == Join(log[k]) && log == old(log)
              case Throttled(err) => e == Throttled(err) && log == old(log)
              case Lead(k) => e.Lead? && fresh(e.channel) && !e.channel.closed && log == old(log) + [e.channel] && k == |old(log)|
    {
      if inflight != null {
        return Join(inflight);
      }
      if now < nextFetch {
        return Throttled(lastErr);
      }
      var ch := new Channel();
      inflight := ch;
      log, current := log + [ch], Some(|log|);
      return Lead(ch);
    }

    method Record(now: int, got: Fetched)
      requires Valid()
      modifies this
      ensures Valid() && log == old(log) && inflight == old(inflight)
      ensures View() == RecordSection(old(View()), now, got)
    {
      match got {
        case Got(ks) =>
          lastErr := None;
          keys, lastFetch := Some(ks), now;
          var gap := if timing.minRefetch <= 0 then DEFAULT_MIN_REFETCH else timing.minRefetch;
          nextFetch := now + gap;
        case Failed(e) =>
          lastErr := Some(e);
          var gap := if timing.minRetry <= 0 then DEFAULT_MIN_RETRY else timing.minRetry;
          nextFetch := now + gap;
      }
    }

    /** The deferred release: the slot is cleared under the lock, then the channel is closed. */
    method Release(ch: Channel, ghost k: nat)
      requires Valid() && k < |log| && log[k] == ch && !ch.closed
      modifies this, ch
      ensures Valid() && log == old(log)
      ensures View() == ReleaseSection(old(View())).(closed := old(View()).closed[k := true])
    {
      inflight := null;
      current := None;
      ch.closed := true;
    }

    method GetAt(kid: Kid, now: int, got: Fetched) returns (a: Answer)
      requires Valid() && inflight == null
      modifies this
      ensures Valid()
      ensures (View(), a) == GetAtAlone(old(View()), kid, now, got)
    {
      var held, fetched := Snapshot();
      if held.Some? && now - fetched < Ttl(timing) {
        var pk := Lookup(held.value, kid, now);
        if pk.Some? {
          return Key(pk.value);
        }
      }
      var e := Refetch(now);
      var err: Option<Error> := None;
      match e {
        case Throttled(last) =>
          err := last;
        case Lead(ch) =>
          ghost var k := |old(log)|;
          Record(now, got);
          Release(ch, k);
          if got.Failed? {
            err := Some(got.error);
          }
        case Join(_) =>
          assert false;
      }
      if err.Some? && held.None? {
        return Refused(err.value);
      }
      var again, _ := Snapshot();
      if again.Some? {
        var pk := Lookup(again.value, kid, now);
        if pk.Some? {
          return Key(pk.value);
        }
      }
      return Refused(UNKNOWN_KID);
    }
  }
}
