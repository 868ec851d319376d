/**
 cache.go: the two-generation decision cache, and authz.go's use of it.

 A run is the sequence of puts in the order the lock served them; gets change nothing, so they may be
 anywhere between.
*/
module DecisionCaches {
  import opened Basics
  import opened CacheKeys

  const STEP_UP_REQUIRED := "step_up_required"

  datatype Decision = Decision(allow: bool, reason: string, failingAxis: string, message: string)

  datatype Entry = Entry(decision: Decision, expires: int)

  type Key = bytes

  datatype Cache = Cache(ttl: int, maxSize: nat, live: map<Key, Entry>, aged: map<Key, Entry>)

  function GetFrom(c: Cache, key: Key, now: int): Option<Decision> {
    var e := if key in c.live then Some(c.live[key]) else if key in c.aged then Some(c.aged[key]) else None;
    if e.None? || now > e.value.expires then None else Some(e.value.decision)
  }

  function PutInto(c: Cache, key: Key, d: Decision, now: int): Cache {
    if d.reason == STEP_UP_REQUIRED then c
    else
      var c' := if |c.live| >= c.maxSize then c.(aged := c.live, live := map[]) else c;
      c'.(live := c'.live[key := Entry(d, now + c.ttl)])
  }

  class DecisionCache {
    const ttl: int
    const maxSize: nat
    var live: map<Key, Entry>
    var aged: map<Key, Entry>

    ghost function View(): Cache
      reads this
    {
      Cache(ttl, maxSize, live, aged)
    }

    constructor (ttl: int, maxSize: nat)
      ensures View() == Cache(ttl, maxSize, map[], map[])
    {
      this.ttl, this.maxSize := ttl, maxSize;
      live, aged := map[], map[];
    }

    method Get(key: Key, now: int) returns (d: Option<Decision>)
      ensures d == GetFrom(View(), key, now)
    {
      var e: Entry;
      if key in live {
        e := live[key];
      } else {
        if key !in aged {
          return None;
        }
        e := aged[key];
      }
      if now > e.expires {
        return None;
      }
      return Some(e.decision);
    }

    method Put(key: Key, d: Decision, now: int)
      modifies this
      ensures View() == PutInto(old(View()), key, d, now)
    {
      if d.reason == STEP_UP_REQUIRED {
        return;
      }
      if |live| >= maxSize {
        aged, live := live, map[];
      }
      live := live[key := Entry(d, now + ttl)];
    }
  }

  // ---- the ledger: what was put, and what a get may answer ----

  datatype Put = Put(key: Key, decision: Decision, now: int)

  function Run(c: Cache, puts: seq<Put>): Cache {
    if puts == [] then c
    else
      var before := Run(c, puts[..|puts| - 1]);
      var p := puts[|puts| - 1];
      PutInto(before, p.key, p.decision, p.now)
  }

  function Empty(ttl: int, maxSize: nat): Cache {
    Cache(ttl, maxSize, map[], map[])
  }

  predicate Caches(p: Put, key: Key) {
    p.key == key && p.decision.reason != STEP_UP_REQUIRED
  }

  /** The last put of this key that is not a step-up refusal. */
  ghost function LastFor(puts: seq<Put>, key: Key): (r: Option<nat>)
    ensures r.None? ==> forall j :: 0 <= j < |puts| ==> !Caches(puts[j], key)
    ensures r.Some? ==> r.value < |puts| && Caches(puts[r.value], key)
                        && forall j :: r.value < j < |puts| ==> !Caches(puts[j], key)
  {
    if puts == [] then None
    else if Caches(puts[|puts| - 1], key) then Some(|puts| - 1)
    else LastFor(puts[..|puts| - 1], key)
  }

  /** Whatever the cache holds for a key and would show is the ledger's last word on it. */
  ghost predicate Agrees(c: Cache, puts: seq<Put>, key: Key) {
    var r := LastFor(puts, key);
    && (key in c.live ==> r.Some? && c.live[key] == Entry(puts[r.value].decision, puts[r.value].now + c.ttl))
    && (key !in c.live && key in c.aged ==> r.Some? && c.aged[key] == Entry(puts[r.value].decision, puts[r.value].now + c.ttl))
    && |c.live| <= c.maxSize && |c.aged| <= c.maxSize
  }

  lemma {:induction false} CacheAgrees(ttl: int, maxSize: nat, puts: seq<Put>, key: Key)
    requires maxSize > 0
    ensures Agrees(Run(Empty(ttl, maxSize), puts), puts, key)
    ensures Run(Empty(ttl, maxSize), puts).ttl == ttl && Run(Empty(ttl, maxSize), puts).maxSize == maxSize
    decreases |puts|
  {
    if puts != [] {
      var front := puts[..|puts| - 1];
      CacheAgrees(ttl, maxSize, front, key);
      assert forall j :: 0 <= j < |front| ==> front[j] == puts[j];
      SizeAfterPut(Run(Empty(ttl, maxSize), front), puts[|puts| - 1]);
    }
  }

  lemma InsertSize<K, V>(m: map<K, V>, k: K, v: V)
    ensures |m[k := v]| == if k in m then |m| else |m| + 1
  {
    assert m[k := v].Keys == m.Keys + {k};
    assert |m[k := v]| == |m[k := v].Keys| && |m| == |m.Keys|;
  }

  lemma SizeAfterPut(c: Cache, p: Put)
    requires c.maxSize > 0 && |c.live| <= c.maxSize && |c.aged| <= c.maxSize
    ensures var c' := PutInto(c, p.key, p.decision, p.now); |c'.live| <= c.maxSize && |c'.aged| <= c.maxSize
  {
    InsertSize(c.live, p.key, Entry(p.decision, p.now + c.ttl));
    InsertSize(map[], p.key, Entry(p.decision, p.now + c.ttl));
  }

  /**
   Never a wrong answer: after any puts whatever, a get shows nothing, or the decision of the last put of
   that key that was not a step-up refusal, and not past its ttl; each generation stays within maxSize.
  */
  lemma GetShowsTheLastAnswer(ttl: int, maxSize: nat, puts: seq<Put>, key: Key, now: int)
    requires maxSize > 0
    ensures
      var c := Run(Empty(ttl, maxSize), puts);
      && |c.live| <= maxSize && |c.aged| <= maxSize
      && (GetFrom(c, key, now).Some? ==>
            var r := LastFor(puts, key);
            r.Some? && GetFrom(c, key, now).value == puts[r.value].decision && now <= puts[r.value].now + ttl)
  {
    CacheAgrees(ttl, maxSize, puts, key);
  }

  // ---- how long an entry survives ----

  predicate Held(c: Cache, key: Key) {
    key in c.live || key in c.aged
  }

  /** How many more cached puts, at least, leave the key's entry in place. */
  function Potential(c: Cache, key: Key): int {
    if key in c.live then 2 * c.maxSize - |c.live|
    else if key in c.aged then c.maxSize - |c.live|
    else -1
  }

  ghost predicate Fits(c: Cache) {
    c.maxSize > 0 && |c.live| <= c.maxSize
  }

  /** A put of another key costs at most one, and exactly one when its key is not in the live generation. */
  lemma PutCostsOne(c: Cache, p: Put, key: Key)
    requires Fits(c) && Held(c, key) && p.key != key
    ensures
      var c' := PutInto(c, p.key, p.decision, p.now);
      && Fits(c')
      && Potential(c', key) >= Potential(c, key) - 1
      && (p.decision.reason != STEP_UP_REQUIRED && p.key !in c.live ==> Potential(c', key) == Potential(c, key) - 1)
      && (Held(c', key) <==> Potential(c', key) >= 0)
  {
    InsertSize(c.live, p.key, Entry(p.decision, p.now + c.ttl));
    InsertSize(map[], p.key, Entry(p.decision, p.now + c.ttl));
    assert Potential(c, key) >= 0;
  }

  lemma {:induction false} SurvivesRun(c: Cache, puts: seq<Put>, key: Key)
    requires Fits(c) && Held(c, key) && (forall j :: 0 <= j < |puts| ==> puts[j].key != key)
    requires |puts| <= Potential(c, key)
    ensures Fits(Run(c, puts)) && Held(Run(c, puts), key) && Potential(Run(c, puts), key) >= Potential(c, key) - |puts|
    ensures Shown(Run(c, puts), key) == Shown(c, key)
    decreases |puts|
  {
    if puts != [] {
      var front := puts[..|puts| - 1];
      SurvivesRun(c, front, key);
      PutCostsOne(Run(c, front), puts[|puts| - 1], key);
    }
  }

  /** The entry a get would look at. */
  function Shown(c: Cache, key: Key): Option<Entry> {
    if key in c.live then Some(c.live[key]) else if key in c.aged then Some(c.aged[key]) else None
  }

  /** An entry just put is still shown, until it expires, after at least maxSize further puts of other keys. */
  lemma EntrySurvivesMaxSizePuts(c: Cache, p: Put, puts: seq<Put>, now: int)
    requires Fits(c) && p.decision.reason != STEP_UP_REQUIRED && now <= p.now + c.ttl
    requires |puts| <= c.maxSize && forall j :: 0 <= j < |puts| ==> puts[j].key != p.key
    ensures GetFrom(Run(PutInto(c, p.key, p.decision, p.now), puts), p.key, now) == Some(p.decision)
  {
    var c' := PutInto(c, p.key, p.decision, p.now);
    InsertSize(c.live, p.key, Entry(p.decision, p.now + c.ttl));
    InsertSize(map[], p.key, Entry(p.decision, p.now + c.ttl));
    assert Potential(c', p.key) >= c.maxSize;
    SurvivesRun(c', puts, p.key);
  }

  /** Puts of keys that are all new to the cache and to each other. */
  ghost predicate AllNew(c: Cache, puts: seq<Put>, key: Key) {
    && (forall j :: 0 <= j < |puts| ==> puts[j].key != key && puts[j].key !in c.live && puts[j].decision.reason != STEP_UP_REQUIRED)
    && (forall i, j :: 0 <= i < j < |puts| ==> puts[i].key != puts[j].key)
  }

  lemma {:induction false} NewKeysCostOneEach(c: Cache, puts: seq<Put>, key: Key)
    requires Fits(c) && Held(c, key) && AllNew(c, puts, key) && |puts| <= Potential(c, key) + 1
    ensures Fits(Run(c, puts)) && Potential(Run(c, puts), key) == Potential(c, key) - |puts|
    ensures Held(Run(c, puts), key) <==> |puts| <= Potential(c, key)
    ensures forall k :: k in Run(c, puts).live ==> k in c.live || exists j :: 0 <= j < |puts| && puts[j].key == k
    decreases |puts|
  {
    if puts != [] {
      var front := puts[..|puts| - 1];
      var p := puts[|puts| - 1];
      assert forall j :: 0 <= j < |front| ==> front[j] == puts[j];
      NewKeysCostOneEach(c, front, key);
      var d := Run(c, front);
      assert p.key !in d.live;
      PutCostsOne(d, p, key);
      var e := Run(c, puts);
      forall k | k in e.live ensures k in c.live || exists j :: 0 <= j < |puts| && puts[j].key == k {
        if k == p.key {
          assert puts[|puts| - 1].key == k;
        } else {
          assert k in d.live;
          if k !in c.live {
            var j :| 0 <= j < |front| && front[j].key == k;
            assert puts[j].key == k;
          }
        }
      }
    }
  }

  /** The potential is exact: one new key more and the entry is gone. */
  lemma PotentialIsExact(c: Cache, puts: seq<Put>, key: Key)
    requires Fits(c) && Held(c, key) && AllNew(c, puts, key) && |puts| == Potential(c, key) + 1
    ensures !Held(Run(c, puts), key)
  {
    NewKeysCostOneEach(c, puts, key);
  }

  // ---- authorize ----

  const COLON: byte := 58

  /** strings.Split(s, ":"). */
  function SplitColons(s: bytes): (r: seq<bytes>)
    ensures |r| > 0
  {
    if s == [] then [[]]
    else
      var rest := SplitColons(s[1..]);
      if s[0] == COLON then [[]] + rest else [[s[0]] + rest[0]] + rest[1..]
  }

  /** Permission.IsValid: app:resource:action, none of them empty. */
  predicate ValidPermission(p: bytes) {
    var parts := SplitColons(p);
    |parts| == 3 && parts[0] != [] && parts[1] != [] && parts[2] != []
  }

  /** Three parts, none of them empty or with a colon. */
  ghost predicate ThreeParts(p: bytes, app: bytes, resource: bytes, action: bytes) {
    && app != [] && resource != [] && action != [] && COLON !in app && COLON !in resource && COLON !in action
    && p == app + [COLON] + resource + [COLON] + action
  }

  lemma {:induction false} NoColon(s: bytes)
    ensures COLON !in s ==> SplitColons(s) == [s]
    ensures COLON in s ==> |SplitColons(s)| > 1
    ensures COLON !in SplitColons(s)[0]
    decreases |s|
  {
    if s != [] {
      assert s == [s[0]] + s[1..];
      NoColon(s[1..]);
    }
  }

  lemma {:induction false} SplitAt(a: bytes, rest: bytes)
    requires COLON !in a
    ensures SplitColons(a + [COLON] + rest) == [a] + SplitColons(rest)
    decreases |a|
  {
    var s := a + [COLON] + rest;
    if a == [] {
      assert s[1..] == rest;
    } else {
      assert s[1..] == a[1..] + [COLON] + rest;
      SplitAt(a[1..], rest);
      assert a == [a[0]] + a[1..];
      assert SplitColons(s) == [[s[0]] + a[1..]] + SplitColons(rest);
    }
  }

  /** The first part, and the rest after its colon. */
  lemma {:induction false} FirstColon(s: bytes) returns (a: bytes, rest: bytes)
    requires COLON in s
    ensures COLON !in a && s == a + [COLON] + rest
    decreases |s|
  {
    if s[0] == COLON {
      a, rest := [], s[1..];
      assert s == [s[0]] + s[1..];
    } else {
      assert s == [s[0]] + s[1..];
      var b;
      b, rest := FirstColon(s[1..]);
      a := [s[0]] + b;
      assert s == a + [COLON] + rest;
    }
  }

  /** A permission can be asked exactly if it is app:resource:action, none of the three empty or with a colon of its own. */
  lemma {:induction false} ValidPermissionIff(p: bytes)
    ensures ValidPermission(p) <==> exists app, resource, action :: ThreeParts(p, app, resource, action)
  {
    if ValidPermission(p) {
      NoColon(p);
      var app, rest := FirstColon(p);
      SplitAt(app, rest);
      assert SplitColons(p)[1..] == SplitColons(rest);
      NoColon(rest);
      var resource, action := FirstColon(rest);
      SplitAt(resource, action);
      assert SplitColons(rest)[1..] == SplitColons(action);
      NoColon(action);
      assert p == app + [COLON] + resource + [COLON] + action;
      assert ThreeParts(p, app, resource, action);
    }
    forall app, resource, action | ThreeParts(p, app, resource, action) ensures ValidPermission(p) {
      assert p == app + [COLON] + (resource + [COLON] + action);
      SplitAt(app, resource + [COLON] + action);
      SplitAt(resource, action);
      NoColon(action);
    }
  }

  predicate Askable(q: Question) {
    q.subject != [] && ValidPermission(q.permission)
  }

  datatype Reply = Decided(decision: Decision) | NotAskable | Unavailable

  /** authorize with a cache: served is what the server answers if it is asked, None if the call fails. */
  method Authorize(cache: DecisionCache, hash: bytes -> Key, q: Question, order: seq<bytes>,
                   now: int, served: Option<Decision>, later: int) returns (r: Reply)
    requires multiset(order) == multiset(q.scopes.Keys)
    modifies cache
    ensures
      var before := old(cache.View());
      var cached := GetFrom(before, hash(Preimage(q)), now);
      if !Askable(q) then r == NotAskable && cache.View() == before
      else if cached.Some? then r == Decided(cached.value) && cache.View() == before
      else if served.None? then r == Unavailable && cache.View() == before
      else r == Decided(served.value) && cache.View() == PutInto(before, hash(Preimage(q)), served.value, later)
  {
    if q.subject == [] || q.permission == [] || !ValidPermission(q.permission) {
      return NotAskable;
    }
    var b := CacheKey(q, order);
    var key := hash(b);
    var d := cache.Get(key, now);
    if d.Some? {
      return Decided(d.value);
    }
    if served.None? {
      return Unavailable;
    }
    cache.Put(key, served.value, later);
    return Decided(served.value);
  }
}
