/** keys/key_set.go: the bounded kid map and the validity window of a published key. */
module KeySets {
  import opened Basics

  type Kid = string
  type Key = bytes

  const MAX_KEYS := 64
  const PUBLIC_KEY_SIZE := 32
  const SECOND := 1_000_000_000
  /** Seconds from Go's zero time to the Unix epoch. */
  const UNIX_EPOCH := 62_135_596_800

  /** A key with the window it may be trusted in; a bound of zero is no bound. */
  datatype Entry = Entry(key: Key, notBefore: int, notAfter: int)

  type KeySet = map<Kid, Entry>

  /** A published key: its public_key decoded from base64url, or None where that fails. */
  datatype Published = Published(kid: Kid, alg: string, publicKey: Option<bytes>, notBefore: int, notAfter: int)

  datatype Document = Document(issuer: string, keys: seq<Published>)

  datatype ParseError = NotJSON | WrongIssuer | TooManyKeys | BadKey(kid: Kid)
  datatype ParseResult = Parsed(keys: KeySet) | Failed(error: ParseError)

  /** Unix seconds of an instant in nanoseconds since the zero time. */
  function Unix(now: int): int {
    now / SECOND - UNIX_EPOCH
  }

  /** The years of the calendar that Go's instants count in, from the year 1. */
  predicate IsLeap(year: nat) {
    year % 4 == 0 && (year % 100 != 0 || year % 400 == 0)
  }

  ghost function DaysBefore(year: nat): nat {
    if year <= 1 then 0 else DaysBefore(year - 1) + if IsLeap(year - 1) then 366 else 365
  }

  lemma {:induction false} DaysAre(year: nat)
    requires year >= 1
    ensures var y := year - 1; DaysBefore(year) == 365 * y + y / 4 - y / 100 + y / 400
  {
    if year > 1 {
      DaysAre(year - 1);
      var y := year - 1;
      OneMore(y - 1);
      LeapYears(y);
    }
  }

  lemma OneMore(y: nat)
    ensures (y + 1) / 4 == y / 4 + if (y + 1) % 4 == 0 then 1 else 0
    ensures (y + 1) / 100 == y / 100 + if (y + 1) % 100 == 0 then 1 else 0
    ensures (y + 1) / 400 == y / 400 + if (y + 1) % 400 == 0 then 1 else 0
  {
  }

  lemma LeapYears(y: nat)
    ensures y % 400 == 0 ==> y % 100 == 0
    ensures y % 100 == 0 ==> y % 4 == 0
  {
    if y % 400 == 0 { QuotientIs(y, 100, 4 * (y / 400)); }
    if y % 100 == 0 { QuotientIs(y, 4, 25 * (y / 100)); }
  }

  /** Unix seconds count from the beginning of 1970, whole ones, whatever the part of a second. */
  lemma UnixIs(n: int, nanos: nat)
    requires nanos < 1_000_000_000
    ensures Unix((DaysBefore(1970) * 86_400 + n) * 1_000_000_000 + nanos) == n
  {
    DaysAre(1970);
    assert DaysBefore(1970) * 86_400 == UNIX_EPOCH;
  }

  predicate InWindow(e: Entry, now: int) {
    && (e.notBefore != 0 ==> e.notBefore <= Unix(now))
    && (e.notAfter != 0 ==> Unix(now) < e.notAfter)
  }

  /** Set.GetAt. */
  function Lookup(ks: KeySet, kid: Kid, now: int): (r: Option<Key>)
    ensures r.Some? <==> kid in ks && InWindow(ks[kid], now)
    ensures r.Some? ==> r.value == ks[kid].key
  {
    if kid !in ks then None
    else
      var e := ks[kid];
      var n := Unix(now);
      if e.notBefore != 0 && n < e.notBefore then None
      else if e.notAfter != 0 && n >= e.notAfter then None
      else Some(e.key)
  }

  predicate Usable(k: Published) {
    k.alg == "Ed25519"
  }

  predicate WellFormed(k: Published) {
    k.publicKey.Some? && |k.publicKey.value| == PUBLIC_KEY_SIZE
  }

  /** keys[i] is the last usable key of its kid. */
  predicate LastOfKid(keys: seq<Published>, i: nat)
    requires i < |keys|
  {
    Usable(keys[i]) && forall j :: i < j < |keys| && Usable(keys[j]) ==> keys[j].kid != keys[i].kid
  }

  /** The set holds exactly the usable keys, the last of each kid. */
  ghost predicate Holds(ks: KeySet, keys: seq<Published>) {
    && (forall kid :: kid in ks ==> exists i :: 0 <= i < |keys| && LastOfKid(keys, i) && keys[i].kid == kid)
    && (forall i :: 0 <= i < |keys| && Usable(keys[i]) ==> keys[i].kid in ks)
    && (forall i :: 0 <= i < |keys| && LastOfKid(keys, i) ==>
          keys[i].publicKey.Some? && keys[i].kid in ks
          && ks[keys[i].kid] == Entry(keys[i].publicKey.value, keys[i].notBefore, keys[i].notAfter))
  }

  /** The set with one more key, if it is usable. */
  function With(ks: KeySet, k: Published): KeySet
    requires Usable(k) ==> k.publicKey.Some?
  {
    if Usable(k) then ks[k.kid := Entry(k.publicKey.value, k.notBefore, k.notAfter)] else ks
  }

  lemma HoldsNext(ks: KeySet, keys: seq<Published>, k: Published)
    requires Holds(ks, keys) && (Usable(k) ==> k.publicKey.Some?)
    ensures Holds(With(ks, k), keys + [k])
  {
    var all := keys + [k];
    var ks' := With(ks, k);
    forall i | 0 <= i < |keys| ensures LastOfKid(all, i) <==> LastOfKid(keys, i) && !(Usable(k) && k.kid == keys[i].kid) {
      assert all[i] == keys[i];
      if LastOfKid(all, i) {
        forall j | i < j < |keys| && Usable(keys[j]) ensures keys[j].kid != keys[i].kid {
          assert all[j] == keys[j];
        }
        if Usable(k) { assert all[|keys|].kid != all[i].kid; }
      }
    }
    assert LastOfKid(all, |keys|) <==> Usable(k);
    forall kid | kid in ks' ensures exists i :: 0 <= i < |all| && LastOfKid(all, i) && all[i].kid == kid {
      if Usable(k) && kid == k.kid {
        assert LastOfKid(all, |keys|);
      } else {
        var i :| 0 <= i < |keys| && LastOfKid(keys, i) && keys[i].kid == kid;
        assert LastOfKid(all, i);
      }
    }
  }

  lemma HoldsPrefix(ks: KeySet, keys: seq<Published>, i: nat)
    requires i < |keys| && Holds(ks, keys[..i]) && (Usable(keys[i]) ==> keys[i].publicKey.Some?)
    ensures Holds(With(ks, keys[i]), keys[..i + 1])
  {
    assert keys[..i + 1] == keys[..i] + [keys[i]];
    HoldsNext(ks, keys[..i], keys[i]);
  }

  lemma HoldsIsBounded(ks: KeySet, keys: seq<Published>)
    requires Holds(ks, keys)
    ensures |ks| <= |keys|
    decreases |keys|
  {
    if keys == [] {
      if kid :| kid in ks { assert false; }
      assert ks.Keys == {};
    } else {
      var kids := set i | 0 <= i < |keys| :: keys[i].kid;
      KidsBounded(keys);
      assert ks.Keys <= kids;
      SubsetSize(ks.Keys, kids);
      assert |ks.Keys| == |ks|;
    }
  }

  lemma {:induction false} KidsBounded(keys: seq<Published>)
    ensures |set i | 0 <= i < |keys| :: keys[i].kid| <= |keys|
    decreases |keys|
  {
    var kids := set i | 0 <= i < |keys| :: keys[i].kid;
    if keys == [] {
      assert kids == {};
    } else {
      var front := keys[..|keys| - 1];
      var some := set i | 0 <= i < |front| :: front[i].kid;
      KidsBounded(front);
      assert kids == some + {keys[|keys| - 1].kid} by {
        forall kid | kid in kids ensures kid in some + {keys[|keys| - 1].kid} {
          var i :| 0 <= i < |keys| && keys[i].kid == kid;
          if i < |front| { assert front[i].kid == kid; }
        }
        forall kid | kid in some ensures kid in kids {
          var i :| 0 <= i < |front| && front[i].kid == kid;
          assert keys[i].kid == kid;
        }
      }
    }
  }

  /** The first usable key that is not wellformed has this kid. */
  ghost predicate FirstBad(keys: seq<Published>, kid: Kid) {
    exists i :: 0 <= i < |keys| && Usable(keys[i]) && !WellFormed(keys[i]) && keys[i].kid == kid
                && forall j :: 0 <= j < i && Usable(keys[j]) ==> WellFormed(keys[j])
  }

  /** The loop of ParseDocument, up to the first bad key. */
  method ReadKeys(keys: seq<Published>) returns (ks: KeySet, bad: Option<Kid>)
    ensures bad.None? ==> Holds(ks, keys) && forall i :: 0 <= i < |keys| && Usable(keys[i]) ==> WellFormed(keys[i])
    ensures bad.Some? ==> FirstBad(keys, bad.value)
  {
    ks := map[];
    var i := 0;
    while i < |keys|
      invariant 0 <= i <= |keys|
      invariant Holds(ks, keys[..i])
      invariant forall j :: 0 <= j < i && Usable(keys[j]) ==> WellFormed(keys[j])
    {
      var k := keys[i];
      if Usable(k) {
        if k.publicKey.None? || |k.publicKey.value| != PUBLIC_KEY_SIZE {
          return ks, Some(k.kid);
        }
      }
      HoldsPrefix(ks, keys, i);
      if Usable(k) {
        ks := ks[k.kid := Entry(k.publicKey.value, k.notBefore, k.notAfter)];
      }
      i := i + 1;
    }
    assert keys[..i] == keys;
    return ks, None;
  }

  /** ParseDocument. doc is None when the body is not JSON. */
  method ParseDocument(doc: Option<Document>, issuer: string) returns (r: ParseResult)
    ensures r.Parsed? <==>
      && doc.Some?
      && (issuer == "" || doc.value.issuer == "" || doc.value.issuer == issuer)
      && |doc.value.keys| <= MAX_KEYS
      && (forall i :: 0 <= i < |doc.value.keys| && Usable(doc.value.keys[i]) ==> WellFormed(doc.value.keys[i]))
    ensures r.Parsed? ==> Holds(r.keys, doc.value.keys) && |r.keys| <= MAX_KEYS
    ensures r == Failed(NotJSON) <==> doc.None?
    ensures r == Failed(WrongIssuer) <==> doc.Some? && issuer != "" && doc.value.issuer != "" && doc.value.issuer != issuer
    ensures r == Failed(TooManyKeys) ==> doc.Some? && |doc.value.keys| > MAX_KEYS
    ensures r.Failed? && r.error.BadKey? ==> doc.Some? && FirstBad(doc.value.keys, r.error.kid)
  {
    if doc.None? {
      return Failed(NotJSON);
    }
    var keys := doc.value.keys;
    if issuer != "" && doc.value.issuer != "" && doc.value.issuer != issuer {
      return Failed(WrongIssuer);
    }
    if |keys| > MAX_KEYS {
      return Failed(TooManyKeys);
    }
    var ks, bad := ReadKeys(keys);
    if bad.Some? {
      return Failed(BadKey(bad.value));
    }
    HoldsIsBounded(ks, keys);
    return Parsed(ks);
  }
}
