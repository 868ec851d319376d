/**
 anubistest/manifest.go: reconciling an application's catalog to a document. First what an apply means, as
 a function; then the handler, which works on copies of the catalog's sets and commits them at the end;
 then any run of applies.
*/
module Manifests {
  import opened Basics
  import opened ManifestDocuments
  import opened Orders

  datatype Catalog = Catalog(permissions: set<bytes>, roles: set<bytes>, deprecatedPerm: set<bytes>, deprecatedRole: set<bytes>,
                             routes: nat, version: int)

  const EMPTY := Catalog({}, {}, {}, {}, 0, 0)

  datatype Refusal = NoSections | WholeCatalog | WholeRoleCatalog | UnknownPermission | UnknownRoutePermission

  datatype Outcome = Refused(why: Refusal) | Reconciled(next: Catalog)

  function Keys(ps: seq<Permission>): set<bytes> {
    set p | p in ps :: Key(p)
  }

  function Names(rs: seq<Role>): set<bytes> {
    set r | r in rs :: r.name
  }

  /** Every permission a role names is live. */
  ghost predicate RolesResolve(rs: seq<Role>, live: set<bytes>) {
    forall r, ref :: r in rs && ref in r.permissions ==> ref in live
  }

  ghost predicate RoutesResolve(ts: seq<Route>, live: set<bytes>) {
    forall t :: t in ts && t.effect.RequirePermission? ==> t.permission in live
  }

  /** What a declared section leaves live: what it names; an undeclared one leaves what there was. */
  function LivePermissions(c: Catalog, doc: Document): set<bytes> {
    if doc.permissions.Some? then Keys(doc.permissions.value) else c.permissions
  }

  function LiveRoles(c: Catalog, doc: Document): set<bytes> {
    if doc.roles.Some? then Names(doc.roles.value) else c.roles
  }

  /** Why a document is refused, if it is. */
  ghost function Fault(c: Catalog, doc: Document): Option<Refusal> {
    if doc == Document(None, None, None) then Some(NoSections)
    else if doc.permissions == Some([]) && c.permissions != {} then Some(WholeCatalog)
    else if doc.roles == Some([]) && c.roles != {} then Some(WholeRoleCatalog)
    else if doc.roles.Some? && !RolesResolve(doc.roles.value, LivePermissions(c, doc)) then Some(UnknownPermission)
    else if doc.routes.Some? && !RoutesResolve(doc.routes.value, LivePermissions(c, doc)) then Some(UnknownRoutePermission)
    else None
  }

  /** What an apply of the document to the catalog means. */
  ghost function Reconcile(c: Catalog, doc: Document): Outcome {
    var perms, roles := LivePermissions(c, doc), LiveRoles(c, doc);
    if Fault(c, doc).Some? then Refused(Fault(c, doc).value)
    else Reconciled(Catalog(perms, roles,
                            c.deprecatedPerm + (c.permissions - perms),
                            c.deprecatedRole + (c.roles - roles),
                            if doc.routes.Some? then |doc.routes.value| else c.routes,
                            c.version + 1))
  }

  /** applied is how many entries the section names; deprecated, in order, what it stopped naming. */
  datatype SectionReport = SectionReport(applied: nat, deprecated: seq<bytes>)

  datatype Report = Report(dry: bool, permissions: Option<SectionReport>, roles: Option<SectionReport>, replaced: Option<nat>)

  datatype Reply = Error(why: Refusal) | Done(report: Report, version: int)

  ghost function Answer(c: Catalog, doc: Document, dry: bool): Reply {
    match Reconcile(c, doc)
    case Refused(why) => Error(why)
    case Reconciled(next) =>
      Done(Report(dry,
                  if doc.permissions.Some? then Some(SectionReport(|next.permissions|, Ascending(c.permissions - next.permissions))) else None,
                  if doc.roles.Some? then Some(SectionReport(|next.roles|, Ascending(c.roles - next.roles))) else None,
                  if doc.routes.Some? then Some(next.routes) else None),
           next.version)
  }

  /** The catalog afterwards. */
  ghost function After(c: Catalog, doc: Document, dry: bool): Catalog {
    if dry || Reconcile(c, doc).Refused? then c else Reconcile(c, doc).next
  }

  // ---- the handler ----

  function AddAll(s: set<bytes>, more: seq<bytes>): set<bytes> {
    s + set x | x in more
  }

  /** What the report calls deprecated is what a commit moves to the deprecated set. */
  lemma AddedAreDropped(deprecated: set<bytes>, live: set<bytes>, now: set<bytes>)
    ensures AddAll(deprecated, Ascending(live - now)) == deprecated + (live - now)
    ensures live == now ==> AddAll(deprecated, []) == deprecated + (live - now)
  {
    AscendingLists(live - now);
  }

  /** Moves live to exactly what is named; deprecated are the ones it drops, in order. */
  method Retire(live: set<bytes>, named: set<bytes>) returns (now: set<bytes>, deprecated: seq<bytes>)
    ensures now == named && deprecated == Ascending(live - named)
  {
    now, deprecated := DropUnnamed(live, named);
    var left := named;
    while left != {}
      invariant left <= named && now == live * named + (named - left)
      decreases left
    {
      ghost var some := Member(left);
      var k :| k in left;
      left := left - {k};
      now := now + {k};
    }
  }

  method DropUnnamed(live: set<bytes>, named: set<bytes>) returns (now: set<bytes>, deprecated: seq<bytes>)
    ensures now == live * named && deprecated == Ascending(live - named)
  {
    now := live;
    deprecated := [];
    ghost var dropped: set<bytes> := {};
    var left := live;
    while left != {}
      invariant left <= live && now == live - dropped
      invariant forall k :: k in dropped <==> k in live && k !in left && k !in named
      invariant multiset(deprecated) == multiset(dropped)
      decreases left
    {
      ghost var some := Member(left);
      var k :| k in left;
      left := left - {k};
      if k !in named {
        deprecated := deprecated + [k];
        now := now - {k};
        dropped := dropped + {k};
      }
    }
    assert dropped == live - named;
    SortIsAscending(deprecated, dropped);
    deprecated := Sort(deprecated);
  }

  /** The roles a section names, or None once one of them names a permission that is not live. */
  method NameRoles(rs: seq<Role>, perms: set<bytes>) returns (named: Option<set<bytes>>)
    ensures named == if RolesResolve(rs, perms) then Some(Names(rs)) else None
  {
    var names: set<bytes> := {};
    for i := 0 to |rs|
      invariant names == Names(rs[..i]) && RolesResolve(rs[..i], perms)
    {
      assert rs[..i + 1] == rs[..i] + [rs[i]];
      names := names + {rs[i].name};
      for j := 0 to |rs[i].permissions|
        invariant forall k :: 0 <= k < j ==> rs[i].permissions[k] in perms
      {
        if rs[i].permissions[j] !in perms {
          assert rs[i] in rs && rs[i].permissions[j] in rs[i].permissions;
          return None;
        }
      }
    }
    assert rs[..|rs|] == rs;
    return Some(names);
  }

  method NamePermissions(ps: seq<Permission>) returns (named: set<bytes>)
    ensures named == Keys(ps)
  {
    named := {};
    for i := 0 to |ps|
      invariant named == Keys(ps[..i])
    {
      assert ps[..i + 1] == ps[..i] + [ps[i]];
      named := named + {Key(ps[i])};
    }
    assert ps[..|ps|] == ps;
  }

  method CheckRouteRefs(ts: seq<Route>, perms: set<bytes>) returns (ok: bool)
    ensures ok == RoutesResolve(ts, perms)
  {
    for i := 0 to |ts|
      invariant RoutesResolve(ts[..i], perms)
    {
      assert ts[..i + 1] == ts[..i] + [ts[i]];
      if ts[i].effect.RequirePermission? && ts[i].permission !in perms {
        assert ts[i] in ts;
        return false;
      }
    }
    assert ts[..|ts|] == ts;
    return true;
  }

  /** A permissions section: refused as a wipe, or what is live after it and its part of the report. */
  method PlanPermissions(live: set<bytes>, section: Option<seq<Permission>>) returns (wipe: bool, now: set<bytes>, part: Option<SectionReport>)
    ensures wipe <==> section == Some([]) && live != {}
    ensures !wipe ==> now == (if section.Some? then Keys(section.value) else live)
    ensures !wipe ==> part == if section.Some? then Some(SectionReport(|now|, Ascending(live - now))) else None
  {
    wipe, now, part := false, live, None;
    if section.Some? {
      if |section.value| == 0 && live != {} {
        wipe := true;
        return;
      }
      var named := NamePermissions(section.value);
      var deprecated;
      now, deprecated := Retire(live, named);
      part := Some(SectionReport(|named|, deprecated));
    }
  }

  /** A roles section, its references resolved against the permissions live by then. */
  method PlanRoles(live: set<bytes>, section: Option<seq<Role>>, perms: set<bytes>)
    returns (why: Option<Refusal>, now: set<bytes>, part: Option<SectionReport>)
    ensures why == if section == Some([]) && live != {} then Some(WholeRoleCatalog)
                   else if section.Some? && !RolesResolve(section.value, perms) then Some(UnknownPermission)
                   else None
    ensures why.None? ==> now == (if section.Some? then Names(section.value) else live)
    ensures why.None? ==> part == if section.Some? then Some(SectionReport(|now|, Ascending(live - now))) else None
  {
    why, now, part := None, live, None;
    if section.Some? {
      if |section.value| == 0 && live != {} {
        why := Some(WholeRoleCatalog);
        return;
      }
      var named := NameRoles(section.value, perms);
      if named.None? {
        why := Some(UnknownPermission);
        return;
      }
      var deprecated;
      now, deprecated := Retire(live, named.value);
      part := Some(SectionReport(|named.value|, deprecated));
    }
  }

  function Deprecated(part: Option<SectionReport>): seq<bytes> {
    if part.Some? then part.value.deprecated else []
  }

  /** The apply on copies: what the report says, and what a commit would install. */
  method Plan(c: Catalog, doc: Document)
    returns (why: Option<Refusal>, perms: set<bytes>, roles: set<bytes>, routes: nat, permPart: Option<SectionReport>, rolePart: Option<SectionReport>)
    requires doc != Document(None, None, None)
    ensures why == Fault(c, doc)
    ensures why.None? ==> perms == LivePermissions(c, doc) && roles == LiveRoles(c, doc)
    ensures why.None? ==> routes == if doc.routes.Some? then |doc.routes.value| else c.routes
    ensures why.None? ==> permPart == if doc.permissions.Some? then Some(SectionReport(|perms|, Ascending(c.permissions - perms))) else None
    ensures why.None? ==> rolePart == if doc.roles.Some? then Some(SectionReport(|roles|, Ascending(c.roles - roles))) else None
  {
    var wipe;
    rolePart, roles, routes := None, c.roles, c.routes;
    wipe, perms, permPart := PlanPermissions(c.permissions, doc.permissions);
    if wipe {
      why := Some(WholeCatalog);
      return;
    }
    why, roles, rolePart := PlanRoles(c.roles, doc.roles, perms);
    if why.Some? {
      return;
    }
    if doc.routes.Some? {
      var resolve := CheckRouteRefs(doc.routes.value, perms);
      if !resolve {
        why := Some(UnknownRoutePermission);
        return;
      }
      routes := |doc.routes.value|;
    }
  }

  class ManifestApp {
    var permissions: set<bytes>
    var roles: set<bytes>
    var deprecatedPerm: set<bytes>
    var deprecatedRole: set<bytes>
    var routes: nat
    var version: int

    constructor ()
      ensures Value() == EMPTY
    {
      permissions, roles, deprecatedPerm, deprecatedRole := {}, {}, {}, {};
      routes, version := 0, 0;
    }

    function Value(): Catalog
      reads this
    {
      Catalog(permissions, roles, deprecatedPerm, deprecatedRole, routes, version)
    }

    method Commit(perms: set<bytes>, roles: set<bytes>, routes: nat, report: Report, version: int)
      modifies this
      ensures Value() == Catalog(perms, roles, AddAll(old(deprecatedPerm), Deprecated(report.permissions)),
                                 AddAll(old(deprecatedRole), Deprecated(report.roles)), routes, version)
    {
      this.permissions, this.roles, this.routes, this.version := perms, roles, routes, version;
      deprecatedPerm := AddAll(deprecatedPerm, Deprecated(report.permissions));
      deprecatedRole := AddAll(deprecatedRole, Deprecated(report.roles));
    }

    /** The apply of a document that declares something. */
    method Apply(doc: Document, dry: bool) returns (reply: Reply)
      requires doc != Document(None, None, None)
      modifies this
      ensures reply == Answer(old(Value()), doc, dry)
      ensures Value() == After(old(Value()), doc, dry)
    {
      ghost var c := Value();
      var why, perms, roles, routes, permPart, rolePart;
      why, perms, roles, routes, permPart, rolePart := Plan(Value(), doc);
      if why.Some? {
        return Error(why.value);
      }
      reply := Done(Report(dry, permPart, rolePart, if doc.routes.Some? then Some(routes) else None), version + 1);
      if !dry {
        Commit(perms, roles, routes, reply.report, reply.version);
        AddedAreDropped(c.deprecatedPerm, c.permissions, perms);
        AddedAreDropped(c.deprecatedRole, c.roles, roles);
      }
    }
  }

  class Server {
    var manifests: map<bytes, ManifestApp>

    /** Two applications do not share a catalog. */
    ghost predicate Valid()
      reads this
    {
      forall a, b :: a in manifests && b in manifests && a != b ==> manifests[a] != manifests[b]
    }

    ghost function Footprint(): set<object>
      reads this
    {
      {this} + set slug | slug in manifests :: manifests[slug]
    }

    /** An application's catalog; one never heard of has an empty one. */
    ghost function CatalogOf(slug: bytes): Catalog
      reads Footprint()
    {
      if slug in manifests then manifests[slug].Value() else EMPTY
    }

    constructor ()
      ensures Valid() && manifests == map[]
    {
      manifests := map[];
    }

    /** An application heard of for the first time gets an entry, whatever comes of the apply. */
    method Entry(slug: bytes) returns (app: ManifestApp)
      requires Valid()
      modifies this
      ensures Valid() && manifests == old(manifests)[slug := app]
      ensures if slug in old(manifests) then app == old(manifests[slug]) else fresh(app) && app.Value() == EMPTY
    {
      if slug !in manifests {
        var added := new ManifestApp();
        manifests := manifests[slug := added];
      }
      app := manifests[slug];
    }

    method ApplyManifest(slug: bytes, doc: Document, dry: bool) returns (reply: Reply)
      requires Valid()
      modifies Footprint()
      ensures Valid()
      ensures reply == Answer(old(CatalogOf(slug)), doc, dry)
      ensures CatalogOf(slug) == After(old(CatalogOf(slug)), doc, dry)
      ensures forall other :: other != slug ==> CatalogOf(other) == old(CatalogOf(other))
    {
      if doc.permissions.None? && doc.roles.None? && doc.routes.None? {
        return Error(NoSections);
      }
      var app := Entry(slug);
      reply := app.Apply(doc, dry);
    }
  }

  // ---- runs of applies ----

  datatype Apply = Apply(doc: Document, dry: bool)

  ghost function Run(c: Catalog, applies: seq<Apply>): Catalog
    decreases |applies|
  {
    if applies == [] then c else Run(After(c, applies[0].doc, applies[0].dry), applies[1..])
  }

  /** The permissions the applies that took effect have named. */
  ghost function EverNamed(c: Catalog, applies: seq<Apply>): set<bytes>
    decreases |applies|
  {
    if applies == [] then {}
    else
      var a := applies[0];
      var named := if !a.dry && Reconcile(c, a.doc).Reconciled? && a.doc.permissions.Some? then Keys(a.doc.permissions.value) else {};
      named + EverNamed(After(c, a.doc, a.dry), applies[1..])
  }

  ghost function EverNamedRoles(c: Catalog, applies: seq<Apply>): set<bytes>
    decreases |applies|
  {
    if applies == [] then {}
    else
      var a := applies[0];
      var named := if !a.dry && Reconcile(c, a.doc).Reconciled? && a.doc.roles.Some? then Names(a.doc.roles.value) else {};
      named + EverNamedRoles(After(c, a.doc, a.dry), applies[1..])
  }

  /**
   Nothing is forgotten, and nothing invented: after any run what is live or deprecated is what was so at
   its start, and every name an apply of it gave. So neither ever shrinks.
  */
  lemma {:induction false} NothingIsForgotten(c: Catalog, applies: seq<Apply>)
    ensures var t := Run(c, applies);
            && t.permissions + t.deprecatedPerm == c.permissions + c.deprecatedPerm + EverNamed(c, applies)
            && t.roles + t.deprecatedRole == c.roles + c.deprecatedRole + EverNamedRoles(c, applies)
            && c.deprecatedPerm <= t.deprecatedPerm && c.deprecatedRole <= t.deprecatedRole && c.version <= t.version
    decreases |applies|
  {
    if applies != [] {
      NothingIsForgotten(After(c, applies[0].doc, applies[0].dry), applies[1..]);
    }
  }

  /** A section no document of a run declares stays as it was; a dry run changes nothing. */
  lemma {:induction false} UndeclaredSectionsStay(c: Catalog, applies: seq<Apply>)
    ensures var t := Run(c, applies);
            && ((forall i :: 0 <= i < |applies| ==> applies[i].dry || applies[i].doc.permissions.None?) ==>
                  t.permissions == c.permissions && t.deprecatedPerm == c.deprecatedPerm)
            && ((forall i :: 0 <= i < |applies| ==> applies[i].dry || applies[i].doc.roles.None?) ==>
                  t.roles == c.roles && t.deprecatedRole == c.deprecatedRole)
            && ((forall i :: 0 <= i < |applies| ==> applies[i].dry || applies[i].doc.routes.None?) ==> t.routes == c.routes)
            && ((forall i :: 0 <= i < |applies| ==> applies[i].dry) ==> t == c)
    decreases |applies|
  {
    if applies != [] {
      UndeclaredSectionsStay(After(c, applies[0].doc, applies[0].dry), applies[1..]);
      assert forall i :: 0 <= i < |applies| - 1 ==> applies[1..][i] == applies[i + 1];
    }
  }

  /** A run without its dry applies. */
  function Effective(applies: seq<Apply>): seq<Apply>
    decreases |applies|
  {
    if applies == [] then [] else (if applies[0].dry then [] else [applies[0]]) + Effective(applies[1..])
  }

  /** What the applies of a run that are not dry are answered. */
  ghost function RealReplies(c: Catalog, applies: seq<Apply>): seq<Reply>
    decreases |applies|
  {
    if applies == [] then []
    else
      var a := applies[0];
      (if a.dry then [] else [Answer(c, a.doc, false)]) + RealReplies(After(c, a.doc, a.dry), applies[1..])
  }

  /** What apply number i of a run is answered. */
  ghost function ReplyAt(c: Catalog, applies: seq<Apply>, i: nat): Reply
    requires i < |applies|
  {
    Answer(Run(c, applies[..i]), applies[i].doc, applies[i].dry)
  }

  /** A reply as though the apply were real. */
  function Undry(r: Reply): Reply {
    if r.Done? then r.(report := r.report.(dry := false)) else r
  }

  /**
   Dry runs leave no trace and tell the truth. Without them a run ends in the same catalog and gives the same
   replies; and each apply of a run, a dry one too, is answered as the same apply made real would be with
   every dry one before it left out, the dry flag aside.
  */
  lemma {:induction false} DryRunsLeaveNoTrace(c: Catalog, applies: seq<Apply>)
    ensures Run(c, Effective(applies)) == Run(c, applies)
    ensures RealReplies(c, Effective(applies)) == RealReplies(c, applies)
    ensures forall i :: 0 <= i < |applies| ==>
              Undry(ReplyAt(c, applies, i)) == Answer(Run(c, Effective(applies[..i])), applies[i].doc, false)
    decreases |applies|
  {
    forall i | 0 <= i < |applies|
      ensures Undry(ReplyAt(c, applies, i)) == Answer(Run(c, Effective(applies[..i])), applies[i].doc, false)
    {
      DryRunsLeaveNoTrace(c, applies[..i]);
    }
    if applies != [] {
      var a := applies[0];
      DryRunsLeaveNoTrace(After(c, a.doc, a.dry), applies[1..]);
      if a.dry {
        assert Effective(applies) == Effective(applies[1..]);
      } else {
        assert Effective(applies)[0] == a && Effective(applies)[1..] == Effective(applies[1..]);
      }
    }
  }

  // ---- what is live, in terms of the documents applied ----

  /** Some row of a permissions section is this resource:action. */
  ghost predicate NamedBy(ps: seq<Permission>, k: bytes) {
    exists i :: 0 <= i < |ps| && k == ps[i].resource + [COLON] + ps[i].action
  }

  ghost predicate RoleNamedBy(rs: seq<Role>, k: bytes) {
    exists i :: 0 <= i < |rs| && k == rs[i].name
  }

  lemma KeysAreNamed(ps: seq<Permission>, rs: seq<Role>)
    ensures forall k :: k in Keys(ps) <==> NamedBy(ps, k)
    ensures forall k :: k in Names(rs) <==> RoleNamedBy(rs, k)
  {
    forall k ensures k in Keys(ps) <==> NamedBy(ps, k) {
      if k in Keys(ps) {
        var p :| p in ps && k == Key(p);
        var i :| 0 <= i < |ps| && ps[i] == p;
      }
      if NamedBy(ps, k) {
        var i :| 0 <= i < |ps| && k == ps[i].resource + [COLON] + ps[i].action;
        assert ps[i] in ps && k == Key(ps[i]);
      }
    }
    forall k ensures k in Names(rs) <==> RoleNamedBy(rs, k) {
      if k in Names(rs) {
        var r :| r in rs && k == r.name;
        var i :| 0 <= i < |rs| && rs[i] == r;
      }
      if RoleNamedBy(rs, k) {
        var i :| 0 <= i < |rs| && k == rs[i].name;
        assert rs[i] in rs;
      }
    }
  }

  /** Apply number i of a run took effect. */
  ghost predicate Took(c: Catalog, applies: seq<Apply>, i: nat) {
    i < |applies| && !applies[i].dry && ReplyAt(c, applies, i).Done?
  }

  datatype SectionName = PermissionSection | RoleSection | RouteSection

  predicate Declares(doc: Document, section: SectionName) {
    match section
    case PermissionSection => doc.permissions.Some?
    case RoleSection => doc.roles.Some?
    case RouteSection => doc.routes.Some?
  }

  /** It is the last that took effect and declares this section. */
  ghost predicate IsLast(c: Catalog, applies: seq<Apply>, i: nat, section: SectionName) {
    && Took(c, applies, i) && Declares(applies[i].doc, section)
    && forall j: nat :: i < j < |applies| && Took(c, applies, j) ==> !Declares(applies[j].doc, section)
  }

  /** No apply that took effect declares it. */
  ghost predicate NeverDeclared(c: Catalog, applies: seq<Apply>, section: SectionName) {
    forall j: nat :: j < |applies| && Took(c, applies, j) ==> !Declares(applies[j].doc, section)
  }

  lemma {:induction false} RunLast(c: Catalog, applies: seq<Apply>, a: Apply)
    ensures Run(c, applies + [a]) == After(Run(c, applies), a.doc, a.dry)
    decreases |applies|
  {
    if applies == [] {
      assert (applies + [a])[1..] == [];
    } else {
      assert (applies + [a])[1..] == applies[1..] + [a];
      RunLast(After(c, applies[0].doc, applies[0].dry), applies[1..], a);
    }
  }

  lemma {:induction false} TookBefore(c: Catalog, applies: seq<Apply>, a: Apply, i: nat)
    requires i < |applies|
    ensures Took(c, applies + [a], i) <==> Took(c, applies, i)
  {
    assert (applies + [a])[..i] == applies[..i];
  }

  lemma {:induction false} LastBefore(c: Catalog, applies: seq<Apply>, a: Apply, section: SectionName)
    ensures NeverDeclared(c, applies + [a], section) ==> NeverDeclared(c, applies, section)
    ensures forall i: nat :: i < |applies| && IsLast(c, applies + [a], i, section) ==> IsLast(c, applies, i, section)
    ensures (NeverDeclared(c, applies + [a], section) || exists i: nat :: i < |applies| && IsLast(c, applies + [a], i, section)) ==>
              !(Took(c, applies + [a], |applies|) && Declares(a.doc, section))
  {
    forall i: nat | i < |applies| ensures Took(c, applies + [a], i) <==> Took(c, applies, i) {
      TookBefore(c, applies, a, i);
    }
  }

  /** What one apply at the end of a run does, if it takes effect. */
  lemma {:induction false} LastApply(c: Catalog, applies: seq<Apply>, a: Apply)
    ensures var s, t := Run(c, applies), Run(c, applies + [a]);
            if Took(c, applies + [a], |applies|) then
              && (a.doc.permissions.Some? ==> forall k :: k in t.permissions <==> NamedBy(a.doc.permissions.value, k))
              && (a.doc.permissions.None? ==> t.permissions == s.permissions)
              && (a.doc.roles.Some? ==> forall k :: k in t.roles <==> RoleNamedBy(a.doc.roles.value, k))
              && (a.doc.roles.None? ==> t.roles == s.roles)
              && t.routes == (if a.doc.routes.Some? then |a.doc.routes.value| else s.routes)
            else t == s
  {
    assert (applies + [a])[..|applies|] == applies;
    RunLast(c, applies, a);
    if a.doc.permissions.Some? { KeysAreNamed(a.doc.permissions.value, []); }
    if a.doc.roles.Some? { KeysAreNamed([], a.doc.roles.value); }
  }

  /**
   The last declaration decides. After any run the live permissions are exactly the resource:action of the rows of the last
   document that took effect and declares permissions, or what was live at the start if there is none; and so for
   the roles and for the number of routes.
  */
  lemma {:induction false} LastDeclarationDecides(c: Catalog, applies: seq<Apply>)
    ensures var t := Run(c, applies);
            && (forall i: nat :: IsLast(c, applies, i, PermissionSection) ==>
                  forall k :: k in t.permissions <==> NamedBy(applies[i].doc.permissions.value, k))
            && (forall i: nat :: IsLast(c, applies, i, RoleSection) ==>
                  forall k :: k in t.roles <==> RoleNamedBy(applies[i].doc.roles.value, k))
            && (forall i: nat :: IsLast(c, applies, i, RouteSection) ==> t.routes == |applies[i].doc.routes.value|)
            && (NeverDeclared(c, applies, PermissionSection) ==> t.permissions == c.permissions)
            && (NeverDeclared(c, applies, RoleSection) ==> t.roles == c.roles)
            && (NeverDeclared(c, applies, RouteSection) ==> t.routes == c.routes)
    decreases |applies|
  {
    if applies != [] {
      var front, a := applies[..|applies| - 1], applies[|applies| - 1];
      assert applies == front + [a];
      LastDeclarationDecides(c, front);
      LastApply(c, front, a);
      LastBefore(c, front, a, PermissionSection);
      LastBefore(c, front, a, RoleSection);
      LastBefore(c, front, a, RouteSection);
    }
  }

  lemma {:induction false} LastStays(c: Catalog, applies: seq<Apply>, a: Apply, section: SectionName, i: nat)
    requires IsLast(c, applies, i, section) && !(Took(c, applies + [a], |applies|) && Declares(a.doc, section))
    ensures IsLast(c, applies + [a], i, section)
  {
    forall j: nat | j < |applies| ensures Took(c, applies + [a], j) <==> Took(c, applies, j) {
      TookBefore(c, applies, a, j);
    }
  }

  lemma {:induction false} NeverStays(c: Catalog, applies: seq<Apply>, a: Apply, section: SectionName)
    requires NeverDeclared(c, applies, section) && !(Took(c, applies + [a], |applies|) && Declares(a.doc, section))
    ensures NeverDeclared(c, applies + [a], section)
  {
    forall j: nat | j < |applies| ensures Took(c, applies + [a], j) <==> Took(c, applies, j) {
      TookBefore(c, applies, a, j);
    }
  }

  /** There is such a last declaration, or none. */
  lemma {:induction false} SomeIsLast(c: Catalog, applies: seq<Apply>, section: SectionName)
    ensures NeverDeclared(c, applies, section) || exists i: nat :: IsLast(c, applies, i, section)
    decreases |applies|
  {
    if applies != [] {
      var front, a := applies[..|applies| - 1], applies[|applies| - 1];
      assert applies == front + [a];
      SomeIsLast(c, front, section);
      if Took(c, applies, |front|) && Declares(a.doc, section) {
        assert IsLast(c, applies, |front|, section);
      } else if i: nat :| IsLast(c, front, i, section) {
        LastStays(c, front, a, section, i);
      } else {
        NeverStays(c, front, a, section);
      }
    }
  }

  /** part is what a report says of a declared section: how many names it has, and in order what it stopped naming. */
  ghost predicate Reports(part: Option<SectionReport>, before: set<bytes>, after: set<bytes>) {
    && part.Some? && part.value.applied == |after|
    && Strict(part.value.deprecated)
    && (forall k :: k in part.value.deprecated <==> k in before && k !in after)
  }

  /**
   What an apply that takes effect stops naming is no longer live, is deprecated from then on, and is what its report says,
   once each and in order; a section it does not declare is not reported. The version moves by one.
  */
  lemma {:induction false} DroppedAreReported(c: Catalog, applies: seq<Apply>, i: nat)
    requires Took(c, applies, i)
    ensures
      var s, t, doc := Run(c, applies[..i]), Run(c, applies[..i + 1]), applies[i].doc;
      var reply := ReplyAt(c, applies, i);
      && reply.version == t.version == s.version + 1 && !reply.report.dry
      && (if doc.permissions.Some? then Reports(reply.report.permissions, s.permissions, t.permissions) else reply.report.permissions.None?)
      && (if doc.roles.Some? then Reports(reply.report.roles, s.roles, t.roles) else reply.report.roles.None?)
      && reply.report.replaced == (if doc.routes.Some? then Some(t.routes) else None)
      && t.deprecatedPerm == s.deprecatedPerm + (s.permissions - t.permissions)
      && t.deprecatedRole == s.deprecatedRole + (s.roles - t.roles)
  {
    var s, t := Run(c, applies[..i]), Run(c, applies[..i + 1]);
    assert applies[..i + 1] == applies[..i] + [applies[i]];
    RunLast(c, applies[..i], applies[i]);
    AscendingLists(s.permissions - t.permissions);
    AscendingLists(s.roles - t.roles);
  }

  /** A name a document's permissions have once it is applied: a row's, or one live before if it declares none. */
  ghost predicate LiveOnce(c: Catalog, doc: Document, k: bytes) {
    if doc.permissions.Some? then NamedBy(doc.permissions.value, k) else k in c.permissions
  }

  ghost predicate RoleIsSound(c: Catalog, doc: Document, r: Role) {
    forall i :: 0 <= i < |r.permissions| ==> LiveOnce(c, doc, r.permissions[i])
  }

  ghost predicate RouteIsSound(c: Catalog, doc: Document, t: Route) {
    t.effect.RequirePermission? ==> LiveOnce(c, doc, t.permission)
  }

  predicate Blanks(c: Catalog, doc: Document) {
    (doc.permissions == Some([]) && c.permissions != {}) || (doc.roles == Some([]) && c.roles != {})
  }

  ghost predicate RolesAreSound(c: Catalog, doc: Document) {
    doc.roles.Some? ==> forall r :: r in doc.roles.value ==> RoleIsSound(c, doc, r)
  }

  ghost predicate RoutesAreSound(c: Catalog, doc: Document) {
    doc.routes.Some? ==> forall t :: t in doc.routes.value ==> RouteIsSound(c, doc, t)
  }

  /** An apply is refused, dry or not, exactly if it declares nothing, would empty a catalog, or names a permission that
      is not live once it is applied; and the refusal says which. */
  lemma RefusedIff(c: Catalog, doc: Document, dry: bool)
    ensures
      match Answer(c, doc, dry)
      case Done(_, _) =>
        && (doc.permissions.Some? || doc.roles.Some? || doc.routes.Some?)
        && !Blanks(c, doc) && RolesAreSound(c, doc) && RoutesAreSound(c, doc)
      case Error(NoSections) => doc.permissions.None? && doc.roles.None? && doc.routes.None?
      case Error(WholeCatalog) => doc.permissions == Some([]) && c.permissions != {}
      case Error(WholeRoleCatalog) => doc.roles == Some([]) && c.roles != {}
      case Error(UnknownPermission) => !RolesAreSound(c, doc)
      case Error(UnknownRoutePermission) => !RoutesAreSound(c, doc)
  {
    if doc.roles.Some? { RolesResolveIff(c, doc); }
    if doc.routes.Some? { RoutesResolveIff(c, doc); }
  }

  lemma LiveOnceIff(c: Catalog, doc: Document)
    ensures forall k :: k in LivePermissions(c, doc) <==> LiveOnce(c, doc, k)
  {
    if doc.permissions.Some? { KeysAreNamed(doc.permissions.value, []); }
  }

  lemma RolesResolveIff(c: Catalog, doc: Document)
    requires doc.roles.Some?
    ensures RolesResolve(doc.roles.value, LivePermissions(c, doc)) <==> RolesAreSound(c, doc)
  {
    LiveOnceIff(c, doc);
    var live := LivePermissions(c, doc);
    forall r | r in doc.roles.value ensures RoleIsSound(c, doc, r) <==> forall ref :: ref in r.permissions ==> ref in live {
      if RoleIsSound(c, doc, r) {
        forall ref | ref in r.permissions ensures ref in live {
          var i :| 0 <= i < |r.permissions| && r.permissions[i] == ref;
        }
      }
    }
  }

  lemma RoutesResolveIff(c: Catalog, doc: Document)
    requires doc.routes.Some?
    ensures RoutesResolve(doc.routes.value, LivePermissions(c, doc)) <==> RoutesAreSound(c, doc)
  {
    LiveOnceIff(c, doc);
  }

  /** A catalog with something live is never emptied by applies, nor are its roles. */
  lemma {:induction false} CatalogIsNeverEmptied(c: Catalog, applies: seq<Apply>)
    ensures c.permissions != {} ==> Run(c, applies).permissions != {}
    ensures c.roles != {} ==> Run(c, applies).roles != {}
    decreases |applies|
  {
    if applies != [] {
      var doc := applies[0].doc;
      if doc.permissions.Some? && doc.permissions.value != [] { assert Key(doc.permissions.value[0]) in Keys(doc.permissions.value); }
      if doc.roles.Some? && doc.roles.value != [] { assert doc.roles.value[0].name in Names(doc.roles.value); }
      CatalogIsNeverEmptied(After(c, doc, applies[0].dry), applies[1..]);
    }
  }

  predicate Clean(report: Report) {
    && (report.permissions.Some? ==> report.permissions.value.deprecated == [])
    && (report.roles.Some? ==> report.roles.value.deprecated == [])
  }

  lemma Settled(c: Catalog, doc: Document)
    requires Reconcile(c, doc).Reconciled?
    ensures var once := After(c, doc, false);
            && once.permissions == LivePermissions(once, doc) && once.permissions - LivePermissions(once, doc) == {}
            && once.roles == LiveRoles(once, doc) && once.roles - LiveRoles(once, doc) == {}
            && once.deprecatedPerm + {} == once.deprecatedPerm && once.deprecatedRole + {} == once.deprecatedRole
            && Fault(once, doc).None?
  {
  }

  /** Applying a document again retires nothing, and leaves every set and the routes where they are. */
  lemma ReapplyRetiresNothing(c: Catalog, doc: Document)
    requires Reconcile(c, doc).Reconciled?
    ensures var once := After(c, doc, false);
            && After(once, doc, false) == once.(version := once.version + 1)
            && Answer(once, doc, false).Done?
            && Clean(Answer(once, doc, false).report)
  {
    Settled(c, doc);
    assert Ascending({}) == [];
  }

  /** The sections of a document, one to a document, leaving out those it does not declare. */
  function Apart(doc: Document): seq<Document> {
    (if doc.permissions.Some? then [Document(doc.permissions, None, None)] else [])
    + ((if doc.roles.Some? then [Document(None, doc.roles, None)] else [])
       + (if doc.routes.Some? then [Document(None, None, doc.routes)] else []))
  }

  /** Documents applied in turn, up to the first refusal. */
  ghost function InTurn(c: Catalog, docs: seq<Document>): Outcome
    decreases |docs|
  {
    if docs == [] then Reconciled(c)
    else
      var o := Reconcile(c, docs[0]);
      if o.Refused? then o else InTurn(o.next, docs[1..])
  }

  /** One declared section, or none, and then the rest. */
  lemma SectionFirst(c: Catalog, section: seq<Document>, rest: seq<Document>)
    requires |section| <= 1
    ensures InTurn(c, section + rest) ==
              if section == [] then InTurn(c, rest)
              else if Reconcile(c, section[0]).Refused? then Reconcile(c, section[0])
              else InTurn(Reconcile(c, section[0]).next, rest)
  {
    if section == [] {
      assert section + rest == rest;
    } else {
      assert (section + rest)[1..] == rest;
    }
  }

  /**
   The sections of a manifest are independent: a document comes to what its permissions, then its roles, then
   its routes come to one by one, but for the version, which counts one apply instead of one to a section;
   and it is accepted exactly when each of them is.
  */
  lemma SectionsAreIndependent(c: Catalog, doc: Document)
    requires doc != Document(None, None, None)
    ensures match Reconcile(c, doc)
            case Refused(_) => InTurn(c, Apart(doc)).Refused?
            case Reconciled(next) => InTurn(c, Apart(doc)) == Reconciled(next.(version := c.version + |Apart(doc)|))
  {
    var roles := if doc.roles.Some? then [Document(None, doc.roles, None)] else [];
    var routes := if doc.routes.Some? then [Document(None, None, doc.routes)] else [];
    if doc.permissions.Some? {
      SectionFirst(c, [Document(doc.permissions, None, None)], roles + routes);
      if Reconcile(c, Document(doc.permissions, None, None)).Reconciled? {
        RolesThenRoutes(Reconcile(c, Document(doc.permissions, None, None)).next, doc.roles, doc.routes);
      }
    } else {
      SectionFirst(c, [], roles + routes);
      RolesThenRoutes(c, doc.roles, doc.routes);
    }
  }

  lemma RolesThenRoutes(c: Catalog, roles: Option<seq<Role>>, routes: Option<seq<Route>>)
    ensures
      var docs := (if roles.Some? then [Document(None, roles, None)] else []) + (if routes.Some? then [Document(None, None, routes)] else []);
      if (roles == Some([]) && c.roles != {}) || (roles.Some? && !RolesResolve(roles.value, c.permissions))
         || (routes.Some? && !RoutesResolve(routes.value, c.permissions)) then InTurn(c, docs).Refused?
      else
        var named := if roles.Some? then Names(roles.value) else c.roles;
        InTurn(c, docs) == Reconciled(c.(roles := named, deprecatedRole := c.deprecatedRole + (c.roles - named),
                                         routes := if routes.Some? then |routes.value| else c.routes, version := c.version + |docs|))
  {
    var last := if routes.Some? then [Document(None, None, routes)] else [];
    if roles.Some? {
      var doc := Document(None, roles, None);
      SectionFirst(c, [doc], last);
      if Reconcile(c, doc).Reconciled? {
        RoutesAlone(Reconcile(c, doc).next, routes);
      }
    } else {
      SectionFirst(c, [], last);
      assert c.deprecatedRole + (c.roles - c.roles) == c.deprecatedRole;
      RoutesAlone(c, routes);
    }
  }

  lemma RoutesAlone(c: Catalog, routes: Option<seq<Route>>)
    ensures
      var docs := if routes.Some? then [Document(None, None, routes)] else [];
      if routes.Some? && !RoutesResolve(routes.value, c.permissions) then InTurn(c, docs).Refused?
      else InTurn(c, docs) == Reconciled(c.(routes := if routes.Some? then |routes.value| else c.routes, version := c.version + |docs|))
  {
    if routes.Some? {
      var doc := Document(None, None, routes);
      assert [doc] == [doc] + [];
      SectionFirst(c, [doc], []);
      assert c.deprecatedRole + (c.roles - c.roles) == c.deprecatedRole;
      assert c.deprecatedPerm + (c.permissions - c.permissions) == c.deprecatedPerm;
    }
  }

  /** A manifest that passes Validate is never refused as empty, nor for emptying a catalog; and it leaves an
      application without routes only if it was cleared on purpose, or had none and declares none. */
  lemma ValidatedPassesTheRails(m: Manifest, c: Catalog)
    requires Built(m) && Wellformed(m)
    ensures match Reconcile(c, Marshal(m))
            case Refused(why) => why == UnknownPermission || why == UnknownRoutePermission
            case Reconciled(next) => next.routes == 0 <==> m.clearRoutes || (m.routes.Undeclared? && c.routes == 0)
  {
  }

  /** Rows no two of which have one key are as many as their keys. */
  lemma {:induction false} DistinctKeys(ps: seq<Permission>, n: nat)
    requires n <= |ps| && PermissionsOk(ps, n)
    ensures |Keys(ps[..n])| == n
    decreases n
  {
    if n > 0 {
      DistinctKeys(ps, n - 1);
      assert PermissionOk(ps, n - 1);
      assert ps[..n] == ps[..n - 1] + [ps[n - 1]];
      assert Keys(ps[..n]) == Keys(ps[..n - 1]) + {Key(ps[n - 1])};
      assert Key(ps[n - 1]) !in Keys(ps[..n - 1]);
    }
  }

  lemma {:induction false} DistinctNames(rs: seq<Role>, n: nat)
    requires n <= |rs| && RolesOk(rs, n)
    ensures |Names(rs[..n])| == n
    decreases n
  {
    if n > 0 {
      DistinctNames(rs, n - 1);
      assert RoleOk(rs, n - 1);
      assert rs[..n] == rs[..n - 1] + [rs[n - 1]];
      assert Names(rs[..n]) == Names(rs[..n - 1]) + {rs[n - 1].name};
      assert rs[n - 1].name !in Names(rs[..n - 1]);
    }
  }

  /** Every row of a validated manifest lands: where it is accepted, as many permissions and roles are live and reported as
      it has rows, for no row stands in for another. */
  lemma {:induction false} ValidatedRowsAllLand(m: Manifest, c: Catalog, dry: bool)
    requires Built(m) && Wellformed(m) && Answer(c, Marshal(m), dry).Done?
    ensures var (t, report) := (After(c, Marshal(m), false), Answer(c, Marshal(m), dry).report);
            && (!m.permissions.Undeclared? ==>
                  |t.permissions| == |m.permissions.rows| && report.permissions.Some? && report.permissions.value.applied == |m.permissions.rows|)
            && (!m.roles.Undeclared? ==>
                  |t.roles| == |m.roles.rows| && report.roles.Some? && report.roles.value.applied == |m.roles.rows|)
            && (!m.routes.Undeclared? ==> t.routes == |m.routes.rows| && report.replaced == Some(|m.routes.rows|))
  {
    var ps, rs := Entries(m.permissions), Entries(m.roles);
    DistinctKeys(ps, |ps|);
    DistinctNames(rs, |rs|);
    assert ps[..|ps|] == ps && rs[..|rs|] == rs;
  }
}
