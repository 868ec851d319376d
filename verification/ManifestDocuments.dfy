/** admin/manifest.go: a manifest as its builders make it, what they refuse to send, and what is sent. */
module ManifestDocuments {
  import opened Basics

  const COLON: byte := 58

  /** risk is in lower case. */
  datatype Permission = Permission(resource: bytes, action: bytes, risk: Risk, minAssurance: int)

  datatype Risk = Unset | Normal | Sensitive | Critical | UnknownRisk

  datatype Role = Role(name: bytes, permissions: seq<bytes>)

  datatype Effect = Public | RequireAuth | RequirePermission | Deny | UnknownEffect

  datatype Route = Route(priority: int, pathPattern: bytes, effect: Effect, permission: bytes)

  /** How a role or a route names a permission. */
  function Key(p: Permission): bytes {
    p.resource + [COLON] + p.action
  }

  /** A section is a pointer to a slice: nil, or to a slice that is nil, or to rows, perhaps none. */
  datatype Section<T> = Undeclared | Nil | Rows(rows: seq<T>)

  function Entries<T>(s: Section<T>): seq<T> {
    if s.Rows? then s.rows else []
  }

  datatype Manifest = Manifest(permissions: Section<Permission>, roles: Section<Role>, routes: Section<Route>, clearRoutes: bool)

  const BLANK := Manifest(Undeclared, Undeclared, Undeclared, false)

  /** append([]T(nil), rows...): a nil slice when there is nothing to append. */
  function Copied<T>(rows: seq<T>): Section<T> {
    if rows == [] then Nil else Rows(rows)
  }

  function WithPermissions(m: Manifest, p: seq<Permission>): Manifest {
    m.(permissions := Copied(p))
  }

  function WithRoles(m: Manifest, r: seq<Role>): Manifest {
    m.(roles := Copied(r))
  }

  function WithRoutes(m: Manifest, r: seq<Route>): Manifest {
    m.(routes := Copied(r), clearRoutes := false)
  }

  function ClearRoutes(m: Manifest): Manifest {
    m.(routes := Rows([]), clearRoutes := true)
  }

  datatype Builder = Permissions(ps: seq<Permission>) | Roles(rs: seq<Role>) | Routes(ts: seq<Route>) | Clear

  function With(m: Manifest, b: Builder): Manifest {
    match b
    case Permissions(ps) => WithPermissions(m, ps)
    case Roles(rs) => WithRoles(m, rs)
    case Routes(ts) => WithRoutes(m, ts)
    case Clear => ClearRoutes(m)
  }

  function Build(m: Manifest, builders: seq<Builder>): Manifest
    decreases |builders|
  {
    if builders == [] then m else Build(With(m, builders[0]), builders[1..])
  }

  /** A section without rows is a nil slice, save the routes section that was cleared on purpose. */
  ghost predicate Built(m: Manifest) {
    && m.permissions != Rows([]) && m.roles != Rows([])
    && (m.clearRoutes <==> m.routes == Rows([]))
  }

  lemma {:induction false} BuildersKeepBuilt(m: Manifest, builders: seq<Builder>)
    requires Built(m)
    ensures Built(Build(m, builders))
    decreases |builders|
  {
    if builders != [] {
      BuildersKeepBuilt(With(m, builders[0]), builders[1..]);
    }
  }

  /** MarshalJSON, as the server's pointer slices read it back: a nil slice is written null, and null
      reads as a section that was never written. */
  datatype Document = Document(permissions: Option<seq<Permission>>, roles: Option<seq<Role>>, routes: Option<seq<Route>>)

  function Sent<T>(s: Section<T>): Option<seq<T>> {
    if s.Rows? then Some(s.rows) else None
  }

  function Marshal(m: Manifest): Document {
    Document(Sent(m.permissions), Sent(m.roles), Sent(m.routes))
  }

  // ---- Validate ----

  /** Octets strings.TrimSpace removes from an ASCII string. */
  predicate IsSpace(c: byte) {
    9 <= c <= 13 || c == 32
  }

  predicate Blank(name: bytes) {
    forall i :: 0 <= i < |name| ==> IsSpace(name[i])
  }

  function Colons(s: bytes): nat {
    if s == [] then 0 else Colons(s[..|s| - 1]) + if s[|s| - 1] == COLON then 1 else 0
  }

  /** checkPermissionRef. */
  predicate RefOk(ref: bytes) {
    Colons(ref) == 1 && ref[0] != COLON && ref[|ref| - 1] != COLON
  }

  lemma {:induction false} NoColons(s: bytes)
    ensures Colons(s) == 0 <==> COLON !in s
    decreases |s|
  {
    if s != [] {
      NoColons(s[..|s| - 1]);
      assert s == s[..|s| - 1] + [s[|s| - 1]];
    }
  }

  lemma {:induction false} ColonsJoin(s: bytes, t: bytes)
    ensures Colons(s + t) == Colons(s) + Colons(t)
    decreases |t|
  {
    if t == [] {
      assert s + t == s;
    } else {
      var init := t[..|t| - 1];
      assert (s + t)[..|s + t| - 1] == s + init;
      ColonsJoin(s, init);
    }
  }

  /** A reference is accepted exactly when it is resource:action, with neither part empty nor holding a
      colon of its own. */
  lemma RefOkIff(ref: bytes)
    ensures RefOk(ref) <==> exists resource, action ::
      resource != [] && action != [] && COLON !in resource && COLON !in action && ref == resource + [COLON] + action
  {
    if RefOk(ref) {
      NoColons(ref);
      var i :| 0 <= i < |ref| && ref[i] == COLON;
      var resource, action := ref[..i], ref[i + 1..];
      assert ref == resource + [COLON] + action;
      ColonsJoin(resource + [COLON], action);
      ColonsJoin(resource, [COLON]);
      assert Colons([COLON]) == 1 by { assert [COLON][..0] == []; }
      NoColons(resource);
      NoColons(action);
      assert resource != [] && action != [];
    }
    forall resource, action | resource != [] && action != [] && COLON !in resource && COLON !in action && ref == resource + [COLON] + action
      ensures RefOk(ref)
    {
      ColonsJoin(resource + [COLON], action);
      ColonsJoin(resource, [COLON]);
      assert Colons([COLON]) == 1 by { assert [COLON][..0] == []; }
      NoColons(resource);
      NoColons(action);
      assert ref[0] == resource[0] && ref[|ref| - 1] == action[|action| - 1];
    }
  }

  predicate PermissionOk(ps: seq<Permission>, i: nat)
    requires i < |ps|
  {
    && ps[i].resource != [] && ps[i].action != []
    && (forall j :: 0 <= j < i ==> Key(ps[j]) != Key(ps[i]))
    && !ps[i].risk.UnknownRisk? && 0 <= ps[i].minAssurance <= 3
  }

  predicate RoleOk(rs: seq<Role>, i: nat)
    requires i < |rs|
  {
    && !Blank(rs[i].name)
    && (forall j :: 0 <= j < i ==> rs[j].name != rs[i].name)
    && (forall k :: 0 <= k < |rs[i].permissions| ==> RefOk(rs[i].permissions[k]))
  }

  predicate RouteOk(ts: seq<Route>, i: nat)
    requires i < |ts|
  {
    && ts[i].pathPattern != [] && !ts[i].effect.UnknownEffect?
    && (ts[i].effect.RequirePermission? ==> ts[i].permission != [] && RefOk(ts[i].permission))
    && (forall j :: 0 <= j < i ==> ts[j].priority != ts[i].priority)
  }

  datatype Fault = EmptyManifest | RouteTableWipe | CatalogWipe | BadPermission(i: nat) | BadRole(i: nat) | BadRoute(i: nat)

  /** The first n rows are in order. */
  predicate PermissionsOk(ps: seq<Permission>, n: nat)
    requires n <= |ps|
  {
    forall i :: 0 <= i < n ==> PermissionOk(ps, i)
  }

  /** The first n rows are in order. */
  predicate RolesOk(rs: seq<Role>, n: nat)
    requires n <= |rs|
  {
    forall i :: 0 <= i < n ==> RoleOk(rs, i)
  }

  /** The first n rows are in order. */
  predicate RoutesOk(ts: seq<Route>, n: nat)
    requires n <= |ts|
  {
    forall i :: 0 <= i < n ==> RouteOk(ts, i)
  }

  /** What a validated manifest is. */
  ghost predicate Wellformed(m: Manifest) {
    && !(m.permissions.Undeclared? && m.roles.Undeclared? && m.routes.Undeclared?)
    && (m.permissions.Undeclared? || Entries(m.permissions) != [])
    && (m.roles.Undeclared? || Entries(m.roles) != [])
    && (m.routes.Undeclared? || Entries(m.routes) != [] || m.clearRoutes)
    && PermissionsOk(Entries(m.permissions), |Entries(m.permissions)|) && RolesOk(Entries(m.roles), |Entries(m.roles)|) && RoutesOk(Entries(m.routes), |Entries(m.routes)|)
  }

  /** A fault names the first row at fault. */
  ghost predicate Explains(m: Manifest, f: Fault) {
    match f
    case EmptyManifest => m.permissions.Undeclared? && m.roles.Undeclared? && m.routes.Undeclared?
    case RouteTableWipe => !m.routes.Undeclared? && Entries(m.routes) == [] && !m.clearRoutes
    case CatalogWipe => (!m.permissions.Undeclared? && Entries(m.permissions) == []) || (!m.roles.Undeclared? && Entries(m.roles) == [])
    case BadPermission(i) => i < |Entries(m.permissions)| && !PermissionOk(Entries(m.permissions), i) && PermissionsOk(Entries(m.permissions), i)
    case BadRole(i) => i < |Entries(m.roles)| && !RoleOk(Entries(m.roles), i) && RolesOk(Entries(m.roles), i)
    case BadRoute(i) => i < |Entries(m.routes)| && !RouteOk(Entries(m.routes), i) && RoutesOk(Entries(m.routes), i)
  }

  method CheckPermissions(ps: seq<Permission>) returns (bad: Option<nat>)
    ensures bad.None? ==> PermissionsOk(ps, |ps|)
    ensures bad.Some? ==> bad.value < |ps| && !PermissionOk(ps, bad.value) && PermissionsOk(ps, bad.value)
  {
    var seen: set<bytes> := {};
    for i := 0 to |ps|
      invariant PermissionsOk(ps, i)
      invariant forall key :: key in seen <==> exists j :: 0 <= j < i && Key(ps[j]) == key
    {
      if ps[i].resource == [] || ps[i].action == [] {
        return Some(i);
      }
      if Key(ps[i]) in seen {
        return Some(i);
      }
      seen := seen + {Key(ps[i])};
      if ps[i].risk.UnknownRisk? {
        return Some(i);
      }
      if ps[i].minAssurance < 0 || ps[i].minAssurance > 3 {
        return Some(i);
      }
    }
    return None;
  }

  method CheckRoles(rs: seq<Role>) returns (bad: Option<nat>)
    ensures bad.None? ==> RolesOk(rs, |rs|)
    ensures bad.Some? ==> bad.value < |rs| && !RoleOk(rs, bad.value) && RolesOk(rs, bad.value)
  {
    var seen: set<bytes> := {};
    for i := 0 to |rs|
      invariant RolesOk(rs, i)
      invariant forall name :: name in seen <==> exists j :: 0 <= j < i && rs[j].name == name
    {
      if Blank(rs[i].name) {
        return Some(i);
      }
      if rs[i].name in seen {
        return Some(i);
      }
      seen := seen + {rs[i].name};
      for k := 0 to |rs[i].permissions|
        invariant forall l :: 0 <= l < k ==> RefOk(rs[i].permissions[l])
      {
        if !RefOk(rs[i].permissions[k]) {
          return Some(i);
        }
      }
    }
    return None;
  }

  method CheckRoutes(ts: seq<Route>) returns (bad: Option<nat>)
    ensures bad.None? ==> RoutesOk(ts, |ts|)
    ensures bad.Some? ==> bad.value < |ts| && !RouteOk(ts, bad.value) && RoutesOk(ts, bad.value)
  {
    var priorities: map<int, bytes> := map[];
    for i := 0 to |ts|
      invariant RoutesOk(ts, i)
      invariant forall n :: n in priorities <==> exists j :: 0 <= j < i && ts[j].priority == n
    {
      if ts[i].pathPattern == [] || ts[i].effect.UnknownEffect? {
        return Some(i);
      }
      if ts[i].effect.RequirePermission? {
        if ts[i].permission == [] || !RefOk(ts[i].permission) {
          return Some(i);
        }
      }
      if ts[i].priority in priorities {
        return Some(i);
      }
      priorities := priorities[ts[i].priority := ts[i].pathPattern];
    }
    return None;
  }

  method Validate(m: Manifest) returns (fault: Option<Fault>)
    ensures fault.None? <==> Wellformed(m)
    ensures fault.Some? ==> Explains(m, fault.value)
  {
    if m.permissions.Undeclared? && m.roles.Undeclared? && m.routes.Undeclared? {
      return Some(EmptyManifest);
    }
    if !m.routes.Undeclared? && Entries(m.routes) == [] && !m.clearRoutes {
      return Some(RouteTableWipe);
    }
    if (!m.permissions.Undeclared? && Entries(m.permissions) == []) || (!m.roles.Undeclared? && Entries(m.roles) == []) {
      return Some(CatalogWipe);
    }
    if !m.permissions.Undeclared? {
      var bad := CheckPermissions(Entries(m.permissions));
      if bad.Some? {
        return Some(BadPermission(bad.value));
      }
    }
    if !m.roles.Undeclared? {
      var bad := CheckRoles(Entries(m.roles));
      if bad.Some? {
        return Some(BadRole(bad.value));
      }
    }
    if !m.routes.Undeclared? {
      var bad := CheckRoutes(Entries(m.routes));
      if bad.Some? {
        return Some(BadRoute(bad.value));
      }
    }
    return None;
  }

  /** Each declared section is there in the document the server reads. */
  ghost predicate SentWhole(m: Manifest) {
    var doc := Marshal(m);
    && (doc.permissions.Some? <==> !m.permissions.Undeclared?)
    && (doc.roles.Some? <==> !m.roles.Undeclared?)
    && (doc.routes.Some? <==> !m.routes.Undeclared?)
  }

  /** No section is declared without rows, save routes cleared on purpose. */
  predicate NothingRowless(m: Manifest) {
    && (m.permissions.Undeclared? || Entries(m.permissions) != [])
    && (m.roles.Undeclared? || Entries(m.roles) != [])
    && (m.routes.Undeclared? || Entries(m.routes) != [] || m.clearRoutes)
  }

  /**
   A manifest that builders made reaches the server with exactly the sections it declares if and only if it
   declares none without rows, save routes that were cleared. Validated ones are of this kind.
  */
  lemma SentWholeIff(m: Manifest)
    requires Built(m)
    ensures SentWhole(m) <==> NothingRowless(m)
    ensures Wellformed(m) ==> NothingRowless(m)
    ensures Marshal(m).routes == Some([]) <==> m.clearRoutes
  {
  }

  /** The case is there: a section declared with no rows is sent as though undeclared. */
  lemma EmptySectionIsNotSent()
    ensures var m := Build(BLANK, [Roles([])]);
            Built(m) && !m.roles.Undeclared? && Marshal(m) == Document(None, None, None)
  {
    assert [Roles([])][1..] == [];
  }

  /** A role or a route can name a permission exactly when its parts are not empty and hold no colon. */
  lemma CanBeNamedIff(p: Permission)
    ensures RefOk(Key(p)) <==> p.resource != [] && p.action != [] && COLON !in p.resource && COLON !in p.action
  {
    NoColons(p.resource);
    NoColons(p.action);
    ColonsJoin(p.resource + [COLON], p.action);
    ColonsJoin(p.resource, [COLON]);
    assert Colons([COLON]) == 1 by { assert [COLON][..0] == []; }
    if p.resource == [] {
      assert Key(p)[0] == COLON;
    } else {
      assert Key(p)[0] == p.resource[0];
    }
    if p.action == [] {
      assert Key(p)[|Key(p)| - 1] == COLON;
    } else {
      assert Key(p)[|Key(p)| - 1] == p.action[|p.action| - 1];
    }
  }

  /** Yet Validate lets through one that cannot: any permission, alone in a manifest, whose parts are not empty. */
  lemma UnnameablePasses(p: Permission)
    requires p.resource != [] && p.action != [] && !p.risk.UnknownRisk? && 0 <= p.minAssurance <= 3
    requires COLON in p.resource || COLON in p.action
    ensures Wellformed(Build(BLANK, [Permissions([p])])) && !RefOk(Key(p))
    ensures forall r: Role :: Key(p) in r.permissions ==> !RoleOk([r], 0)
  {
    CanBeNamedIff(p);
    var b := Permissions([p]);
    assert [b][1..] == [];
    var m := Build(BLANK, [b]);
    assert m == Build(With(BLANK, b), []) == WithPermissions(BLANK, [p]);
    assert Entries(m.permissions) == [p] && Entries(m.roles) == [] && Entries(m.routes) == [];
    assert PermissionOk([p], 0);
  }
}
