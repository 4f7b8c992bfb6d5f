/**
 * The two ways a project role is enforced: the role matrix (shared/src/rbac.ts:63-169) and the role expanded into
 * catalog keys, compiled and decided upon (shared/src/permission-rbac.ts, shared/src/permission-catalog.ts).
 */
module PermissionRbac {
  import opened Wrappers
  import Text

  datatype Role = Owner | Admin | Manager | Member | Viewer

  const FULL: set<string> := {"read", "write", "delete", "manage", "move", "export", "import", "execute", "invoke",
                              "moderate"}

  /** The role-action matrix; the expansion keeps a copy of its own that is the same table. */
  function RoleActions(role: Role): set<string> {
    match role
    case Owner => FULL
    case Admin => FULL
    case Manager => {"read", "write", "delete", "move", "export", "import", "execute", "invoke", "moderate"}
    case Member => {"read", "write", "move", "export"}
    case Viewer => {"read"}
  }

  function AllowList(role: Role): set<string> {
    match role
    case Member => {"documents.generate:execute"}
    case Manager => {"documents:manage"}
    case _ => {}
  }

  function DenyList(role: Role): set<string> {
    match role
    case Member => {"products:write"}
    case Manager => {"documents:delete", "products:delete", "project:delete"}
    case _ => {}
  }

  // ---------------------------------------------------------------- keys

  function PermissionKey(subject: string, action: string): string {
    subject + ":" + action
  }

  datatype Parts = Parts(subject: string, action: string)

  function ParsePermissionKey(key: string): Option<Parts> {
    var i := Text.LastIndexOf(key, ':');
    if i <= 0 || i == |key| - 1 then None else Some(Parts(key[..i], key[i + 1..]))
  }

  /** Building and parsing are inverse wherever the action is a plain word. */
  lemma ParseKey(subject: string, action: string)
    requires ':' !in action
    ensures ParsePermissionKey(PermissionKey(subject, action)) ==
            if subject == "" || action == "" then None else Some(Parts(subject, action))
  {
    Text.LastIndexAfter(subject, ':', action);
  }

  lemma KeyInjective(s: string, a: string, t: string, b: string)
    requires ':' !in a && ':' !in b
    ensures PermissionKey(s, a) == PermissionKey(t, b) <==> s == t && a == b
  {
    Text.LastIndexAfter(s, ':', a);
    Text.LastIndexAfter(t, ':', b);
  }

  predicate StartsWith(s: string, prefix: string) {
    |prefix| <= |s| && s[..|prefix|] == prefix
  }

  predicate Forbidden(subject: string, action: string) {
    || subject == "auth" || StartsWith(subject, "auth.")
    || (subject == "billing" && action == "manage")
    || subject == "org" || StartsWith(subject, "org.") || StartsWith(subject, "org:")
  }

  predicate Grantable(key: string) {
    var parts := ParsePermissionKey(key);
    parts.Some? && !Forbidden(parts.value.subject, parts.value.action)
  }

  function NormalizeAction(action: string): string {
    if action == "create" || action == "update" then "write" else action
  }

  // ---------------------------------------------------------------- the catalog

  datatype Permission = Permission(subject: string, actions: seq<string>)

  datatype Manifest = Manifest(id: string, permissions: seq<Permission>)

  /** The actions of each subject; `keys` is the flat view of it. */
  type Catalog = map<string, set<string>>

  function Keys(c: Catalog): set<string> {
    set s, a | s in c && a in c[s] :: PermissionKey(s, a)
  }

  predicate Contributes(m: Manifest, p: Permission) {
    m.id == "core" || p.subject == m.id || StartsWith(p.subject, m.id + ".")
  }

  ghost predicate Declares(manifests: seq<Manifest>, subject: string, action: string) {
    exists i, j, k :: 0 <= i < |manifests| && 0 <= j < |manifests[i].permissions| &&
                      0 <= k < |manifests[i].permissions[j].actions| &&
                      Contributes(manifests[i], manifests[i].permissions[j]) &&
                      manifests[i].permissions[j].subject == subject &&
                      StandsFor(manifests[i].permissions[j].actions[k], action)
  }

  /** Creating and updating are writing. */
  predicate StandsFor(declared: string, action: string) {
    if declared == "create" || declared == "update" then action == "write" else action == declared
  }

  /** Adds one permission to the catalog. */
  function With(c: Catalog, p: Permission): Catalog {
    c[p.subject := (if p.subject in c then c[p.subject] else {}) + set a | a in p.actions :: NormalizeAction(a)]
  }

  predicate Has(c: Catalog, subject: string, action: string) {
    subject in c && action in c[subject]
  }

  method BuildPermissionCatalog(manifests: seq<Manifest>) returns (c: Catalog)
    ensures forall subject, action :: Has(c, subject, action) <==> Declares(manifests, subject, action)
  {
    c := map[];
    for i := 0 to |manifests|
      invariant forall subject, action :: Has(c, subject, action) <==> Declares(manifests[..i], subject, action)
    {
      c := CollectFromManifest(c, manifests[i]);
      forall subject, action
        ensures Declares(manifests[..i + 1], subject, action) <==>
                Declares(manifests[..i], subject, action)
                    || DeclaredBy(manifests[i], |manifests[i].permissions|, subject, action)
      {
        DeclaresSnoc(manifests, i, subject, action);
      }
    }
    assert manifests[..|manifests|] == manifests;
  }

  method CollectFromManifest(before: Catalog, m: Manifest) returns (c: Catalog)
    ensures forall subject, action ::
              Has(c, subject, action) <==>
                  Has(before, subject, action)
                  || DeclaredBy(m, |m.permissions|, subject, action)
  {
    c := before;
    for j := 0 to |m.permissions|
      invariant forall subject, action ::
          Has(c, subject, action)
          <==> Has(before, subject, action) || DeclaredBy(m, j, subject, action)
    {
      ghost var was := c;
      if Contributes(m, m.permissions[j]) {
        c := With(c, m.permissions[j]);
      }
      forall subject, action
        ensures Has(c, subject, action) <==> Has(before, subject, action) || DeclaredBy(m, j + 1, subject, action)
      {
        WithDeclares(was, c, m, j, subject, action);
        DeclaredBySnoc(m, j, subject, action);
      }
    }
  }

  lemma WithDeclares(was: Catalog, c: Catalog, m: Manifest, j: nat, subject: string, action: string)
    requires j < |m.permissions| && c == if Contributes(m, m.permissions[j]) then With(was, m.permissions[j]) else was
    ensures Has(c, subject, action) <==> Has(was, subject, action) || DeclaredAt(m, j, subject, action)
  {
    var p := m.permissions[j];
    assert forall k :: 0 <= k < |p.actions| ==>
                         (StandsFor(p.actions[k], action) <==> NormalizeAction(p.actions[k]) == action);
    assert NormalizeAction(action) == action || action == "create" || action == "update";
  }

  lemma DeclaredBySnoc(m: Manifest, j: nat, subject: string, action: string)
    requires j < |m.permissions|
    ensures DeclaredBy(m, j + 1, subject, action)
            <==> DeclaredBy(m, j, subject, action) || DeclaredAt(m, j, subject, action)
  {
    if DeclaredBy(m, j + 1, subject, action) {
      var q :| 0 <= q < j + 1 && DeclaredAt(m, q, subject, action);
      assert q == j || DeclaredBy(m, j, subject, action);
    }
  }

  ghost predicate DeclaredAt(m: Manifest, j: nat, subject: string, action: string)
    requires j < |m.permissions|
  {
    var p := m.permissions[j];
    Contributes(m, p) && p.subject == subject
        && exists k :: 0 <= k < |p.actions| && StandsFor(p.actions[k], action)
  }

  ghost predicate DeclaredBy(m: Manifest, n: nat, subject: string, action: string)
    requires n <= |m.permissions|
  {
    exists j :: 0 <= j < n && DeclaredAt(m, j, subject, action)
  }

  lemma DeclaresSnoc(manifests: seq<Manifest>, i: nat, subject: string, action: string)
    requires i < |manifests|
    ensures Declares(manifests[..i + 1], subject, action) <==>
            Declares(manifests[..i], subject, action)
                || DeclaredBy(manifests[i], |manifests[i].permissions|, subject, action)
  {
    var ms, m := manifests[..i + 1], manifests[i];
    if Declares(ms, subject, action) {
      var x, j, k :| 0 <= x < |ms| && 0 <= j < |ms[x].permissions| && 0 <= k < |ms[x].permissions[j].actions| &&
                     Contributes(ms[x], ms[x].permissions[j]) && ms[x].permissions[j].subject == subject &&
                     StandsFor(ms[x].permissions[j].actions[k], action);
      if x < i {
        assert manifests[..i][x] == ms[x];
      } else {
        assert DeclaredAt(m, j, subject, action);
      }
    }
    if Declares(manifests[..i], subject, action) {
      var x, j, k :| 0 <= x < i && 0 <= j < |manifests[..i][x].permissions| &&
                     0 <= k < |manifests[..i][x].permissions[j].actions| &&
                     Contributes(manifests[..i][x], manifests[..i][x].permissions[j]) &&
                     manifests[..i][x].permissions[j].subject == subject &&
                     StandsFor(manifests[..i][x].permissions[j].actions[k], action);
      assert ms[x] == manifests[..i][x];
    }
    if DeclaredBy(m, |m.permissions|, subject, action) {
      var j :| 0 <= j < |m.permissions| && DeclaredAt(m, j, subject, action);
      var k :| 0 <= k < |m.permissions[j].actions| && StandsFor(m.permissions[j].actions[k], action);
      assert ms[i] == m;
    }
  }

  // ---------------------------------------------------------------- the role matrix

  predicate ProjectRoleCan(role: Role, action: string) {
    action in RoleActions(role)
  }

  predicate ProjectRoleCanKey(role: Role, subject: string, action: string) {
    var key := PermissionKey(subject, action);
    key !in DenyList(role) && (ProjectRoleCan(role, action) || (subject != "" && key in AllowList(role)))
  }

  /** The matrix by action: who may do what. */
  lemma WhoCan(role: Role, action: string)
    ensures ProjectRoleCan(role, action) <==>
            || action == "read"
            || (!role.Viewer? && action in {"write", "move", "export"})
            || (!LowRole(role) && action in {"delete", "import", "execute", "invoke", "moderate"})
            || ((role.Owner? || role.Admin?) && action == "manage")
  {
  }

  /** The single keys on which a role differs from its row of the matrix. */
  predicate IsException(role: Role, subject: string, action: string) {
    || (role.Member? && subject == "documents.generate" && action == "execute")
    || (role.Member? && subject == "products" && action == "write")
    || (role.Manager? && subject == "documents" && (action == "manage" || action == "delete"))
    || (role.Manager? && (subject == "products" || subject == "project") && action == "delete")
  }

  lemma KeyText(subject: string, action: string, s: string, a: string, text: string)
    requires ':' !in action && ':' !in a && text == s + ":" + a
    ensures PermissionKey(subject, action) == text <==> subject == s && action == a
  {
    assert PermissionKey(s, a) == text;
    KeyInjective(subject, action, s, a);
  }

  lemma ExceptionsAre(role: Role, subject: string, action: string)
    requires ':' !in action
    ensures ProjectRoleCanKey(role, subject, action) <==>
            ProjectRoleCan(role, action) != IsException(role, subject, action)
  {
    KeyText(subject, action, "documents.generate", "execute", "documents.generate:execute");
    KeyText(subject, action, "products", "write", "products:write");
    KeyText(subject, action, "documents", "manage", "documents:manage");
    KeyText(subject, action, "documents", "delete", "documents:delete");
    KeyText(subject, action, "products", "delete", "products:delete");
    KeyText(subject, action, "project", "delete", "project:delete");
  }

  // ---------------------------------------------------------------- the expansion

  predicate LowRole(role: Role) {
    role.Member? || role.Viewer?
  }

  predicate Elevated(subject: string, action: string) {
    action == "manage" || action == "delete" || action == "import" ||
    (action == "export" && (subject == "reports" || subject == "statistics"))
  }

  /** The pairs the matrix gives the role, minus the elevated ones for low roles. */
  predicate Emitted(role: Role, c: Catalog, subject: string, action: string) {
    Has(c, subject, action) && action in RoleActions(role) && !(LowRole(role) && Elevated(subject, action))
  }

  function Expanded(role: Role, c: Catalog): set<string> {
    (set s, a | s in c && a in c[s] && Emitted(role, c, s, a) :: PermissionKey(s, a))
    + (set key | key in AllowList(role) && key in Keys(c) && Grantable(key))
    - DenyList(role)
  }

  method ExpandSystemRolePermissions(role: Role, c: Catalog) returns (out: set<string>)
    ensures out == Expanded(role, c)
  {
    out := {};
    var subjects := c.Keys;
    while subjects != {}
      invariant subjects <= c.Keys
      invariant out == set s, a | s in c && s !in subjects && a in c[s] && Emitted(role, c, s, a) :: PermissionKey(s, a)
      decreases subjects
    {
      var s :| s in subjects;
      out := EmitEntry(role, c, s, out);
      subjects := subjects - {s};
    }
    out := EmitExtras(AllowList(role), Keys(c), out);
    out := out - DenyList(role);
  }

  method EmitEntry(role: Role, c: Catalog, s: string, start: set<string>) returns (out: set<string>)
    requires s in c
    ensures out == start + set a | a in c[s] && Emitted(role, c, s, a) :: PermissionKey(s, a)
  {
    out := start;
    var actions := c[s];
    while actions != {}
      invariant actions <= c[s]
      invariant out == start + set a | a in c[s] && a !in actions && Emitted(role, c, s, a) :: PermissionKey(s, a)
      decreases actions
    {
      var a :| a in actions;
      if a in RoleActions(role) && !(LowRole(role) && Elevated(s, a)) {
        out := out + {PermissionKey(s, a)};
      }
      actions := actions - {a};
    }
  }

  method EmitExtras(extras: set<string>, keys: set<string>, start: set<string>) returns (out: set<string>)
    ensures out == start + set key | key in extras && key in keys && Grantable(key)
  {
    out := start;
    var todo := extras;
    while todo != {}
      invariant todo <= extras
      invariant out == start + set key | key in extras && key !in todo && key in keys && Grantable(key)
      decreases todo
    {
      var key :| key in todo;
      if key in keys && Grantable(key) {
        out := out + {key};
      }
      todo := todo - {key};
    }
  }

  // ---------------------------------------------------------------- compiling and deciding

  datatype RoleInput = RoleInput(permissionKeys: set<string>, moduleScope: Option<string>)

  datatype Effect = Allow | Deny

  datatype Grant = Grant(effect: Effect, key: string)

  datatype Effective = Effective(allow: set<string>, deny: set<string>)

  predicate InModuleScope(key: string, moduleScope: Option<string>) {
    moduleScope.Some? && moduleScope.value != "" ==>
      var parts := ParsePermissionKey(key);
      parts.Some? && (parts.value.subject == moduleScope.value
          || StartsWith(parts.value.subject, moduleScope.value + "."))
  }

  predicate GivenByRole(role: RoleInput, key: string) {
    key in role.permissionKeys && InModuleScope(key, role.moduleScope) && Grantable(key)
  }

  ghost predicate Allowed(roles: seq<RoleInput>, grants: seq<Grant>, key: string) {
    || (exists i :: 0 <= i < |roles| && GivenByRole(roles[i], key))
    || (Grant(Allow, key) in grants && Grantable(key))
  }

  /** Allowed somewhere, denied nowhere, and known to the catalog: deny beats allow, and the default is no. */
  ghost predicate IsEffective(roles: seq<RoleInput>, grants: seq<Grant>, catalogKeys: set<string>, e: Effective) {
    && (forall key :: key in e.deny <==> key in catalogKeys && Grant(Deny, key) in grants)
    && (forall key :: key in e.allow <==> key in catalogKeys && key !in e.deny && Allowed(roles, grants, key))
  }

  method CompileEffectivePermissions(roles: seq<RoleInput>, grants: seq<Grant>, catalogKeys: set<string>)
      returns (e: Effective)
    ensures IsEffective(roles, grants, catalogKeys, e)
  {
    var allow, deny := {}, {};
    for i := 0 to |roles|
      invariant forall key ::
          key in allow
          <==> key in catalogKeys && exists j :: 0 <= j < i && GivenByRole(roles[j], key)
    {
      allow := allow + set key | key in roles[i].permissionKeys && key in catalogKeys && GivenByRole(roles[i], key);
    }
    ghost var byRole := allow;
    for i := 0 to |grants|
      invariant forall key :: key in deny <==> key in catalogKeys && Grant(Deny, key) in grants[..i]
      invariant forall key ::
          key in allow
          <==> key in byRole || (key in catalogKeys && Grant(Allow, key) in grants[..i] && Grantable(key))
    {
      var g := grants[i];
      if g.key in catalogKeys {
        if g.effect.Deny? {
          deny := deny + {g.key};
        } else if Grantable(g.key) {
          allow := allow + {g.key};
        }
      }
      assert grants[..i + 1] == grants[..i] + [g];
    }
    assert grants[..|grants|] == grants;
    e := Effective(allow - deny, deny);
  }

  /** The decorator pairs that stand for other catalog keys. */
  function Override(pair: string): seq<string> {
    if pair == "deals:move" then ["deals.stage:move"]
    else if pair == "documents:generate" then ["documents.generate:execute"]
    else if pair == "companies:reassign" then ["companies.owner:write"]
    else if pair == "access:simulate" then ["access:read"]
    else if pair == "companies:execute" then ["companies:write", "companies:delete"]
    else []
  }

  function OverrideOf(subject: string, action: string): seq<string> {
    var direct := Override(PermissionKey(subject, action));
    if direct != [] then direct else Override(PermissionKey(subject, NormalizeAction(action)))
  }

  function ResolveDecoratorPermission(subject: string, action: string, c: Catalog): Option<seq<string>> {
    var override := OverrideOf(subject, action);
    if override != [] then
      if forall k :: k in override ==> k in Keys(c) then Some(override) else None
    else
      var identity := PermissionKey(subject, NormalizeAction(action));
      if identity in Keys(c) then Some([identity]) else None
  }

  datatype Reason = OK | NotInAnyRole | DeniedByGrant | MappingMissing

  function DecideRbac(subject: string, action: string, e: Effective, c: Catalog): Reason {
    var keys := ResolveDecoratorPermission(subject, action, c);
    if keys.None? then MappingMissing
    else if exists k :: k in keys.value && k in e.deny then DeniedByGrant
    else if forall k :: k in keys.value ==> k in e.allow then OK
    else NotInAnyRole
  }

  // ---------------------------------------------------------------- what can never be granted

  ghost predicate Under(subject: string, prefix: string) {
    exists x: string :: subject == prefix + x
  }

  lemma StartsWithMeansUnder(subject: string, prefix: string)
    ensures StartsWith(subject, prefix) <==> Under(subject, prefix)
  {
    if StartsWith(subject, prefix) {
      assert subject == prefix + subject[|prefix|..];
    }
  }

  /** A module contributes permissions on itself and its parts only; the core contributes any. */
  lemma ContributesMeans(m: Manifest, p: Permission)
    ensures Contributes(m, p) <==> m.id == "core" || p.subject == m.id || Under(p.subject, m.id + ".")
  {
    StartsWithMeansUnder(p.subject, m.id + ".");
  }

  /** The subjects of accounts and organisations, and the management of billing, are beyond every project role. */
  ghost predicate BeyondProjects(subject: string, action: string) {
    || subject == "auth" || Under(subject, "auth.")
    || subject == "org" || Under(subject, "org.") || Under(subject, "org:")
    || (subject == "billing" && action == "manage")
  }

  lemma GrantableMeans(key: string)
    ensures Grantable(key) <==>
            exists subject: string, action: string ::
              subject != "" && action != "" && ':' !in action && key == subject + ":" + action &&
              !BeyondProjects(subject, action)
  {
    if Grantable(key) {
      var subject, action := PartsOfGrantable(key);
      GrantablePair(subject, action);
    }
    forall subject: string, action: string |
      subject != "" && action != "" && ':' !in action && key == subject + ":" + action
      ensures Grantable(key) <==> !BeyondProjects(subject, action)
    {
      GrantablePair(subject, action);
    }
  }

  lemma GrantablePair(subject: string, action: string)
    requires subject != "" && action != "" && ':' !in action
    ensures Grantable(subject + ":" + action) <==> !BeyondProjects(subject, action)
  {
    ParseKey(subject, action);
    StartsWithMeansUnder(subject, "auth.");
    StartsWithMeansUnder(subject, "org.");
    StartsWithMeansUnder(subject, "org:");
  }

  lemma PartsOfGrantable(key: string) returns (subject: string, action: string)
    requires Grantable(key)
    ensures subject != "" && action != "" && ':' !in action && key == subject + ":" + action
  {
    var i := Text.LastIndexOf(key, ':');
    subject, action := key[..i], key[i + 1..];
  }

  /** No roles and grants whatever give a key beyond projects. */
  lemma NeverBeyondProjects(roles: seq<RoleInput>, grants: seq<Grant>, catalogKeys: set<string>, e: Effective,
                            subject: string, action: string)
    requires IsEffective(roles, grants, catalogKeys, e) && ':' !in action && BeyondProjects(subject, action)
    ensures subject + ":" + action !in e.allow
  {
    var key := subject + ":" + action;
    GrantableMeans(key);
    ParseKey(subject, action);
    if Grantable(key) {
      var s, a :| s != "" && a != "" && ':' !in a && key == s + ":" + a && !BeyondProjects(s, a);
      KeyInjective(s, a, subject, action);
    }
  }

  /** A role bound to a module gives exactly its grantable keys of that module and its parts. */
  lemma ScopedRoleStaysInside(keys: set<string>, scope: string, catalogKeys: set<string>, e: Effective, subject: string,
                              action: string)
    requires IsEffective([RoleInput(keys, Some(scope))], [], catalogKeys, e) && scope != ""
    requires subject != "" && action != "" && ':' !in action
    ensures var key := subject + ":" + action;
            key in e.allow <==> key in catalogKeys && key in keys && Grantable(key)
                                && (subject == scope || Under(subject, scope + "."))
  {
    var role, key := RoleInput(keys, Some(scope)), subject + ":" + action;
    ParseKey(subject, action);
    StartsWithMeansUnder(subject, scope + ".");
    assert Allowed([role], [], key) <==> GivenByRole([role][0], key);
  }

  // ---------------------------------------------------------------- what decorators stand for

  /** The pairs with a meaning of their own; all others stand for themselves, with creating and updating as writing. */
  lemma DecoratorsStandFor(subject: string, action: string)
    requires ':' !in action
    ensures OverrideOf(subject, action) ==
            if subject == "deals" && action == "move" then ["deals.stage:move"]
            else if subject == "documents" && action == "generate" then ["documents.generate:execute"]
            else if subject == "companies" && action == "reassign" then ["companies.owner:write"]
            else if subject == "access" && action == "simulate" then ["access:read"]
            else if subject == "companies" && action == "execute" then ["companies:write", "companies:delete"]
            else []
  {
    OverridesByPair(subject, action);
    OverridesByPair(subject, NormalizeAction(action));
  }

  lemma OverridesByPair(subject: string, action: string)
    requires ':' !in action
    ensures Override(PermissionKey(subject, action)) ==
            if subject == "deals" && action == "move" then ["deals.stage:move"]
            else if subject == "documents" && action == "generate" then ["documents.generate:execute"]
            else if subject == "companies" && action == "reassign" then ["companies.owner:write"]
            else if subject == "access" && action == "simulate" then ["access:read"]
            else if subject == "companies" && action == "execute" then ["companies:write", "companies:delete"]
            else []
  {
    KeyText(subject, action, "deals", "move", "deals:move");
    KeyText(subject, action, "documents", "generate", "documents:generate");
    KeyText(subject, action, "companies", "reassign", "companies:reassign");
    KeyText(subject, action, "access", "simulate", "access:simulate");
    KeyText(subject, action, "companies", "execute", "companies:execute");
  }

  // ---------------------------------------------------------------- the two paths agree

  /** Actions are plain words of the vocabulary, so a key determines its pair. */
  ghost predicate CatalogOk(c: Catalog) {
    forall s, a :: Has(c, s, a) ==> ':' !in a
  }

  lemma KeysDeterminePairs(c: Catalog, subject: string, action: string)
    requires CatalogOk(c) && ':' !in action
    ensures PermissionKey(subject, action) in Keys(c) <==> Has(c, subject, action)
  {
    if PermissionKey(subject, action) in Keys(c) {
      var s, a :| s in c && a in c[s] && PermissionKey(s, a) == PermissionKey(subject, action);
      assert Has(c, s, a);
      KeyInjective(s, a, subject, action);
    }
  }

  lemma ExpandedMeans(role: Role, c: Catalog, subject: string, action: string)
    requires CatalogOk(c) && ':' !in action
    ensures PermissionKey(subject, action) in Expanded(role, c) && Grantable(PermissionKey(subject, action)) <==>
            && Has(c, subject, action) && Grantable(PermissionKey(subject, action))
            && ProjectRoleCanKey(role, subject, action) && !(LowRole(role) && Elevated(subject, action))
  {
    var key := PermissionKey(subject, action);
    KeysDeterminePairs(c, subject, action);
    ParseKey(subject, action);
    if key in AllowList(role) {
      AllowListIsNotElevated(role, subject, action);
    }
    var matrix := set s, a | s in c && a in c[s] && Emitted(role, c, s, a) :: PermissionKey(s, a);
    if key in matrix {
      var s, a :| s in c && a in c[s] && Emitted(role, c, s, a) && PermissionKey(s, a) == key;
      assert Has(c, s, a);
      KeyInjective(s, a, subject, action);
    }
    assert key in matrix <==> Emitted(role, c, subject, action);
  }

  lemma AllowListIsNotElevated(role: Role, subject: string, action: string)
    requires ':' !in action && PermissionKey(subject, action) in AllowList(role)
    ensures !(LowRole(role) && Elevated(subject, action))
  {
    if LowRole(role) {
      assert PermissionKey("documents.generate", "execute") == "documents.generate:execute";
      KeyInjective(subject, action, "documents.generate", "execute");
    }
  }

  /**
   * Lock-step: for a decorator pair without an override, deciding over the compiled expansion of a role allows it
   * exactly when the key is in the catalog, may be granted in a project, passes the matrix check, and is not an
   * elevated pair of a low role.
   */
  lemma ExpansionMatchesMatrix(role: Role, c: Catalog, subject: string, action: string, e: Effective)
    requires CatalogOk(c) && OverrideOf(subject, action) == [] && ':' !in NormalizeAction(action)
    requires IsEffective([RoleInput(Expanded(role, c), None)], [], Keys(c), e)
    ensures var a := NormalizeAction(action);
            DecideRbac(subject, action, e, c) == OK <==>
            && Has(c, subject, a) && Grantable(PermissionKey(subject, a))
            && ProjectRoleCanKey(role, subject, a) && !(LowRole(role) && Elevated(subject, a))
  {
    var a := NormalizeAction(action);
    var key := PermissionKey(subject, a);
    KeysDeterminePairs(c, subject, a);
    ExpandedMeans(role, c, subject, a);
    OneRole(Expanded(role, c), Keys(c), e, key);
    OneKeyDecided(c, e, subject, action, key);
  }

  lemma OneKeyDecided(c: Catalog, e: Effective, subject: string, action: string, key: string)
    requires OverrideOf(subject, action) == [] && key == PermissionKey(subject, NormalizeAction(action))
             && key !in e.deny
    ensures DecideRbac(subject, action, e, c) == OK <==> key in Keys(c) && key in e.allow
  {
    assert ResolveDecoratorPermission(subject, action, c) == if key in Keys(c) then Some([key]) else None;
    assert key in [key];
  }

  /**
   * So on grantable catalog keys the two paths differ in one place only: a member's export of the analytic subjects.
   */
  lemma OnlyAnalyticExportDiffers(role: Role, c: Catalog, subject: string, action: string, e: Effective)
    requires CatalogOk(c) && OverrideOf(subject, action) == [] && ':' !in NormalizeAction(action)
    requires Has(c, subject, NormalizeAction(action)) && Grantable(PermissionKey(subject, NormalizeAction(action)))
    requires IsEffective([RoleInput(Expanded(role, c), None)], [], Keys(c), e)
    ensures (DecideRbac(subject, action, e, c) == OK) != ProjectRoleCanKey(role, subject, NormalizeAction(action)) <==>
            role.Member? && action == "export" && (subject == "reports" || subject == "statistics")
  {
    var a := NormalizeAction(action);
    ExpansionMatchesMatrix(role, c, subject, action, e);
    ElevatedForLowRole(role, subject, a);
    assert a == "export" <==> action == "export";
  }

  /** Among the elevated pairs the matrix itself gives a low role only a member's analytic export. */
  lemma ElevatedForLowRole(role: Role, subject: string, action: string)
    requires ':' !in action
    ensures ProjectRoleCanKey(role, subject, action) && LowRole(role) && Elevated(subject, action) <==>
            role.Member? && action == "export" && (subject == "reports" || subject == "statistics")
  {
    if PermissionKey(subject, action) in AllowList(role) {
      AllowListIsNotElevated(role, subject, action);
    } else if role.Member? {
      assert PermissionKey("products", "write") == "products:write";
      assert action == "export" ==> action[0] == 'e';
      KeyInjective(subject, action, "products", "write");
    }
  }

  /**
   * With any roles and grants: a pair is allowed exactly when all keys it stands for are known, allowed somewhere and
   * denied nowhere.
   */
  lemma DecideExactlyWhen(subject: string, action: string, roles: seq<RoleInput>, grants: seq<Grant>, c: Catalog,
                          e: Effective)
    requires IsEffective(roles, grants, Keys(c), e)
    ensures DecideRbac(subject, action, e, c) == OK <==>
            && ResolveDecoratorPermission(subject, action, c).Some?
            && forall k :: k in ResolveDecoratorPermission(subject, action, c).value ==>
                             k in Keys(c) && Grant(Deny, k) !in grants && Allowed(roles, grants, k)
  {
    var keys := ResolveDecoratorPermission(subject, action, c);
    if keys.Some? {
      assert forall k :: k in keys.value ==> k in Keys(c);
    }
  }

  /** And the reason of a refusal: no such keys, a grant against one of them, or nobody gives one of them. */
  lemma RefusedBecause(subject: string, action: string, roles: seq<RoleInput>, grants: seq<Grant>, c: Catalog,
                       e: Effective)
    requires IsEffective(roles, grants, Keys(c), e)
    ensures var needed := if OverrideOf(subject, action) != [] then OverrideOf(subject, action)
                          else [PermissionKey(subject, NormalizeAction(action))];
            && (DecideRbac(subject, action, e, c) == MappingMissing <==> exists k :: k in needed && k !in Keys(c))
            && (DecideRbac(subject, action, e, c) == DeniedByGrant <==>
                  (forall k :: k in needed ==> k in Keys(c)) && exists k :: k in needed && Grant(Deny, k) in grants)
  {
    var identity := PermissionKey(subject, NormalizeAction(action));
    assert identity in [identity];
    assert forall k :: k in [identity] ==> k == identity;
  }

  /**
   * Merging companies is decided over two keys, and that reproduces the matrix row of `execute` for every system role.
   */
  lemma CompanyMergeFollowsExecute(role: Role, c: Catalog, e: Effective)
    requires CatalogOk(c) && Has(c, "companies", "write") && Has(c, "companies", "delete")
    requires IsEffective([RoleInput(Expanded(role, c), None)], [], Keys(c), e)
    ensures DecideRbac("companies", "execute", e, c) == OK <==> ProjectRoleCan(role, "execute")
  {
    var w, d := PermissionKey("companies", "write"), PermissionKey("companies", "delete");
    CompanyOverride();
    CompanyKey(role, c, e, "write");
    CompanyKey(role, c, e, "delete");
    TwoKeysDecided(c, e, w, d);
    ExecuteRow(role);
  }

  lemma CompanyOverride()
    ensures OverrideOf("companies", "execute")
            == [PermissionKey("companies", "write"), PermissionKey("companies", "delete")]
  {
    assert PermissionKey("companies", "write") == "companies:write"
           && PermissionKey("companies", "delete") == "companies:delete";
    assert PermissionKey("companies", "execute") == "companies:execute";
    assert "companies:execute"[10] == 'e' && "companies:reassign"[10] == 'r';
  }

  lemma TwoKeysDecided(c: Catalog, e: Effective, w: string, d: string)
    requires OverrideOf("companies", "execute") == [w, d] && w in Keys(c) && d in Keys(c) && w !in e.deny
             && d !in e.deny
    ensures DecideRbac("companies", "execute", e, c) == OK <==> w in e.allow && d in e.allow
  {
    TwoKeys(w, d, e);
    assert ResolveDecoratorPermission("companies", "execute", c) == Some([w, d]);
  }

  lemma ExecuteRow(role: Role)
    ensures ProjectRoleCan(role, "execute") <==>
            ProjectRoleCan(role, "write") && ProjectRoleCan(role, "delete")
            && !LowRole(role)
  {
  }

  lemma TwoKeys(k: string, l: string, e: Effective)
    ensures (forall x :: x in [k, l] ==> x in e.allow) <==> k in e.allow && l in e.allow
    ensures (exists x :: x in [k, l] && x in e.deny) <==> k in e.deny || l in e.deny
  {
    assert k in [k, l] && l in [k, l];
  }

  /** No list of exceptions mentions companies. */
  lemma CompaniesAreUnlisted(role: Role, key: string)
    requires key != "" && key[0] == 'c'
    ensures key !in AllowList(role) && key !in DenyList(role)
  {
  }

  lemma CompanyInCatalog(c: Catalog, action: string)
    requires CatalogOk(c) && Has(c, "companies", action) && (action == "write" || action == "delete")
    ensures var key := PermissionKey("companies", action);
            key in Keys(c) && Grantable(key) && key != ""
            && key[0] == 'c'
  {
    KeysDeterminePairs(c, "companies", action);
    ParseKey("companies", action);
    CompanyIsGrantable(PermissionKey("companies", action), action);
  }

  lemma CompanyIsGrantable(key: string, action: string)
    requires ParsePermissionKey(key) == Some(Parts("companies", action)) && (action == "write" || action == "delete")
    ensures Grantable(key)
  {
    assert "companies"[0] == 'c';
  }

  lemma CompanyExpanded(role: Role, c: Catalog, action: string)
    requires CatalogOk(c) && Has(c, "companies", action) && (action == "write" || action == "delete")
    ensures PermissionKey("companies", action) in Expanded(role, c)
            <==> ProjectRoleCan(role, action) && !(LowRole(role) && action == "delete")
  {
    CompanyInCatalog(c, action);
    ExpandedMeans(role, c, "companies", action);
    CompaniesAreUnlisted(role, PermissionKey("companies", action));
    assert ':' !in action;
  }

  lemma CompanyKey(role: Role, c: Catalog, e: Effective, action: string)
    requires CatalogOk(c) && Has(c, "companies", action) && (action == "write" || action == "delete")
    requires IsEffective([RoleInput(Expanded(role, c), None)], [], Keys(c), e)
    ensures var key := PermissionKey("companies", action);
            key in Keys(c) && key !in e.deny
            && (key in e.allow <==> ProjectRoleCan(role, action) && !(LowRole(role) && action == "delete"))
  {
    CompanyExpanded(role, c, action);
    CompanyInCatalog(c, action);
    OneRole(Expanded(role, c), Keys(c), e, PermissionKey("companies", action));
  }

  lemma OneRole(keys: set<string>, catalogKeys: set<string>, e: Effective, key: string)
    requires IsEffective([RoleInput(keys, None)], [], catalogKeys, e)
    ensures key !in e.deny && (key in e.allow <==> key in catalogKeys && key in keys && Grantable(key))
  {
    var roles := [RoleInput(keys, None)];
    assert Allowed(roles, [], key) <==> GivenByRole(roles[0], key);
  }
}
