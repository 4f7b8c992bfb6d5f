/**
 * Record visibility (shared/src/rbac.ts:763-958): the scope compiled to a Mongo filter, and the check of a
 * single record that is meant to say the same.
 */
module Visibility {
  import opened Wrappers
  import Text

  // ---------------------------------------------------------------- the fragment of Mongo that is used

  datatype Value = Null | Str(s: string) | Other(n: int)

  /** A document with scalar fields. */
  type Doc = map<string, Value>

  datatype Cond = In(values: seq<Value>) | Equals(v: Value) | Exists(b: bool)

  /** A filter object: conditions by field (`{}` has none), or one logical operator. */
  datatype Filter =
    Fields(conds: map<string, Cond>) | AnyOf(fs: seq<Filter>) | AllOf(fs: seq<Filter>) | NoneOf(fs: seq<Filter>)

  /** Comparisons see a missing field as null. */
  function Get(doc: Doc, field: string): Value {
    if field in doc then doc[field] else Null
  }

  predicate Meets(doc: Doc, field: string, c: Cond) {
    match c
    case In(values) => Get(doc, field) in values
    case Equals(v) => Get(doc, field) == v
    case Exists(b) => (field in doc) == b
  }

  predicate Eval(f: Filter, doc: Doc) {
    match f
    case Fields(conds) => forall field :: field in conds ==> Meets(doc, field, conds[field])
    case AnyOf(fs) => exists i :: 0 <= i < |fs| && Eval(fs[i], doc)
    case AllOf(fs) => forall i :: 0 <= i < |fs| ==> Eval(fs[i], doc)
    case NoneOf(fs) => forall i :: 0 <= i < |fs| ==> !Eval(fs[i], doc)
  }

  /** `null` means no narrowing. */
  predicate Matches(f: Option<Filter>, doc: Doc) {
    f.Some? ==> Eval(f.value, doc)
  }

  const DENY_ALL := NoneOf([Fields(map[])])

  lemma DenyAllMatchesNothing(doc: Doc)
    ensures !Eval(DENY_ALL, doc)
  {
    assert Eval(DENY_ALL.fs[0], doc);
  }

  // ---------------------------------------------------------------- scopes

  datatype Mode = All | Restricted

  datatype Scope = Scope(mode: Mode, ownerIds: seq<string>, sharedRecordIds: seq<string>,
                         sharedByType: seq<(string, seq<string>)>, deferred: bool, unitIds: Option<seq<string>>,
                         viewerUnitIds: Option<seq<string>>, viewerDepartmentIds: Option<seq<string>>,
                         departmentIds: Option<seq<string>>)

  /** The scope was resolved and narrows: neither absent, nor mode `all`, nor waiting for hydration. */
  predicate Narrows(scope: Option<Scope>) {
    scope.Some? && scope.value.mode.Restricted? && !scope.value.deferred
  }

  predicate SeesAll(scope: Option<Scope>) {
    scope.Some? && scope.value.mode.All?
  }

  function Strs(ids: seq<string>): (vs: seq<Value>)
    ensures |vs| == |ids|
    ensures forall v :: v in vs <==> v.Str? && v.s in ids
  {
    if ids == [] then [] else [Str(ids[0])] + Strs(ids[1..])
  }

  function NonEmpty(ids: seq<string>): (r: seq<string>)
    ensures forall id :: id in r <==> id in ids && id != ""
  {
    if ids == [] then [] else (if ids[0] != "" then [ids[0]] else []) + NonEmpty(ids[1..])
  }

  function Only(field: string, c: Cond): Filter {
    Fields(map[field := c])
  }

  lemma OnlyMeans(field: string, c: Cond, doc: Doc)
    ensures Eval(Only(field, c), doc) <==> Meets(doc, field, c)
  {
    assert field in Only(field, c).conds;
  }

  function OneOrAny(or: seq<Filter>): Filter {
    if |or| == 1 then or[0] else AnyOf(or)
  }

  predicate Any(or: seq<Filter>, doc: Doc) {
    exists i :: 0 <= i < |or| && Eval(or[i], doc)
  }

  lemma OneOrAnyMeans(or: seq<Filter>, doc: Doc)
    ensures Eval(OneOrAny(or), doc) <==> Any(or, doc)
  {
  }

  lemma AnySnoc(or: seq<Filter>, f: Filter, doc: Doc)
    ensures Any(or + [f], doc) <==> Any(or, doc) || Eval(f, doc)
  {
    if Any(or, doc) {
      var i :| 0 <= i < |or| && Eval(or[i], doc);
      assert (or + [f])[i] == or[i];
    }
    assert (or + [f])[|or|] == f;
  }

  predicate Given(field: Option<string>) {
    field.Some? && field.value != ""
  }

  // ---------------------------------------------------------------- owner or department, shares

  /** What `buildVisibilityFilter` compiles to. */
  function VisibilityFilter(scope: Option<Scope>, ownerField: string, sharedIds: seq<Value>,
                            departmentField: Option<string>): Option<Filter> {
    if SeesAll(scope) then None
    else if !Narrows(scope) then Some(DENY_ALL)
    else
      var depts := NonEmpty(scope.value.departmentIds.GetOr([]));
      Some(OneOrAny([Only(ownerField, In(Strs(scope.value.ownerIds)))]
                    + (if Given(departmentField) && depts != [] then [Only(departmentField.value, In(Strs(depts)))]
                        else [])
                    + (if sharedIds != [] then [Only("_id", In(sharedIds))] else [])))
  }

  method BuildVisibilityFilter(scope: Option<Scope>, ownerField: string, sharedIds: seq<Value>,
                               departmentField: Option<string>)
    returns (f: Option<Filter>)
    ensures f == VisibilityFilter(scope, ownerField, sharedIds, departmentField)
  {
    if scope.None? {
      return Some(DENY_ALL);
    }
    if scope.value.mode.All? {
      return None;
    }
    if scope.value.deferred {
      return Some(DENY_ALL);
    }
    var or := [Only(ownerField, In(Strs(scope.value.ownerIds)))];
    var depts := NonEmpty(scope.value.departmentIds.GetOr([]));
    if Given(departmentField) && |depts| > 0 {
      or := or + [Only(departmentField.value, In(Strs(depts)))];
    }
    assert or == or + [];
    if |sharedIds| > 0 {
      or := or + [Only("_id", In(sharedIds))];
    }
    assert or == or + [];
    return Some(OneOrAny(or));
  }

  function IsRecordVisible(scope: Option<Scope>, ownerId: Value, isShared: bool, departmentId: Option<string>): bool {
    if SeesAll(scope) then true
    else if !Narrows(scope) then false
    else
      || isShared
      || (ownerId.Str? && ownerId.s in scope.value.ownerIds)
      || (var dept := Text.Trim(departmentId.GetOr(""));
          dept != "" && dept in scope.value.departmentIds.GetOr([]))
  }

  lemma VisibilityFilterMeans(scope: Option<Scope>, ownerField: string, sharedIds: seq<Value>,
                              departmentField: Option<string>, doc: Doc)
    ensures Matches(VisibilityFilter(scope, ownerField, sharedIds, departmentField), doc) <==>
            scope.Some? &&
            (|| scope.value.mode == All
             || (!scope.value.deferred &&
                 (var owner := Get(doc, ownerField);
                  || (owner.Str? && owner.s in scope.value.ownerIds)
                  || (departmentField.Some? && departmentField.value != "" && scope.value.departmentIds.Some? &&
                      var dept := Get(doc, departmentField.value);
                      dept.Str? && dept.s != "" && dept.s in scope.value.departmentIds.value)
                  || Get(doc, "_id") in sharedIds)))
  {
    if Narrows(scope) {
      var depts := NonEmpty(scope.value.departmentIds.GetOr([]));
      var own := [Only(ownerField, In(Strs(scope.value.ownerIds)))];
      var dept := if Given(departmentField) && depts != [] then [Only(departmentField.value, In(Strs(depts)))] else [];
      var shared := if sharedIds != [] then [Only("_id", In(sharedIds))] else [];
      OneOrAnyMeans(own + dept + shared, doc);
      OnlyMeans(ownerField, In(Strs(scope.value.ownerIds)), doc);
      OnlyMeans("_id", In(sharedIds), doc);
      AnySnoc([], own[0], doc);
      assert [] + [own[0]] == own;
      if dept != [] {
        OnlyMeans(departmentField.value, In(Strs(depts)), doc);
        AnySnoc(own, dept[0], doc);
        assert own + [dept[0]] == own + dept;
      } else {
        assert own + dept == own;
      }
      if shared != [] {
        AnySnoc(own + dept, shared[0], doc);
        assert own + dept + [shared[0]] == own + dept + shared;
      } else {
        assert own + dept + shared == own + dept;
      }
    } else {
      DenyAllMatchesNothing(doc);
    }
  }

  function TextOf(v: Value): Option<string> {
    if v.Str? then Some(v.s) else None
  }

  /** List and single-record check agree on every document whose department is stored trimmed. */
  lemma ListAgreesWithRecord(scope: Option<Scope>, ownerField: string, sharedIds: seq<Value>, departmentField: string,
                             doc: Doc)
    requires departmentField != "" && (Get(doc, departmentField).Str? ==> Text.Trimmed(Get(doc, departmentField).s))
    ensures Matches(VisibilityFilter(scope, ownerField, sharedIds, Some(departmentField)), doc) <==>
            IsRecordVisible(scope, Get(doc, ownerField), Get(doc, "_id") in sharedIds,
                            TextOf(Get(doc, departmentField)))
  {
    VisibilityFilterMeans(scope, ownerField, sharedIds, Some(departmentField), doc);
    Text.TrimFacts(TextOf(Get(doc, departmentField)).GetOr(""));
  }

  ghost predicate AgreeOnDepartment(d: string, ownerField: string, sharedIds: seq<Value>, departmentField: string) {
    forall scope: Option<Scope>, doc: Doc
      {:trigger VisibilityFilter(scope, ownerField, sharedIds, Some(departmentField)), Get(doc, departmentField)} ::
      Get(doc, departmentField) == Str(d) ==>
        (Matches(VisibilityFilter(scope, ownerField, sharedIds, Some(departmentField)), doc) <==>
         IsRecordVisible(scope, Get(doc, ownerField), Get(doc, "_id") in sharedIds, Some(d)))
  }

  /** And being trimmed is exactly the condition: for any other department name some scope tells the two apart. */
  lemma AgreeIffTrimmed(d: string, ownerField: string, sharedIds: seq<Value>, departmentField: string)
    requires departmentField != "" && departmentField != "_id" && Null !in sharedIds
    ensures AgreeOnDepartment(d, ownerField, sharedIds, departmentField) <==> Text.Trimmed(d)
  {
    Text.TrimFacts(d);
    if Text.Trimmed(d) {
      forall scope: Option<Scope>, doc: Doc | Get(doc, departmentField) == Str(d)
        ensures Matches(VisibilityFilter(scope, ownerField, sharedIds, Some(departmentField)), doc) <==>
                IsRecordVisible(scope, Get(doc, ownerField), Get(doc, "_id") in sharedIds, Some(d))
      {
        ListAgreesWithRecord(scope, ownerField, sharedIds, departmentField, doc);
      }
    } else {
      var scope := Some(Scope(Restricted, [], [], [], false, None, None, None, Some([d])));
      var doc: Doc := map[departmentField := Str(d)];
      VisibilityFilterMeans(scope, ownerField, sharedIds, Some(departmentField), doc);
      assert Get(doc, departmentField) == Str(d);
      assert Matches(VisibilityFilter(scope, ownerField, sharedIds, Some(departmentField)), doc);
      assert !IsRecordVisible(scope, Get(doc, ownerField), Get(doc, "_id") in sharedIds, Some(d));
    }
  }

  // ---------------------------------------------------------------- owner XOR department

  function NoOwner(ownerField: string): Filter {
    AnyOf([Only(ownerField, Equals(Null)), Only(ownerField, Equals(Str(""))), Only(ownerField, Exists(false))])
  }

  /** What `buildOwnableVisibilityFilter` compiles to. */
  function OwnableFilter(scope: Option<Scope>, ownerField: string, departmentField: Option<string>,
                         sharedIds: seq<Value>): Option<Filter> {
    if SeesAll(scope) then None
    else if !Narrows(scope) then Some(DENY_ALL)
    else
      var depts := NonEmpty(scope.value.viewerDepartmentIds.GetOr([]));
      Some(OneOrAny([Only(ownerField, In(Strs(scope.value.ownerIds)))]
                    + (if sharedIds != [] then [Only("_id", In(sharedIds))] else [])
                    + (if Given(departmentField) && depts != []
                       then [AllOf([Only(departmentField.value, In(Strs(depts))), NoOwner(ownerField)])] else [])))
  }

  method BuildOwnableVisibilityFilter(scope: Option<Scope>, ownerField: string, departmentField: Option<string>,
                                      sharedIds: seq<Value>)
    returns (f: Option<Filter>)
    ensures f == OwnableFilter(scope, ownerField, departmentField, sharedIds)
  {
    if scope.None? {
      return Some(DENY_ALL);
    }
    if scope.value.mode.All? {
      return None;
    }
    if scope.value.deferred {
      return Some(DENY_ALL);
    }
    var or := [Only(ownerField, In(Strs(scope.value.ownerIds)))];
    if |sharedIds| > 0 {
      or := or + [Only("_id", In(sharedIds))];
    }
    assert or == or + [];
    var depts := NonEmpty(scope.value.viewerDepartmentIds.GetOr([]));
    if Given(departmentField) && |depts| > 0 {
      or := or + [AllOf([Only(departmentField.value, In(Strs(depts))), NoOwner(ownerField)])];
    }
    assert or == or + [];
    return Some(OneOrAny(or));
  }

  predicate Blank(v: Value) {
    v.Null? || v == Str("")
  }

  function IsOwnableRecordVisible(scope: Option<Scope>, ownerId: Value, departmentId: Value, isShared: bool): bool {
    if SeesAll(scope) then true
    else if !Narrows(scope) then false
    else
      || isShared
      || (ownerId.Str? && ownerId.s != "" && ownerId.s in scope.value.ownerIds)
      || (!Blank(departmentId) && Blank(ownerId) && departmentId.Str?
         && departmentId.s in scope.value.viewerDepartmentIds.GetOr([]))
  }

  lemma NoOwnerMeans(ownerField: string, doc: Doc)
    ensures Eval(NoOwner(ownerField), doc) <==> Blank(Get(doc, ownerField))
  {
    OnlyMeans(ownerField, Equals(Null), doc);
    OnlyMeans(ownerField, Equals(Str("")), doc);
    OnlyMeans(ownerField, Exists(false), doc);
    assert Any(NoOwner(ownerField).fs, doc) <==> Eval(NoOwner(ownerField), doc);
    var fs := NoOwner(ownerField).fs;
    assert fs[0] == Only(ownerField, Equals(Null)) && fs[1] == Only(ownerField, Equals(Str("")))
           && fs[2] == Only(ownerField, Exists(false));
  }

  lemma OwnableFilterMeans(scope: Option<Scope>, ownerField: string, departmentField: Option<string>,
                           sharedIds: seq<Value>, doc: Doc)
    ensures Matches(OwnableFilter(scope, ownerField, departmentField, sharedIds), doc) <==>
            scope.Some? &&
            (|| scope.value.mode == All
             || (!scope.value.deferred &&
                 (var owner := Get(doc, ownerField);
                  || (owner.Str? && owner.s in scope.value.ownerIds)
                  || Get(doc, "_id") in sharedIds
                  || (departmentField.Some? && departmentField.value != "" && scope.value.viewerDepartmentIds.Some? &&
                      (owner == Null || owner == Str("")) && var dept := Get(doc, departmentField.value);
                      dept.Str? && dept.s != "" && dept.s in scope.value.viewerDepartmentIds.value))))
  {
    if Narrows(scope) {
      var depts := NonEmpty(scope.value.viewerDepartmentIds.GetOr([]));
      var own := [Only(ownerField, In(Strs(scope.value.ownerIds)))];
      var shared := if sharedIds != [] then [Only("_id", In(sharedIds))] else [];
      var dept := if Given(departmentField) && depts != []
                  then [AllOf([Only(departmentField.value, In(Strs(depts))), NoOwner(ownerField)])] else [];
      OneOrAnyMeans(own + shared + dept, doc);
      OnlyMeans(ownerField, In(Strs(scope.value.ownerIds)), doc);
      OnlyMeans("_id", In(sharedIds), doc);
      AnySnoc([], own[0], doc);
      assert [] + [own[0]] == own;
      if shared != [] {
        AnySnoc(own, shared[0], doc);
        assert own + [shared[0]] == own + shared;
      } else {
        assert own + shared == own;
      }
      if dept != [] {
        OnlyMeans(departmentField.value, In(Strs(depts)), doc);
        NoOwnerMeans(ownerField, doc);
        assert dept[0].fs[0] == Only(departmentField.value, In(Strs(depts))) && dept[0].fs[1] == NoOwner(ownerField);
        AnySnoc(own + shared, dept[0], doc);
        assert own + shared + [dept[0]] == own + shared + dept;
      } else {
        assert own + shared + dept == own + shared;
      }
    } else {
      DenyAllMatchesNothing(doc);
    }
  }

  ghost predicate AgreeOnOwnable(scope: Option<Scope>, ownerField: string, departmentField: string,
                                 sharedIds: seq<Value>) {
    forall doc: Doc :: Matches(OwnableFilter(scope, ownerField, Some(departmentField), sharedIds), doc) <==>
                       IsOwnableRecordVisible(scope, Get(doc, ownerField), Get(doc, departmentField),
                                              Get(doc, "_id") in sharedIds)
  }

  /** The ownable pair agrees on all documents exactly when the scope does not list the empty owner id. */
  lemma OwnableAgreesIffNoEmptyOwner(scope: Option<Scope>, ownerField: string, departmentField: string,
                                     sharedIds: seq<Value>)
    requires departmentField != "" && ownerField != "_id" && Null !in sharedIds
    ensures AgreeOnOwnable(scope, ownerField, departmentField, sharedIds)
            <==> !(Narrows(scope) && "" in scope.value.ownerIds)
  {
    if Narrows(scope) && "" in scope.value.ownerIds {
      var doc: Doc := map[ownerField := Str("")];
      OwnableFilterMeans(scope, ownerField, Some(departmentField), sharedIds, doc);
      assert Matches(OwnableFilter(scope, ownerField, Some(departmentField), sharedIds), doc);
      assert !IsOwnableRecordVisible(scope, Get(doc, ownerField), Get(doc, departmentField),
                                     Get(doc, "_id") in sharedIds);
    } else {
      forall doc: Doc
        ensures Matches(OwnableFilter(scope, ownerField, Some(departmentField), sharedIds), doc) <==>
                IsOwnableRecordVisible(scope, Get(doc, ownerField), Get(doc, departmentField),
                                       Get(doc, "_id") in sharedIds)
      {
        OwnableFilterMeans(scope, ownerField, Some(departmentField), sharedIds, doc);
      }
    }
  }

  // ---------------------------------------------------------------- the cross-entity store

  /** With one name for both fields the condition on the id is the one that stays in the filter object. */
  predicate SharesRow(entry: (string, seq<string>), doc: Doc, typeField: string, idField: string) {
    && entry.0 != "" && (typeField != idField ==> Get(doc, typeField) == Str(entry.0))
    && var id := Get(doc, idField);
    id.Str? && id.s in entry.1
  }

  function Distinct(ids: seq<string>): (r: seq<string>)
    ensures forall id :: id in r <==> id in ids
    ensures r == [] <==> ids == []
  {
    if ids == [] then []
    else
      var n := |ids| - 1;
      var front := Distinct(ids[..n]);
      if ids[n] in front then front else front + [ids[n]]
  }

  /** The filter over the search index lets through exactly owner-visible rows and rows shared by type and id. */
  method BuildCrossEntityVisibilityFilter(scope: Option<Scope>, ownerField: string, typeField: string, idField: string)
    returns (f: Option<Filter>)
    ensures f.None? <==> scope.Some? && scope.value.mode == All
    ensures forall doc: Doc ::
              Matches(f, doc) <==>
              scope.Some? &&
              (|| scope.value.mode == All
               || (!scope.value.deferred &&
                   (var owner, row, shares := Get(doc, ownerField), Get(doc, idField), scope.value.sharedByType;
                    || (owner.Str? && owner.s in scope.value.ownerIds)
                    || exists k :: 0 <= k < |shares| && shares[k].0 != "" && row.Str? && row.s in shares[k].1 &&
                                   (typeField == idField || Get(doc, typeField) == Str(shares[k].0)))))
  {
    f := BuildVisibilityFilter(scope, ownerField, [], None);
    forall doc: Doc
      ensures Matches(f, doc) <==>
              SeesAll(scope)
              || (Narrows(scope) && var owner := Get(doc, ownerField); owner.Str? && owner.s in scope.value.ownerIds)
    {
      VisibilityFilterMeans(scope, ownerField, [], None, doc);
    }
    if f.None? || f.value.NoneOf? {
      return;
    }
    var or := [f.value];
    var shares := scope.value.sharedByType;
    for k := 0 to |shares|
      invariant forall doc: Doc ::
          Any(or, doc) <==>
          || (var owner := Get(doc, ownerField); owner.Str? && owner.s in scope.value.ownerIds)
          || exists j :: 0 <= j < k && SharesRow(shares[j], doc, typeField, idField)
    {
      var (typ, ids) := shares[k];
      var unique := Distinct(ids);
      if typ != "" && |unique| > 0 {
        var row := Fields(map[typeField := Equals(Str(typ))][idField := In(Strs(unique))]);
        forall doc: Doc
          ensures Any(or + [row], doc) <==> Any(or, doc) || SharesRow(shares[k], doc, typeField, idField)
        {
          AnySnoc(or, row, doc);
          assert idField in row.conds && (typeField != idField ==> row.conds[typeField] == Equals(Str(typ)));
          assert forall field :: field in row.conds ==> field == typeField || field == idField;
        }
        or := or + [row];
      }
    }
    ghost var out := or;
    f := Some(OneOrAny(or));
    forall doc: Doc
      ensures Matches(f, doc) <==> Any(out, doc)
    {
      OneOrAnyMeans(out, doc);
    }
  }

  // ---------------------------------------------------------------- deferred scopes

  datatype Resolved = Resolved(ownerIds: seq<string>, sharedRecordIds: seq<string>, departmentIds: Option<seq<string>>)

  function Hydrate(scope: Scope, resolved: Resolved): Scope {
    if !scope.deferred then scope
    else
      var depts := resolved.departmentIds.GetOr([]);
      scope.(deferred := false, unitIds := None,
             ownerIds := resolved.ownerIds, sharedRecordIds := resolved.sharedRecordIds,
             viewerUnitIds := Some(scope.unitIds.GetOr(scope.viewerUnitIds.GetOr([]))),
             viewerDepartmentIds :=
               Some(scope.unitIds.GetOr(scope.viewerDepartmentIds.GetOr(scope.viewerUnitIds.GetOr([])))),
             departmentIds := if depts != [] then Some(depts) else scope.departmentIds)
  }

  /** Hydrating changes the lists, and the units they go by; an empty department list keeps what was there. */
  lemma HydrateMeans(scope: Scope, resolved: Resolved)
    ensures !scope.deferred ==> Hydrate(scope, resolved) == scope
    ensures scope.deferred ==>
              var units := if scope.unitIds.Some? then scope.unitIds.value
                           else if scope.viewerUnitIds.Some? then scope.viewerUnitIds.value else [];
              var h := Hydrate(scope, resolved);
              && !h.deferred && h.mode == scope.mode && h.sharedByType == scope.sharedByType && h.unitIds.None?
              && h.ownerIds == resolved.ownerIds && h.sharedRecordIds == resolved.sharedRecordIds
              && h.viewerUnitIds == Some(units)
              && h.viewerDepartmentIds == Some(if scope.unitIds.None? && scope.viewerDepartmentIds.Some?
                                               then scope.viewerDepartmentIds.value else units)
              && h.departmentIds == (if resolved.departmentIds in {None, Some([])} then scope.departmentIds
                                     else resolved.departmentIds)
  {
  }

  /** What control works out for a viewer (control/src/organizations/visibility-resolver.service.ts:96-276). */
  datatype Expansion = Expansion(ownerIds: seq<string>, sharedRecordIds: seq<string>, viewerUnitIds: seq<string>,
                                 departmentIds: seq<string>)

  /** The scope it hands out: inline, or, when the lists are too long, emptied lists and the viewer's units as seeds. */
  function Issued(x: Expansion, maxInlineIds: int, inline: bool, sharedByType: seq<(string, seq<string>)>): Scope {
    if !inline && |x.ownerIds| + |x.sharedRecordIds| > maxInlineIds
    then Scope(Restricted, [], [], sharedByType, true, Some(x.viewerUnitIds), Some(x.viewerUnitIds),
               Some(x.viewerUnitIds), Some([]))
    else Scope(Restricted, x.ownerIds, x.sharedRecordIds, sharedByType, false, None, Some(x.viewerUnitIds),
               Some(x.viewerUnitIds), Some(x.departmentIds))
  }

  /** A scope is deferred exactly when its lists exceed the limit and nobody asked for them inline; then it has none. */
  lemma DeferredExactlyWhen(x: Expansion, maxInlineIds: int, inline: bool, sharedByType: seq<(string, seq<string>)>)
    ensures var s := Issued(x, maxInlineIds, inline, sharedByType);
            && (s.deferred <==> !inline && |x.ownerIds| + |x.sharedRecordIds| > maxInlineIds)
            && s.sharedByType == sharedByType && s.viewerUnitIds == s.viewerDepartmentIds == Some(x.viewerUnitIds)
            && (s.deferred ==> s.ownerIds == [] && s.sharedRecordIds == [] && s.departmentIds == Some([])
                               && s.unitIds == Some(x.viewerUnitIds))
            && (!s.deferred ==> s.ownerIds == x.ownerIds && s.sharedRecordIds == x.sharedRecordIds
                                && s.departmentIds == Some(x.departmentIds) && s.unitIds.None?)
  {
  }

  /** An absent scope and a deferred one that nobody hydrated match nothing, in lists and for single records. */
  lemma UnresolvedMatchesNothing(scope: Option<Scope>, ownerField: string, departmentField: Option<string>,
                                 sharedIds: seq<Value>,
                                 doc: Doc, owner: Value, dept: Value, shared: bool)
    requires scope.None? || (scope.value.mode.Restricted? && scope.value.deferred)
    ensures !Matches(VisibilityFilter(scope, ownerField, sharedIds, departmentField), doc)
    ensures !Matches(OwnableFilter(scope, ownerField, departmentField, sharedIds), doc)
    ensures !IsRecordVisible(scope, owner, shared, TextOf(dept)) && !IsOwnableRecordVisible(scope, owner, dept, shared)
  {
    DenyAllMatchesNothing(doc);
  }

  /**
   * Whatever the limit, hydrating the scope control issued with the lists it resolves inline gives the inline scope
   * itself, so deferring changes no filter and no single-record check.
   */
  lemma HydrationRestoresTheScope(x: Expansion, maxInlineIds: int, sharedByType: seq<(string, seq<string>)>)
    ensures var full := Issued(x, maxInlineIds, true, sharedByType);
            && Hydrate(Issued(x, maxInlineIds, false, sharedByType),
                       Resolved(full.ownerIds, full.sharedRecordIds, full.departmentIds)) == full
            && full.mode.Restricted? && !full.deferred && full.ownerIds == x.ownerIds
               && full.departmentIds == Some(x.departmentIds)
  {
  }
}
