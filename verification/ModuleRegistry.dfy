/** Normalising a project's module configurations (shared/src/module-registry.ts:478-581). */
module ModuleRegistry {
  import opened Wrappers
  import opened ModuleGraph
  import Schema = SettingsSchema

  datatype RuntimeStatus = Active | Suspended

  datatype ConfigState = Ready | NeedsConfig

  datatype Config = Config(moduleId: Id, enabled: bool, installed: Option<bool>, version: Option<string>,
                           runtimeStatus: Option<RuntimeStatus>, everSuspended: Option<bool>,
                           configState: Option<ConfigState>,
                           personal: seq<Schema.Field>, integration: seq<Schema.Field>, methods: seq<string>)

  /** One element of the raw list: a field is `None` when it is absent or has the wrong type. */
  datatype Raw =
    | Junk
    | Rec(moduleId: Option<Id>, enabled: Option<bool>, installed: Option<bool>, version: Option<string>,
          runtimeStatus: Option<RuntimeStatus>, everSuspended: Option<bool>, configState: Option<ConfigState>,
          personal: Option<seq<Schema.Field>>, integration: Option<seq<Schema.Field>>, methods: Option<seq<string>>)

  function Or<T>(a: Option<T>, b: Option<T>): Option<T> {
    if a.Some? then a else b
  }

  function Default(id: Id): Config {
    Config(id, true, Some(true), None, None, None, None, [], [], [])
  }

  function Allowed(methods: seq<string>, allowed: seq<string>): seq<string> {
    if methods == [] then []
    else (if methods[0] in allowed then [methods[0]] else []) + Allowed(methods[1..], allowed)
  }

  function Sanitize(fields: seq<Schema.Field>, schema: seq<Schema.Field>): seq<Schema.Field> {
    Schema.Validated(Some(Schema.Obj(fields)), schema).value
  }

  /** The entry a raw record makes of the one before it. */
  function Merged(def: Def, id: Id, prev: Option<Config>, r: Raw): Config
    requires r.Rec?
  {
    var was := prev.GetOr(Default(id).(enabled := false, installed := None));
    var enabled := r.enabled.GetOr(was.enabled);
    Config(id, enabled, Some(Or(r.installed, was.installed).GetOr(enabled)), Or(r.version, was.version),
           Or(r.runtimeStatus, was.runtimeStatus), Or(r.everSuspended, was.everSuspended),
               Or(r.configState, was.configState),
           Sanitize(r.personal.GetOr(was.personal), def.personalSchema),
           Sanitize(r.integration.GetOr(was.integration), def.integrationSchema),
           if r.methods.Some? then Allowed(r.methods.value, def.methods) else was.methods)
  }

  function IndexOf(entries: seq<Config>, id: Id): (i: nat)
    ensures i <= |entries| && (i < |entries| ==> entries[i].moduleId == id)
    ensures i == |entries| <==> forall k :: 0 <= k < |entries| ==> entries[k].moduleId != id
  {
    if entries == [] || entries[0].moduleId == id then 0 else 1 + IndexOf(entries[1..], id)
  }

  function Find(entries: seq<Config>, id: Id): Option<Config> {
    var i := IndexOf(entries, id);
    if i < |entries| then Some(entries[i]) else None
  }

  /** `Map.set`: an existing key keeps its place. */
  function Put(entries: seq<Config>, cfg: Config): seq<Config> {
    var i := IndexOf(entries, cfg.moduleId);
    if i < |entries| then entries[i := cfg] else entries + [cfg]
  }

  function MergeOne(reg: Registry, entries: seq<Config>, r: Raw): seq<Config> {
    if r.Junk? || r.moduleId.None? || r.moduleId.value !in reg.defs then entries
    else
      var id := r.moduleId.value;
      Put(entries, Merged(reg.defs[id], id, Find(entries, id), r))
  }

  function MergeAll(reg: Registry, entries: seq<Config>, raws: seq<Raw>): seq<Config>
    decreases |raws|
  {
    if raws == [] then entries else MergeAll(reg, MergeOne(reg, entries, raws[0]), raws[1..])
  }

  function Defaults(resolved: seq<Id>): seq<Config> {
    seq(|resolved|, i requires 0 <= i < |resolved| => Default(resolved[i]))
  }

  ghost predicate Unique(entries: seq<Config>) {
    forall i, j :: 0 <= i < j < |entries| ==> entries[i].moduleId != entries[j].moduleId
  }

  function Ids(entries: seq<Config>): set<Id> {
    set i | 0 <= i < |entries| :: entries[i].moduleId
  }

  function EnabledIds(entries: seq<Config>): set<Id> {
    set i | 0 <= i < |entries| && entries[i].enabled :: entries[i].moduleId
  }

  function DisabledIds(entries: seq<Config>): set<Id> {
    set i | 0 <= i < |entries| && !entries[i].enabled :: entries[i].moduleId
  }

  /** Entries of distinct modules are found by their module, and nothing else is. */
  lemma FindMeans(entries: seq<Config>, id: Id, c: Config)
    requires Unique(entries)
    ensures Find(entries, id) == Some(c) <==> c in entries && c.moduleId == id
  {
    if c in entries && c.moduleId == id {
      var k :| 0 <= k < |entries| && entries[k] == c;
      assert IndexOf(entries, id) == k;
    }
  }

  lemma PutFacts(entries: seq<Config>, cfg: Config)
    requires Unique(entries)
    ensures Unique(Put(entries, cfg)) && Ids(Put(entries, cfg)) == Ids(entries) + {cfg.moduleId}
    ensures cfg in Put(entries, cfg)
    ensures forall c ::
            c in Put(entries, cfg) && c.moduleId != cfg.moduleId
            <==> c in entries && c.moduleId != cfg.moduleId
    ensures forall c :: c in Put(entries, cfg) && c.moduleId == cfg.moduleId ==> c == cfg
  {
    var i, out := IndexOf(entries, cfg.moduleId), Put(entries, cfg);
    assert out[i] == cfg;
    assert forall k :: 0 <= k < |entries| && k != i ==> out[k] == entries[k];
    assert forall id :: id in Ids(entries) ==> id in Ids(out) by {
      forall id | id in Ids(entries) ensures id in Ids(out) {
        var k :| 0 <= k < |entries| && entries[k].moduleId == id;
        assert out[k].moduleId == id;
      }
    }
    forall c | c in entries && c.moduleId != cfg.moduleId ensures c in out {
      var k :| 0 <= k < |entries| && entries[k] == c;
      assert out[k] == c;
    }
  }

  predicate Names(reg: Registry, r: Raw, id: Id) {
    r.Rec? && r.moduleId == Some(id) && id in reg.defs
  }

  lemma MergeOneFacts(reg: Registry, entries: seq<Config>, r: Raw)
    requires Unique(entries)
    ensures Unique(MergeOne(reg, entries, r))
    ensures forall id :: id in Ids(MergeOne(reg, entries, r)) <==> id in Ids(entries) || Names(reg, r, id)
  {
    if r.Rec? && r.moduleId.Some? && r.moduleId.value in reg.defs {
      PutFacts(entries, Merged(reg.defs[r.moduleId.value], r.moduleId.value, Find(entries, r.moduleId.value), r));
    }
  }

  lemma {:induction false} MergeAllFacts(reg: Registry, entries: seq<Config>, raws: seq<Raw>)
    requires Unique(entries)
    ensures Unique(MergeAll(reg, entries, raws))
    ensures forall id :: id in Ids(MergeAll(reg, entries, raws)) <==>
                           id in Ids(entries) || (id in reg.defs
                               && exists r :: r in raws && r.Rec? && r.moduleId == Some(id))
    decreases |raws|
  {
    if raws != [] {
      MergeOneFacts(reg, entries, raws[0]);
      MergeAllFacts(reg, MergeOne(reg, entries, raws[0]), raws[1..]);
      assert forall r :: r in raws <==> r == raws[0] || r in raws[1..];
    }
  }

  // ---------------------------------------------------------------- cascade off

  /** `x` leads, through enabled entries only, to an entry that is disabled. */
  ghost predicate Falls(reg: Registry, entries: seq<Config>, x: Id) {
    exists p :: FallPath(reg, entries, p, x)
  }

  ghost predicate FallPath(reg: Registry, entries: seq<Config>, p: seq<Id>, x: Id) {
    && IsPath(reg, p) && p[0] == x && p[|p| - 1] in DisabledIds(entries)
    && forall i :: 0 <= i < |p| - 1 ==> p[i] in EnabledIds(entries)
  }

  /** `out` is `base` with some of the falling entries turned off, and `off` the ids that are off by now. */
  ghost predicate Cascading(reg: Registry, base: seq<Config>, out: seq<Config>, off: set<Id>) {
    && |out| == |base| && off == DisabledIds(out)
    && forall i :: 0 <= i < |base| ==>
                     out[i] == base[i] || (out[i] == base[i].(enabled := false) && Falls(reg, base, base[i].moduleId))
  }

  ghost predicate Settled(reg: Registry, out: seq<Config>, off: set<Id>) {
    forall i, d :: 0 <= i < |out| && out[i].enabled && Edge(reg, out[i].moduleId, d) ==> d !in off
  }

  lemma FallsThrough(reg: Registry, base: seq<Config>, x: Id, d: Id)
    requires x in EnabledIds(base) && Edge(reg, x, d) && (d in DisabledIds(base) || Falls(reg, base, d))
    ensures Falls(reg, base, x)
  {
    if d in DisabledIds(base) {
      assert IsPath(reg, [x, d]);
      assert FallPath(reg, base, [x, d], x);
    } else {
      var p :| FallPath(reg, base, p, d);
      var q := [x] + p;
      forall i | 0 <= i < |q| - 1 ensures Edge(reg, q[i], q[i + 1]) && q[i] in EnabledIds(base) {
        assert i > 0 ==> Edge(reg, p[i - 1], p[i]) && p[i - 1] in EnabledIds(base);
      }
      assert FallPath(reg, base, q, x);
    }
  }

  method CascadePass(reg: Registry, start: seq<Config>, startOff: set<Id>, ghost base: seq<Config>)
    returns (out: seq<Config>, off: set<Id>, changed: bool)
    requires Unique(base) && Cascading(reg, base, start, startOff)
    ensures Cascading(reg, base, out, off) && startOff <= off
    ensures changed ==> On(out) < On(start)
    ensures !changed ==> out == start && off == startOff && Settled(reg, out, off)
  {
    out, off, changed := start, startOff, false;
    for i := 0 to |start|
      invariant Cascading(reg, base, out, off) && startOff <= off
      invariant On(out) <= On(start) && (changed ==> On(out) < On(start))
      invariant !changed ==> out == start && off == startOff
      invariant !changed ==> forall k, d :: 0 <= k < i && out[k].enabled && Edge(reg, out[k].moduleId, d) ==> d !in off
    {
      var cfg := out[i];
      if cfg.enabled && cfg.moduleId in reg.defs &&
         exists d :: d in reg.defs[cfg.moduleId].dependencies && d in off {
        ghost var d :| d in reg.defs[cfg.moduleId].dependencies && d in off;
        TurnsOff(reg, base, out, off, i, d);
        assert i in On(out) && i !in On(out[i := cfg.(enabled := false)]);
        out := out[i := cfg.(enabled := false)];
        off := off + {cfg.moduleId};
        changed := true;
      }
    }
  }

  ghost function On(entries: seq<Config>): set<int> {
    set i | 0 <= i < |entries| && entries[i].enabled
  }

  lemma TurnsOff(reg: Registry, base: seq<Config>, out: seq<Config>, off: set<Id>, i: nat, d: Id)
    requires Unique(base) && Cascading(reg, base, out, off) && i < |out| && out[i].enabled
    requires Edge(reg, out[i].moduleId, d) && d in off
    ensures Cascading(reg, base, out[i := out[i].(enabled := false)], off + {out[i].moduleId})
  {
    var next := out[i := out[i].(enabled := false)];
    assert out[i] == base[i] && base[i].moduleId in EnabledIds(base);
    var k :| 0 <= k < |out| && !out[k].enabled && out[k].moduleId == d;
    assert base[k].enabled || base[k].moduleId in DisabledIds(base);
    FallsThrough(reg, base, base[i].moduleId, d);
    forall id ensures id in DisabledIds(next) <==> id in off + {out[i].moduleId} {
      if id in DisabledIds(next) {
        var j :| 0 <= j < |next| && !next[j].enabled && next[j].moduleId == id;
        assert j != i ==> !out[j].enabled && out[j].moduleId == id;
      }
      if id in off {
        var j :| 0 <= j < |out| && !out[j].enabled && out[j].moduleId == id;
        assert !next[j].enabled && next[j].moduleId == id;
      }
      assert !next[i].enabled && next[i].moduleId == out[i].moduleId;
    }
  }

  /** The cascade turns off exactly the entries that lead to a disabled one, whatever the order of the list. */
  method CascadeOff(reg: Registry, base: seq<Config>) returns (out: seq<Config>)
    requires Unique(base)
    ensures |out| == |base|
    ensures forall i :: 0 <= i < |base| ==>
                          out[i] == base[i].(enabled := base[i].enabled && !Falls(reg, base, base[i].moduleId))
  {
    out := base;
    var off := DisabledIds(out);
    var changed;
    out, off, changed := CascadePass(reg, out, off, base);
    changed := true;
    while changed
      invariant Cascading(reg, base, out, off) && (!changed ==> Settled(reg, out, off))
      decreases On(out), changed
    {
      out, off, changed := CascadePass(reg, out, off, base);
    }
    forall i | 0 <= i < |base|
      ensures out[i] == base[i].(enabled := base[i].enabled && !Falls(reg, base, base[i].moduleId))
    {
      if base[i].enabled && Falls(reg, base, base[i].moduleId) {
        var p :| FallPath(reg, base, p, base[i].moduleId);
        SettledPathIsOff(reg, base, out, off, p);
        var k :| 0 <= k < |out| && !out[k].enabled && out[k].moduleId == base[i].moduleId;
        assert k == i;
      }
    }
  }

  lemma {:induction false} SettledPathIsOff(reg: Registry, base: seq<Config>, out: seq<Config>, off: set<Id>,
                                            p: seq<Id>)
    requires Unique(base) && Cascading(reg, base, out, off) && Settled(reg, out, off)
    requires p != [] && FallPath(reg, base, p, p[0])
    ensures p[0] in off
  {
    if |p| == 1 {
      var k :| 0 <= k < |base| && !base[k].enabled && base[k].moduleId == p[0];
      assert !out[k].enabled && out[k].moduleId == p[0];
    } else {
      var q := p[1..];
      assert Edge(reg, p[0], p[1]) && p[0] in EnabledIds(base);
      forall i | 0 <= i < |q| - 1 ensures Edge(reg, q[i], q[i + 1]) && q[i] in EnabledIds(base) {
        assert Edge(reg, p[i + 1], p[i + 2]) && p[i + 1] in EnabledIds(base);
      }
      SettledPathIsOff(reg, base, out, off, q);
      var k :| 0 <= k < |base| && base[k].enabled && base[k].moduleId == p[0];
      assert !out[k].enabled && out[k].moduleId == p[0];
    }
  }

  // ---------------------------------------------------------------- normalizeModuleConfigs

  /** The entries still on after the cascade, as roots of the last closure. */
  ghost function Survivors(reg: Registry, base: seq<Config>): set<Id> {
    (set i | 0 <= i < |base| && base[i].enabled && base[i].moduleId in reg.defs
        && !Falls(reg, base, base[i].moduleId) :: base[i].moduleId)
    + Locked(reg)
  }

  ghost function FinalConfig(reg: Registry, base: seq<Config>, cfg: Config): Config {
    var on := Reach(reg, Survivors(reg, base), cfg.moduleId);
    cfg.(enabled := on, installed := if on then Some(true) else cfg.installed)
  }

  /** `out` is the normal form of the raw list, over the closure `resolved` of the enabled ids. */
  ghost predicate Normalized(reg: Registry, resolved: seq<Id>, raws: seq<Raw>, out: seq<Config>) {
    var base := MergeAll(reg, Defaults(resolved), raws);
    |out| == |base| && forall i :: 0 <= i < |base| ==> out[i] == FinalConfig(reg, base, base[i])
  }

  /** `out` is what the enabled ids and the raw list normalise to. */
  ghost predicate NormalForm(reg: Registry, ids: seq<Id>, raws: seq<Raw>, out: seq<Config>) {
    exists resolved :: Resolves(reg, ids, resolved) && Normalized(reg, resolved, raws, out)
  }

  method NormalizeModuleConfigs(reg: Registry, enabledModuleIds: Option<seq<Id>>, rawConfigs: Option<seq<Raw>>)
      returns (output: seq<Config>)
    requires WellFormed(reg)
    ensures NormalForm(reg, enabledModuleIds.GetOr([]), rawConfigs.GetOr([]), output)
  {
    var validEnabled := ResolveDependencies(reg, enabledModuleIds.GetOr([]));
    output := [];
    for i := 0 to |validEnabled|
      invariant output == Defaults(validEnabled)[..i]
    {
      assert IndexOf(output, validEnabled[i]) == |output|;
      output := Put(output, Default(validEnabled[i]));
    }
    assert output == Defaults(validEnabled);
    var raws := rawConfigs.GetOr([]);
    for i := 0 to |raws|
      invariant MergeAll(reg, Defaults(validEnabled), raws) == MergeAll(reg, output, raws[i..])
    {
      assert raws[i..][1..] == raws[i + 1..];
      output := MergeOne(reg, output, raws[i]);
    }
    ghost var base := output;
    MergeAllFacts(reg, Defaults(validEnabled), raws);
    output := CascadeOff(reg, output);
    output := ReenableRequired(reg, output, base);
    assert Normalized(reg, validEnabled, raws, output);
  }

  /** What is on now, in order. */
  method EnabledList(configs: seq<Config>) returns (on: seq<Id>)
    ensures Elems(on) == EnabledIds(configs)
  {
    on := [];
    for i := 0 to |configs|
      invariant Elems(on) == set k | 0 <= k < i && configs[k].enabled :: configs[k].moduleId
    {
      if configs[i].enabled {
        on := Add(on, configs[i].moduleId);
      }
    }
  }

  /** The last pass: the closure of what survived the cascade is on, everything else off. */
  method ReenableRequired(reg: Registry, cascaded: seq<Config>, ghost base: seq<Config>) returns (output: seq<Config>)
    requires WellFormed(reg) && Unique(base) && |cascaded| == |base|
    requires forall i :: 0 <= i < |base| ==>
                           cascaded[i] == base[i].(enabled := base[i].enabled && !Falls(reg, base, base[i].moduleId))
    ensures |output| == |base| && forall i :: 0 <= i < |base| ==> output[i] == FinalConfig(reg, base, base[i])
  {
    var on := EnabledList(cascaded);
    assert Roots(reg, on) == Survivors(reg, base) by {
      RootsOfEnabled(reg, on, cascaded);
      assert EnabledRoots(reg, cascaded) == Survivors(reg, base);
    }
    var mustEnable := ResolveDependencies(reg, on);
    output := cascaded;
    for i := 0 to |output|
      invariant |output| == |base|
      invariant forall k :: 0 <= k < i ==> output[k] == FinalConfig(reg, base, base[k])
      invariant forall k :: i <= k < |base| ==> output[k] == cascaded[k]
    {
      var id := output[i].moduleId;
      var enabled := id in mustEnable;
      if id in reg.defs && reg.defs[id].locked {
        ReachRoot(reg, Survivors(reg, base), id);
        enabled := true;
      }
      var cfg := output[i].(enabled := enabled);
      output := output[i := if enabled then cfg.(installed := Some(true)) else cfg];
    }
  }

  lemma RootsOfEnabled(reg: Registry, on: seq<Id>, configs: seq<Config>)
    requires Elems(on) == EnabledIds(configs)
    ensures Roots(reg, on) == EnabledRoots(reg, configs)
  {
    forall id ensures id in Roots(reg, on) <==> id in EnabledRoots(reg, configs) {
      assert id in on <==> id in Elems(on);
      if id in EnabledIds(configs) {
        var i :| 0 <= i < |configs| && configs[i].enabled && configs[i].moduleId == id;
      }
    }
  }

  method ExtractEnabledModules(reg: Registry, configs: seq<Config>) returns (ids: seq<Id>)
    requires WellFormed(reg)
    ensures NoDup(ids) && forall x :: x in ids <==> EffectivelyEnabled(reg, configs, x)
  {
    var on := EnabledList(configs);
    ids := ResolveDependencies(reg, on);
    RootsOfEnabled(reg, on, configs);
  }

  ghost function EnabledRoots(reg: Registry, configs: seq<Config>): set<Id> {
    (set i | 0 <= i < |configs| && configs[i].enabled && configs[i].moduleId in reg.defs :: configs[i].moduleId)
        + Locked(reg)
  }

  ghost predicate EffectivelyEnabled(reg: Registry, configs: seq<Config>, x: Id) {
    Reach(reg, EnabledRoots(reg, configs), x)
  }

  // ---------------------------------------------------------------- what becomes of one record

  lemma {:induction false} AllowedMeans(methods: seq<string>, allowed: seq<string>)
    ensures forall m :: m in Allowed(methods, allowed) <==> m in methods && m in allowed
    ensures (forall m :: m in methods ==> m in allowed) ==> Allowed(methods, allowed) == methods
  {
    if methods != [] {
      AllowedMeans(methods[1..], allowed);
      assert forall m :: m in methods <==> m == methods[0] || m in methods[1..];
    }
  }

  /** What a module's own schema lets through. */
  predicate Fits(f: Schema.Field, schema: seq<Schema.Field>) {
    if Schema.FullSchema(schema) then Schema.Kept(f, Schema.Obj(schema))
    else match Schema.Lookup(schema, f.key) case None => false case Some(d) => Schema.ShorthandAllows(f.value, d)
  }

  lemma SanitizeMeans(fields: seq<Schema.Field>, schema: seq<Schema.Field>)
    ensures forall f :: f in Sanitize(fields, schema) <==> f in fields && Fits(f, schema)
    ensures (forall f :: f in fields ==> Fits(f, schema)) ==> Sanitize(fields, schema) == fields
  {
    forall f ensures f in Sanitize(fields, schema) <==> f in fields && Fits(f, schema) {
      Schema.SettingsKeepExactly(fields, schema, f);
    }
    if forall f :: f in fields ==> Fits(f, schema) {
      Schema.ObjectReports(fields, Schema.Materialised(schema), []);
      Schema.AllSurvive(fields, Schema.Materialised(schema));
    }
  }

  /** The entry a record makes of the previous one, field by field: what it says, or else what was there. */
  lemma MergedMeans(def: Def, id: Id, prev: Option<Config>, r: Raw)
    requires r.Rec?
    ensures var c := Merged(def, id, prev, r);
            && c.moduleId == id
            && c.enabled == r.enabled.GetOr(prev.Some? && prev.value.enabled)
            && c.installed == (if r.installed.Some? then r.installed
                               else if prev.Some? && prev.value.installed.Some? then prev.value.installed
                               else Some(c.enabled))
            && c.version == (if r.version.Some? || prev.None? then r.version else prev.value.version)
            && c.runtimeStatus == (if r.runtimeStatus.Some? || prev.None? then r.runtimeStatus
                                   else prev.value.runtimeStatus)
            && c.everSuspended == (if r.everSuspended.Some? || prev.None? then r.everSuspended
                                   else prev.value.everSuspended)
            && c.configState == (if r.configState.Some? || prev.None? then r.configState else prev.value.configState)
    ensures var c := Merged(def, id, prev, r);
            && (forall f :: f in c.personal <==>
                              f in r.personal.GetOr(if prev.Some? then prev.value.personal else [])
                              && Fits(f, def.personalSchema))
            && (forall f :: f in c.integration <==>
                              f in r.integration.GetOr(if prev.Some? then prev.value.integration else [])
                              && Fits(f, def.integrationSchema))
            && (r.methods.Some? ==> forall m :: m in c.methods <==> m in r.methods.value && m in def.methods)
            && (r.methods.None? ==> c.methods == if prev.Some? then prev.value.methods else [])
  {
    var was := prev.GetOr(Default(id).(enabled := false, installed := None));
    SanitizeMeans(r.personal.GetOr(was.personal), def.personalSchema);
    SanitizeMeans(r.integration.GetOr(was.integration), def.integrationSchema);
    if r.methods.Some? {
      AllowedMeans(r.methods.value, def.methods);
    }
  }

  /** Entries no record names stay as they are. */
  lemma {:induction false} Untouched(reg: Registry, entries: seq<Config>, raws: seq<Raw>, c: Config)
    requires Unique(entries) && forall r :: r in raws ==> !Names(reg, r, c.moduleId)
    ensures c in MergeAll(reg, entries, raws) <==> c in entries
    decreases |raws|
  {
    if raws != [] {
      var r := raws[0];
      MergeOneFacts(reg, entries, r);
      assert r in raws && !Names(reg, r, c.moduleId);
      if r.Rec? && r.moduleId.Some? && r.moduleId.value in reg.defs {
        PutFacts(entries, Merged(reg.defs[r.moduleId.value], r.moduleId.value, Find(entries, r.moduleId.value), r));
      }
      assert forall q :: q in raws[1..] ==> q in raws;
      Untouched(reg, MergeOne(reg, entries, r), raws[1..], c);
    }
  }

  /** The last record of a module makes its entry, from the one the records before it have made. */
  lemma {:induction false} LastRecordDecides(reg: Registry, entries: seq<Config>, raws: seq<Raw>, k: nat, c: Config)
    requires Unique(entries) && k < |raws| && Names(reg, raws[k], c.moduleId)
    requires forall j :: k < j < |raws| ==> !Names(reg, raws[j], c.moduleId)
    ensures c in MergeAll(reg, entries, raws) <==>
            c == Merged(reg.defs[c.moduleId], c.moduleId, Find(MergeAll(reg, entries, raws[..k]), c.moduleId), raws[k])
    decreases |raws|
  {
    var next := MergeOne(reg, entries, raws[0]);
    MergeOneFacts(reg, entries, raws[0]);
    if k == 0 {
      assert raws[..0] == [] && MergeAll(reg, entries, raws[..0]) == entries;
      PutFacts(entries, Merged(reg.defs[c.moduleId], c.moduleId, Find(entries, c.moduleId), raws[0]));
      forall r | r in raws[1..] ensures !Names(reg, r, c.moduleId) {
        var j :| 0 <= j < |raws| - 1 && raws[1..][j] == r;
        assert raws[j + 1] == r;
      }
      Untouched(reg, next, raws[1..], c);
    } else {
      assert raws[..k][0] == raws[0] && raws[..k][1..] == raws[1..][..k - 1];
      LastRecordDecides(reg, next, raws[1..], k - 1, c);
    }
  }

  /** In the normal form, everything but the flags of an entry is as its last record and the ones before made it. */
  lemma EntryOfLastRecord(reg: Registry, ids: seq<Id>, resolved: seq<Id>, raws: seq<Raw>, out: seq<Config>, i: nat,
                          k: nat)
    requires Resolves(reg, ids, resolved) && Normalized(reg, resolved, raws, out) && i < |out| && k < |raws|
    requires Names(reg, raws[k], out[i].moduleId)
    requires forall j :: k < j < |raws| ==> !Names(reg, raws[j], out[i].moduleId)
    ensures var id := out[i].moduleId;
            var m := Merged(reg.defs[id], id, Find(MergeAll(reg, Defaults(resolved), raws[..k]), id), raws[k]);
            && out[i].(enabled := m.enabled, installed := m.installed) == m
            && out[i].installed == if out[i].enabled then Some(true) else m.installed
  {
    var base := MergeAll(reg, Defaults(resolved), raws);
    assert out[i] == FinalConfig(reg, base, base[i]) && base[i] in base;
    LastRecordDecides(reg, Defaults(resolved), raws, k, base[i]);
  }

  /** And an entry without a record is a default: on by way of the closure, with nothing set. */
  lemma EntryWithoutRecord(reg: Registry, ids: seq<Id>, resolved: seq<Id>, raws: seq<Raw>, out: seq<Config>, i: nat)
    requires Resolves(reg, ids, resolved) && Normalized(reg, resolved, raws, out) && i < |out|
    requires forall r :: r in raws ==> !Names(reg, r, out[i].moduleId)
    ensures out[i].moduleId in resolved
    ensures out[i] == Config(out[i].moduleId, out[i].enabled, Some(true), None, None, None, None, [], [], [])
  {
    var base := MergeAll(reg, Defaults(resolved), raws);
    assert out[i] == FinalConfig(reg, base, base[i]) && base[i] in base;
    Untouched(reg, Defaults(resolved), raws, base[i]);
    var j :| 0 <= j < |resolved| && Defaults(resolved)[j] == base[i];
  }

  // ---------------------------------------------------------------- what the normal form promises

  lemma BaseFacts(reg: Registry, ids: seq<Id>, resolved: seq<Id>, raws: seq<Raw>)
    requires Resolves(reg, ids, resolved)
    ensures var base := MergeAll(reg, Defaults(resolved), raws);
            Unique(base) && forall x :: x in resolved ==> x in Ids(base)
  {
    MergeAllFacts(reg, Defaults(resolved), raws);
    forall x | x in resolved ensures x in Ids(Defaults(resolved)) {
      var i :| 0 <= i < |resolved| && resolved[i] == x;
      assert Defaults(resolved)[i].moduleId == x;
    }
  }

  /** No enabled entry depends on a disabled one, however the raw list looks. */
  lemma EnabledNeverDependsOnDisabled(reg: Registry, ids: seq<Id>, raws: seq<Raw>, out: seq<Config>, i: nat, j: nat)
    requires NormalForm(reg, ids, raws, out) && i < |out| && j < |out|
    requires out[i].enabled && Edge(reg, out[i].moduleId, out[j].moduleId)
    ensures out[j].enabled
  {
    var resolved :| Resolves(reg, ids, resolved) && Normalized(reg, resolved, raws, out);
    var base := MergeAll(reg, Defaults(resolved), raws);
    ReachStep(reg, Survivors(reg, base), base[i].moduleId, base[j].moduleId);
  }

  /** Every locked module has an entry and it is on; and whatever is on is installed. */
  lemma LockedOnAndEnabledInstalled(reg: Registry, ids: seq<Id>, raws: seq<Raw>, out: seq<Config>)
    requires NormalForm(reg, ids, raws, out)
    ensures forall id :: id in Locked(reg) ==> id in EnabledIds(out)
    ensures forall i :: 0 <= i < |out| && out[i].enabled ==> out[i].installed == Some(true)
  {
    var resolved :| Resolves(reg, ids, resolved) && Normalized(reg, resolved, raws, out);
    var base := MergeAll(reg, Defaults(resolved), raws);
    BaseFacts(reg, ids, resolved, raws);
    forall id | id in Locked(reg) ensures id in EnabledIds(out) {
      ReachRoot(reg, Roots(reg, ids), id);
      ReachRoot(reg, Survivors(reg, base), id);
      var i :| 0 <= i < |base| && base[i].moduleId == id;
      assert out[i].enabled && out[i].moduleId == id;
    }
  }

  /** The effective set of a normal form is the closure of what survived the cascade. */
  lemma EffectiveSet(reg: Registry, ids: seq<Id>, resolved: seq<Id>, raws: seq<Raw>, out: seq<Config>, x: Id)
    requires Resolves(reg, ids, resolved) && Normalized(reg, resolved, raws, out)
    ensures EffectivelyEnabled(reg, out, x) <==> Reach(reg, Survivors(reg, MergeAll(reg, Defaults(resolved), raws)), x)
  {
    var base := MergeAll(reg, Defaults(resolved), raws);
    var from, to := Survivors(reg, base), EnabledRoots(reg, out);
    forall y | y in from ensures y in to {
      if y !in Locked(reg) {
        var i :| 0 <= i < |base| && base[i].enabled && base[i].moduleId in reg.defs && base[i].moduleId == y;
        ReachRoot(reg, from, y);
        assert out[i].enabled && out[i].moduleId == y;
      }
    }
    if Reach(reg, from, x) {
      var p :| IsPath(reg, p) && p[0] in from && p[|p| - 1] == x;
      assert p[0] in to;
    }
    if Reach(reg, to, x) {
      var p :| IsPath(reg, p) && p[0] in to && p[|p| - 1] == x;
      if p[0] in Locked(reg) {
        assert p[0] in from;
      } else {
        var i :| 0 <= i < |out| && out[i].enabled && out[i].moduleId == p[0];
        assert Reach(reg, from, p[0]);
        ReachAlong(reg, from, p);
      }
    }
  }

  lemma {:induction false} ReachAlong(reg: Registry, from: set<Id>, p: seq<Id>)
    requires IsPath(reg, p) && Reach(reg, from, p[0])
    ensures Reach(reg, from, p[|p| - 1])
  {
    if |p| > 1 {
      var q := p[..|p| - 1];
      forall i | 0 <= i < |q| - 1 ensures Edge(reg, q[i], q[i + 1]) {
        assert Edge(reg, p[i], p[i + 1]);
      }
      ReachAlong(reg, from, q);
      assert Edge(reg, p[|p| - 2], p[|p| - 1]);
      ReachStep(reg, from, p[|p| - 2], p[|p| - 1]);
    }
  }

  /** A stored entry read back as a raw record. */
  function AsRaw(c: Config): Raw {
    Rec(Some(c.moduleId), Some(c.enabled), c.installed, c.version, c.runtimeStatus, c.everSuspended, c.configState,
        Some(c.personal), Some(c.integration), Some(c.methods))
  }

  function AsRaws(cs: seq<Config>): seq<Raw> {
    seq(|cs|, i requires 0 <= i < |cs| => AsRaw(cs[i]))
  }

  /** After merging records of distinct modules, an entry is on as its record says, or as it was if it has none. */
  lemma {:induction false} MergedFlags(reg: Registry, entries: seq<Config>, cs: seq<Config>, cfg: Config)
    requires Unique(entries) && Unique(cs) && cfg in MergeAll(reg, entries, AsRaws(cs))
    ensures if cfg.moduleId in Ids(cs) && cfg.moduleId in reg.defs
            then exists c :: c in cs && c.moduleId == cfg.moduleId && c.enabled == cfg.enabled
            else cfg in entries
    decreases |cs|
  {
    if cs != [] {
      var c := cs[0];
      var raws := AsRaws(cs);
      assert raws[0] == AsRaw(c) && raws[1..] == AsRaws(cs[1..]);
      var next := MergeOne(reg, entries, raws[0]);
      if c.moduleId in reg.defs {
        PutFacts(entries, Merged(reg.defs[c.moduleId], c.moduleId, Find(entries, c.moduleId), raws[0]));
      }
      MergedFlags(reg, next, cs[1..], cfg);
      FirstAndRest(cs);
    }
  }

  lemma FirstAndRest(cs: seq<Config>)
    requires cs != []
    ensures Ids(cs) == {cs[0].moduleId} + Ids(cs[1..]) && (Unique(cs) ==> cs[0].moduleId !in Ids(cs[1..]))
    ensures forall c :: c in cs[1..] ==> c in cs
  {
    assert cs == [cs[0]] + cs[1..];
    forall id ensures id in Ids(cs) <==> id in {cs[0].moduleId} + Ids(cs[1..]) {
      if id in Ids(cs) {
        var k :| 0 <= k < |cs| && cs[k].moduleId == id;
        assert k > 0 ==> cs[1..][k - 1].moduleId == id;
      }
      if id in Ids(cs[1..]) {
        var k :| 0 <= k < |cs| - 1 && cs[1..][k].moduleId == id;
        assert cs[k + 1].moduleId == id;
      }
    }
  }

  /**
   * Normalising a normal form again, with the enabled set extracted from it, leaves that set as it is:
   * the projection is stable under save and reload.
   */
  lemma NormalisingAgainIsStable(reg: Registry, ids: seq<Id>, raws: seq<Raw>, out: seq<Config>, extracted: seq<Id>,
                                 out2: seq<Config>, x: Id)
    requires NormalForm(reg, ids, raws, out)
    requires forall y :: y in extracted <==> EffectivelyEnabled(reg, out, y)
    requires NormalForm(reg, extracted, AsRaws(out), out2)
    ensures EffectivelyEnabled(reg, out2, x) <==> EffectivelyEnabled(reg, out, x)
  {
    var resolved :| Resolves(reg, ids, resolved) && Normalized(reg, resolved, raws, out);
    var resolved2 :| Resolves(reg, extracted, resolved2) && Normalized(reg, resolved2, AsRaws(out), out2);
    StableVia(reg, ids, resolved, raws, out, resolved2, out2, extracted, x);
  }

  lemma StableVia(reg: Registry, ids: seq<Id>, resolved: seq<Id>, raws: seq<Raw>, out: seq<Config>,
                  resolved2: seq<Id>, out2: seq<Config>, extracted: seq<Id>, x: Id)
    requires Resolves(reg, ids, resolved) && Normalized(reg, resolved, raws, out)
    requires forall y :: y in extracted <==> EffectivelyEnabled(reg, out, y)
    requires Resolves(reg, extracted, resolved2) && Normalized(reg, resolved2, AsRaws(out), out2)
    ensures EffectivelyEnabled(reg, out2, x) <==> EffectivelyEnabled(reg, out, x)
  {
    var base, base2 := MergeAll(reg, Defaults(resolved), raws), MergeAll(reg, Defaults(resolved2), AsRaws(out));
    BaseFacts(reg, ids, resolved, raws);
    assert Unique(out);
    BaseFacts(reg, extracted, resolved2, AsRaws(out));
    var roots := EnabledRoots(reg, out);
    ExtractedIsClosed(reg, out, extracted, resolved2);
    forall i | 0 <= i < |base2|
      ensures base2[i].moduleId in reg.defs ==> (base2[i].enabled <==> Reach(reg, roots, base2[i].moduleId))
      ensures base2[i].moduleId !in reg.defs ==> base2[i].enabled && Reach(reg, roots, base2[i].moduleId)
    {
      EntryFlag(reg, ids, resolved, raws, out, resolved2, base2[i]);
    }
    NothingFalls(reg, out, base2);
    EffectiveSet(reg, extracted, resolved2, AsRaws(out), out2, x);
    SurvivorsAgain(reg, out, base2, resolved2, x);
  }

  lemma ExtractedIsClosed(reg: Registry, out: seq<Config>, extracted: seq<Id>, resolved2: seq<Id>)
    requires forall y :: y in extracted <==> EffectivelyEnabled(reg, out, y)
    requires Resolves(reg, extracted, resolved2)
    ensures forall y :: y in resolved2 <==> EffectivelyEnabled(reg, out, y)
  {
    var roots := EnabledRoots(reg, out);
    forall y ensures y in resolved2 <==> Reach(reg, roots, y) {
      if Reach(reg, roots, y) {
        var p :| IsPath(reg, p) && p[0] in roots && p[|p| - 1] == y;
        ReachRoot(reg, roots, p[0]);
        assert p[0] in Roots(reg, extracted);
      }
      if Reach(reg, Roots(reg, extracted), y) {
        var p :| IsPath(reg, p) && p[0] in Roots(reg, extracted) && p[|p| - 1] == y;
        if p[0] in Locked(reg) {
          ReachRoot(reg, roots, p[0]);
        }
        ReachAlong(reg, roots, p);
      }
    }
  }

  /** In the second run an entry is on exactly when the first run made it effective. */
  lemma EntryFlag(reg: Registry, ids: seq<Id>, resolved: seq<Id>, raws: seq<Raw>, out: seq<Config>, resolved2: seq<Id>,
                  cfg: Config)
    requires Resolves(reg, ids, resolved) && Normalized(reg, resolved, raws, out) && Unique(out) && NoDup(resolved2)
    requires forall y :: y in resolved2 <==> EffectivelyEnabled(reg, out, y)
    requires cfg in MergeAll(reg, Defaults(resolved2), AsRaws(out))
    ensures cfg.moduleId in reg.defs ==> (cfg.enabled <==> EffectivelyEnabled(reg, out, cfg.moduleId))
    ensures cfg.moduleId !in reg.defs ==> cfg.enabled && EffectivelyEnabled(reg, out, cfg.moduleId)
  {
    MergedFlags(reg, Defaults(resolved2), out, cfg);
    if cfg.moduleId in Ids(out) && cfg.moduleId in reg.defs {
      var c :| c in out && c.moduleId == cfg.moduleId && c.enabled == cfg.enabled;
      EffectiveSet(reg, ids, resolved, raws, out, cfg.moduleId);
    } else {
      var i :| 0 <= i < |resolved2| && Defaults(resolved2)[i] == cfg;
      assert resolved2[i] == cfg.moduleId;
    }
  }

  /** A set of entries that is on exactly where `out` is effective has nothing to cascade. */
  lemma NothingFalls(reg: Registry, out: seq<Config>, base2: seq<Config>)
    requires forall i :: 0 <= i < |base2| ==>
                           (base2[i].enabled <==> EffectivelyEnabled(reg, out, base2[i].moduleId))
    ensures forall y :: y in EnabledIds(base2) ==> !Falls(reg, base2, y)
  {
    forall y | y in EnabledIds(base2) && Falls(reg, base2, y) ensures false {
      var p :| FallPath(reg, base2, p, y);
      assert Reach(reg, EnabledRoots(reg, out), p[0]);
      ReachAlong(reg, EnabledRoots(reg, out), p);
    }
  }

  lemma SurvivorsAgain(reg: Registry, out: seq<Config>, base2: seq<Config>, resolved2: seq<Id>, x: Id)
    requires forall i :: 0 <= i < |base2| ==>
                           (base2[i].enabled <==> EffectivelyEnabled(reg, out, base2[i].moduleId))
    requires forall y :: y in EnabledIds(base2) ==> !Falls(reg, base2, y)
    requires forall y :: EffectivelyEnabled(reg, out, y) ==> y in Ids(base2)
    ensures Reach(reg, Survivors(reg, base2), x) <==> EffectivelyEnabled(reg, out, x)
  {
    var roots, from := EnabledRoots(reg, out), Survivors(reg, base2);
    if Reach(reg, from, x) {
      var p :| IsPath(reg, p) && p[0] in from && p[|p| - 1] == x;
      if p[0] in Locked(reg) {
        ReachRoot(reg, roots, p[0]);
      }
      ReachAlong(reg, roots, p);
    }
    if Reach(reg, roots, x) {
      var p :| IsPath(reg, p) && p[0] in roots && p[|p| - 1] == x;
      ReachRoot(reg, roots, p[0]);
      assert EffectivelyEnabled(reg, out, p[0]);
      var i :| 0 <= i < |base2| && base2[i].moduleId == p[0];
      assert base2[i].moduleId in EnabledIds(base2);
      assert p[0] in from;
    }
  }
}
