/**
 * The runtime axis of a module (shared/src/module-runtime-state.ts) and the projection every
 * enforcement point reads (shared/src/module-gating.ts:76-92).
 */
module ModuleRuntimeState {
  import opened Wrappers
  import opened ModuleGraph
  import opened ModuleRegistry
  import Schema = SettingsSchema
  import Text

  function SettingOf(cfg: Config, key: string): Schema.Json {
    var own := Schema.Lookup(cfg.integration, key).GetOr(Schema.Null);
    if own.Null? then Schema.Lookup(cfg.personal, key).GetOr(Schema.Null) else own
  }

  predicate Filled(value: Schema.Json) {
    match value
    case Null => false
    case Str(s) => Text.Trim(s) != ""
    case Arr(items) => items != []
    case _ => true
  }

  function ComputeConfigState(def: Def, cfg: Config): ConfigState {
    if forall key :: key in def.requiredBeforeEnable ==> Filled(SettingOf(cfg, key)) then Ready else NeedsConfig
  }

  function ReadRuntimeStatus(cfg: Config): RuntimeStatus {
    if cfg.configState == Some(NeedsConfig) then Suspended
    else if cfg.runtimeStatus.Some? then cfg.runtimeStatus.value
    else if cfg.enabled then Active else Suspended
  }

  function ApplyDisable(cfg: Config): Config {
    cfg.(runtimeStatus := Some(Suspended), everSuspended := Some(true))
  }

  predicate EverSuspended(cfg: Option<Config>) {
    cfg.Some? && cfg.value.everSuspended == Some(true)
  }

  function ApplyEnable(prev: Option<Config>, cfg: Config, def: Def): Config {
    var ever, state := EverSuspended(prev), ComputeConfigState(def, cfg);
    cfg.(configState := Some(state), everSuspended := Some(ever),
         runtimeStatus := Some(if ever || state.NeedsConfig? then Suspended else Active))
  }

  function RefreshEnabled(prev: Option<Config>, cfg: Config, def: Def): Config {
    var state := ComputeConfigState(def, cfg);
    var ever := EverSuspended(prev) || EverSuspended(Some(cfg));
    var was := ReadRuntimeStatus(cfg);
    var status :=
      if state.NeedsConfig? then Suspended
      else if !ever && prev.Some? && prev.value.configState == Some(NeedsConfig) && was.Suspended? then Active
      else was;
    cfg.(configState := Some(state), everSuspended := Some(ever), runtimeStatus := Some(status))
  }

  datatype Refusal = ModuleDisabled | ModuleNeedsConfig

  function ApplyResumeDelivery(cfg: Config): Result<Config, Refusal> {
    if !cfg.enabled then Err(ModuleDisabled)
    else if cfg.configState.GetOr(Ready).NeedsConfig? then Err(ModuleNeedsConfig)
    else Ok(cfg.(runtimeStatus := Some(Active)))
  }

  function SyncOne(reg: Registry, prev: Option<Config>, cfg: Config): Config {
    if cfg.moduleId !in reg.defs then cfg
    else
      var def := reg.defs[cfg.moduleId];
      var wasEnabled := prev.Some? && prev.value.enabled;
      if !wasEnabled && cfg.enabled then ApplyEnable(prev, cfg, def)
      else if wasEnabled && !cfg.enabled then ApplyDisable(cfg)
      else if cfg.enabled then RefreshEnabled(prev, cfg, def)
      else
        var was_ := prev.GetOr(cfg.(runtimeStatus := None, everSuspended := None, configState := None));
        cfg.(runtimeStatus := Some(Or(cfg.runtimeStatus, was_.runtimeStatus).GetOr(Suspended)),
             everSuspended := Some(Or(cfg.everSuspended, was_.everSuspended).GetOr(false)),
             configState := Some(Or(cfg.configState, was_.configState).GetOr(Ready)))
  }

  function Sync(reg: Registry, prev: seq<Config>, next: seq<Config>): seq<Config> {
    seq(|next|, i requires 0 <= i < |next| => SyncOne(reg, Find(prev, next[i].moduleId), next[i]))
  }

  /** Incomplete settings suspend; otherwise the stored status counts, and without one the flag. */
  lemma StatusReadAs(cfg: Config)
    ensures cfg.configState == Some(NeedsConfig) ==> ReadRuntimeStatus(cfg) == Suspended
    ensures cfg.configState != Some(NeedsConfig) && cfg.runtimeStatus.Some? ==>
              Some(ReadRuntimeStatus(cfg)) == cfg.runtimeStatus
    ensures cfg.configState != Some(NeedsConfig) && cfg.runtimeStatus.None? ==>
              (ReadRuntimeStatus(cfg) == Active <==> cfg.enabled)
  {
  }

  /** Who may resume, how the others are refused, and that resuming changes the status only. */
  lemma ResumeExactlyWhen(cfg: Config)
    ensures !cfg.enabled ==> ApplyResumeDelivery(cfg) == Err(ModuleDisabled)
    ensures cfg.enabled && cfg.configState == Some(NeedsConfig) ==> ApplyResumeDelivery(cfg) == Err(ModuleNeedsConfig)
    ensures cfg.enabled && cfg.configState != Some(NeedsConfig) ==>
              ApplyResumeDelivery(cfg) == Ok(cfg.(runtimeStatus := Some(Active)))
  {
  }

  /** A save that leaves a module on: what its settings, its past and its stored status make of it. */
  lemma RefreshedStatus(prev: Option<Config>, cfg: Config, def: Def)
    ensures var c := RefreshEnabled(prev, cfg, def);
            var before := prev.Some? && prev.value.everSuspended == Some(true);
            var suspendedOnce := before || cfg.everSuspended == Some(true);
            && c.everSuspended == Some(suspendedOnce) && c.configState == Some(ComputeConfigState(def, cfg))
            && (c.configState == Some(NeedsConfig) ==> c.runtimeStatus == Some(Suspended))
            && (c.configState == Some(Ready) ==>
                  (c.runtimeStatus == Some(Active) <==>
                   || ReadRuntimeStatus(cfg) == Active
                   || (!suspendedOnce && prev.Some? && prev.value.configState == Some(NeedsConfig))))
            && c == cfg.(everSuspended := c.everSuspended, configState := c.configState,
                         runtimeStatus := c.runtimeStatus)
  {
  }

  // ---------------------------------------------------------------- runs of saves and resumes

  /** The stored runtime fields of a module; all absent for a module that has no entry. */
  predicate SameRuntime(c: Config, d: Option<Config>) {
    if d.Some? then c.runtimeStatus == d.value.runtimeStatus && c.everSuspended == d.value.everSuspended
        && c.configState == d.value.configState
    else c.runtimeStatus.None? && c.everSuspended.None? && c.configState.None?
  }

  /**
   * A save may flip any flag and rewrite any settings, but drops no entry of a registered module and carries the
   * runtime fields over. Entries of unregistered modules may come and go.
   */
  ghost predicate CarriesOver(reg: Registry, stored: seq<Config>, next: seq<Config>) {
    && Unique(next)
    && (forall id :: id in Ids(stored) && id in reg.defs ==> id in Ids(next))
    && forall i ::
         0 <= i < |next| && next[i].moduleId in reg.defs
         ==> SameRuntime(next[i], Find(stored, next[i].moduleId))
  }

  datatype Action = Save(next: seq<Config>) | Resume(id: Id)

  /**
   * The stored configurations, and the modules whose delivery may not run until somebody resumes it: those
   * disabled, or found incomplete after having been suspended once.
   */
  datatype State = State(configs: seq<Config>, frozen: set<Id>)

  ghost predicate Possible(reg: Registry, s: State, a: Action) {
    match a
    case Save(next) => CarriesOver(reg, s.configs, next)
    case Resume(id) => Find(s.configs, id).Some? && ApplyResumeDelivery(Find(s.configs, id).value).Ok?
  }

  predicate DisableEdge(s: State, c: Config) {
    Find(s.configs, c.moduleId).Some? && Find(s.configs, c.moduleId).value.enabled && !c.enabled
  }

  function Apply(reg: Registry, s: State, a: Action): State {
    match a
    case Save(next) =>
      var configs := Sync(reg, s.configs, next);
      State(configs, s.frozen +
                     set i | 0 <= i < |next| && (DisableEdge(s, next[i]) || Stuck(configs[i])) :: next[i].moduleId)
    case Resume(id) =>
      var i := IndexOf(s.configs, id);
      if i < |s.configs| && ApplyResumeDelivery(s.configs[i]).Ok?
      then State(s.configs[i := ApplyResumeDelivery(s.configs[i]).value], s.frozen - {id})
      else s
  }

  predicate Stuck(c: Config) {
    c.everSuspended == Some(true) && c.configState == Some(NeedsConfig)
  }

  function Run(reg: Registry, actions: seq<Action>): State {
    if actions == [] then State([], {})
    else Apply(reg, Run(reg, actions[..|actions| - 1]), actions[|actions| - 1])
  }

  ghost predicate Legal(reg: Registry, actions: seq<Action>) {
    actions != [] ==>
      Legal(reg, actions[..|actions| - 1]) && Possible(reg, Run(reg, actions[..|actions| - 1]), actions[|actions| - 1])
  }

  /** What holds of every stored entry of a known module. */
  predicate EntryOk(c: Config, frozen: bool) {
    && c.runtimeStatus.Some? && c.everSuspended.Some? && c.configState.Some?
    && (c.configState == Some(NeedsConfig) ==> c.runtimeStatus == Some(Suspended))
    && (frozen ==> c.everSuspended == Some(true) && c.runtimeStatus == Some(Suspended))
    && (Stuck(c) ==> frozen)
    && (!c.enabled ==> c.runtimeStatus == Some(Suspended) && (frozen <==> c.everSuspended == Some(true)))
    && (c.enabled ==> (c.runtimeStatus == Some(Active) <==> c.configState == Some(Ready) && !frozen))
  }

  ghost predicate Inv(reg: Registry, s: State) {
    && Unique(s.configs)
    && (forall i :: 0 <= i < |s.configs| && s.configs[i].moduleId in reg.defs ==>
                      EntryOk(s.configs[i], s.configs[i].moduleId in s.frozen))
    && forall id :: id in s.frozen && id in reg.defs ==> id in Ids(s.configs)
  }

  lemma SyncKeepsEntry(reg: Registry, prev: Option<Config>, cfg: Config, frozen: bool)
    requires cfg.moduleId in reg.defs && SameRuntime(cfg, prev)
    requires if prev.Some? then EntryOk(prev.value, frozen) else !frozen
    ensures var c := SyncOne(reg, prev, cfg);
            EntryOk(c, frozen || (prev.Some? && prev.value.enabled && !cfg.enabled) || Stuck(c))
  {
    if prev.Some? {
      assert prev.value.configState.value.Ready? || prev.value.configState.value.NeedsConfig?;
      assert prev.value.runtimeStatus.value.Active? || prev.value.runtimeStatus.value.Suspended?;
    }
  }

  lemma SaveKeepsInv(reg: Registry, s: State, next: seq<Config>)
    requires Inv(reg, s) && CarriesOver(reg, s.configs, next)
    ensures Inv(reg, Apply(reg, s, Save(next)))
  {
    var t := Apply(reg, s, Save(next));
    forall i | 0 <= i < |next| ensures t.configs[i].moduleId == next[i].moduleId {
    }
    assert forall id :: id in Ids(next) ==> id in Ids(t.configs) by {
      forall id | id in Ids(next) ensures id in Ids(t.configs) {
        var i :| 0 <= i < |next| && next[i].moduleId == id;
        assert t.configs[i].moduleId == id;
      }
    }
    forall i | 0 <= i < |next| && next[i].moduleId in reg.defs
      ensures EntryOk(t.configs[i], next[i].moduleId in t.frozen)
    {
      var prev := Find(s.configs, next[i].moduleId);
      if prev.None? {
        assert next[i].moduleId !in Ids(s.configs);
      }
      SyncKeepsEntry(reg, prev, next[i], next[i].moduleId in s.frozen);
      FrozenAfterSave(reg, s, next, i);
    }
  }

  lemma FrozenAfterSave(reg: Registry, s: State, next: seq<Config>, i: nat)
    requires Unique(next) && i < |next|
    ensures var t := Apply(reg, s, Save(next));
            next[i].moduleId in t.frozen <==>
            next[i].moduleId in s.frozen || DisableEdge(s, next[i]) || Stuck(t.configs[i])
  {
  }

  lemma ResumeKeepsInv(reg: Registry, s: State, id: Id)
    requires Inv(reg, s) && Possible(reg, s, Resume(id))
    ensures Inv(reg, Apply(reg, s, Resume(id)))
  {
    var t, i := Apply(reg, s, Resume(id)), IndexOf(s.configs, id);
    assert forall j :: 0 <= j < |s.configs| && j != i ==> t.configs[j] == s.configs[j] && s.configs[j].moduleId != id;
    forall j | 0 <= j < |s.configs| ensures t.configs[j].moduleId == s.configs[j].moduleId {
    }
    forall m | m in t.frozen && m in reg.defs ensures m in Ids(t.configs) {
      var j :| 0 <= j < |s.configs| && s.configs[j].moduleId == m;
      assert t.configs[j].moduleId == m;
    }
  }

  lemma {:induction false} RunKeepsInv(reg: Registry, actions: seq<Action>)
    requires Legal(reg, actions)
    ensures Inv(reg, Run(reg, actions))
  {
    if actions != [] {
      var before, last := Run(reg, actions[..|actions| - 1]), actions[|actions| - 1];
      RunKeepsInv(reg, actions[..|actions| - 1]);
      match last
      case Save(next) => SaveKeepsInv(reg, before, next);
      case Resume(id) => ResumeKeepsInv(reg, before, id);
    }
  }

  /** The exact rule for an enabled module: its runtime runs when its settings are complete and it is not frozen. */
  lemma ActiveExactlyWhen(reg: Registry, actions: seq<Action>, i: nat)
    requires Legal(reg, actions) && i < |Run(reg, actions).configs|
    requires var c := Run(reg, actions).configs[i]; c.moduleId in reg.defs && c.enabled
    ensures var s := Run(reg, actions);
            s.configs[i].runtimeStatus == Some(Active)
            <==> s.configs[i].configState == Some(Ready) && s.configs[i].moduleId !in s.frozen
  {
    RunKeepsInv(reg, actions);
  }

  /** The stored value of a setting: the integration's, unless it is absent or null, and then the personal one. */
  ghost predicate IsSetting(cfg: Config, key: string, v: Schema.Json) {
    !v.Null? &&
    (Schema.Lookup(cfg.integration, key) == Some(v) ||
     (Schema.Lookup(cfg.integration, key) in {None, Some(Schema.Null)} && Schema.Lookup(cfg.personal, key) == Some(v)))
  }

  /** It is there, a text with more than white space in it, or a list with an item. */
  ghost predicate IsGiven(cfg: Config, key: string) {
    exists v :: IsSetting(cfg, key, v)
                && (v.Str? ==> exists i :: 0 <= i < |v.s| && !Text.IsSpace(v.s[i])) && (v.Arr? ==> v.items != [])
  }

  lemma FilledMeansGiven(cfg: Config, key: string)
    ensures Filled(SettingOf(cfg, key)) <==> IsGiven(cfg, key)
  {
    var v := SettingOf(cfg, key);
    assert !v.Null? ==> IsSetting(cfg, key, v);
    assert forall w :: IsSetting(cfg, key, w) ==> w == v;
    if v.Str? {
      Text.TrimBlank(v.s);
    }
  }

  /** The stored settings state is the one the stored settings give. */
  ghost predicate Judged(reg: Registry, c: Config) {
    c.moduleId in reg.defs && c.enabled ==> c.configState == Some(ComputeConfigState(reg.defs[c.moduleId], c))
  }

  ghost predicate AllJudged(reg: Registry, s: State) {
    forall i :: 0 <= i < |s.configs| ==> Judged(reg, s.configs[i])
  }

  lemma OnlySettingsCount(def: Def, c: Config, d: Config)
    requires c.integration == d.integration && c.personal == d.personal
    ensures ComputeConfigState(def, c) == ComputeConfigState(def, d)
  {
    assert forall key :: SettingOf(c, key) == SettingOf(d, key);
  }

  lemma SyncJudges(reg: Registry, prev: Option<Config>, cfg: Config)
    ensures Judged(reg, SyncOne(reg, prev, cfg))
  {
    if cfg.moduleId in reg.defs {
      OnlySettingsCount(reg.defs[cfg.moduleId], cfg, SyncOne(reg, prev, cfg));
    }
  }

  lemma ApplyJudges(reg: Registry, s: State, a: Action, i: nat)
    requires AllJudged(reg, s) && i < |Apply(reg, s, a).configs|
    ensures Judged(reg, Apply(reg, s, a).configs[i])
  {
    match a
    case Save(next) => SyncJudges(reg, Find(s.configs, next[i].moduleId), next[i]);
    case Resume(id) =>
      var c := s.configs[i];
      assert Judged(reg, c);
      if c.moduleId in reg.defs {
        OnlySettingsCount(reg.defs[c.moduleId], c, Apply(reg, s, a).configs[i]);
      }
  }

  lemma {:induction false} RunKeepsJudged(reg: Registry, actions: seq<Action>)
    ensures AllJudged(reg, Run(reg, actions))
  {
    if actions != [] {
      var before, last := Run(reg, actions[..|actions| - 1]), actions[|actions| - 1];
      RunKeepsJudged(reg, actions[..|actions| - 1]);
      forall i | 0 <= i < |Apply(reg, before, last).configs| ensures Judged(reg, Apply(reg, before, last).configs[i]) {
        ApplyJudges(reg, before, last, i);
      }
    }
  }

  /** Of what is stored: an enabled module runs exactly when every required setting is given and it is not frozen. */
  lemma ActiveExactlyWhenGiven(reg: Registry, actions: seq<Action>, i: nat)
    requires Legal(reg, actions) && i < |Run(reg, actions).configs|
    requires var c := Run(reg, actions).configs[i]; c.moduleId in reg.defs && c.enabled
    ensures var s := Run(reg, actions);
            var c := s.configs[i];
            c.runtimeStatus == Some(Active) <==>
            && (forall key :: key in reg.defs[c.moduleId].requiredBeforeEnable ==> IsGiven(c, key))
            && c.moduleId !in s.frozen
  {
    var c := Run(reg, actions).configs[i];
    ActiveExactlyWhen(reg, actions, i);
    RunKeepsJudged(reg, actions);
    forall key | key in reg.defs[c.moduleId].requiredBeforeEnable
      ensures Filled(SettingOf(c, key)) <==> IsGiven(c, key)
    {
      FilledMeansGiven(c, key);
    }
  }

  /** A resume that is let through puts the module on the runtime and takes it off the list of frozen ones. */
  lemma ResumeActivates(reg: Registry, actions: seq<Action>, id: Id)
    requires Legal(reg, actions + [Resume(id)])
    ensures var s := Run(reg, actions + [Resume(id)]);
            && id !in s.frozen && Find(s.configs, id).Some?
            && Find(s.configs, id).value.enabled && Find(s.configs, id).value.runtimeStatus == Some(Active)
  {
    var all := actions + [Resume(id)];
    assert all[..|all| - 1] == actions;
    var s := Run(reg, actions);
    var i := IndexOf(s.configs, id);
    var t := Apply(reg, s, Resume(id));
    assert t.configs[i].moduleId == id && forall j :: 0 <= j < i ==> t.configs[j] == s.configs[j];
    FirstOf(s.configs, id);
    FirstIs(t.configs, id, i);
  }

  lemma {:induction false} FirstOf(entries: seq<Config>, id: Id)
    ensures forall j :: 0 <= j < IndexOf(entries, id) ==> entries[j].moduleId != id
  {
    if entries != [] && entries[0].moduleId != id {
      FirstOf(entries[1..], id);
      assert forall j :: 1 <= j < |entries| ==> entries[j] == entries[1..][j - 1];
    }
  }

  lemma {:induction false} FirstIs(entries: seq<Config>, id: Id, i: nat)
    requires i < |entries| && entries[i].moduleId == id && forall j :: 0 <= j < i ==> entries[j].moduleId != id
    ensures IndexOf(entries, id) == i
  {
    if i > 0 {
      assert entries[1..][i - 1] == entries[i] && forall j :: 0 <= j < i - 1 ==> entries[1..][j] == entries[j + 1];
      FirstIs(entries[1..], id, i - 1);
    }
  }

  /** No resume of `id` among the actions. */
  predicate NoResume(actions: seq<Action>, id: Id) {
    forall i :: 0 <= i < |actions| ==> actions[i] != Resume(id)
  }

  lemma RunSnoc(reg: Registry, actions: seq<Action>, a: Action)
    ensures Run(reg, actions + [a]) == Apply(reg, Run(reg, actions), a)
  {
    assert (actions + [a])[..|actions|] == actions;
  }

  lemma {:induction false} StaysFrozenAlong(reg: Registry, first: seq<Action>, rest: seq<Action>, id: Id)
    requires id in Run(reg, first).frozen && NoResume(rest, id)
    ensures id in Run(reg, first + rest).frozen
  {
    if rest == [] {
      assert first + rest == first;
    } else {
      var n := |rest| - 1;
      StaysFrozenAlong(reg, first, rest[..n], id);
      assert first + rest == first + rest[..n] + [rest[n]];
      RunSnoc(reg, first + rest[..n], rest[n]);
      StaysFrozen(reg, Run(reg, first + rest[..n]), rest[n], id);
    }
  }

  lemma {:induction false} LegalPrefix(reg: Registry, first: seq<Action>, rest: seq<Action>)
    requires Legal(reg, first + rest)
    ensures Legal(reg, first)
  {
    if rest == [] {
      assert first + rest == first;
    } else {
      var all := first + rest;
      assert all[..|all| - 1] == first + rest[..|rest| - 1];
      LegalPrefix(reg, first, rest[..|rest| - 1]);
    }
  }

  /**
   * A module that a save turned off stays off the runtime, whatever later saves turn on and rewrite, until
   * somebody resumes its delivery.
   */
  lemma OnlyResumeThaws(reg: Registry, before: seq<Action>, next: seq<Config>, after: seq<Action>, i: nat)
    requires Legal(reg, before + [Save(next)] + after)
    requires i < |next| && next[i].moduleId in reg.defs && DisableEdge(Run(reg, before), next[i])
    requires NoResume(after, next[i].moduleId)
    ensures var s := Run(reg, before + [Save(next)] + after); var id := next[i].moduleId;
            && id in s.frozen
            && Find(s.configs, id).Some? && ReadRuntimeStatus(Find(s.configs, id).value).Suspended?
  {
    LegalPrefix(reg, before + [Save(next)], after);
    SaveIsUnique(reg, before, next);
    RunSnoc(reg, before, Save(next));
    FrozenAfterSave(reg, Run(reg, before), next, i);
    StaysFrozenAlong(reg, before + [Save(next)], after, next[i].moduleId);
    FrozenIsSuspended(reg, before + [Save(next)] + after, next[i].moduleId);
  }

  lemma SaveIsUnique(reg: Registry, before: seq<Action>, next: seq<Config>)
    requires Legal(reg, before + [Save(next)])
    ensures Unique(next)
  {
    var all := before + [Save(next)];
    assert all[..|all| - 1] == before;
  }

  lemma StaysFrozen(reg: Registry, s: State, a: Action, id: Id)
    requires id in s.frozen && a != Resume(id)
    ensures id in Apply(reg, s, a).frozen
  {
  }

  lemma FrozenIsSuspended(reg: Registry, actions: seq<Action>, id: Id)
    requires Legal(reg, actions) && id in reg.defs && id in Run(reg, actions).frozen
    ensures var s := Run(reg, actions);
            Find(s.configs, id).Some?
            && ReadRuntimeStatus(Find(s.configs, id).value).Suspended?
  {
    RunKeepsInv(reg, actions);
    var s := Run(reg, actions);
    var k :| 0 <= k < |s.configs| && s.configs[k].moduleId == id;
    assert EntryOk(s.configs[IndexOf(s.configs, id)], true);
  }

  // ---------------------------------------------------------------- the projection

  datatype Projection = Projection(moduleId: Id, enabled: bool, contributing: bool, runtimeActive: bool)

  /** One entry per configured or effectively enabled module: it contributes when enabled, and runs when also active. */
  ghost predicate IsProjection(reg: Registry, configs: seq<Config>, ps: seq<Projection>) {
    && (forall i :: 0 <= i < |ps| ==>
                      && ps[i].enabled == ps[i].contributing
                      && (ps[i].enabled <==> EffectivelyEnabled(reg, configs, ps[i].moduleId))
                      && (ps[i].runtimeActive <==> ps[i].enabled && LastStatus(configs, ps[i].moduleId).Active?))
    && (forall x ::
         (exists i :: 0 <= i < |ps| && ps[i].moduleId == x)
         <==> x in Ids(configs) || EffectivelyEnabled(reg, configs, x))
  }

  method ComputeEffectiveModuleProjection(reg: Registry, configs: seq<Config>) returns (ps: seq<Projection>)
    requires ModuleGraph.WellFormed(reg)
    ensures IsProjection(reg, configs, ps)
  {
    var effective := ExtractEnabledModules(reg, configs);
    var ids := ProjectedIds(configs, effective);
    ps := [];
    for i := 0 to |ids|
      invariant |ps| == i
      invariant forall k :: 0 <= k < i ==>
                              ps[k] == Projection(ids[k], ids[k] in effective, ids[k] in effective,
                                                  ids[k] in effective && LastStatus(configs, ids[k]).Active?)
    {
      var enabled := ids[i] in effective;
      ps := ps + [Projection(ids[i], enabled, enabled, enabled && LastStatus(configs, ids[i]).Active?)];
    }
    forall x ensures (exists i :: 0 <= i < |ps| && ps[i].moduleId == x)
        <==> x in Ids(configs) || EffectivelyEnabled(reg, configs, x) {
      if x in Elems(ids) {
        var i :| 0 <= i < |ids| && ids[i] == x;
        assert ps[i].moduleId == x;
      }
      assert x in Elems(effective) <==> EffectivelyEnabled(reg, configs, x);
    }
  }

  /** The configured and the effectively enabled ids, once each. */
  method ProjectedIds(configs: seq<Config>, effective: seq<Id>) returns (ids: seq<Id>)
    ensures Elems(ids) == Ids(configs) + Elems(effective)
  {
    ids := [];
    for i := 0 to |configs|
      invariant Elems(ids) == set k | 0 <= k < i :: configs[k].moduleId
    {
      ids := Add(ids, configs[i].moduleId);
    }
    assert Elems(ids) == Ids(configs);
    for i := 0 to |effective|
      invariant Elems(ids) == Ids(configs) + Elems(effective[..i])
    {
      ids := Add(ids, effective[i]);
      assert Elems(effective[..i + 1]) == Elems(effective[..i]) + {effective[i]};
    }
    assert effective[..|effective|] == effective;
  }

  /** The status map: the last entry of a module counts, a module without one is active. */
  function LastStatus(configs: seq<Config>, id: Id): RuntimeStatus {
    if configs == [] then Active
    else if configs[|configs| - 1].moduleId == id then ReadRuntimeStatus(configs[|configs| - 1])
    else LastStatus(configs[..|configs| - 1], id)
  }

  lemma {:induction false} LastStatusOfUnique(configs: seq<Config>, i: nat)
    requires Unique(configs) && i < |configs|
    ensures LastStatus(configs, configs[i].moduleId) == ReadRuntimeStatus(configs[i])
  {
    if i < |configs| - 1 {
      LastStatusOfUnique(configs[..|configs| - 1], i);
    }
  }

  /**
   * A frozen module, and one that still needs configuration, is never projected as running, even if others pull it in.
   */
  lemma FrozenIsNeverProjectedActive(reg: Registry, actions: seq<Action>, ps: seq<Projection>, k: nat, i: nat)
    requires Legal(reg, actions) && i < |Run(reg, actions).configs| && k < |ps|
    requires var s := Run(reg, actions);
             && IsProjection(reg, s.configs, ps) && ps[k].moduleId == s.configs[i].moduleId
                && s.configs[i].moduleId in reg.defs
             && (s.configs[i].moduleId in s.frozen || s.configs[i].configState == Some(NeedsConfig))
    ensures !ps[k].runtimeActive && Run(reg, actions).configs[i].runtimeStatus == Some(Suspended)
  {
    RunKeepsInv(reg, actions);
    LastStatusOfUnique(Run(reg, actions).configs, i);
  }

  // ---------------------------------------------------------------- the save path really carries over

  lemma IdsOfFirst(cs: seq<Config>)
    requires cs != [] && Unique(cs)
    ensures Unique(cs[1..]) && cs[0].moduleId !in Ids(cs[1..]) && Ids(cs) == Ids(cs[1..]) + {cs[0].moduleId}
  {
    forall id | id in Ids(cs) ensures id in Ids(cs[1..]) + {cs[0].moduleId} {
      var k :| 0 <= k < |cs| && cs[k].moduleId == id;
      assert k > 0 ==> cs[1..][k - 1].moduleId == id;
    }
    forall id | id in Ids(cs[1..]) ensures id in Ids(cs) {
      var k :| 0 <= k < |cs| - 1 && cs[1..][k].moduleId == id;
      assert cs[k + 1].moduleId == id;
    }
    assert cs[0].moduleId in Ids(cs);
  }

  /** Merging one config puts an entry with its runtime fields in place and leaves the others. */
  lemma MergedKeepsRuntime(reg: Registry, entries: seq<Config>, c: Config)
    requires Unique(entries) && c.moduleId in reg.defs
    requires forall e :: e in entries && e.moduleId == c.moduleId ==> SameRuntime(e, None)
    ensures var next := MergeOne(reg, entries, AsRaw(c));
            && Unique(next)
            && (forall e :: e in next ==> e in entries || (e.moduleId == c.moduleId && SameRuntime(e, Some(c))))
            && (forall e :: e in next && e.moduleId == c.moduleId ==> SameRuntime(e, Some(c)))
  {
    var merged := Merged(reg.defs[c.moduleId], c.moduleId, Find(entries, c.moduleId), AsRaw(c));
    PutFacts(entries, merged);
    if Find(entries, c.moduleId).Some? {
      assert Find(entries, c.moduleId).value in entries;
    }
  }

  lemma {:induction false} MergeKeepsRuntime(reg: Registry, entries: seq<Config>, cs: seq<Config>, cfg: Config)
    requires Unique(entries) && Unique(cs) && cfg in MergeAll(reg, entries, AsRaws(cs))
    requires forall e :: e in entries && e.moduleId in Ids(cs) ==> SameRuntime(e, None)
    ensures if cfg.moduleId in Ids(cs) && cfg.moduleId in reg.defs
            then exists c :: c in cs && c.moduleId == cfg.moduleId && SameRuntime(cfg, Some(c))
            else cfg in entries
    decreases |cs|
  {
    if cs != [] {
      var c := cs[0];
      var raws := AsRaws(cs);
      assert raws[0] == AsRaw(c) && raws[1..] == AsRaws(cs[1..]);
      var next := MergeOne(reg, entries, raws[0]);
      IdsOfFirst(cs);
      if c.moduleId in reg.defs {
        MergedKeepsRuntime(reg, entries, c);
      }
      MergeKeepsRuntime(reg, next, cs[1..], cfg);
    }
  }

  /**
   * `normalizeModuleConfigs` over edited stored entries is a save in the above sense: it keeps all entries of
   * registered modules with their runtime fields, and drops the unregistered ones it was given.
   */
  lemma NormalizeCarriesOver(reg: Registry, ids: seq<Id>, stored: seq<Config>, edited: seq<Config>, out: seq<Config>)
    requires NormalForm(reg, ids, AsRaws(edited), out) && CarriesOver(reg, stored, edited)
    ensures CarriesOver(reg, stored, out)
  {
    var resolved :| Resolves(reg, ids, resolved) && Normalized(reg, resolved, AsRaws(edited), out);
    var base := MergeAll(reg, Defaults(resolved), AsRaws(edited));
    MergeAllFacts(reg, Defaults(resolved), AsRaws(edited));
    NormalizeKeepsIds(reg, resolved, edited, out);
    forall i | 0 <= i < |out| && out[i].moduleId in reg.defs
      ensures SameRuntime(out[i], Find(stored, out[i].moduleId))
    {
      BaseCarriesOver(reg, resolved, stored, edited, base[i]);
    }
  }

  lemma NormalizeKeepsIds(reg: Registry, resolved: seq<Id>, edited: seq<Config>, out: seq<Config>)
    requires NoDup(resolved) && Normalized(reg, resolved, AsRaws(edited), out)
    ensures forall id :: id in Ids(edited) && id in reg.defs ==> id in Ids(out)
  {
    var base := MergeAll(reg, Defaults(resolved), AsRaws(edited));
    forall id | id in Ids(edited) && id in reg.defs ensures id in Ids(out) {
      MergeKeepsId(reg, resolved, edited, id);
      var j :| 0 <= j < |base| && base[j].moduleId == id;
      assert out[j].moduleId == id;
    }
  }

  lemma MergeKeepsId(reg: Registry, resolved: seq<Id>, edited: seq<Config>, id: Id)
    requires NoDup(resolved) && id in Ids(edited) && id in reg.defs
    ensures id in Ids(MergeAll(reg, Defaults(resolved), AsRaws(edited)))
  {
    MergeAllFacts(reg, Defaults(resolved), AsRaws(edited));
    var k :| 0 <= k < |edited| && edited[k].moduleId == id;
    assert AsRaws(edited)[k] in AsRaws(edited);
  }

  lemma BaseCarriesOver(reg: Registry, resolved: seq<Id>, stored: seq<Config>, edited: seq<Config>, cfg: Config)
    requires NoDup(resolved) && CarriesOver(reg, stored, edited)
             && cfg in MergeAll(reg, Defaults(resolved), AsRaws(edited))
    requires cfg.moduleId in reg.defs
    ensures SameRuntime(cfg, Find(stored, cfg.moduleId))
  {
    MergeKeepsRuntime(reg, Defaults(resolved), edited, cfg);
    if cfg.moduleId in Ids(edited) {
      var c :| c in edited && c.moduleId == cfg.moduleId && SameRuntime(cfg, Some(c));
      EditedCarriesOver(reg, stored, edited, c);
    } else {
      assert cfg in Defaults(resolved);
      assert cfg.moduleId !in Ids(stored);
    }
  }

  lemma EditedCarriesOver(reg: Registry, stored: seq<Config>, edited: seq<Config>, c: Config)
    requires CarriesOver(reg, stored, edited) && c in edited && c.moduleId in reg.defs
    ensures SameRuntime(c, Find(stored, c.moduleId))
  {
    var m :| 0 <= m < |edited| && edited[m] == c;
    assert SameRuntime(edited[m], Find(stored, edited[m].moduleId));
  }
}
