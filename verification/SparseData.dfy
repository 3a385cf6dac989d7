/** User configs and files are stored only where they differ from the defaults of the module, and
    merged with the defaults again when containers are created
    (pkg/components/handler/deployments/configs.go, files.go, recreate.go). */
module SparseData {
  import opened Prelude
  import opened ConfigValues
  import opened ConfigRows

  datatype ModuleConfig = ModuleConfig(default: Option<Any>, dataType: int, isSlice: bool, required: bool)

  type ModuleConfigs = map<string, ModuleConfig>

  type Values = map<string, Value>

  type UserConfigs = map<string, UserConfig>

  // ----- Defaults -----

  ghost predicate IsDefault(config: ModuleConfig, v: Value) {
    && config.default.Some?
    && Decodable(config.default.value, config.dataType, config.isSlice)
    && Decoded(config.default.value, config.dataType, config.isSlice, v)
  }

  ghost predicate BadDefault(config: ModuleConfig) {
    config.default.Some? && !Decodable(config.default.value, config.dataType, config.isSlice)
  }

  method GetDefaultConfigs(moduleConfigs: ModuleConfigs) returns (defaults: Option<Values>)
    ensures defaults.Some? <==> forall ref | ref in moduleConfigs :: !BadDefault(moduleConfigs[ref])
    ensures defaults.Some? ==> forall ref ::
                ref in defaults.value <==> ref in moduleConfigs && moduleConfigs[ref].default.Some?
    ensures defaults.Some? ==> forall ref | ref in defaults.value :: IsDefault(moduleConfigs[ref], defaults.value[ref])
  {
    var configs: Values, failed := map[], false;
    var todo := moduleConfigs.Keys;
    while todo != {}
      invariant todo <= moduleConfigs.Keys
      invariant failed <==> exists ref :: ref in moduleConfigs && ref !in todo && BadDefault(moduleConfigs[ref])
      invariant !failed ==> forall ref ::
                  ref in configs <==> ref in moduleConfigs && ref !in todo && moduleConfigs[ref].default.Some?
      invariant forall ref | ref in configs :: ref in moduleConfigs && IsDefault(moduleConfigs[ref], configs[ref])
    {
      var ref :| ref in todo;
      todo := todo - {ref};
      var config := moduleConfigs[ref];
      if config.default.None? {
        continue;
      }
      var value := GetValue(config.default.value, config.dataType, config.isSlice);
      if value.None? {
        failed := true;
        continue;
      }
      configs := configs[ref := value.value];
    }
    return if failed then None else Some(configs);
  }

  // ----- What is stored -----

  ghost function Provided(declared: set<string>, defaults: Values, inputs: Values, deploymentId: string): UserConfigs {
    map ref | ref in declared && ref in inputs && !(ref in defaults && ValueIsEqual(inputs[ref], defaults[ref])) ::
      UserConfig(ConfigId(deploymentId, ref), deploymentId, ref, inputs[ref])
  }

  /** Stored is what is declared and given, unless it equals the default. */
  lemma ProvidedAre(declared: set<string>, defaults: Values, inputs: Values, deploymentId: string, ref: string)
    requires ref in inputs && Supported(inputs[ref].dataType)
    ensures ref in Provided(declared, defaults, inputs, deploymentId) <==>
            ref in declared && (ref in defaults ==> Normalize(inputs[ref]) != Normalize(defaults[ref]))
    ensures ref in Provided(declared, defaults, inputs, deploymentId) ==>
              var config := Provided(declared, defaults, inputs, deploymentId)[ref];
              && config.deploymentId == deploymentId && config.reference == ref && config.value == inputs[ref]
  {
    if ref in defaults {
      EqualMeansSameNormalForm(inputs[ref], defaults[ref]);
    }
  }

  method GetProvidedConfigs(moduleConfigs: ModuleConfigs, defaults: Values, inputs: Values, deploymentId: string)
    returns (configs: UserConfigs)
    ensures configs == Provided(moduleConfigs.Keys, defaults, inputs, deploymentId)
  {
    configs := map[];
    var todo := moduleConfigs.Keys;
    while todo != {}
      invariant todo <= moduleConfigs.Keys
      invariant configs == Provided(moduleConfigs.Keys - todo, defaults, inputs, deploymentId)
    {
      var ref :| ref in todo;
      todo := todo - {ref};
      if ref !in inputs {
        continue;
      }
      if ref in defaults && ValueIsEqual(inputs[ref], defaults[ref]) {
        continue;
      }
      configs := configs[ref := UserConfig(ConfigId(deploymentId, ref), deploymentId, ref, inputs[ref])];
    }
    assert moduleConfigs.Keys - todo == moduleConfigs.Keys;
  }

  // ----- What is merged -----

  function ValuesOf(userConfigs: UserConfigs): Values {
    map ref | ref in userConfigs :: userConfigs[ref].value
  }

  /** `base` with the values of `over` except those still to do. */
  ghost function Overridden<V>(base: map<string, V>, over: map<string, V>, todo: set<string>): map<string, V> {
    base + (over - todo)
  }

  lemma OneMoreOverridden<V>(base: map<string, V>, over: map<string, V>, todo: set<string>, ref: string)
    requires ref in todo && ref in over
    ensures Overridden(base, over, todo - {ref}) == Overridden(base, over, todo)[ref := over[ref]]
  {
  }

  ghost function Merged(defaults: Values, userConfigs: UserConfigs, globals: Values): Values {
    defaults + ValuesOf(userConfigs) + globals
  }

  /** Entries of `over` replace those of `base`. */
  method CopyOver<V(!new)>(base: map<string, V>, over: map<string, V>) returns (merged: map<string, V>)
    ensures merged == base + over
  {
    merged := base;
    var todo := over.Keys;
    while todo != {}
      invariant todo <= over.Keys
      invariant merged == Overridden(base, over, todo)
    {
      var ref :| ref in todo;
      OneMoreOverridden(base, over, todo, ref);
      todo := todo - {ref};
      merged := merged[ref := over[ref]];
    }
    assert over - {} == over;
  }

  method MergeConfigs(defaults: Values, userConfigs: UserConfigs, globals: Values) returns (configs: Values)
    ensures configs == Merged(defaults, userConfigs, globals)
    ensures configs.Keys == defaults.Keys + userConfigs.Keys + globals.Keys
    ensures forall ref | ref in configs ::
              configs[ref] == if ref in globals then globals[ref]
                              else if ref in userConfigs then userConfigs[ref].value else defaults[ref]
  {
    configs := CopyOver(defaults, ValuesOf(userConfigs));
    configs := CopyOver(configs, globals);
  }

  method CheckConfigs(moduleConfigs: ModuleConfigs, configs: Values) returns (ok: bool)
    ensures ok <==> forall ref | ref in moduleConfigs && moduleConfigs[ref].required :: ref in configs
  {
    var required: seq<string> := [];
    var todo := moduleConfigs.Keys;
    while todo != {}
      invariant todo <= moduleConfigs.Keys
      invariant required == [] <==> forall ref | ref in moduleConfigs && ref !in todo && moduleConfigs[ref].required ::
                  ref in configs
    {
      var ref :| ref in todo;
      todo := todo - {ref};
      if ref !in configs && moduleConfigs[ref].required {
        required := required + [ref];
      }
    }
    ok := |required| == 0;
  }

  /** The meaning: declared inputs override the defaults, globals override both. */
  ghost function Effective(declared: set<string>, defaults: Values, inputs: Values, globals: Values): Values {
    defaults + (map ref | ref in declared && ref in inputs :: inputs[ref]) + globals
  }

  ghost predicate SameAt(a: Values, b: Values, ref: string) {
    (ref in a <==> ref in b) && (ref in a ==> a[ref] == b[ref] || ValueIsEqual(b[ref], a[ref]))
  }

  lemma SparseConfigLosesNothing(declared: set<string>, defaults: Values, inputs: Values, globals: Values,
                                 deploymentId: string, ref: string)
    ensures SameAt(Merged(defaults, Provided(declared, defaults, inputs, deploymentId), globals),
                   Effective(declared, defaults, inputs, globals), ref)
  {
  }

  /** Storing only the differences loses nothing: every config has a value exactly if it should,
      and it is the right one, up to fields that do not count. */
  lemma SparseConfigsLoseNothing(declared: set<string>, defaults: Values, inputs: Values, globals: Values,
                                 deploymentId: string)
    ensures var merged := Merged(defaults, Provided(declared, defaults, inputs, deploymentId), globals);
            var effective := Effective(declared, defaults, inputs, globals);
            && merged.Keys == effective.Keys
            && forall ref | ref in merged :: merged[ref] == effective[ref] || ValueIsEqual(effective[ref], merged[ref])
  {
    var merged := Merged(defaults, Provided(declared, defaults, inputs, deploymentId), globals);
    var effective := Effective(declared, defaults, inputs, globals);
    forall ref ensures SameAt(merged, effective, ref) {
      SparseConfigLosesNothing(declared, defaults, inputs, globals, deploymentId, ref);
    }
    forall ref ensures ref in merged.Keys <==> ref in effective.Keys { assert SameAt(merged, effective, ref); }
    forall ref | ref in merged ensures merged[ref] == effective[ref] || ValueIsEqual(effective[ref], merged[ref]) {
      assert SameAt(merged, effective, ref);
    }
  }

  /** For values as they are decoded from the input this is equality. */
  lemma SparseCanonicalConfigs(declared: set<string>, defaults: Values, inputs: Values, globals: Values,
                               deploymentId: string)
    requires forall ref | ref in defaults :: Canonical(defaults[ref])
    requires forall ref | ref in inputs :: Canonical(inputs[ref])
    ensures Merged(defaults, Provided(declared, defaults, inputs, deploymentId), globals) ==
            Effective(declared, defaults, inputs, globals)
  {
    SparseConfigsLoseNothing(declared, defaults, inputs, globals, deploymentId);
    var provided := Provided(declared, defaults, inputs, deploymentId);
    var merged := Merged(defaults, provided, globals);
    var effective := Effective(declared, defaults, inputs, globals);
    forall ref | ref in merged ensures merged[ref] == effective[ref] {
      if ref !in globals && ref in inputs && ref in declared && ref in defaults {
        EqualMeansSameNormalForm(inputs[ref], defaults[ref]);
      }
    }
  }

  // ----- Files -----

  type Data = seq<nat>

  datatype ModuleFile = ModuleFile(defaultData: Data, required: bool)

  type Files = map<string, Data>

  ghost function DefaultFiles(moduleFiles: map<string, ModuleFile>): Files {
    map ref | ref in moduleFiles && moduleFiles[ref].defaultData != [] :: moduleFiles[ref].defaultData
  }

  method GetDefaultFiles(moduleFiles: map<string, ModuleFile>) returns (files: Files)
    ensures files == DefaultFiles(moduleFiles)
    ensures forall ref :: ref in files <==> ref in moduleFiles && |moduleFiles[ref].defaultData| > 0
    ensures forall ref | ref in files :: files[ref] == moduleFiles[ref].defaultData
  {
    files := map[];
    var todo := moduleFiles.Keys;
    while todo != {}
      invariant todo <= moduleFiles.Keys
      invariant files == map ref | ref in moduleFiles && ref !in todo && moduleFiles[ref].defaultData != [] ::
                  moduleFiles[ref].defaultData
    {
      var ref :| ref in todo;
      todo := todo - {ref};
      if |moduleFiles[ref].defaultData| > 0 {
        files := files[ref := moduleFiles[ref].defaultData];
      }
    }
  }

  ghost function ProvidedFiles(declared: set<string>, defaults: Files, inputs: Files): Files {
    map ref |
      && ref in declared && ref in inputs && inputs[ref] != []
      && !(ref in defaults && inputs[ref] == defaults[ref]) ::
      inputs[ref]
  }

  method GetProvidedFiles(moduleFiles: map<string, ModuleFile>, defaults: Files, inputs: Files) returns (files: Files)
    ensures files == ProvidedFiles(moduleFiles.Keys, defaults, inputs)
    ensures forall ref :: ref in files <==> && ref in moduleFiles && ref in inputs && |inputs[ref]| > 0
                                            && (ref in defaults ==> inputs[ref] != defaults[ref])
    ensures forall ref | ref in files :: files[ref] == inputs[ref]
  {
    files := map[];
    var todo := moduleFiles.Keys;
    while todo != {}
      invariant todo <= moduleFiles.Keys
      invariant files == ProvidedFiles(moduleFiles.Keys - todo, defaults, inputs)
    {
      var ref :| ref in todo;
      todo := todo - {ref};
      if ref !in inputs || |inputs[ref]| == 0 {
        continue;
      }
      if ref in defaults && inputs[ref] == defaults[ref] {
        continue;
      }
      files := files[ref := inputs[ref]];
    }
    assert moduleFiles.Keys - todo == moduleFiles.Keys;
  }

  method MergeFiles(defaults: Files, userFiles: Files) returns (files: Files)
    ensures files == defaults + userFiles
  {
    files := CopyOver(defaults, userFiles);
  }

  method CheckFiles(moduleFiles: map<string, ModuleFile>, files: Files) returns (ok: bool)
    ensures ok <==> forall ref | ref in moduleFiles && moduleFiles[ref].required :: ref in files
  {
    var required: seq<string> := [];
    var todo := moduleFiles.Keys;
    while todo != {}
      invariant todo <= moduleFiles.Keys
      invariant required == [] <==> forall ref | ref in moduleFiles && ref !in todo && moduleFiles[ref].required ::
                  ref in files
    {
      var ref :| ref in todo;
      todo := todo - {ref};
      if ref !in files && moduleFiles[ref].required {
        required := required + [ref];
      }
    }
    ok := |required| == 0;
  }

  /** An empty input file leaves the default in place, any other declared one overrides it. */
  lemma SparseFilesLoseNothing(declared: set<string>, defaults: Files, inputs: Files)
    ensures defaults + ProvidedFiles(declared, defaults, inputs) ==
            defaults + (map ref | ref in declared && ref in inputs && inputs[ref] != [] :: inputs[ref])
  {
  }

  // ----- Global configs -----

  /** The cache of a batch has nothing that is not stored like that. */
  ghost predicate IsCached(cache: Values, stored: Values) {
    forall id | id in cache :: id in stored && cache[id] == stored[id]
  }

  /** `selected` has the id of a global config for some references; `stored` has all of them. */
  method UpdateGlobalConfigsCache(env: Environment, stored: Values, selected: map<string, string>, cache: Values)
    returns (cache': Values, ok: bool)
    requires IsCached(cache, stored)
    ensures IsCached(cache', stored) && cache.Keys <= cache'.Keys
    ensures ok ==> forall ref | ref in selected :: selected[ref] in cache'
    ensures env.reliable ==> (ok <==> forall ref | ref in selected :: selected[ref] in stored)
  {
    var idsNotInCache := set ref | ref in selected && selected[ref] !in cache :: selected[ref];
    if idsNotInCache == {} {
      assert forall ref | ref in selected && selected[ref] !in cache :: selected[ref] in idsNotInCache;
      return cache, true;
    }
    var failed := env.Fails();
    if failed {
      return cache, false;
    }
    cache' := cache + map id | id in idsNotInCache && id in stored :: stored[id];
    ok := idsNotInCache <= cache'.Keys;
    assert forall ref | ref in selected && selected[ref] !in cache :: selected[ref] in idsNotInCache;
  }

  /** What is selected for a declared reference and cached, except those still to do. */
  ghost function GlobalValues(declared: set<string>, selected: map<string, string>, cache: Values,
                              todo: set<string>): Values {
    map ref | ref in selected && ref !in todo && selected[ref] in cache && ref in declared :: cache[selected[ref]]
  }

  /** `valid` is the validation of a value for a config, which belongs to an external library. */
  method GetGlobalConfigs(valid: (Value, ModuleConfig) -> bool, moduleConfigs: ModuleConfigs,
                          selected: map<string, string>, cache: Values)
    returns (globals: Option<Values>)
    ensures globals.Some? <==> forall ref | ref in selected && selected[ref] in cache && ref in moduleConfigs ::
              valid(cache[selected[ref]], moduleConfigs[ref])
    ensures globals.Some? ==> globals.value == GlobalValues(moduleConfigs.Keys, selected, cache, {})
    ensures globals.Some? ==> forall ref ::
                ref in globals.value <==> ref in selected && ref in moduleConfigs && selected[ref] in cache
    ensures globals.Some? ==> forall ref | ref in globals.value :: globals.value[ref] == cache[selected[ref]]
  {
    var configs: Values, failed := map[], false;
    var todo := selected.Keys;
    while todo != {}
      invariant todo <= selected.Keys
      invariant !failed <==>
                  forall ref | ref in selected && ref !in todo && selected[ref] in cache && ref in moduleConfigs ::
                  valid(cache[selected[ref]], moduleConfigs[ref])
      invariant !failed ==> configs == GlobalValues(moduleConfigs.Keys, selected, cache, todo)
    {
      var ref :| ref in todo;
      todo := todo - {ref};
      if selected[ref] !in cache || ref !in moduleConfigs {
        continue;
      }
      if !valid(cache[selected[ref]], moduleConfigs[ref]) {
        failed := true;
        continue;
      }
      configs := configs[ref := cache[selected[ref]]];
    }
    return if failed then None else Some(configs);
  }

  /** Once the cache is up to date no selected config is skipped, whatever else is in the cache. */
  lemma GlobalsAreTheStoredOnes(declared: set<string>, stored: Values, selected: map<string, string>, cache: Values)
    requires IsCached(cache, stored) && forall ref | ref in selected :: selected[ref] in cache
    ensures GlobalValues(declared, selected, cache, {}) == GlobalValues(declared, selected, stored, {})
    ensures GlobalValues(declared, selected, stored, {}).Keys == declared * selected.Keys
  {
  }

  // ----- Create and recreate -----

  method MergeDefaultAndUserData(moduleConfigs: ModuleConfigs, moduleFiles: map<string, ModuleFile>, defaults: Values,
                                 defaultFiles: Files, userConfigs: UserConfigs, userFiles: Files, globals: Values)
    returns (merged: Option<(Values, Files)>)
    ensures merged.Some? <==>
            && (forall ref | ref in moduleConfigs && moduleConfigs[ref].required ::
                  ref in defaults || ref in userConfigs || ref in globals)
            && (forall ref | ref in moduleFiles && moduleFiles[ref].required :: ref in defaultFiles || ref in userFiles)
    ensures merged.Some? ==> merged.value == (Merged(defaults, userConfigs, globals), defaultFiles + userFiles)
  {
    var configs := MergeConfigs(defaults, userConfigs, globals);
    assert forall ref :: ref in configs <==> ref in defaults || ref in userConfigs || ref in globals;
    var ok := CheckConfigs(moduleConfigs, configs);
    if !ok {
      return None;
    }
    var files := MergeFiles(defaultFiles, userFiles);
    ok := CheckFiles(moduleFiles, files);
    return if ok then Some((configs, files)) else None;
  }

  /** The exception: a declared empty list that is not the default is stored without value rows,
      and by the contract of the reader nothing that includes it can be read again. */
  lemma EmptyListsAreStoredWithoutRows(declared: set<string>, defaults: Values, inputs: Values, deploymentId: string)
    requires forall ref | ref in inputs :: Canonical(inputs[ref])
    ensures (exists ref :: ref in Provided(declared, defaults, inputs, deploymentId)
                           && Count(Provided(declared, defaults, inputs, deploymentId)[ref].value) == 0)
            <==> exists ref :: ref in declared && ref in inputs && inputs[ref] == Zero(inputs[ref].dataType, true)
                               && (ref in defaults ==> !ValueIsEqual(inputs[ref], defaults[ref]))
  {
    var provided := Provided(declared, defaults, inputs, deploymentId);
    forall ref | ref in inputs ensures Count(inputs[ref]) == 0 <==> inputs[ref] == Zero(inputs[ref].dataType, true) {}
    if ref :| ref in declared && ref in inputs && inputs[ref] == Zero(inputs[ref].dataType, true)
              && (ref in defaults ==> !ValueIsEqual(inputs[ref], defaults[ref])) {
      assert ref in provided && Count(provided[ref].value) == 0;
    }
  }
}
