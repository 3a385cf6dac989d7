/** Storing typed user configs as rows of two tables and reading them back
    (pkg/components/handler/database/configs.go, deployments_create.go, deployments_read.go). */
module ConfigRows {
  import opened Prelude
  import opened ConfigValues

  datatype UserConfig = UserConfig(id: string, deploymentId: string, reference: string, value: Value)

  /** A row of `dep_configs`; its primary key is the config id. */
  datatype ConfigRow = ConfigRow(deploymentId: string, reference: string, dataType: int, isList: bool)

  /** A row of `dep_config_values`, unique in (c_id, ord). None is NULL. */
  datatype Cell = Cell(vString: Option<string>, vInt: Option<int>, vFloat: Option<real>, vBool: Option<bool>)

  datatype ValueKey = ValueKey(id: string, ord: nat)

  type ConfigTable = map<string, ConfigRow>

  type ValueTable = map<ValueKey, Cell>

  const NULLS := Cell(None, None, None, None)

  /** How many value rows a config takes. */
  function Count(v: Value): nat {
    if !v.isSlice then 1
    else if v.dataType == STRING_TYPE then |v.strs|
    else if v.dataType == INT64_TYPE then |v.int64s|
    else if v.dataType == FLOAT64_TYPE then |v.float64s|
    else if v.dataType == BOOL_TYPE then |v.booleans| else 0
  }

  /** The row of element `i`: the value goes into the column of its type. */
  function CellOf(v: Value, i: nat): Cell
    requires i < Count(v)
  {
    if v.dataType == STRING_TYPE then NULLS.(vString := Some(if v.isSlice then v.strs[i] else v.str))
    else if v.dataType == INT64_TYPE then NULLS.(vInt := Some(if v.isSlice then v.int64s[i] else v.int64))
    else if v.dataType == FLOAT64_TYPE then NULLS.(vFloat := Some(if v.isSlice then v.float64s[i] else v.float64))
    else if v.dataType == BOOL_TYPE then NULLS.(vBool := Some(if v.isSlice then v.booleans[i] else v.boolean))
    else NULLS
  }

  /** In the row of an element exactly the column of its type has a value. */
  lemma CellHasOneColumn(v: Value, i: nat)
    requires i < Count(v)
    ensures var cell := CellOf(v, i);
            && (cell.vString.Some? <==> v.dataType == STRING_TYPE)
            && (cell.vInt.Some? <==> v.dataType == INT64_TYPE)
            && (cell.vFloat.Some? <==> v.dataType == FLOAT64_TYPE)
            && (cell.vBool.Some? <==> v.dataType == BOOL_TYPE)
  {
  }

  function RowOf(config: UserConfig): ConfigRow {
    ConfigRow(config.deploymentId, config.reference, config.value.dataType, config.value.isSlice)
  }

  /** A value of unknown type has no column to go into, but a list of it has no rows either. */
  predicate Writable(v: Value) {
    Supported(v.dataType) || Count(v) == 0
  }

  type Stored = map<string, UserConfig>

  ghost predicate EncodesRows(configs: ConfigTable, stored: Stored) {
    && configs.Keys == stored.Keys
    && (forall id | id in stored ::
          stored[id].id == id && configs[id] == RowOf(stored[id]) && Writable(stored[id].value))
  }

  ghost predicate EncodesValues(values: ValueTable, stored: Stored) {
    && (forall key | key in values :: key.id in stored && key.ord < Count(stored[key.id].value))
    && (forall id, i: nat | id in stored && i < Count(stored[id].value) ::
          ValueKey(id, i) in values && values[ValueKey(id, i)] == CellOf(stored[id].value, i))
  }

  /** The two tables hold exactly the configs in `stored`. */
  ghost predicate Encodes(configs: ConfigTable, values: ValueTable, stored: Stored) {
    EncodesRows(configs, stored) && EncodesValues(values, stored)
  }

  predicate SamePlace(a: UserConfig, b: UserConfig) {
    a.deploymentId == b.deploymentId && a.reference == b.reference
  }

  /** The unique key on deployment and reference. */
  ghost predicate UniqueReferences(stored: Stored) {
    forall a, b | a in stored && b in stored && SamePlace(stored[a], stored[b]) :: a == b
  }

  // ----- Writing -----

  /** The id a config gets (deployments/configs.go). */
  function ConfigId(deploymentId: string, reference: string): string {
    deploymentId + "_" + reference
  }

  /** With deployment ids of one length, ids of configs in different places differ. */
  lemma ConfigIdsAreInjective(d: string, r: string, d': string, r': string)
    requires |d| == |d'| && ConfigId(d, r) == ConfigId(d', r')
    ensures d == d' && r == r'
  {
    assert ConfigId(d, r)[..|d|] == d && ConfigId(d', r')[..|d|] == d';
    assert ConfigId(d, r)[|d| + 1..] == r && ConfigId(d', r')[|d| + 1..] == r';
  }

  ghost predicate ValuesAdded(before: ValueTable, after: ValueTable, id: string, value: Value, n: nat)
    requires n <= Count(value)
  {
    && (forall key :: key in after <==> key in before || (key.id == id && key.ord < n))
    && (forall key | key in before && key.id != id :: after[key] == before[key])
    && (forall i: nat | i < n :: ValueKey(id, i) in after && after[ValueKey(id, i)] == CellOf(value, i))
  }

  ghost predicate Fits(stored: Stored, config: UserConfig) {
    && config.id !in stored
    && Writable(config.value)
    && forall id | id in stored :: !SamePlace(stored[id], config)
  }

  lemma ValuesOneMore(values: ValueTable, stored: Stored, config: UserConfig, values': ValueTable)
    requires EncodesValues(values, stored) && config.id !in stored
    requires ValuesAdded(values, values', config.id, config.value, Count(config.value))
    ensures EncodesValues(values', stored[config.id := config])
  {
    var more := stored[config.id := config];
    forall id, i: nat | id in more && i < Count(more[id].value)
      ensures ValueKey(id, i) in values' && values'[ValueKey(id, i)] == CellOf(more[id].value, i)
    {
      if id != config.id {
        assert ValueKey(id, i) in values;
      }
    }
  }

  lemma EncodesOneMore(configs: ConfigTable, values: ValueTable, stored: Stored, config: UserConfig,
                       values': ValueTable)
    requires Encodes(configs, values, stored) && UniqueReferences(stored) && Fits(stored, config)
    requires ValuesAdded(values, values', config.id, config.value, Count(config.value))
    ensures Encodes(configs[config.id := RowOf(config)], values', stored[config.id := config])
    ensures UniqueReferences(stored[config.id := config])
  {
    ValuesOneMore(values, stored, config, values');
  }

  /** Deleting the configs of a deployment. */
  ghost function Without(stored: Stored, deploymentId: string): Stored {
    map id | id in stored && stored[id].deploymentId != deploymentId :: stored[id]
  }

  lemma EncodesWithout(configs: ConfigTable, values: ValueTable, stored: Stored, deploymentId: string,
                       configs': ConfigTable, values': ValueTable)
    requires Encodes(configs, values, stored)
    requires configs' == map id | id in configs && configs[id].deploymentId != deploymentId :: configs[id]
    requires values' == map key | key in values && key.id in configs' :: values[key]
    ensures Encodes(configs', values', Without(stored, deploymentId))
  {
    var less := Without(stored, deploymentId);
    forall id ensures id in configs'.Keys <==> id in less.Keys {}
    forall id, i: nat | id in less && i < Count(less[id].value)
      ensures ValueKey(id, i) in values' && values'[ValueKey(id, i)] == CellOf(less[id].value, i)
    {
      assert ValueKey(id, i) in values && id in configs';
    }
  }

  ghost function Added(stored: Stored, userConfigs: seq<UserConfig>): Stored {
    if userConfigs == [] then stored
    else
      var last := userConfigs[|userConfigs| - 1];
      Added(stored, userConfigs[..|userConfigs| - 1])[last.id := last]
  }

  ghost predicate Storable(stored: Stored, userConfigs: seq<UserConfig>) {
    userConfigs == []
    || (var front := userConfigs[..|userConfigs| - 1];
        Storable(stored, front) && Fits(Added(stored, front), userConfigs[|userConfigs| - 1]))
  }

  lemma {:induction false} StorablePrefix(stored: Stored, userConfigs: seq<UserConfig>, n: nat)
    requires n <= |userConfigs| && Storable(stored, userConfigs)
    ensures Storable(stored, userConfigs[..n])
  {
    if n < |userConfigs| {
      var front := userConfigs[..|userConfigs| - 1];
      StorablePrefix(stored, front, n);
      assert front[..n] == userConfigs[..n];
    } else {
      assert userConfigs[..n] == userConfigs;
    }
  }

  class Database {
    const env: Environment
    var configs: ConfigTable
    var values: ValueTable
    ghost var stored: Stored

    ghost predicate Valid()
      reads this
    {
      Encodes(configs, values, stored) && UniqueReferences(stored)
    }

    constructor (env: Environment)
      ensures Valid() && stored == map[] && this.env == env
    {
      this.env := env;
      configs, values, stored := map[], map[], map[];
    }

    method CreateConfigValues(id: string, value: Value) returns (ok: bool)
      requires forall key | key in values :: key.id != id
      modifies this`values
      ensures ok ==> Writable(value)
      ensures ok ==> ValuesAdded(old(values), values, id, value, Count(value))
      ensures env.reliable ==> (ok <==> Writable(value))
    {
      for i := 0 to Count(value)
        invariant i > 0 ==> Supported(value.dataType)
        invariant ValuesAdded(old(values), values, id, value, i)
      {
        // without a column name the statement is not valid
        var failed := env.Fails();
        if failed || !Supported(value.dataType) {
          return false;
        }
        values := values[ValueKey(id, i) := CellOf(value, i)];
      }
      return true;
    }

    method CreateUserConfig(config: UserConfig) returns (ok: bool)
      requires Valid()
      modifies this
      ensures ok ==> Valid() && stored == old(stored)[config.id := config] && Fits(old(stored), config)
      ensures env.reliable ==> (ok <==> Fits(old(stored), config))
    {
      var failed := env.Fails();
      if failed || config.id in configs || exists id :: id in configs && configs[id].deploymentId == config.deploymentId
                                                        && configs[id].reference == config.reference {
        return false;
      }
      configs := configs[config.id := RowOf(config)];
      ghost var before := values;
      ok := CreateConfigValues(config.id, config.value);
      if ok {
        EncodesOneMore(old(configs), before, stored, config, values);
        stored := stored[config.id := config];
      }
    }

    /** One transaction: all configs are stored, or none is. */
    method CreateUserConfigs(userConfigs: seq<UserConfig>) returns (ok: bool)
      requires Valid()
      modifies this
      ensures Valid()
      ensures !ok ==> stored == old(stored) && configs == old(configs) && values == old(values)
      ensures ok ==> stored == Added(old(stored), userConfigs)
      ensures ok ==> Storable(old(stored), userConfigs)
      ensures env.reliable ==> (ok <==> Storable(old(stored), userConfigs))
    {
      var configs0, values0 := configs, values;
      for i := 0 to |userConfigs|
        invariant Valid() && stored == Added(old(stored), userConfigs[..i])
        invariant Storable(old(stored), userConfigs[..i])
        invariant configs0 == old(configs) && values0 == old(values)
      {
        assert userConfigs[..i + 1][..i] == userConfigs[..i];
        ok := CreateUserConfig(userConfigs[i]);
        if !ok {
          if env.reliable && Storable(old(stored), userConfigs) {
            StorablePrefix(old(stored), userConfigs, i + 1);
            assert false;
          }
          configs, values, stored := configs0, values0, old(stored);
          return;
        }
      }
      assert userConfigs[..|userConfigs|] == userConfigs;
      return true;
    }

    /** Value rows go with their config. */
    method DeleteUserConfigs(deploymentId: string) returns (ok: bool)
      requires Valid()
      modifies this
      ensures Valid()
      ensures stored == if ok then Without(old(stored), deploymentId) else old(stored)
      ensures !ok ==> configs == old(configs) && values == old(values)
      ensures env.reliable ==> ok
    {
      var failed := env.Fails();
      if failed {
        return false;
      }
      configs := map id | id in configs && configs[id].deploymentId != deploymentId :: configs[id];
      values := map key | key in values && key.id in configs :: values[key];
      EncodesWithout(old(configs), old(values), stored, deploymentId, configs, values);
      stored := Without(stored, deploymentId);
      return true;
    }

    /** The update of a deployment replaces its configs, in one transaction. */
    method UpdateUserConfigs(deploymentId: string, userConfigs: seq<UserConfig>) returns (ok: bool)
      requires Valid()
      modifies this
      ensures Valid()
      ensures !ok ==> stored == old(stored) && configs == old(configs) && values == old(values)
      ensures ok ==> stored == Added(Without(old(stored), deploymentId), userConfigs)
      ensures ok ==> Storable(Without(old(stored), deploymentId), userConfigs)
      ensures env.reliable ==> (ok <==> Storable(Without(old(stored), deploymentId), userConfigs))
    {
      var configs0, values0 := configs, values;
      ok := DeleteUserConfigs(deploymentId);
      if ok {
        ok := CreateUserConfigs(userConfigs);
      }
      if !ok {
        configs, values, stored := configs0, values0, old(stored);
      }
    }
  }
}
