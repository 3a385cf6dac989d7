/** Folding the joined and ordered rows back into configs
    (pkg/components/handler/database/deployments_read.go). */
module ConfigReading {
  import opened Prelude
  import opened ConfigValues
  import opened ConfigRows

  /** A row of `dep_configs LEFT JOIN dep_config_values`; without a value row the order is NULL. */
  datatype JoinRow = JoinRow(id: string, config: ConfigRow, cell: Cell, ord: Option<nat>)

  ghost predicate InJoin(configs: ConfigTable, values: ValueTable, deploymentIds: seq<string>, row: JoinRow) {
    && row.id in configs && row.config == configs[row.id]
    && (deploymentIds == [] || row.config.deploymentId in deploymentIds)
    && match row.ord
       case Some(o) => ValueKey(row.id, o) in values && row.cell == values[ValueKey(row.id, o)]
       case None => row.cell == NULLS && forall o: nat :: ValueKey(row.id, o) !in values
  }

  /** The order `is_list, id, ord`, for any collation of ids. */
  ghost predicate RowLeq(leq: (string, string) -> bool, a: JoinRow, b: JoinRow) {
    if a.config.isList != b.config.isList then b.config.isList
    else if a.id != b.id then leq(a.id, b.id)
    else match (a.ord, b.ord)
         case (Some(x), Some(y)) => x <= y
         case (None, _) => true
         case (_, None) => false
  }

  /** What the query returns: every row of the join once, in order. */
  ghost predicate IsQueryResult(leq: (string, string) -> bool, configs: ConfigTable, values: ValueTable,
                                deploymentIds: seq<string>, rows: seq<JoinRow>)
  {
    && (forall i | 0 <= i < |rows| :: InJoin(configs, values, deploymentIds, rows[i]))
    && (forall row | InJoin(configs, values, deploymentIds, row) :: row in rows)
    && (forall i, j | 0 <= i < j < |rows| :: rows[i] != rows[j] && RowLeq(leq, rows[i], rows[j]))
  }

  ghost predicate SelectedConfig(stored: Stored, deploymentIds: seq<string>, id: string) {
    id in stored && (deploymentIds == [] || stored[id].deploymentId in deploymentIds)
  }

  type Result = map<string, map<string, UserConfig>>

  ghost predicate Has(r: Result, config: UserConfig) {
    config.deploymentId in r && config.reference in r[config.deploymentId]
  }

  /** The value as far as its first `n` rows tell. */
  ghost function FirstRows(v: Value, n: nat): Value
    requires n <= Count(v)
  {
    var w := Normalize(v);
    if !v.isSlice then w
    else if v.dataType == STRING_TYPE then w.(strs := v.strs[..n])
    else if v.dataType == INT64_TYPE then w.(int64s := v.int64s[..n])
    else if v.dataType == FLOAT64_TYPE then w.(float64s := v.float64s[..n])
    else if v.dataType == BOOL_TYPE then w.(booleans := v.booleans[..n])
    else w
  }

  function Or<T>(o: Option<T>, default: T): T {
    match o case None => default case Some(x) => x
  }

  /** Takes over one row: a list grows by an element, a scalar is set. */
  function TakeOver(v: Value, cell: Cell): Value {
    if v.dataType == STRING_TYPE then
      if v.isSlice then v.(strs := v.strs + [Or(cell.vString, "")]) else v.(str := Or(cell.vString, ""))
    else if v.dataType == INT64_TYPE then
      if v.isSlice then v.(int64s := v.int64s + [Or(cell.vInt, 0)]) else v.(int64 := Or(cell.vInt, 0))
    else if v.dataType == FLOAT64_TYPE then
      if v.isSlice then v.(float64s := v.float64s + [Or(cell.vFloat, 0.0)]) else v.(float64 := Or(cell.vFloat, 0.0))
    else if v.dataType == BOOL_TYPE then
      if v.isSlice then v.(booleans := v.booleans + [Or(cell.vBool, false)]) else v.(boolean := Or(cell.vBool, false))
    else v
  }

  lemma TakeOneMore<T>(s: seq<T>, i: nat)
    requires i < |s|
    ensures s[..i + 1] == s[..i] + [s[i]] && s[..0] == []
  {
  }

  lemma NextListRow(v: Value, i: nat)
    requires i < Count(v) && Writable(v) && v.isSlice
    ensures TakeOver(if i == 0 then Zero(v.dataType, true) else FirstRows(v, i), CellOf(v, i)) == FirstRows(v, i + 1)
  {
    if v.dataType == STRING_TYPE {
      TakeOneMore(v.strs, i);
    } else if v.dataType == INT64_TYPE {
      TakeOneMore(v.int64s, i);
    } else if v.dataType == FLOAT64_TYPE {
      TakeOneMore(v.float64s, i);
    } else {
      TakeOneMore(v.booleans, i);
    }
  }

  /** Element by element the value comes back. */
  lemma NextRow(v: Value, i: nat)
    requires i < Count(v) && Writable(v)
    ensures TakeOver(if i == 0 then Zero(v.dataType, v.isSlice) else FirstRows(v, i), CellOf(v, i)) ==
              FirstRows(v, i + 1)
  {
    if v.isSlice {
      NextListRow(v, i);
    }
  }

  lemma AllRows(v: Value)
    ensures FirstRows(v, Count(v)) == Normalize(v)
  {
  }

  /** What the nested maps have for the config of a row; a new config if there is nothing yet. */
  function Find(r: Result, row: JoinRow): UserConfig {
    if row.config.deploymentId in r && row.config.reference in r[row.config.deploymentId]
    then r[row.config.deploymentId][row.config.reference]
    else UserConfig(row.id, row.config.deploymentId, row.config.reference, Zero(row.config.dataType, row.config.isList))
  }

  function Absorbed(r: Result, row: JoinRow): UserConfig {
    var config := Find(r, row);
    config.(value := TakeOver(config.value, row.cell))
  }

  /** Exactly the selected configs, each with the value that was stored. */
  ghost predicate ReadsBack(stored: Stored, deploymentIds: seq<string>, r: Result) {
    && (forall id | SelectedConfig(stored, deploymentIds, id) ::
          Has(r, stored[id])
          && r[stored[id].deploymentId][stored[id].reference] == stored[id].(value := Normalize(stored[id].value)))
    && (forall d, ref | d in r && ref in r[d] ::
          exists id ::
            SelectedConfig(stored, deploymentIds, id) && stored[id].deploymentId == d && stored[id].reference == ref)
    && (forall d | d in r :: r[d] != map[])
  }

  ghost predicate HasRow(rows: seq<JoinRow>, id: string, ord: nat) {
    exists row :: row in rows && row.id == id && row.ord == Some(ord)
  }

  /** `seen[id]` is the number of rows of config `id` so far, and these are its first ones. */
  ghost predicate SeenRows(rows: seq<JoinRow>, seen: map<string, nat>) {
    && (forall row | row in rows :: row.id in seen && row.ord.Some? && row.ord.value < seen[row.id])
    && (forall id | id in seen :: seen[id] > 0 && forall o: nat | o < seen[id] :: HasRow(rows, id, o))
  }

  /** `partial` has the configs of which some rows were seen, with as much of their values. */
  ghost predicate Progressed(stored: Stored, seen: map<string, nat>, partial: Stored) {
    && partial.Keys == seen.Keys
    && forall id | id in seen ::
         && id in stored && seen[id] <= Count(stored[id].value)
         && partial[id] == stored[id].(value := FirstRows(stored[id].value, seen[id]))
  }

  ghost predicate HasPlace(partial: Stored, d: string, ref: string) {
    exists id :: id in partial && partial[id].deploymentId == d && partial[id].reference == ref
  }

  /** The nested maps hold exactly the configs in `partial`, each in its place. */
  ghost predicate Holds(partial: Stored, r: Result) {
    && UniqueReferences(partial)
    && (forall id | id in partial ::
          Has(r, partial[id]) && r[partial[id].deploymentId][partial[id].reference] == partial[id])
    && (forall d, ref | d in r && ref in r[d] :: HasPlace(partial, d, ref))
    && (forall d | d in r :: r[d] != map[])
  }

  lemma EarlierIsSmaller(leq: (string, string) -> bool, configs: ConfigTable, values: ValueTable,
                         deploymentIds: seq<string>, rows: seq<JoinRow>, k: nat, i: nat)
    requires IsQueryResult(leq, configs, values, deploymentIds, rows)
    requires k < i < |rows| && rows[k].id == rows[i].id && rows[k].ord.Some? && rows[i].ord.Some?
    ensures rows[k].ord.value < rows[i].ord.value
  {
    assert InJoin(configs, values, deploymentIds, rows[k]) && InJoin(configs, values, deploymentIds, rows[i]);
    var a, b := rows[k], rows[i];
    assert a.ord == b.ord ==> a == b;
    assert RowLeq(leq, a, b);
  }

  lemma RowExists(leq: (string, string) -> bool, configs: ConfigTable, values: ValueTable, stored: Stored,
                  deploymentIds: seq<string>, rows: seq<JoinRow>, id: string, ord: nat) returns (k: nat)
    requires Encodes(configs, values, stored) && IsQueryResult(leq, configs, values, deploymentIds, rows)
    requires SelectedConfig(stored, deploymentIds, id) && ord < Count(stored[id].value)
    ensures k < |rows| && rows[k].id == id && rows[k].ord == Some(ord)
  {
    assert ValueKey(id, ord) in values;
    var row := JoinRow(id, configs[id], values[ValueKey(id, ord)], Some(ord));
    assert InJoin(configs, values, deploymentIds, row);
    k :| 0 <= k < |rows| && rows[k] == row;
  }

  /** A row of a selected config comes right after the row of the element before. */
  ghost predicate RowFits(stored: Stored, deploymentIds: seq<string>, rows: seq<JoinRow>, i: nat)
    requires i < |rows|
  {
    var row := rows[i];
    && SelectedConfig(stored, deploymentIds, row.id) && stored[row.id].id == row.id
    && row.config == RowOf(stored[row.id]) && Writable(stored[row.id].value)
    && (row.ord.None? ==> Count(stored[row.id].value) == 0)
    && (row.ord.Some? ==>
          var o := row.ord.value;
          && o < Count(stored[row.id].value) && row.cell == CellOf(stored[row.id].value, o)
          && (o > 0 ==> HasRow(rows[..i], row.id, o - 1))
          && (forall k | 0 <= k < i && rows[k].id == row.id && rows[k].ord.Some? :: rows[k].ord.value < o))
  }

  lemma PreviousRowIsThere(leq: (string, string) -> bool, configs: ConfigTable, values: ValueTable, stored: Stored,
                           deploymentIds: seq<string>, rows: seq<JoinRow>, i: nat)
    requires Encodes(configs, values, stored) && IsQueryResult(leq, configs, values, deploymentIds, rows)
    requires i < |rows| && rows[i].ord.Some? && rows[i].ord.value > 0
    requires SelectedConfig(stored, deploymentIds, rows[i].id) && rows[i].ord.value < Count(stored[rows[i].id].value)
    ensures HasRow(rows[..i], rows[i].id, rows[i].ord.value - 1)
  {
    var k := RowExists(leq, configs, values, stored, deploymentIds, rows, rows[i].id, rows[i].ord.value - 1);
    if k > i {
      EarlierIsSmaller(leq, configs, values, deploymentIds, rows, i, k);
    }
    assert rows[k] in rows[..i];
  }

  /** The rows of one config arrive in the order of its elements, none missing. */
  lemma RowsComeInOrder(leq: (string, string) -> bool, configs: ConfigTable, values: ValueTable, stored: Stored,
                        deploymentIds: seq<string>, rows: seq<JoinRow>, i: nat)
    requires Encodes(configs, values, stored) && IsQueryResult(leq, configs, values, deploymentIds, rows)
    requires i < |rows|
    ensures RowFits(stored, deploymentIds, rows, i)
  {
    var row := rows[i];
    assert InJoin(configs, values, deploymentIds, row);
    if row.ord.None? {
      assert ValueKey(row.id, 0) !in values;
    } else {
      assert ValueKey(row.id, row.ord.value) in values;
      forall k | 0 <= k < i && rows[k].id == row.id && rows[k].ord.Some? ensures rows[k].ord.value < row.ord.value {
        EarlierIsSmaller(leq, configs, values, deploymentIds, rows, k, i);
      }
      if row.ord.value > 0 {
        PreviousRowIsThere(leq, configs, values, stored, deploymentIds, rows, i);
      }
    }
  }

  lemma EverySelectedIsComplete(leq: (string, string) -> bool, configs: ConfigTable, values: ValueTable, stored: Stored,
                                deploymentIds: seq<string>, rows: seq<JoinRow>, seen: map<string, nat>)
    requires Encodes(configs, values, stored) && IsQueryResult(leq, configs, values, deploymentIds, rows)
    requires SeenRows(rows, seen) && forall id | id in seen :: id in stored && seen[id] <= Count(stored[id].value)
    ensures forall id :: id in seen <==> SelectedConfig(stored, deploymentIds, id)
    ensures forall id | id in seen :: seen[id] == Count(stored[id].value)
  {
    forall id | id in seen ensures SelectedConfig(stored, deploymentIds, id) {
      assert HasRow(rows, id, 0);
      var row :| row in rows && row.id == id && row.ord == Some(0);
      assert InJoin(configs, values, deploymentIds, row);
    }
    forall id | SelectedConfig(stored, deploymentIds, id) ensures id in seen && seen[id] == Count(stored[id].value) {
      if Count(stored[id].value) > 0 {
        var k := RowExists(leq, configs, values, stored, deploymentIds, rows, id, Count(stored[id].value) - 1);
        assert rows[k] in rows;
      } else {
        var row := JoinRow(id, configs[id], NULLS, None);
        assert InJoin(configs, values, deploymentIds, row);
      }
    }
  }

  /** The config a row belongs to as far as it was read before, or an empty one. */
  ghost function Before(stored: Stored, partial: Stored, id: string): UserConfig
    requires id in stored
  {
    if id in partial then partial[id]
    else stored[id].(value := Zero(stored[id].value.dataType, stored[id].value.isSlice))
  }

  lemma OneMoreSeen(rows: seq<JoinRow>, seen: map<string, nat>, row: JoinRow)
    requires SeenRows(rows, seen) && row.ord.Some?
    requires row.ord.value == if row.id in seen then seen[row.id] else 0
    ensures SeenRows(rows + [row], seen[row.id := row.ord.value + 1])
  {
    var more := seen[row.id := row.ord.value + 1];
    forall id, o: nat | id in more && o < more[id] ensures HasRow(rows + [row], id, o) {
      if id == row.id && o == row.ord.value {
        assert row in rows + [row];
      } else {
        assert HasRow(rows, id, o);
        var other :| other in rows && other.id == id && other.ord == Some(o);
        assert other in rows + [row];
      }
    }
  }

  lemma RowIsSeen(stored: Stored, deploymentIds: seq<string>, rows: seq<JoinRow>, i: nat, seen: map<string, nat>)
    requires i < |rows| && RowFits(stored, deploymentIds, rows, i) && rows[i].ord.Some? && SeenRows(rows[..i], seen)
    ensures SeenRows(rows[..i + 1], seen[rows[i].id := rows[i].ord.value + 1])
    ensures rows[i].ord.value == if rows[i].id in seen then seen[rows[i].id] else 0
  {
    var id, o := rows[i].id, rows[i].ord.value;
    if id in seen {
      assert HasRow(rows[..i], id, seen[id] - 1);
      var row :| row in rows[..i] && row.id == id && row.ord == Some(seen[id] - 1);
      var k :| 0 <= k < i && rows[k] == row;
    }
    OneMoreSeen(rows[..i], seen, rows[i]);
    assert rows[..i + 1] == rows[..i] + [rows[i]];
  }

  lemma RowIsTakenOver(stored: Stored, row: JoinRow, seen: map<string, nat>, partial: Stored)
    requires Progressed(stored, seen, partial) && row.id in stored && row.ord.Some?
    requires row.ord.value == if row.id in seen then seen[row.id] else 0
    requires row.ord.value < Count(stored[row.id].value) && Writable(stored[row.id].value)
    requires row.cell == CellOf(stored[row.id].value, row.ord.value)
    ensures var config := Before(stored, partial, row.id);
            Progressed(stored, seen[row.id := row.ord.value + 1],
                       partial[row.id := config.(value := TakeOver(config.value, row.cell))])
  {
    NextRow(stored[row.id].value, row.ord.value);
  }

  lemma AllTakenOver(stored: Stored, deploymentIds: seq<string>, seen: map<string, nat>, partial: Stored, r: Result)
    requires Progressed(stored, seen, partial) && Holds(partial, r)
    requires forall id :: id in seen <==> SelectedConfig(stored, deploymentIds, id)
    requires forall id | id in seen :: seen[id] == Count(stored[id].value)
    ensures ReadsBack(stored, deploymentIds, r)
  {
    forall id | SelectedConfig(stored, deploymentIds, id)
      ensures partial[id] == stored[id].(value := Normalize(stored[id].value))
    {
      AllRows(stored[id].value);
    }
    forall d, ref | d in r && ref in r[d]
      ensures exists id ::
                  && SelectedConfig(stored, deploymentIds, id)
                  && stored[id].deploymentId == d && stored[id].reference == ref
    {
      assert HasPlace(partial, d, ref);
      var id :| id in partial && partial[id].deploymentId == d && partial[id].reference == ref;
      assert SelectedConfig(stored, deploymentIds, id);
    }
  }

  function Put(r: Result, config: UserConfig): Result {
    var current := if config.deploymentId in r then r[config.deploymentId] else map[];
    r[config.deploymentId := current[config.reference := config]]
  }

  lemma PutChangesOnePlace(r: Result, config: UserConfig, d: string, ref: string)
    ensures var after := Put(r, config);
            if d == config.deploymentId && ref == config.reference then
              d in after && ref in after[d] && after[d][ref] == config
            else
              && ((d in after && ref in after[d]) <==> (d in r && ref in r[d]))
              && (d in r && ref in r[d] ==> after[d][ref] == r[d][ref])
  {
  }

  /** The lookup in the nested maps finds what was read of this config before. */
  lemma CurrentConfig(stored: Stored, seen: map<string, nat>, partial: Stored, r: Result, row: JoinRow)
    requires UniqueReferences(stored) && Progressed(stored, seen, partial) && Holds(partial, r)
    requires row.id in stored && stored[row.id].id == row.id && row.config == RowOf(stored[row.id])
    ensures Find(r, row) == Before(stored, partial, row.id)
    ensures forall other | other in partial && SamePlace(partial[other], stored[row.id]) :: other == row.id
  {
    var config := stored[row.id];
    forall other | other in partial && SamePlace(partial[other], config) ensures other == row.id {
      assert SamePlace(stored[other], config);
    }
    if Has(r, config) {
      assert HasPlace(partial, config.deploymentId, config.reference);
      var other :| other in partial && partial[other].deploymentId == config.deploymentId
                   && partial[other].reference == config.reference;
      assert SamePlace(partial[other], config);
    }
  }

  lemma OtherPlaceStays(partial: Stored, config: UserConfig, d: string, ref: string)
    requires HasPlace(partial, d, ref) && (d != config.deploymentId || ref != config.reference)
    requires config.id in partial ==> SamePlace(partial[config.id], config)
    ensures HasPlace(partial[config.id := config], d, ref)
  {
    var id :| id in partial && partial[id].deploymentId == d && partial[id].reference == ref;
    assert id in partial[config.id := config];
  }

  lemma PutAddsOnePlace(partial: Stored, r: Result, config: UserConfig, d: string, ref: string)
    requires Holds(partial, r) && d in Put(r, config) && ref in Put(r, config)[d]
    requires config.id in partial ==> SamePlace(partial[config.id], config)
    ensures HasPlace(partial[config.id := config], d, ref)
  {
    PutChangesOnePlace(r, config, d, ref);
    if d == config.deploymentId && ref == config.reference {
      assert config.id in partial[config.id := config];
    } else {
      OtherPlaceStays(partial, config, d, ref);
    }
  }

  lemma UniqueOneMore(partial: Stored, config: UserConfig)
    requires UniqueReferences(partial)
    requires forall id | id in partial && SamePlace(partial[id], config) :: id == config.id
    ensures UniqueReferences(partial[config.id := config])
  {
  }

  lemma PutKeepsOthers(partial: Stored, r: Result, config: UserConfig, id: string)
    requires Holds(partial, r) && id in partial[config.id := config]
    requires id in partial && SamePlace(partial[id], config) ==> id == config.id
    ensures var other, after := partial[config.id := config][id], Put(r, config);
            Has(after, other) && after[other.deploymentId][other.reference] == other
  {
    var other := partial[config.id := config][id];
    PutChangesOnePlace(r, config, other.deploymentId, other.reference);
    if id != config.id {
      assert Has(r, partial[id]);
    }
  }

  lemma PutOneMore(partial: Stored, r: Result, config: UserConfig)
    requires Holds(partial, r)
    requires forall id | id in partial && SamePlace(partial[id], config) :: id == config.id
    requires config.id in partial ==> SamePlace(partial[config.id], config)
    ensures Holds(partial[config.id := config], Put(r, config))
  {
    var more, after := partial[config.id := config], Put(r, config);
    UniqueOneMore(partial, config);
    forall id | id in more
      ensures Has(after, more[id]) && after[more[id].deploymentId][more[id].reference] == more[id]
    {
      PutKeepsOthers(partial, r, config, id);
    }
    forall d, ref | d in after && ref in after[d] ensures HasPlace(more, d, ref) {
      PutAddsOnePlace(partial, r, config, d, ref);
    }
    forall d | d in after ensures after[d] != map[] {
      assert d == config.deploymentId ==> config.reference in after[d];
    }
  }

  lemma RowIsAbsorbed(stored: Stored, row: JoinRow, seen: map<string, nat>, partial: Stored, r: Result)
    requires UniqueReferences(stored) && Progressed(stored, seen, partial) && Holds(partial, r)
    requires row.id in stored && stored[row.id].id == row.id && row.config == RowOf(stored[row.id])
    requires row.ord.Some? && row.ord.value == if row.id in seen then seen[row.id] else 0
    requires row.ord.value < Count(stored[row.id].value) && Writable(stored[row.id].value)
    requires row.cell == CellOf(stored[row.id].value, row.ord.value)
    ensures Progressed(stored, seen[row.id := row.ord.value + 1], partial[row.id := Absorbed(r, row)])
    ensures Holds(partial[row.id := Absorbed(r, row)], Put(r, Absorbed(r, row)))
  {
    CurrentConfig(stored, seen, partial, r, row);
    RowIsTakenOver(stored, row, seen, partial);
    PutOneMore(partial, r, Absorbed(r, row));
  }

  ghost predicate FoldedAs(stored: Stored, rows: seq<JoinRow>, seen: map<string, nat>, partial: Stored, r: Result) {
    SeenRows(rows, seen) && Progressed(stored, seen, partial) && Holds(partial, r)
  }

  /** The nested maps hold what these rows tell. */
  ghost predicate Folded(stored: Stored, rows: seq<JoinRow>, r: Result) {
    exists seen: map<string, nat>, partial: Stored :: FoldedAs(stored, rows, seen, partial, r)
  }

  lemma IsFolded(stored: Stored, rows: seq<JoinRow>, seen: map<string, nat>, partial: Stored, r: Result)
    requires FoldedAs(stored, rows, seen, partial, r)
    ensures Folded(stored, rows, r)
  {
  }

  lemma NothingFolded(stored: Stored)
    ensures Folded(stored, [], map[])
  {
    var seen: map<string, nat>, partial: Stored := map[], map[];
    IsFolded(stored, [], seen, partial, map[]);
  }

  lemma FittingIsAbsorbed(stored: Stored, deploymentIds: seq<string>, rows: seq<JoinRow>, i: nat,
                          seen: map<string, nat>, partial: Stored, r: Result)
    requires UniqueReferences(stored) && Progressed(stored, seen, partial) && Holds(partial, r)
    requires i < |rows| && RowFits(stored, deploymentIds, rows, i) && rows[i].ord.Some?
    requires rows[i].ord.value == if rows[i].id in seen then seen[rows[i].id] else 0
    ensures Progressed(stored, seen[rows[i].id := rows[i].ord.value + 1], partial[rows[i].id := Absorbed(r, rows[i])])
    ensures Holds(partial[rows[i].id := Absorbed(r, rows[i])], Put(r, Absorbed(r, rows[i])))
  {
    RowIsAbsorbed(stored, rows[i], seen, partial, r);
  }

  lemma OneMoreRow(stored: Stored, deploymentIds: seq<string>, rows: seq<JoinRow>, i: nat, seen: map<string, nat>,
                   partial: Stored, r: Result)
    requires UniqueReferences(stored) && i < |rows| && RowFits(stored, deploymentIds, rows, i) && rows[i].ord.Some?
    requires FoldedAs(stored, rows[..i], seen, partial, r)
    ensures FoldedAs(stored, rows[..i + 1], seen[rows[i].id := rows[i].ord.value + 1],
                     partial[rows[i].id := Absorbed(r, rows[i])], Put(r, Absorbed(r, rows[i])))
  {
    RowIsSeen(stored, deploymentIds, rows, i, seen);
    FittingIsAbsorbed(stored, deploymentIds, rows, i, seen, partial, r);
  }

  lemma FoldOneMore(stored: Stored, deploymentIds: seq<string>, rows: seq<JoinRow>, i: nat, r: Result)
    requires UniqueReferences(stored) && i < |rows| && RowFits(stored, deploymentIds, rows, i) && rows[i].ord.Some?
    requires Folded(stored, rows[..i], r)
    ensures Folded(stored, rows[..i + 1], Put(r, Absorbed(r, rows[i])))
  {
    var seen: map<string, nat>, partial: Stored :| FoldedAs(stored, rows[..i], seen, partial, r);
    OneMoreRow(stored, deploymentIds, rows, i, seen, partial, r);
    IsFolded(stored, rows[..i + 1], seen[rows[i].id := rows[i].ord.value + 1],
             partial[rows[i].id := Absorbed(r, rows[i])], Put(r, Absorbed(r, rows[i])));
  }

  lemma FoldIsComplete(leq: (string, string) -> bool, configs: ConfigTable, values: ValueTable, stored: Stored,
                       deploymentIds: seq<string>, rows: seq<JoinRow>, r: Result)
    requires Encodes(configs, values, stored) && IsQueryResult(leq, configs, values, deploymentIds, rows)
    requires Folded(stored, rows, r)
    ensures ReadsBack(stored, deploymentIds, r)
    ensures forall id | SelectedConfig(stored, deploymentIds, id) :: Count(stored[id].value) > 0
  {
    var seen: map<string, nat>, partial: Stored :| FoldedAs(stored, rows, seen, partial, r);
    EverySelectedIsComplete(leq, configs, values, stored, deploymentIds, rows, seen);
    AllTakenOver(stored, deploymentIds, seen, partial, r);
  }

  ghost predicate AllFit(stored: Stored, deploymentIds: seq<string>, rows: seq<JoinRow>) {
    forall i | 0 <= i < |rows| :: RowFits(stored, deploymentIds, rows, i)
  }

  ghost predicate AnyEmpty(stored: Stored, deploymentIds: seq<string>) {
    exists id :: SelectedConfig(stored, deploymentIds, id) && Count(stored[id].value) == 0
  }

  method FoldRows(rows: seq<JoinRow>, ghost stored: Stored, ghost deploymentIds: seq<string>)
    returns (r: Option<Result>)
    requires UniqueReferences(stored) && AllFit(stored, deploymentIds, rows)
    ensures r.None? ==> AnyEmpty(stored, deploymentIds)
    ensures r.Some? ==> Folded(stored, rows, r.value)
  {
    var depConfigs: Result := map[];
    NothingFolded(stored);
    for i := 0 to |rows|
      invariant Folded(stored, rows[..i], depConfigs)
    {
      var row := rows[i];
      assert RowFits(stored, deploymentIds, rows, i);
      if row.ord.None? {
        // NULL cannot be scanned into an integer
        return None;
      }
      FoldOneMore(stored, deploymentIds, rows, i, depConfigs);
      depConfigs := Put(depConfigs, Absorbed(depConfigs, row));
    }
    assert rows[..|rows|] == rows;
    return Some(depConfigs);
  }

  method ReadDeploymentsConfigs(rows: seq<JoinRow>, ghost leq: (string, string) -> bool, ghost configs: ConfigTable,
                                ghost values: ValueTable, ghost stored: Stored, ghost deploymentIds: seq<string>)
    returns (r: Option<Result>)
    requires Encodes(configs, values, stored) && UniqueReferences(stored)
    requires IsQueryResult(leq, configs, values, deploymentIds, rows)
    ensures r.None? <==> AnyEmpty(stored, deploymentIds)
    ensures r.Some? ==> ReadsBack(stored, deploymentIds, r.value)
  {
    forall i | 0 <= i < |rows| ensures RowFits(stored, deploymentIds, rows, i) {
      RowsComeInOrder(leq, configs, values, stored, deploymentIds, rows, i);
    }
    r := FoldRows(rows, stored, deploymentIds);
    if r.Some? {
      FoldIsComplete(leq, configs, values, stored, deploymentIds, rows, r.value);
    }
  }
}
