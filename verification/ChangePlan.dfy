/** Validating a module change request and planning it (pkg/service/module.go). */
module ChangePlan {
  import opened Prelude
  import opened Slices
  import opened RepoDependencies
  import opened ModuleSelection

  // ----- Validation -----

  predicate Malformed(item: Item) {
    (item.update && item.remove) || (!(item.update || item.remove) && item.source + item.channel == "")
  }

  ghost predicate WellFormed(items: seq<Item>) {
    && (forall item | item in items ::
          && !(item.update && item.remove)
          && (item.update || item.remove || item.source != "" || item.channel != ""))
    && (forall i, j | 0 <= i < j < |items| :: items[i].id == items[j].id ==> items[i] == items[j])
  }

  ghost predicate Indexes(known: map<string, Item>, items: seq<Item>) {
    && (forall id | id in known :: known[id].id == id && known[id] in items)
    && (forall item | item in items :: item.id in known && known[item.id] == item)
  }

  lemma IndexOneMore(known: map<string, Item>, items: seq<Item>, item: Item)
    requires Indexes(known, items) && WellFormed(items) && !Malformed(item)
    requires item.id in known ==> known[item.id] == item
    ensures item in items <==> item.id in known
    ensures Indexes(known[item.id := item], items + [item]) && WellFormed(items + [item])
  {
    forall i, j | 0 <= i < j < |items + [item]| && (items + [item])[i].id == (items + [item])[j].id
      ensures (items + [item])[i] == (items + [item])[j]
    {
      assert items[i] in items;
    }
  }

  method ValidateReqItems(items: seq<Item>) returns (validated: Option<seq<Item>>)
    ensures validated.Some? <==> WellFormed(items)
    ensures validated.Some? ==> validated.value == Unique(items)
  {
    var result: seq<Item> := [];
    var known: map<string, Item> := map[];
    for i := 0 to |items|
      invariant WellFormed(items[..i])
      invariant result == Unique(items[..i])
      invariant Indexes(known, items[..i])
    {
      var item := items[i];
      assert items[..i + 1] == items[..i] + [item];
      if Malformed(item) {
        assert item in items;
        return None;
      }
      if item.id in known && known[item.id] != item {
        assert known[item.id] in items[..i];
        return None;
      }
      IndexOneMore(known, items[..i], item);
      UniqueOneMore(items[..i], item);
      if item.id !in known {
        known := known[item.id := item];
        result := result + [item];
      }
    }
    assert items[..|items|] == items;
    return Some(result);
  }

  /** After validation every module is mentioned once. */
  lemma ValidatedIdsAreDistinct(items: seq<Item>)
    requires WellFormed(items)
    ensures forall i, j | 0 <= i < j < |Unique(items)| :: Unique(items)[i].id != Unique(items)[j].id
  {
    UniqueElements(items);
    var unique := Unique(items);
    forall i, j | 0 <= i < j < |unique| ensures unique[i].id != unique[j].id {
      assert unique[i] in Elements(unique) && unique[j] in Elements(unique);
      var k, l :| 0 <= k < |items| && 0 <= l < |items| && items[k] == unique[i] && items[l] == unique[j];
    }
  }

  // ----- Planning -----

  datatype Change = Change(previous: Installed, next: Wrapper)

  datatype Plan = Plan(install: seq<Wrapper>, change: seq<Change>, remove: seq<string>)

  predicate EqualMods(wrapper: Wrapper, installed: Installed) {
    && wrapper.mod.id == installed.id
    && wrapper.source == installed.source
    && wrapper.channel == installed.channel
    && wrapper.mod.version == installed.version
  }

  ghost function ToInstall(selected: Selected, installed: map<string, Installed>): Selected {
    map id | id in selected && id !in installed :: selected[id]
  }

  ghost function ToChange(selected: Selected, installed: map<string, Installed>): map<string, Change> {
    map id | id in selected && id in installed && !EqualMods(selected[id], installed[id]) ::
      Change(installed[id], selected[id])
  }

  ghost function ToRemove(selected: Selected, installed: map<string, Installed>, ids: seq<string>): seq<string> {
    if ids == [] then []
    else
      var front, last := ToRemove(selected, installed, ids[..|ids| - 1]), ids[|ids| - 1];
      if last in installed && last !in selected then front + [last] else front
  }

  /** What a plan has to be; the order of installs and changes follows the map iteration. */
  ghost predicate IsPlan(selected: Selected, installed: map<string, Installed>, ids: seq<string>, plan: Plan) {
    && (exists keys :: Lists(ToInstall(selected, installed), keys, plan.install))
    && (exists keys :: Lists(ToChange(selected, installed), keys, plan.change))
    && plan.remove == ToRemove(selected, installed, ids)
  }

  method RemainingRemovals(selected: Selected, installed: map<string, Installed>, toRemove: seq<string>)
    returns (remove: seq<string>)
    ensures remove == ToRemove(selected, installed, toRemove)
  {
    remove := [];
    for i := 0 to |toRemove|
      invariant remove == ToRemove(selected, installed, toRemove[..i])
    {
      assert toRemove[..i + 1][..i] == toRemove[..i];
      if toRemove[i] !in installed || toRemove[i] in selected {
        continue;
      }
      remove := remove + [toRemove[i]];
    }
    assert toRemove[..|toRemove|] == toRemove;
  }

  lemma VisitOneMore(visited: Selected, installed: map<string, Installed>, installKeys: seq<string>,
                     install: seq<Wrapper>, changeKeys: seq<string>, change: seq<Change>, id: string, wrapper: Wrapper)
    requires id !in visited
    requires Lists(ToInstall(visited, installed), installKeys, install)
    requires Lists(ToChange(visited, installed), changeKeys, change)
    ensures var more := visited[id := wrapper];
            if id !in installed then
              && Lists(ToInstall(more, installed), installKeys + [id], install + [wrapper])
              && ToChange(more, installed) == ToChange(visited, installed)
            else if EqualMods(wrapper, installed[id]) then
              && ToInstall(more, installed) == ToInstall(visited, installed)
              && ToChange(more, installed) == ToChange(visited, installed)
            else
              && ToInstall(more, installed) == ToInstall(visited, installed)
              && Lists(ToChange(more, installed), changeKeys + [id], change + [Change(installed[id], wrapper)])
  {
    var more := visited[id := wrapper];
    if id !in installed {
      assert ToInstall(more, installed) == ToInstall(visited, installed)[id := wrapper];
      ListsOneMore(ToInstall(visited, installed), installKeys, install, id, wrapper);
    } else if !EqualMods(wrapper, installed[id]) {
      var item := Change(installed[id], wrapper);
      assert ToChange(more, installed) == ToChange(visited, installed)[id := item];
      ListsOneMore(ToChange(visited, installed), changeKeys, change, id, item);
    }
  }

  method NewModulesChangeRequest(selected: Selected, installed: map<string, Installed>, toRemove: seq<string>)
    returns (plan: Plan)
    ensures IsPlan(selected, installed, toRemove, plan)
  {
    var install: seq<Wrapper> := [];
    var change: seq<Change> := [];
    ghost var installKeys: seq<string>, changeKeys: seq<string>, visited: Selected := [], [], map[];
    var todo := selected.Keys;
    while todo != {}
      invariant todo <= selected.Keys && visited.Keys == selected.Keys - todo
      invariant forall id | id in visited :: visited[id] == selected[id]
      invariant Lists(ToInstall(visited, installed), installKeys, install)
      invariant Lists(ToChange(visited, installed), changeKeys, change)
    {
      var id :| id in todo;
      todo := todo - {id};
      VisitOneMore(visited, installed, installKeys, install, changeKeys, change, id, selected[id]);
      visited := visited[id := selected[id]];
      if id in installed {
        if EqualMods(selected[id], installed[id]) {
          continue;
        }
        change, changeKeys := change + [Change(installed[id], selected[id])], changeKeys + [id];
        continue;
      }
      install, installKeys := install + [selected[id]], installKeys + [id];
    }
    assert visited == selected;
    var remove := RemainingRemovals(selected, installed, toRemove);
    plan := Plan(install, change, remove);
  }

  // ----- What the plan is for -----

  function AsInstalled(wrapper: Wrapper): Installed {
    Installed(wrapper.mod.id, wrapper.source, wrapper.channel, wrapper.mod.version)
  }

  /** Modules are filed under their own id, as the repository index and the store do it. */
  ghost predicate FiledById(selected: Selected, installed: map<string, Installed>) {
    && (forall id | id in selected :: selected[id].mod.id == id)
    && (forall id | id in installed :: installed[id].id == id)
  }

  /** What the request wants: every selected module in its selected variant, the modules to be
      removed gone (unless they were selected as well), everything else as it is. */
  ghost function Wanted(selected: Selected, installed: map<string, Installed>, ids: seq<string>)
    : map<string, Installed>
  {
    map id | id in installed.Keys + selected.Keys && (id in selected || id !in ids) ::
      if id in selected then AsInstalled(selected[id]) else installed[id]
  }

  lemma {:induction false} RemovesAre(selected: Selected, installed: map<string, Installed>, ids: seq<string>)
    requires NoDuplicates(ids)
    ensures NoDuplicates(ToRemove(selected, installed, ids))
    ensures forall id :: id in ToRemove(selected, installed, ids) <==> id in ids && id in installed && id !in selected
  {
    if ids != [] {
      var front := ids[..|ids| - 1];
      assert NoDuplicates(front);
      RemovesAre(selected, installed, front);
      assert ids == front + [ids[|ids| - 1]];
    }
  }

  lemma ListedAre<V(!new)>(m: map<string, V>, keys: seq<string>, values: seq<V>)
    requires Lists(m, keys, values)
    ensures forall v :: v in values <==> v in m.Values
  {
    forall v | v in values ensures v in m.Values {
      var i :| 0 <= i < |values| && values[i] == v;
      assert keys[i] in m.Keys;
    }
    forall v | v in m.Values ensures v in values {
      var k :| k in m && m[k] == v;
      var i :| 0 <= i < |keys| && keys[i] == k;
      assert values[i] == v;
    }
  }

  ghost predicate IsInstalledBy(selected: Selected, installed: map<string, Installed>, w: Wrapper) {
    exists id :: id in selected && id !in installed && selected[id] == w
  }

  /** Installed already, but from another source or channel, or in another version. */
  ghost predicate IsChange(selected: Selected, installed: map<string, Installed>, c: Change) {
    exists id :: && id in selected && id in installed && c == Change(installed[id], selected[id])
                 && (|| selected[id].source != installed[id].source
                     || selected[id].channel != installed[id].channel
                     || selected[id].mod.version != installed[id].version)
  }

  lemma InstallsAre(selected: Selected, installed: map<string, Installed>, w: Wrapper)
    ensures w in ToInstall(selected, installed).Values <==> IsInstalledBy(selected, installed, w)
  {
    var all := ToInstall(selected, installed);
    if id :| id in selected && id !in installed && selected[id] == w {
      assert id in all && all[id] == w;
    }
  }

  lemma ChangesAre(selected: Selected, installed: map<string, Installed>, c: Change)
    requires FiledById(selected, installed)
    ensures c in ToChange(selected, installed).Values <==> IsChange(selected, installed, c)
  {
    var all := ToChange(selected, installed);
    if c in all.Values {
      var id :| id in all && all[id] == c;
      assert !EqualMods(selected[id], installed[id]);
    }
    if IsChange(selected, installed, c) {
      var id :| && id in selected && id in installed && c == Change(installed[id], selected[id])
                && (|| selected[id].source != installed[id].source
                    || selected[id].channel != installed[id].channel
                    || selected[id].mod.version != installed[id].version);
      assert id in all && all[id] == c;
    }
  }

  /** A plan installs what is selected and not installed, changes what is installed differently, and
      removes what is to be removed, installed and not selected. */
  lemma PlanItemsAre(selected: Selected, installed: map<string, Installed>, ids: seq<string>, plan: Plan)
    requires IsPlan(selected, installed, ids, plan) && FiledById(selected, installed) && NoDuplicates(ids)
    ensures forall w :: w in plan.install <==> IsInstalledBy(selected, installed, w)
    ensures forall c :: c in plan.change <==> IsChange(selected, installed, c)
    ensures forall id :: id in plan.remove <==> id in ids && id in installed && id !in selected
  {
    var installKeys :| Lists(ToInstall(selected, installed), installKeys, plan.install);
    var changeKeys :| Lists(ToChange(selected, installed), changeKeys, plan.change);
    ListedAre(ToInstall(selected, installed), installKeys, plan.install);
    ListedAre(ToChange(selected, installed), changeKeys, plan.change);
    forall w ensures w in plan.install <==> IsInstalledBy(selected, installed, w) {
      InstallsAre(selected, installed, w);
    }
    forall c ensures c in plan.change <==> IsChange(selected, installed, c) {
      ChangesAre(selected, installed, c);
    }
    RemovesAre(selected, installed, ids);
  }

  lemma KeysAreDistinct(selected: Selected, installed: map<string, Installed>, ids: seq<string>, remove: seq<string>,
                        installKeys: seq<string>, install: seq<Wrapper>, changeKeys: seq<string>, change: seq<Change>)
    requires NoDuplicates(ids) && remove == ToRemove(selected, installed, ids)
    requires Lists(ToInstall(selected, installed), installKeys, install)
    requires Lists(ToChange(selected, installed), changeKeys, change)
    ensures NoDuplicates(remove + installKeys + changeKeys)
  {
    RemovesAre(selected, installed, ids);
    forall i | 0 <= i < |remove| ensures remove[i] in installed && remove[i] !in selected {
      assert remove[i] in remove;
    }
    forall i | 0 <= i < |installKeys| ensures installKeys[i] !in installed && installKeys[i] in selected {
      assert installKeys[i] in ToInstall(selected, installed);
    }
    forall i | 0 <= i < |changeKeys| ensures changeKeys[i] in installed && changeKeys[i] in selected {
      assert changeKeys[i] in ToChange(selected, installed);
    }
  }

  /** Planning is idempotent: once the wanted state is reached, the same request plans nothing. */
  lemma ReplanningIsEmpty(selected: Selected, installed: map<string, Installed>, ids: seq<string>, plan: Plan)
    requires FiledById(selected, installed) && NoDuplicates(ids)
    requires IsPlan(selected, Wanted(selected, installed, ids), ids, plan)
    ensures plan == Plan([], [], [])
  {
    var wanted := Wanted(selected, installed, ids);
    RemovesAre(selected, wanted, ids);
    assert ToInstall(selected, wanted) == map[];
    assert ToChange(selected, wanted) == map[];
    var installKeys :| Lists(ToInstall(selected, wanted), installKeys, plan.install);
    var changeKeys :| Lists(ToChange(selected, wanted), changeKeys, plan.change);
    HasElement(installKeys);
    HasElement(changeKeys);
    HasElement(plan.remove);
  }
}
