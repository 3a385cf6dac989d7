/** Containers find the services of other modules by network aliases. An alias is generated when a
    deployment is created, passed to the containers of dependent modules in their environment, and
    has to stay (pkg/components/handler/deployments: create.go, update.go, recreate.go,
    dependencies.go, containers.go). */
module Aliases {
  import opened Prelude

  type DeploymentId = nat

  /** Generated from a deployment id and a service reference; `Unset` is the empty string, and a
      database may hold others from earlier times. */
  datatype Alias = Unset | Generated(dep: DeploymentId, reference: string) | Other(text: string)

  /** What an environment variable of a service asks for. */
  datatype Target = Target(moduleId: string, service: string)

  datatype Resolved = Resolved(target: Target, alias: Alias)

  type Vars = map<string, Resolved>

  type Services = map<string, map<string, Target>>

  datatype Module = Module(dependencies: set<string>, services: Services)

  /** A deployment with the alias of each of its services: in the database and in the cache. */
  datatype Item = Item(dep: DeploymentId, aliases: map<string, Alias>)

  type Items = map<string, Item>

  datatype Key = Key(dep: DeploymentId, reference: string)

  type Engine = map<Key, Vars>

  /** The database, the container engine and the next unused deployment id. */
  datatype State = State(deployments: Items, engine: Engine, next: DeploymentId)

  // ----- Environment variables -----

  /** Targets that are not in the cache are left out. */
  predicate Known(target: Target, cache: Items) {
    target.moduleId in cache && target.service in cache[target.moduleId].aliases
  }

  function AliasOf(target: Target, items: Items): Alias
    requires Known(target, items)
  {
    items[target.moduleId].aliases[target.service]
  }

  ghost function Resolve(ext: map<string, Target>, cache: Items): Vars {
    map v | v in ext && Known(ext[v], cache) :: Resolved(ext[v], AliasOf(ext[v], cache))
  }

  method SetExternalDependencyEnvVariables(ext: map<string, Target>, cache: Items) returns (vars: Vars)
    ensures vars == Resolve(ext, cache)
  {
    vars := map[];
    var todo := ext.Keys;
    while todo != {}
      invariant todo <= ext.Keys
      invariant vars == map v | v in ext && v !in todo && Known(ext[v], cache) ::
                  Resolved(ext[v], AliasOf(ext[v], cache))
    {
      var v :| v in todo;
      todo := todo - {v};
      if Known(ext[v], cache) {
        vars := vars[v := Resolved(ext[v], AliasOf(ext[v], cache))];
      }
    }
  }

  // ----- Ids -----

  ghost predicate Below(alias: Alias, next: DeploymentId) {
    alias.Generated? ==> alias.dep < next
  }

  ghost predicate ItemsBelow(items: Items, next: DeploymentId) {
    forall m | m in items :: items[m].dep < next && forall r | r in items[m].aliases :: Below(items[m].aliases[r], next)
  }

  ghost predicate IdsBelow(deployments: Items, engine: Engine, next: DeploymentId) {
    && ItemsBelow(deployments, next)
    && (forall key | key in engine :: key.dep < next)
    && (forall key, v | key in engine && v in engine[key] :: Below(engine[key][v].alias, next))
  }

  lemma IdsBelowMore(deployments: Items, engine: Engine, next: DeploymentId)
    requires IdsBelow(deployments, engine, next)
    ensures IdsBelow(deployments, engine, next + 1)
  {
    forall key, v | key in engine && v in engine[key] ensures Below(engine[key][v].alias, next + 1) {
      assert Below(engine[key][v].alias, next);
    }
  }

  // ----- What a batch keeps -----

  ghost predicate Extends(before: Items, after: Items) {
    forall m | m in before :: m in after && after[m] == before[m]
  }

  /** What the cache got was read from the database. */
  ghost predicate CacheGrew(deployments: Items, before: Items, after: Items) {
    Extends(before, after) && forall m | m in after && m !in before :: m in deployments && after[m] == deployments[m]
  }

  ghost predicate VarsFrom(vars: Vars, cache: Items) {
    forall v | v in vars :: Known(vars[v].target, cache) && vars[v].alias == AliasOf(vars[v].target, cache)
  }

  /** All containers are as before, or have what the cache says. */
  ghost predicate EngineFrom(before: Engine, after: Engine, cache: Items) {
    forall key | key in after :: (key in before && after[key] == before[key]) || VarsFrom(after[key], cache)
  }

  lemma EngineBelow(before: Engine, after: Engine, cache: Items, next: DeploymentId)
    requires EngineFrom(before, after, cache) && ItemsBelow(cache, next)
    requires forall key, v | key in before && v in before[key] :: Below(before[key][v].alias, next)
    ensures forall key, v | key in after && v in after[key] :: Below(after[key][v].alias, next)
  {
    forall key, v | key in after && v in after[key] ensures Below(after[key][v].alias, next) {
      if key in before && after[key] == before[key] {
        assert Below(before[key][v].alias, next);
      } else {
        assert Known(after[key][v].target, cache);
      }
    }
  }

  lemma EngineFromMore(before: Engine, middle: Engine, after: Engine, cache: Items, more: Items)
    requires EngineFrom(before, middle, cache) && Extends(cache, more) && EngineFrom(middle, after, more)
    ensures EngineFrom(before, after, more)
  {
    forall key | key in after && !(key in before && after[key] == before[key]) ensures VarsFrom(after[key], more) {
      if key in middle && after[key] == middle[key] {
        assert VarsFrom(middle[key], cache);
      }
    }
  }

  /** Every service has its container, and every variable that asks for a service of a dependency
      has a value exactly if there is such a service. */
  ghost predicate Complete(dep: DeploymentId, module_: Module, engine: Engine, items: Items) {
    forall reference | reference in module_.services ::
      && Key(dep, reference) in engine
      && forall v | v in module_.services[reference]
           && module_.services[reference][v].moduleId in module_.dependencies ::
           && (v in engine[Key(dep, reference)] <==> Known(module_.services[reference][v], items))
           && (v in engine[Key(dep, reference)] ==>
                 engine[Key(dep, reference)][v] ==
                   Resolved(module_.services[reference][v], AliasOf(module_.services[reference][v], items)))
  }

  lemma CompleteAfter(dep: DeploymentId, module_: Module, engine: Engine, cache: Items)
    requires module_.dependencies <= cache.Keys
    requires forall r | r in module_.services ::
                Key(dep, r) in engine && engine[Key(dep, r)] == Resolve(module_.services[r], cache)
    ensures Complete(dep, module_, engine, cache)
  {
  }

  lemma CompleteStays(dep: DeploymentId, module_: Module, engine: Engine, after: Engine, cache: Items, more: Items)
    requires Complete(dep, module_, engine, cache) && Extends(cache, more) && module_.dependencies <= cache.Keys
    requires forall key | key in engine && key.dep == dep :: key in after && after[key] == engine[key]
    ensures Complete(dep, module_, after, more)
  {
    forall reference | reference in module_.services ensures Key(dep, reference) in after {
      assert Key(dep, reference) in engine;
    }
    forall reference, v | reference in module_.services && v in module_.services[reference]
                          && module_.services[reference][v].moduleId in module_.dependencies
      ensures Known(module_.services[reference][v], more) == Known(module_.services[reference][v], cache)
    {
    }
  }

  /** All containers are as before, and the new ones belong to this deployment. */
  ghost predicate EngineGrew(before: Engine, after: Engine, dep: DeploymentId) {
    && (forall key | key in before :: key in after && after[key] == before[key])
    && (forall key | key in after && key !in before :: key.dep == dep)
  }

  ghost predicate EngineShrank(before: Engine, after: Engine) {
    forall key | key in after :: key in before && after[key] == before[key]
  }

  lemma EngineFromShrunk(before: Engine, middle: Engine, after: Engine, cache: Items)
    requires EngineShrank(before, middle) && EngineFrom(middle, after, cache)
    ensures EngineFrom(before, after, cache)
  {
  }

  ghost predicate AllGood(results: map<string, bool>) {
    forall m | m in results :: results[m]
  }

  /** Every dependency is deployed or about to be. */
  ghost predicate AllDeployable(selected: map<string, Module>, deployments: Items) {
    forall m | m in selected :: selected[m].dependencies <= selected.Keys + deployments.Keys
  }

  /** The alias is the stored one, or the target is one of these and not stored at all. */
  ghost predicate StoredOrMissing(r: Resolved, deployments: Items, batch: set<string>) {
    if r.target.moduleId in deployments then Known(r.target, deployments) && r.alias == AliasOf(r.target, deployments)
    else r.target.moduleId in batch
  }

  // ----- A batch of creates -----

  function GeneratedItem(id: DeploymentId, module_: Module): Item {
    Item(id, map r | r in module_.services :: Generated(id, r))
  }

  ghost predicate IsGenerated(modules: map<string, Module>, items: Items, from: DeploymentId, to: DeploymentId) {
    && items.Keys <= modules.Keys
    && (forall m | m in items ::
          from <= items[m].dep < to && items[m] == GeneratedItem(items[m].dep, modules[m]))
    && (forall a, b | a in items && b in items && items[a].dep == items[b].dep :: a == b)
  }

  lemma OneMoreGenerated(modules: map<string, Module>, items: Items, from: DeploymentId, id: DeploymentId, m: string)
    requires IsGenerated(modules, items, from, id) && m in modules && m !in items && from <= id
    ensures IsGenerated(modules, items[m := GeneratedItem(id, modules[m])], from, id + 1)
  {
  }

  /** In a batch of creates: the generated items come first, whatever else the cache has was read
      from the database; deployments are written as generated. */
  ghost predicate CreateInv(old_: Items, now: Items, generated: Items, cache: Items, todo: set<string>) {
    && Extends(generated, cache) && Extends(old_, now)
    && (forall m | m in generated :: m !in old_)
    && (forall m | m in cache && m !in generated :: m in old_ && cache[m] == old_[m])
    && (forall m | m in now && m !in old_ :: m in generated && m !in todo && now[m] == generated[m])
  }

  /** What is in the cache and is stored is stored like that. */
  lemma CacheIsStored(old_: Items, now: Items, generated: Items, cache: Items, todo: set<string>)
    requires CreateInv(old_, now, generated, cache, todo)
    ensures forall m | m in cache && m in now :: cache[m] == now[m]
    ensures forall m | m in cache && m !in now :: m in generated
  {
  }

  ghost predicate EngineInv(before: Engine, now: Engine, generated: Items, cache: Items, todo: set<string>) {
    && (forall key | key in before :: key in now && now[key] == before[key])
    && EngineFrom(before, now, cache)
    && (forall key, m | key in now && m in todo && m in generated :: key.dep != generated[m].dep)
  }

  ghost predicate ResultsInv(selected: map<string, Module>, generated: Items, results: map<string, bool>,
                             deployments: Items, engine: Engine, cache: Items) {
    && (forall m | m in results && results[m] ::
          m in generated && m in selected && m in deployments && selected[m].dependencies <= cache.Keys
          && Complete(generated[m].dep, selected[m], engine, cache))
  }

  ghost predicate BatchInv(old_: Items, before: Engine, now: Items, engine: Engine, selected: map<string, Module>,
                           generated: Items, results: map<string, bool>, cache: Items, todo: set<string>) {
    && CreateInv(old_, now, generated, cache, todo)
    && EngineInv(before, engine, generated, cache, todo)
    && ResultsInv(selected, generated, results, now, engine, cache)
    && results.Keys == selected.Keys - todo
  }

  ghost predicate IsBatch(old_: Items, before: Engine, now: Items, engine: Engine, selected: map<string, Module>,
                          generated: Items, results: map<string, bool>, cache: Items, todo: set<string>) {
    exists left :: left == todo && BatchInv(old_, before, now, engine, selected, generated, results, cache, left)
  }

  /** Nothing has these ids yet. */
  ghost predicate AreFresh(s: State, generated: Items) {
    && generated.Keys !! s.deployments.Keys && ItemsBelow(generated, s.next)
    && (forall x, m | x in s.deployments && m in generated :: s.deployments[x].dep != generated[m].dep)
    && (forall key, m | key in s.engine && m in generated :: key.dep != generated[m].dep)
    && (forall a, b | a in generated && b in generated && generated[a].dep == generated[b].dep :: a == b)
  }

  lemma BatchStart(s: State, selected: map<string, Module>, generated: Items)
    requires generated.Keys == selected.Keys && AreFresh(s, generated)
    ensures IsBatch(s.deployments, s.engine, s.deployments, s.engine, selected, generated, map[], generated,
                    selected.Keys)
  {
    var none: map<string, bool> := map[];
    assert none.Keys == {} && selected.Keys - selected.Keys == {};
    assert BatchInv(s.deployments, s.engine, s.deployments, s.engine, selected, generated, none, generated,
                    selected.Keys);
  }

  lemma BatchReady(old_: Items, before: Engine, now: Items, engine: Engine, selected: map<string, Module>,
                   generated: Items, results: map<string, bool>, cache: Items, todo: set<string>, m: string)
    requires IsBatch(old_, before, now, engine, selected, generated, results, cache, todo)
    requires m in todo && m in generated && forall x | x in old_ :: old_[x].dep != generated[m].dep
    requires forall a, b | a in generated && b in generated && generated[a].dep == generated[b].dep :: a == b
    ensures m in cache && cache[m] == generated[m] && m !in now
    ensures forall x | x in now :: now[x].dep != cache[m].dep
    ensures forall key | key in engine :: key.dep != cache[m].dep
    ensures AllDeployable(selected, old_) && m in selected && selected.Keys == generated.Keys ==>
              selected[m].dependencies <= cache.Keys + now.Keys
  {
  }

  /** What creating one deployment of a batch does, whether or not it succeeds. */
  ghost predicate CreatedOne(db: Items, now: Items, engine0: Engine, engine: Engine, module_: Module, cache0: Items,
                             cache: Items, m: string, item: Item, ok: bool)
  {
    && CacheGrew(db, cache0, cache)
    && (now == db || now == db[m := item])
    && EngineFrom(engine0, engine, cache) && EngineGrew(engine0, engine, item.dep)
    && (ok ==> m in now && module_.dependencies <= cache.Keys && Complete(item.dep, module_, engine, cache))
  }

  lemma CreateStep(old_: Items, db: Items, now: Items, generated: Items, cache0: Items, cache: Items, todo: set<string>,
                   m: string)
    requires CreateInv(old_, db, generated, cache0, todo) && m in todo && m in generated
    requires CacheGrew(db, cache0, cache)
    requires now == db || now == db[m := cache0[m]]
    ensures CreateInv(old_, now, generated, cache, todo - {m})
  {
    assert cache0[m] == generated[m];
  }

  lemma EngineStep(before: Engine, engine0: Engine, now: Engine, generated: Items, cache0: Items, cache: Items,
                   todo: set<string>, m: string)
    requires EngineInv(before, engine0, generated, cache0, todo) && m in todo && m in generated
    requires Extends(cache0, cache) && EngineFrom(engine0, now, cache)
    requires EngineGrew(engine0, now, generated[m].dep)
    requires forall a, b | a in generated && b in generated && generated[a].dep == generated[b].dep :: a == b
    ensures EngineInv(before, now, generated, cache, todo - {m})
  {
    EngineFromMore(before, engine0, now, cache0, cache);
  }

  lemma ResultsStep(selected: map<string, Module>, generated: Items, results: map<string, bool>, db: Items, now: Items,
                    engine0: Engine, engine: Engine, cache0: Items, cache: Items, m: string, ok: bool)
    requires ResultsInv(selected, generated, results, db, engine0, cache0)
    requires m in selected && m in generated && Extends(cache0, cache) && Extends(db, now)
    requires forall key | key in engine0 :: key in engine && engine[key] == engine0[key]
    requires ok ==>
               && m in now && selected[m].dependencies <= cache.Keys
               && Complete(generated[m].dep, selected[m], engine, cache)
    ensures ResultsInv(selected, generated, results[m := ok], now, engine, cache)
  {
    forall x | x in results && results[x] && x != m ensures Complete(generated[x].dep, selected[x], engine, cache) {
      CompleteStays(generated[x].dep, selected[x], engine0, engine, cache0, cache);
    }
  }

  lemma BatchStep(old_: Items, before: Engine, db: Items, now: Items, engine0: Engine, engine: Engine,
                  selected: map<string, Module>, generated: Items, results: map<string, bool>, cache0: Items,
                  cache: Items, todo: set<string>, m: string, ok: bool)
    requires IsBatch(old_, before, db, engine0, selected, generated, results, cache0, todo)
    requires m in todo && todo <= selected.Keys && selected.Keys == generated.Keys
    requires m in cache0 && cache0[m] == generated[m] && m !in db
    requires forall a, b | a in generated && b in generated && generated[a].dep == generated[b].dep :: a == b
    requires CreatedOne(db, now, engine0, engine, selected[m], cache0, cache, m, cache0[m], ok)
    ensures IsBatch(old_, before, now, engine, selected, generated, results[m := ok], cache, todo - {m})
  {
    CreateStep(old_, db, now, generated, cache0, cache, todo, m);
    EngineStep(before, engine0, engine, generated, cache0, cache, todo, m);
    ResultsStep(selected, generated, results, db, now, engine0, engine, cache0, cache, m, ok);
    DoneOneMore(selected.Keys, todo, m);
    assert BatchInv(old_, before, now, engine, selected, generated, results[m := ok], cache, todo - {m});
  }

  lemma CreateEndEngine(old_: Items, now: Items, before: Engine, engine: Engine, selected: map<string, Module>,
                        generated: Items, cache: Items, results: map<string, bool>)
    requires IsBatch(old_, before, now, engine, selected, generated, results, cache, {})
    requires generated.Keys == selected.Keys && results.Keys == selected.Keys
    ensures forall key, v | key in engine && key !in before && v in engine[key] ::
                StoredOrMissing(engine[key][v], now, selected.Keys)
    ensures AllGood(results) ==> forall m | m in results :: Complete(now[m].dep, selected[m], engine, now)
  {
    CacheIsStored(old_, now, generated, cache, {});
    forall key, v | key in engine && key !in before && v in engine[key]
      ensures StoredOrMissing(engine[key][v], now, selected.Keys)
    {
      assert VarsFrom(engine[key], cache);
    }
    if forall m | m in results :: results[m] {
      assert Extends(cache, now);
      forall m | m in results ensures Complete(now[m].dep, selected[m], engine, now) {
        assert generated[m] == now[m];
        CompleteStays(generated[m].dep, selected[m], engine, engine, cache, now);
      }
    }
  }

  ghost predicate CreatedAs(generated: Items, before: State, after: State) {
    && before.next == after.next && Extends(before.deployments, after.deployments)
    && (forall m | m in after.deployments && m !in before.deployments ::
          m in generated && after.deployments[m] == generated[m])
    && (forall key | key in before.engine :: key in after.engine && after.engine[key] == before.engine[key])
    && (forall key, v | key in after.engine && key !in before.engine && v in after.engine[key] ::
          StoredOrMissing(after.engine[key][v], after.deployments, generated.Keys))
  }

  lemma CreateEnd(before: State, after: State, selected: map<string, Module>, generated: Items, cache: Items,
                  results: map<string, bool>)
    requires IsBatch(before.deployments, before.engine, after.deployments, after.engine, selected, generated, results,
                     cache, {})
    requires generated.Keys == selected.Keys && results.Keys == selected.Keys && after.next == before.next
    ensures CreatedAs(generated, before, after)
    ensures forall m | m in results && results[m] :: m in after.deployments
    ensures AllGood(results) ==>
              forall m | m in results ::
                Complete(after.deployments[m].dep, selected[m], after.engine, after.deployments)
  {
    CreateEndEngine(before.deployments, after.deployments, before.engine, after.engine, selected, generated, cache,
                    results);
  }

  ghost predicate IsNew(before: State, selected: map<string, Module>, m: string, item: Item) {
    && m in selected && before.next <= item.dep && item.aliases.Keys == selected[m].services.Keys
    && forall reference | reference in item.aliases :: item.aliases[reference] == Generated(item.dep, reference)
  }

  /** What a batch of creates does, whatever fails: new deployments are stored as generated, old
      containers stay, and a variable of a new container has the alias that is stored for its target,
      unless the target is a module of the batch that was not stored. */
  ghost predicate Created(before: State, selected: map<string, Module>, after: State) {
    && before.next <= after.next && Extends(before.deployments, after.deployments)
    && (forall m | m in after.deployments && m !in before.deployments ::
          IsNew(before, selected, m, after.deployments[m]))
    && (forall key | key in before.engine :: key in after.engine && after.engine[key] == before.engine[key])
    && (forall key, v | key in after.engine && key !in before.engine && v in after.engine[key] ::
          StoredOrMissing(after.engine[key][v], after.deployments, selected.Keys - before.deployments.Keys))
  }

  lemma GeneratedAreFresh(before: State, filtered: map<string, Module>, generated: Items, after: State)
    requires IdsBelow(before.deployments, before.engine, before.next) && filtered.Keys !! before.deployments.Keys
    requires IsGenerated(filtered, generated, before.next, after.next) && before.next <= after.next
    requires after == before.(next := after.next)
    ensures AreFresh(after, generated)
  {
  }

  lemma NothingCreated(before: State, selected: map<string, Module>, next: DeploymentId)
    requires before.next <= next
    ensures Created(before, selected, before.(next := next))
  {
  }

  lemma GeneratedAreNew(before: State, selected: map<string, Module>, generated: Items, middle: State, after: State)
    requires selected.Keys !! before.deployments.Keys && generated.Keys == selected.Keys
    requires IsGenerated(selected, generated, before.next, middle.next)
    requires middle == before.(next := middle.next) && before.next <= middle.next
    requires CreatedAs(generated, middle, after)
    ensures Created(before, selected, after)
  {
    assert selected.Keys - before.deployments.Keys == generated.Keys;
  }

  function NotDeployed(selected: map<string, Module>, deployments: Items): map<string, Module> {
    map m | m in selected && m !in deployments :: selected[m]
  }

  lemma FilteredIsEnough(before: State, selected: map<string, Module>, after: State)
    requires Created(before, NotDeployed(selected, before.deployments), after)
    ensures Created(before, selected, after)
    ensures AllDeployable(selected, before.deployments) ==>
              AllDeployable(NotDeployed(selected, before.deployments), before.deployments)
  {
    var filtered := NotDeployed(selected, before.deployments);
    assert filtered.Keys - before.deployments.Keys == selected.Keys - before.deployments.Keys;
    assert filtered.Keys + before.deployments.Keys == selected.Keys + before.deployments.Keys;
  }

  // ----- A batch of updates or recreates -----

  /** The alias of a service after an update: the one it has, or a new one if it has none. */
  function Kept(item: Item, reference: string): Alias {
    if reference in item.aliases && item.aliases[reference] != Unset then item.aliases[reference]
    else Generated(item.dep, reference)
  }

  function RenewedItem(module_: Module, item: Item): Item {
    Item(item.dep, map r | r in module_.services :: Kept(item, r))
  }

  ghost function Renewed(modules: map<string, Module>, deployments: Items): Items {
    map m | m in modules && m in deployments :: RenewedItem(modules[m], deployments[m])
  }

  ghost predicate GoodIffDeployable(selected: map<string, Module>, deployments: Items, results: map<string, bool>) {
    forall m | m in results && m in selected ::
      results[m] <==> m in deployments && selected[m].dependencies <= deployments.Keys
  }

  /** An update leaves exactly the services of the module, each with the alias it has, or with a
      generated one if it has none. */
  ghost predicate IsRenewal(module_: Module, before: Item, after: Item) {
    && after.dep == before.dep && after.aliases.Keys == module_.services.Keys
    && forall r | r in after.aliases ::
         after.aliases[r] == if r in before.aliases && before.aliases[r] != Unset then before.aliases[r]
                             else Generated(before.dep, r)
  }

  lemma RenewalIff(module_: Module, before: Item, after: Item)
    ensures IsRenewal(module_, before, after) <==> after == RenewedItem(module_, before)
  {
    if IsRenewal(module_, before, after) {
      assert after.aliases == RenewedItem(module_, before).aliases;
    }
  }

  /** Each deployment is as before, or renewed for its module. */
  ghost predicate IsRenewed(selected: map<string, Module>, before: Items, after: Items) {
    && after.Keys == before.Keys
    && forall m | m in before ::
         after[m] == before[m] || (m in selected && after[m] == RenewedItem(selected[m], before[m]))
  }

  /** Of a module of the batch, what it keeps or gets; of any other, what it has. */
  ghost predicate FromOld(r: Resolved, batch: set<string>, deployments: Items) {
    var m, service := r.target.moduleId, r.target.service;
    && m in deployments
    && if m in batch then r.alias == Kept(deployments[m], service)
       else Known(r.target, deployments) && r.alias == AliasOf(r.target, deployments)
  }

  ghost predicate RowsInv(selected: map<string, Module>, old_: Items, now: Items, cache: Items, todo: set<string>,
                          results: map<string, bool>, write: bool)
  {
    && Extends(Renewed(selected, old_), cache)
    && (forall m | m in cache && m !in Renewed(selected, old_) :: m in old_ && cache[m] == old_[m])
    && now.Keys == old_.Keys
    && (forall m | m in old_ ::
          now[m] == old_[m] || (write && m in selected && m !in todo && now[m] == RenewedItem(selected[m], old_[m])))
    && results.Keys == selected.Keys - todo
    && (forall m | m in results && results[m] :: m in old_ && (write ==> now[m] == RenewedItem(selected[m], old_[m])))
  }

  ghost predicate RenewInv(selected: map<string, Module>, old_: Items, now: Items, before: Engine, engine: Engine,
                           cache: Items, todo: set<string>, results: map<string, bool>, write: bool)
  {
    RowsInv(selected, old_, now, cache, todo, results, write) && EngineFrom(before, engine, cache)
  }

  lemma RenewReady(selected: map<string, Module>, old_: Items, now: Items, before: Engine, engine: Engine, cache: Items,
                   todo: set<string>, results: map<string, bool>, write: bool, m: string)
    requires RenewInv(selected, old_, now, before, engine, cache, todo, results, write) && m in todo && m in selected
    requires m in cache
    ensures m in now && m in Renewed(selected, old_) && cache[m].dep == now[m].dep
    ensures cache[m] == RenewedItem(selected[m], old_[m])
    ensures cache.Keys + now.Keys == old_.Keys
  {
  }

  /** What renewing one deployment of a batch does, whether or not it succeeds. */
  ghost predicate RenewedOne(db: Items, now: Items, engine0: Engine, engine: Engine, cache0: Items, cache: Items,
                             m: string, write: bool, good: bool)
  {
    && CacheGrew(db, cache0, cache)
    && (now == db || (write && m in cache0 && now == db[m := cache0[m]]))
    && EngineFrom(engine0, engine, cache)
    && (good ==> m in cache0 && (write ==> m in now && now[m] == cache0[m]))
  }

  /** Which rows and results there are after one more renewal. */
  lemma RenewRows(selected: map<string, Module>, old_: Items, db: Items, now: Items, cache0: Items, cache: Items,
                  todo: set<string>, results: map<string, bool>, write: bool, m: string, good: bool)
    requires RowsInv(selected, old_, db, cache0, todo, results, write) && m in todo && m in selected
    requires CacheGrew(db, cache0, cache)
    requires now == db || (write && m in cache0 && now == db[m := cache0[m]])
    requires good ==> m in cache0 && (write ==> m in now && now[m] == cache0[m])
    ensures RowsInv(selected, old_, now, cache, todo - {m}, results[m := good], write)
  {
    DoneOneMore(selected.Keys, todo, m);
  }

  lemma RenewStep(selected: map<string, Module>, old_: Items, db: Items, now: Items, before: Engine, engine0: Engine,
                  engine: Engine, cache0: Items, cache: Items, todo: set<string>, results: map<string, bool>,
                  write: bool, m: string, good: bool)
    requires RenewInv(selected, old_, db, before, engine0, cache0, todo, results, write) && m in todo && m in selected
    requires RenewedOne(db, now, engine0, engine, cache0, cache, m, write, good)
    ensures RenewInv(selected, old_, now, before, engine, cache, todo - {m}, results[m := good], write)
  {
    RenewRows(selected, old_, db, now, cache0, cache, todo, results, write, m, good);
    EngineFromMore(before, engine0, engine, cache0, cache);
  }

  /** Old containers are as before or gone, new ones have what their targets keep, get or have. */
  ghost predicate EngineRenewed(before: State, after: State, batch: set<string>) {
    forall key | key in after.engine ::
      || (key in before.engine && after.engine[key] == before.engine[key])
      || forall v | v in after.engine[key] :: FromOld(after.engine[key][v], batch, before.deployments)
  }

  /** What a batch of updates or recreates does, whatever fails. */
  ghost predicate RenewedTo(before: State, selected: map<string, Module>, after: State) {
    && before.next == after.next && IsRenewed(selected, before.deployments, after.deployments)
    && EngineRenewed(before, after, selected.Keys)
  }

  lemma RenewStart(selected: map<string, Module>, deployments: Items, engine: Engine, next: DeploymentId, write: bool)
    requires IdsBelow(deployments, engine, next)
    ensures RenewInv(selected, deployments, deployments, engine, engine, Renewed(selected, deployments), selected.Keys,
                     map[], write)
    ensures ItemsBelow(Renewed(selected, deployments), next)
  {
  }

  lemma RenewEnd(selected: map<string, Module>, before: State, after: State, cache: Items, results: map<string, bool>,
                 write: bool)
    requires RenewInv(selected, before.deployments, after.deployments, before.engine, after.engine, cache, {}, results,
                      write)
    requires after.next == before.next
    ensures RenewedTo(before, selected, after) && (!write ==> after.deployments == before.deployments)
    ensures results.Keys == selected.Keys
  {
    forall key, v | key in after.engine && v in after.engine[key]
                    && !(key in before.engine && after.engine[key] == before.engine[key])
      ensures FromOld(after.engine[key][v], selected.Keys, before.deployments)
    {
      assert VarsFrom(after.engine[key], cache);
    }
    assert selected.Keys - {} == selected.Keys;
  }

  // ----- A batch of deletes -----

  ghost predicate OwnedByOneOf(deployments: Items, modules: set<string>, dep: DeploymentId) {
    exists m :: m in modules && m in deployments && deployments[m].dep == dep
  }

  /** What a batch of deletes does, whatever fails. */
  ghost predicate DeletedFrom(before: State, modules: set<string>, after: State) {
    && before.next == after.next && Extends(after.deployments, before.deployments)
    && before.deployments.Keys - modules <= after.deployments.Keys
    && EngineShrank(before.engine, after.engine)
    && (forall key | key in before.engine && key !in after.engine :: OwnedByOneOf(before.deployments, modules, key.dep))
  }

  /** A deployment was deleted if and only if its row is gone. */
  ghost predicate ResultsTell(results: map<string, bool>, deployments: Items) {
    forall m | m in results :: results[m] <==> m !in deployments
  }

  lemma DeletedOneMore(first: State, modules: set<string>, before: State, m: string, after: State)
    requires DeletedFrom(first, modules, before) && m in modules && m in before.deployments
    requires after.next == before.next
    requires after.deployments == before.deployments || after.deployments == before.deployments - {m}
    requires EngineShrank(before.engine, after.engine)
    requires forall key | key in before.engine && key !in after.engine :: key.dep == before.deployments[m].dep
    ensures DeletedFrom(first, modules, after)
  {
    assert first.deployments[m] == before.deployments[m];
    forall key | key in first.engine && key !in after.engine
      ensures OwnedByOneOf(first.deployments, modules, key.dep)
    {
      if key in before.engine {
        assert m in modules && m in first.deployments && first.deployments[m].dep == key.dep;
      }
    }
  }

  /** How far a batch delete has come. */
  ghost predicate Deleting(first: State, modules: set<string>, now: State, todo: set<string>,
                           results: map<string, bool>) {
    && DeletedFrom(first, modules, now)
    && todo <= modules * now.deployments.Keys
    && results.Keys == modules * first.deployments.Keys - todo && ResultsTell(results, now.deployments)
  }

  ghost predicate IsDeleting(first: State, modules: set<string>, now: State, todo: set<string>,
                             results: map<string, bool>) {
    exists left :: left == todo && Deleting(first, modules, now, left, results)
  }

  lemma NothingDeleted(s: State, modules: set<string>)
    ensures IsDeleting(s, modules, s, modules * s.deployments.Keys, map[])
  {
    var none: map<string, bool> := map[];
    assert none.Keys == {};
    assert Deleting(s, modules, s, modules * s.deployments.Keys, none);
  }

  lemma DeletingOneMore(first: State, modules: set<string>, before: State, after: State, todo: set<string>,
                        results: map<string, bool>, m: string, ok: bool)
    requires IsDeleting(first, modules, before, todo, results) && m in todo && after.next == before.next
    requires after.deployments == if ok then before.deployments - {m} else before.deployments
    requires EngineShrank(before.engine, after.engine)
    requires forall key | key in before.engine && key !in after.engine :: key.dep == before.deployments[m].dep
    ensures IsDeleting(first, modules, after, todo - {m}, results[m := ok])
  {
    DeletedOneMore(first, modules, before, m, after);
    assert Deleting(first, modules, after, todo - {m}, results[m := ok]);
  }

  /** Services without a container that has what the cache says. */
  ghost function Missing(dep: DeploymentId, services: Services, engine: Engine, cache: Items, todo: set<string>)
    : set<string>
  {
    set r | r in services && r !in todo
            && !(Key(dep, r) in engine && engine[Key(dep, r)] == Resolve(services[r], cache))
  }

  lemma MissingOneMore(dep: DeploymentId, services: Services, engine: Engine, after: Engine, cache: Items,
                       todo: set<string>, r: string, ok: bool)
    requires r in todo && r in services
    requires after == if ok then engine[Key(dep, r) := Resolve(services[r], cache)] else engine
    ensures |Missing(dep, services, after, cache, todo - {r})| <=
            |Missing(dep, services, engine, cache, todo)| + if ok then 0 else 1
  {
    var more, less := Missing(dep, services, after, cache, todo - {r}), Missing(dep, services, engine, cache, todo);
    assert more <= less + if ok then {} else {r};
    SubsetCardinality(more, less + if ok then {} else {r});
  }

  /** Services whose container is still there. */
  ghost function StillThere(item: Item, engine: Engine, todo: set<string>): set<string> {
    set r | r in item.aliases && r !in todo && Key(item.dep, r) in engine
  }

  lemma StillThereOneMore(item: Item, engine: Engine, after: Engine, todo: set<string>, r: string, ok: bool)
    requires r in todo && r in item.aliases
    requires after == if ok then engine - {Key(item.dep, r)} else engine
    ensures |StillThere(item, after, todo - {r})| <= |StillThere(item, engine, todo)| + if ok then 0 else 1
  {
    var more, less := StillThere(item, after, todo - {r}), StillThere(item, engine, todo);
    assert more <= less + if ok then {} else {r};
    SubsetCardinality(more, less + if ok then {} else {r});
  }

  /** Renewals that could have been made. */
  ghost function BadRenewals(selected: map<string, Module>, deployments: Items, results: map<string, bool>)
    : set<string>
  {
    set m | m in Bad(results) && m in selected && m in deployments && selected[m].dependencies <= deployments.Keys
  }

  lemma BadRenewalsOneMore(selected: map<string, Module>, deployments: Items, results: map<string, bool>, m: string,
                           good: bool, failed: bool)
    requires m !in results && m in selected
    requires !failed ==> (good <==> m in deployments && selected[m].dependencies <= deployments.Keys)
    ensures |BadRenewals(selected, deployments, results[m := good])| <=
            |BadRenewals(selected, deployments, results)| + if failed then 1 else 0
  {
    var more := BadRenewals(selected, deployments, results[m := good]);
    var less := BadRenewals(selected, deployments, results) + if failed then {m} else {};
    assert more <= less;
    SubsetCardinality(more, less);
  }

  lemma NoBadMeansAllGood(results: map<string, bool>)
    requires |Bad(results)| == 0
    ensures AllGood(results)
  {
    forall m | m in results ensures results[m] {
      assert m !in Bad(results);
    }
  }

  // ----- The handler -----

  class Handler {
    const env: Environment

    /** The database and the container engine. */
    var deployments: Items
    var engine: Engine

    var next: DeploymentId

    ghost predicate Valid()
      reads this
    {
      && IdsBelow(deployments, engine, next)
      && forall a, b | a in deployments && b in deployments && deployments[a].dep == deployments[b].dep :: a == b
    }

    constructor (env: Environment)
      ensures Valid() && this.env == env && deployments == map[] && engine == map[]
    {
      this.env, deployments, engine, next := env, map[], map[], 0;
    }

    ghost function Now(): State
      reads this
    {
      State(deployments, engine, next)
    }

    // ----- The cache -----

    method UpdateDeploymentsCache(dependencies: set<string>, cache: Items) returns (cache': Items, ok: bool)
      modifies env
      ensures CacheGrew(deployments, cache, cache')
      ensures ok ==> dependencies <= cache'.Keys
      ensures env.Since(old(env.failures))
      ensures env.failures == old(env.failures) ==> (ok <==> dependencies <= cache.Keys + deployments.Keys)
    {
      var idsNotInCache := dependencies - cache.Keys;
      if idsNotInCache == {} {
        assert forall m | m in dependencies :: m in cache || m in idsNotInCache;
        return cache, true;
      }
      var failed := env.Attempt();
      if failed {
        return cache, false;
      }
      cache' := cache + map m | m in idsNotInCache && m in deployments :: deployments[m];
      ok := idsNotInCache <= cache'.Keys;
    }

    /** Everything before the first write: what may fail by itself, and reading the dependencies. */
    method Prepare(dependencies: set<string>, cache: Items) returns (cache': Items, ok: bool)
      requires Valid() && ItemsBelow(cache, next)
      modifies env
      ensures ItemsBelow(cache', next) && CacheGrew(deployments, cache, cache')
      ensures ok ==> dependencies <= cache'.Keys
      ensures env.Since(old(env.failures))
      ensures env.failures == old(env.failures) ==> (ok <==> dependencies <= cache.Keys + deployments.Keys)
    {
      cache', ok := cache, false;
      var failed := env.Attempt();
      if failed {
        return;
      }
      cache', ok := UpdateDeploymentsCache(dependencies, cache);
      if !ok {
        return;
      }
      failed := env.Attempt();
      ok := !failed;
    }

    // ----- Containers -----

    /** One container after the other; those that fail are left out. */
    method CreateContainers(dep: DeploymentId, services: Services, cache: Items) returns (ok: bool)
      modifies `engine, env
      ensures EngineFrom(old(engine), engine, cache)
      ensures forall key | key in old(engine) :: key in engine
      ensures forall key | key in engine && key !in old(engine) :: key.dep == dep
      ensures forall key | key in engine && key in old(engine) && key.dep != dep :: engine[key] == old(engine)[key]
      ensures ok ==> forall r | r in services ::
                  Key(dep, r) in engine && engine[Key(dep, r)] == Resolve(services[r], cache)
      ensures env.Since(old(env.failures)) && (!ok ==> env.failures > old(env.failures))
      ensures |Missing(dep, services, engine, cache, {})| <= env.failures - old(env.failures)
    {
      ok := true;
      var todo := services.Keys;
      assert Missing(dep, services, engine, cache, todo) == {};
      while todo != {}
        invariant todo <= services.Keys && env.Since(old(env.failures))
        invariant !ok ==> env.failures > old(env.failures)
        invariant |Missing(dep, services, engine, cache, todo)| <= env.failures - old(env.failures)
        invariant EngineFrom(old(engine), engine, cache)
        invariant forall key | key in old(engine) :: key in engine
        invariant forall key | key in engine && key !in old(engine) :: key.dep == dep
        invariant forall key | key in engine && key in old(engine) && key.dep != dep :: engine[key] == old(engine)[key]
        invariant ok ==> forall r | r in services && r !in todo ::
                    Key(dep, r) in engine && engine[Key(dep, r)] == Resolve(services[r], cache)
      {
        var r :| r in todo;
        ghost var before, left := engine, todo;
        todo := todo - {r};
        var vars := SetExternalDependencyEnvVariables(services[r], cache);
        var failed := env.Attempt();
        if failed {
          ok := false;
          MissingOneMore(dep, services, before, engine, cache, left, r, false);
          continue;
        }
        engine := engine[Key(dep, r) := vars];
        MissingOneMore(dep, services, before, engine, cache, left, r, true);
      }
    }

    /** The steps after the rows: anything around the containers may fail as well. */
    method StartContainers(dep: DeploymentId, services: Services, cache: Items) returns (ok: bool)
      requires Valid() && ItemsBelow(cache, next) && dep < next
      modifies `engine, env
      ensures Valid() && EngineFrom(old(engine), engine, cache)
      ensures forall key | key in old(engine) :: key in engine
      ensures forall key | key in engine && key !in old(engine) :: key.dep == dep
      ensures forall key | key in engine && key in old(engine) && key.dep != dep :: engine[key] == old(engine)[key]
      ensures ok ==> forall r | r in services ::
                  Key(dep, r) in engine && engine[Key(dep, r)] == Resolve(services[r], cache)
      ensures env.Since(old(env.failures)) && (!ok ==> env.failures > old(env.failures))
    {
      var failed := env.Attempt();
      if failed {
        return false;
      }
      ok := CreateContainers(dep, services, cache);
      EngineBelow(old(engine), engine, cache, next);
      failed := env.Attempt();
      ok := ok && !failed;
    }

    /** Removing goes on after a failure. */
    method RemoveContainers(item: Item) returns (ok: bool)
      modifies `engine, env
      ensures EngineShrank(old(engine), engine)
      ensures forall key | key in old(engine) && key !in engine :: key.dep == item.dep
      ensures ok ==> forall r | r in item.aliases :: Key(item.dep, r) !in engine
      ensures |StillThere(item, engine, {})| <= env.failures - old(env.failures)
      ensures env.Since(old(env.failures)) && (!ok ==> env.failures > old(env.failures))
    {
      ok := true;
      var todo := item.aliases.Keys;
      assert StillThere(item, engine, todo) == {};
      while todo != {}
        invariant todo <= item.aliases.Keys && env.Since(old(env.failures))
        invariant !ok ==> env.failures > old(env.failures)
        invariant |StillThere(item, engine, todo)| <= env.failures - old(env.failures)
        invariant EngineShrank(old(engine), engine)
        invariant forall key | key in old(engine) && key !in engine :: key.dep == item.dep
        invariant ok ==> forall r | r in item.aliases && r !in todo :: Key(item.dep, r) !in engine
      {
        var r :| r in todo;
        ghost var before, left := engine, todo;
        todo := todo - {r};
        var failed := env.Attempt();
        if failed {
          ok := false;
          StillThereOneMore(item, before, engine, left, r, false);
          continue;
        }
        engine := engine - {Key(item.dep, r)};
        StillThereOneMore(item, before, engine, left, r, true);
      }
    }

    // ----- Creating -----

    /** Fresh ids and generated aliases for all modules, before any of them is created. */
    method InitDeploymentsCacheFromModules(modules: map<string, Module>) returns (cache: Option<Items>)
      requires Valid()
      modifies `next, env
      ensures Valid() && next >= old(next)
      ensures cache.Some? ==> cache.value.Keys == modules.Keys && IsGenerated(modules, cache.value, old(next), next)
      ensures env.Since(old(env.failures)) && (cache.None? ==> env.failures > old(env.failures))
    {
      var items: Items := map[];
      var todo := modules.Keys;
      while todo != {}
        invariant todo <= modules.Keys && next >= old(next) && Valid() && env.Since(old(env.failures))
        invariant items.Keys == modules.Keys - todo && IsGenerated(modules, items, old(next), next)
      {
        var m :| m in todo;
        todo := todo - {m};
        var failed := env.Attempt();
        if failed {
          return None;
        }
        var id := next;
        next := next + 1;
        OneMoreGenerated(modules, items, old(next), id, m);
        IdsBelowMore(deployments, engine, id);
        items := items[m := GeneratedItem(id, modules[m])];
      }
      return Some(items);
    }

    method CreateDeployment(m: string, module_: Module, cache: Items) returns (cache': Items, ok: bool)
      requires Valid() && m in cache && m !in deployments && ItemsBelow(cache, next)
      requires forall x | x in deployments :: deployments[x].dep != cache[m].dep
      requires forall key | key in engine :: key.dep != cache[m].dep
      modifies `deployments, `engine, env
      ensures Valid() && ItemsBelow(cache', next)
      ensures CreatedOne(old(deployments), deployments, old(engine), engine, module_, cache, cache', m, cache[m], ok)
      ensures env.Since(old(env.failures))
      ensures env.failures == old(env.failures) ==>
                (ok <==> module_.dependencies <= cache.Keys + old(deployments).Keys)
    {
      cache', ok := Prepare(module_.dependencies, cache);
      if !ok {
        return;
      }
      var failed := env.Attempt();
      if failed {
        return cache', false;
      }
      deployments := deployments[m := cache[m]];
      ok := StartContainers(cache[m].dep, module_.services, cache');
      if ok {
        CompleteAfter(cache[m].dep, module_, engine, cache');
      }
    }

    method CreateNext(ghost old_: Items, ghost before: Engine, selected: map<string, Module>, ghost generated: Items,
                      ghost results: map<string, bool>, cache: Items, ghost todo: set<string>, m: string)
      returns (cache': Items, ok: bool)
      requires Valid() && m in todo && todo <= selected.Keys && selected.Keys == generated.Keys
      requires ItemsBelow(cache, next)
      requires IsBatch(old_, before, deployments, engine, selected, generated, results, cache, todo)
      requires forall x | x in old_ :: old_[x].dep != generated[m].dep
      requires forall a, b | a in generated && b in generated && generated[a].dep == generated[b].dep :: a == b
      modifies `deployments, `engine, env
      ensures Valid() && ItemsBelow(cache', next)
      ensures IsBatch(old_, before, deployments, engine, selected, generated, results[m := ok], cache', todo - {m})
      ensures env.Since(old(env.failures))
      ensures AllDeployable(selected, old_) && !ok ==> env.failures > old(env.failures)
    {
      BatchReady(old_, before, deployments, engine, selected, generated, results, cache, todo, m);
      cache', ok := CreateDeployment(m, selected[m], cache);
      BatchStep(old_, before, old(deployments), deployments, old(engine), engine, selected, generated, results, cache,
                cache', todo, m, ok);
    }

    method CreateAll(selected: map<string, Module>, generated: Items)
      returns (results: map<string, bool>, ghost cache: Items)
      requires Valid() && generated.Keys == selected.Keys && AreFresh(Now(), generated)
      modifies `deployments, `engine, env
      ensures Valid() && results.Keys == selected.Keys
      ensures IsBatch(old(deployments), old(engine), deployments, engine, selected, generated, results, cache, {})
      ensures env.Since(old(env.failures))
      ensures AllDeployable(selected, old(deployments)) ==> |Bad(results)| <= env.failures - old(env.failures)
    {
      results := map[];
      assert Bad(results) == {};
      var cached, todo := generated, selected.Keys;
      BatchStart(Now(), selected, generated);
      while todo != {}
        invariant Valid() && todo <= selected.Keys && ItemsBelow(cached, next) && results.Keys == selected.Keys - todo
        invariant IsBatch(old(deployments), old(engine), deployments, engine, selected, generated, results, cached,
                          todo)
        invariant env.Since(old(env.failures))
        invariant AllDeployable(selected, old(deployments)) ==> |Bad(results)| <= env.failures - old(env.failures)
      {
        var m :| m in todo;
        var ok;
        cached, ok := CreateNext(old(deployments), old(engine), selected, generated, results, cached, todo, m);
        DoneOneMore(selected.Keys, todo, m);
        BadOneMore(results, m, ok);
        todo := todo - {m};
        results := results[m := ok];
      }
      cache := cached;
    }

    method CreateEach(selected: map<string, Module>, generated: Items) returns (results: map<string, bool>)
      requires Valid() && generated.Keys == selected.Keys && AreFresh(Now(), generated)
      modifies `deployments, `engine, env
      ensures Valid() && results.Keys == selected.Keys
      ensures CreatedAs(generated, old(Now()), Now())
      ensures forall m | m in results && results[m] :: m in deployments
      ensures AllGood(results) ==>
                forall m | m in results :: Complete(deployments[m].dep, selected[m], engine, deployments)
      ensures env.Since(old(env.failures))
      ensures AllDeployable(selected, old(deployments)) ==> |Bad(results)| <= env.failures - old(env.failures)
    {
      ghost var before, cache := Now(), generated;
      results, cache := CreateAll(selected, generated);
      CreateEnd(before, Now(), selected, generated, cache, results);
    }

    method CreateNew(selected: map<string, Module>) returns (results: map<string, bool>, ok: bool)
      requires Valid() && selected.Keys !! deployments.Keys
      modifies this, env
      ensures Valid() && Created(old(Now()), selected, Now())
      ensures ok ==> results.Keys == selected.Keys
      ensures forall m | m in results && results[m] :: m in deployments
      ensures ok && AllGood(results) ==>
                forall m | m in results :: Complete(deployments[m].dep, selected[m], engine, deployments)
      ensures env.Since(old(env.failures)) && (!ok ==> env.failures > old(env.failures))
      ensures env.Since(old(env.failures))
      ensures AllDeployable(selected, old(deployments)) ==> |Bad(results)| <= env.failures - old(env.failures)
    {
      var cache := InitDeploymentsCacheFromModules(selected);
      if cache.None? {
        NothingCreated(old(Now()), selected, next);
        results := map[];
        assert Bad(results) == {};
        return results, false;
      }
      ghost var middle := Now();
      GeneratedAreFresh(old(Now()), selected, cache.value, middle);
      results := CreateEach(selected, cache.value);
      GeneratedAreNew(old(Now()), selected, cache.value, middle, Now());
      ok := true;
    }

    /** All modules that are not deployed yet, in any order. */
    method CreateDeployments(selected: map<string, Module>) returns (results: map<string, bool>, ok: bool)
      requires Valid()
      modifies this, env
      ensures Valid() && Created(old(Now()), selected, Now())
      ensures ok ==> results.Keys == selected.Keys - old(deployments).Keys
      ensures forall m | m in results && results[m] :: m in deployments
      ensures ok && AllGood(results) ==>
                forall m | m in results :: Complete(deployments[m].dep, selected[m], engine, deployments)
      ensures env.Since(old(env.failures)) && (!ok ==> env.failures > old(env.failures))
      ensures env.Since(old(env.failures))
      ensures AllDeployable(selected, old(deployments)) ==> |Bad(results)| <= env.failures - old(env.failures)
    {
      var failed := env.Attempt();
      if failed {
        NothingCreated(Now(), selected, next);
        results := map[];
        assert Bad(results) == {};
        return results, false;
      }
      var filtered := NotDeployed(selected, deployments);
      assert AllDeployable(selected, deployments) ==> AllDeployable(filtered, deployments) by {
        assert filtered.Keys + deployments.Keys == selected.Keys + deployments.Keys;
      }
      results, ok := CreateNew(filtered);
      FilteredIsEnough(old(Now()), selected, Now());
    }

    // ----- Updating and recreating -----

    /** New container names, but the aliases that are already there. */
    method InitDeploymentsCacheFromModulesAndDeployments(modules: map<string, Module>) returns (cache: Option<Items>)
      modifies env
      ensures cache.Some? ==> cache.value == Renewed(modules, deployments)
      ensures env.Since(old(env.failures)) && (cache.None? ==> env.failures > old(env.failures))
    {
      var items: Items := map[];
      var todo := modules.Keys;
      while todo != {}
        invariant todo <= modules.Keys && env.Since(old(env.failures))
        invariant items == map m | m in modules && m !in todo && m in deployments ::
                    RenewedItem(modules[m], deployments[m])
      {
        var m :| m in todo;
        todo := todo - {m};
        if m !in deployments {
          continue;
        }
        var failed := env.Attempt();
        if failed {
          return None;
        }
        items := items[m := RenewedItem(modules[m], deployments[m])];
      }
      return Some(items);
    }

    method RenewRow(m: string, item: Item, write: bool) returns (ok: bool)
      requires Valid() && m in deployments && item.dep == deployments[m].dep && ItemsBelow(map[m := item], next)
      modifies `deployments, env
      ensures Valid()
      ensures deployments == if ok && write then old(deployments)[m := item] else old(deployments)
      ensures env.Since(old(env.failures)) && (!ok ==> env.failures > old(env.failures))
    {
      var failed := env.Attempt();
      if failed {
        return false;
      }
      if write {
        assert m in map[m := item];
        deployments := deployments[m := item];
      }
      return true;
    }

    /** An update (`write`) replaces the rows of the containers; a recreate leaves them, it only
        gives the containers new names. */
    method RenewDeployment(m: string, module_: Module, cache: Items, write: bool) returns (cache': Items, ok: bool)
      requires Valid() && m in cache && m in deployments && ItemsBelow(cache, next)
      requires cache[m].dep == deployments[m].dep
      modifies `deployments, `engine, env
      ensures Valid() && ItemsBelow(cache', next)
      ensures RenewedOne(old(deployments), deployments, old(engine), engine, cache, cache', m, write, ok)
      ensures ok ==> forall r | r in module_.services ::
                Key(cache[m].dep, r) in engine && engine[Key(cache[m].dep, r)] == Resolve(module_.services[r], cache')
      ensures env.Since(old(env.failures))
      ensures env.failures == old(env.failures) ==>
                (ok <==> module_.dependencies <= cache.Keys + old(deployments).Keys)
    {
      cache', ok := Prepare(module_.dependencies, cache);
      if !ok {
        return;
      }
      ok := RemoveContainers(deployments[m]);
      if !ok {
        return;
      }
      ghost var remaining := engine;
      ok := RenewRow(m, cache[m], write);
      if !ok {
        return;
      }
      ok := StartContainers(cache[m].dep, module_.services, cache');
      EngineFromShrunk(old(engine), remaining, engine, cache');
    }

    method RenewNext(ghost old_: Items, ghost before: Engine, selected: map<string, Module>,
                     ghost results: map<string, bool>, cache: Items, ghost todo: set<string>, m: string, write: bool)
      returns (cache': Items, good: bool)
      requires Valid() && m in todo && todo <= selected.Keys && ItemsBelow(cache, next)
      requires RenewInv(selected, old_, deployments, before, engine, cache, todo, results, write)
      modifies `deployments, `engine, env
      ensures Valid() && ItemsBelow(cache', next)
      ensures RenewInv(selected, old_, deployments, before, engine, cache', todo - {m}, results[m := good], write)
      ensures env.Since(old(env.failures))
      ensures env.failures == old(env.failures) ==> (good <==> m in old_ && selected[m].dependencies <= old_.Keys)
    {
      cache', good := cache, false;
      if m in cache {
        RenewReady(selected, old_, deployments, before, engine, cache, todo, results, write, m);
        cache', good := RenewDeployment(m, selected[m], cache, write);
      }
      RenewStep(selected, old_, old(deployments), deployments, before, old(engine), engine, cache, cache', todo,
                results, write, m, good);
    }

    method RenewEach(selected: map<string, Module>, initial: Items, write: bool)
      returns (results: map<string, bool>, ghost cache: Items)
      requires Valid() && initial == Renewed(selected, deployments)
      modifies `deployments, `engine, env
      ensures Valid()
      ensures RenewInv(selected, old(deployments), deployments, old(engine), engine, cache, {}, results, write)
      ensures env.Since(old(env.failures))
      ensures |BadRenewals(selected, old(deployments), results)| <= env.failures - old(env.failures)
      ensures env.failures == old(env.failures) ==> GoodIffDeployable(selected, old(deployments), results)
    {
      results := map[];
      assert BadRenewals(selected, deployments, results) == {};
      var items, todo := initial, selected.Keys;
      RenewStart(selected, deployments, engine, next, write);
      while todo != {}
        invariant Valid() && todo <= selected.Keys && ItemsBelow(items, next)
        invariant RenewInv(selected, old(deployments), deployments, old(engine), engine, items, todo, results, write)
        invariant env.Since(old(env.failures)) && results.Keys == selected.Keys - todo
        invariant |BadRenewals(selected, old(deployments), results)| <= env.failures - old(env.failures)
        invariant env.failures == old(env.failures) ==> GoodIffDeployable(selected, old(deployments), results)
      {
        var m :| m in todo;
        var good;
        ghost var before := env.failures;
        items, good := RenewNext(old(deployments), old(engine), selected, results, items, todo, m, write);
        BadRenewalsOneMore(selected, old(deployments), results, m, good, env.failures > before);
        DoneOneMore(selected.Keys, todo, m);
        todo := todo - {m};
        results := results[m := good];
      }
      cache := items;
    }

    method RenewDeployments(selected: map<string, Module>, write: bool) returns (results: map<string, bool>, ok: bool)
      requires Valid()
      modifies `deployments, `engine, env
      ensures Valid()
      ensures RenewedTo(old(Now()), selected, Now()) && (!write ==> deployments == old(deployments))
      ensures ok ==> results.Keys == selected.Keys
      ensures forall m | m in results && results[m] :: m in selected && m in old(deployments)
      ensures write ==> forall m | m in results && results[m] ::
                  IsRenewal(selected[m], old(deployments)[m], deployments[m])
      ensures env.Since(old(env.failures)) && (!ok ==> env.failures > old(env.failures))
      ensures |BadRenewals(selected, old(deployments), results)| <= env.failures - old(env.failures)
      ensures env.failures == old(env.failures) ==> ok && GoodIffDeployable(selected, old(deployments), results)
    {
      results, ok := map[], false;
      assert Bad(results) == {};
      var failed := env.Attempt();
      if failed {
        return;
      }
      var initial := InitDeploymentsCacheFromModulesAndDeployments(selected);
      if initial.None? {
        return;
      }
      ghost var cache;
      results, cache := RenewEach(selected, initial.value, write);
      ok := true;
      RenewEnd(selected, old(Now()), Now(), cache, results, write);
    }

    // ----- Deleting -----

    /** Containers, whatever else belongs to the deployment, and its row last. */
    method DeleteDeployment(m: string) returns (ok: bool)
      requires Valid() && m in deployments
      modifies `deployments, `engine, env
      ensures Valid()
      ensures deployments == if ok then old(deployments) - {m} else old(deployments)
      ensures EngineShrank(old(engine), engine)
      ensures forall key | key in old(engine) && key !in engine :: key.dep == old(deployments)[m].dep
      ensures ok ==> forall r | r in old(deployments)[m].aliases :: Key(old(deployments)[m].dep, r) !in engine
      ensures env.Since(old(env.failures)) && (!ok ==> env.failures > old(env.failures))
    {
      ok := RemoveContainers(deployments[m]);
      var failed := env.Attempt();
      if !ok || failed {
        return false;
      }
      deployments := deployments - {m};
    }

    method DeleteNext(ghost first: State, modules: set<string>, ghost todo: set<string>, results: map<string, bool>,
                      m: string)
      returns (results': map<string, bool>)
      requires Valid() && m in todo && IsDeleting(first, modules, Now(), todo, results)
      requires m !in results
      modifies `deployments, `engine, env
      ensures Valid() && IsDeleting(first, modules, Now(), todo - {m}, results')
      ensures results'.Keys == results.Keys + {m}
      ensures env.Since(old(env.failures)) && |Bad(results')| <= |Bad(results)| + env.failures - old(env.failures)
    {
      ghost var before := Now();
      var ok := DeleteDeployment(m);
      DeletingOneMore(first, modules, before, Now(), todo, results, m, ok);
      BadOneMore(results, m, ok);
      results' := results[m := ok];
    }

    method DeleteDeployments(modules: set<string>) returns (results: map<string, bool>)
      requires Valid()
      modifies `deployments, `engine, env
      ensures Valid() && DeletedFrom(old(Now()), modules, Now())
      ensures results.Keys == modules * old(deployments).Keys && ResultsTell(results, deployments)
      ensures env.Since(old(env.failures)) && |Bad(results)| <= env.failures - old(env.failures)
    {
      results := map[];
      assert Bad(results) == {};
      var todo := modules * deployments.Keys;
      NothingDeleted(Now(), modules);
      while todo != {}
        invariant Valid() && IsDeleting(old(Now()), modules, Now(), todo, results)
        invariant results.Keys !! todo
        invariant env.Since(old(env.failures)) && |Bad(results)| <= env.failures - old(env.failures)
      {
        var m :| m in todo;
        results := DeleteNext(old(Now()), modules, todo, results, m);
        todo := todo - {m};
      }
    }
  }

  // ----- Aliases stay -----

  /** An update keeps the alias of every service that stays in the module; a recreate keeps all. */
  lemma RetainedServicesKeepTheirAlias(selected: map<string, Module>, before: Items, after: Items, m: string,
                                       reference: string)
    requires IsRenewed(selected, before, after) && m in before && reference in before[m].aliases
    requires before[m].aliases[reference] != Unset
    ensures after[m].dep == before[m].dep
    ensures m in selected && reference in selected[m].services ==>
              reference in after[m].aliases && after[m].aliases[reference] == before[m].aliases[reference]
    ensures reference in after[m].aliases ==> after[m].aliases[reference] == before[m].aliases[reference]
  {
  }

  /** What a container of the batch was given is what is stored in the end, whether or not the
      update of its target got through. */
  lemma GivenIsStored(selected: map<string, Module>, before: Items, after: Items, r: Resolved)
    requires IsRenewed(selected, before, after) && FromOld(r, selected.Keys, before)
    requires Known(r.target, after) && AliasOf(r.target, after) != Unset
    ensures r.alias == AliasOf(r.target, after)
  {
  }
}
