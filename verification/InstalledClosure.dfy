/** Reading installed modules together with everything they depend on
    (pkg/components/handler/modules/handler.go). A module whose modfile cannot be read comes back
    without one, and without dependencies. */
module InstalledClosure {
  import opened Modfiles
  import opened ModuleStore
  import opened Prelude

  type Modules = map<string, Module>

  function Dependencies(m: Module): set<string> {
    if m.mod.Some? then m.mod.value.dependencies else {}
  }

  function Blank(m: Module): Module {
    m.(mod := None)
  }

  ghost function InstalledOf(rows: map<string, Row>, disk: map<nat, Dir>, cache: map<string, Mod>): Modules {
    map id | id in rows :: Module(rows[id].source, rows[id].channel, CurrentMod(rows, disk, cache, id))
  }

  /** What the store has. */
  ghost function InstalledIn(store: Handler): Modules
    reads store
  {
    InstalledOf(store.rows, store.disk, store.cache)
  }

  /** What the database filter selects: an empty id list selects every row. */
  function Chosen(installed: Modules, ids: seq<string>): Modules {
    if ids == [] then installed else map id | id in ids && id in installed :: installed[id]
  }

  // ----- The meaning: reachability through installed modules -----

  ghost predicate IsPath(installed: Modules, path: seq<string>) {
    && path != []
    && (forall i | 0 <= i < |path| :: path[i] in installed)
    && (forall i | 0 < i < |path| :: path[i] in Dependencies(installed[path[i - 1]]))
  }

  ghost predicate Reachable(installed: Modules, roots: set<string>, id: string) {
    exists path: seq<string> :: IsPath(installed, path) && path[0] in roots && path[|path| - 1] == id
  }

  ghost predicate Resembles(whole: Module, part: Module) {
    part == whole || part == Blank(whole)
  }

  /** Each module is there as the store has it, or without its modfile. */
  ghost predicate Agrees(installed: Modules, collected: Modules) {
    forall id | id in collected :: id in installed && Resembles(installed[id], collected[id])
  }

  /** Nothing is missing its modfile that the store has. */
  ghost predicate Agreed(installed: Modules, collected: Modules) {
    forall id | id in collected :: id in installed && collected[id] == installed[id]
  }

  /** Every dependency that `from` knows of a collected module is collected or not installed. */
  ghost predicate Closed(installed: Modules, collected: Modules, from: Modules) {
    forall c, d | c in collected && c in from && d in Dependencies(from[c]) :: d in collected || d !in installed
  }

  /** A closed collection that holds the installed roots holds all that is reachable. */
  lemma {:induction false} ClosedHoldsPath(installed: Modules, collected: Modules, path: seq<string>)
    requires Closed(installed, collected, installed)
    requires IsPath(installed, path) && path[0] in collected
    ensures path[|path| - 1] in collected
    decreases |path|
  {
    if |path| > 1 {
      var shorter := path[..|path| - 1];
      assert forall i | 0 < i < |shorter| :: shorter[i] in Dependencies(installed[shorter[i - 1]]);
      ClosedHoldsPath(installed, collected, shorter);
      assert path[|path| - 1] in Dependencies(installed[path[|path| - 2]]);
    }
  }

  lemma ClosedHoldsReachable(installed: Modules, collected: Modules, roots: set<string>)
    requires Closed(installed, collected, installed)
    requires forall r | r in roots && r in installed :: r in collected
    ensures forall id | Reachable(installed, roots, id) :: id in collected
  {
    forall id | Reachable(installed, roots, id) ensures id in collected {
      var path :| IsPath(installed, path) && path[0] in roots && path[|path| - 1] == id;
      ClosedHoldsPath(installed, collected, path);
    }
  }

  lemma LongerPath(installed: Modules, m: string, path: seq<string>)
    requires IsPath(installed, path) && m in installed && path[0] in Dependencies(installed[m])
    ensures IsPath(installed, [m] + path)
  {
    var longer := [m] + path;
    forall i | 0 < i < |longer| ensures longer[i] in Dependencies(installed[longer[i - 1]]) {
      if i > 1 {
        assert path[i - 1] in Dependencies(installed[path[i - 2]]);
      }
    }
  }

  lemma ReachableThroughDependency(installed: Modules, roots: set<string>, next: set<string>)
    requires forall d | d in next :: exists m :: m in roots && m in installed && d in Dependencies(installed[m])
    ensures forall id | Reachable(installed, next, id) :: Reachable(installed, roots, id)
  {
    forall id | Reachable(installed, next, id) ensures Reachable(installed, roots, id) {
      var path :| IsPath(installed, path) && path[0] in next && path[|path| - 1] == id;
      var m :| m in roots && m in installed && path[0] in Dependencies(installed[m]);
      LongerPath(installed, m, path);
      assert ([m] + path)[|[m] + path| - 1] == id;
    }
  }

  // ----- The recursion -----

  ghost predicate Meets(batch: seq<string>, collected: Modules) {
    exists id :: id in batch && id in collected
  }

  /** Each call either collects something new or meets only modules that this very round
      had already collected; the second can happen at most once in a row. */
  ghost function Measure(installed: Modules, collected: Modules, batch: seq<string>): nat {
    2 * |installed.Keys - collected.Keys| + if Meets(batch, collected) then 1 else 0
  }

  /** The recursion invariant: a dependency of a collected module is collected, in the next
      batch, or not installed. */
  ghost predicate Pending(installed: Modules, collected: Modules, batch: seq<string>) {
    forall c, d | c in collected && d in Dependencies(collected[c]) :: d in collected || d in batch || d !in installed
  }

  /** The store with only these modfiles. */
  ghost function WithModfilesOf(installed: Modules, seen: set<string>): Modules {
    map id | id in installed :: if id in seen then installed[id] else Blank(installed[id])
  }

  /** What was added is reachable through the dependencies of the modules in `seen`. */
  ghost predicate ReachedThrough(installed: Modules, before: Modules, batch: seq<string>, after: Modules,
                                 seen: set<string>)
  {
    forall id | id in after :: id in before || Reachable(WithModfilesOf(installed, seen), Elements(batch), id)
  }

  /** The modules in `seen` are there, with what they depend on. */
  ghost predicate HoldsSeen(installed: Modules, after: Modules, seen: set<string>) {
    && (forall m | m in seen :: m in after && m in installed)
    && (forall m, d | m in seen && m in installed && d in Dependencies(installed[m]) ::
          d in after || d !in installed)
  }

  /** Each module that was added with its modfile is in `seen`. */
  ghost predicate SawAdded(installed: Modules, before: Modules, after: Modules, seen: set<string>) {
    forall id | id in after && id !in before && id in installed && after[id] == installed[id] :: id in seen
  }

  /** `seen` are the modules that were read with their modfiles, at least once. */
  ghost predicate Collected(installed: Modules, before: Modules, batch: seq<string>, after: Modules,
                            seen: set<string>)
  {
    && Agrees(installed, after)
    && Closed(installed, after, after)
    && (forall id | id in before :: id in after && after[id] == before[id])
    && (forall id | id in batch && id in installed :: id in after)
    && ReachedThrough(installed, before, batch, after, seen)
    && HoldsSeen(installed, after, seen)
    && SawAdded(installed, before, after, seen)
  }

  /** One round: `read` was read for `batch` and added to `before`, which gives `round`; `next` is
      what it asks for and does not have. */
  ghost predicate Round(installed: Modules, before: Modules, batch: seq<string>, read: Modules, round: Modules,
                        next: seq<string>)
  {
    && batch != [] && Agrees(installed, read) && read.Keys == Chosen(installed, batch).Keys
    && Agrees(installed, round) && round == read + before
    && (forall d | d in next :: d !in before && exists m :: m in read && d in Dependencies(read[m]))
    && (forall m, d | m in read && d in Dependencies(read[m]) :: d in round || d in next)
    && Pending(installed, round, next)
  }

  ghost function Seen(installed: Modules, read: Modules): set<string> {
    set id | id in read && id in installed && read[id] == installed[id]
  }

  lemma ReachableThroughMore(installed: Modules, less: set<string>, more: set<string>, roots: set<string>)
    requires less <= more
    ensures forall id | Reachable(WithModfilesOf(installed, less), roots, id) ::
              Reachable(WithModfilesOf(installed, more), roots, id)
  {
    var small, big := WithModfilesOf(installed, less), WithModfilesOf(installed, more);
    forall id | Reachable(small, roots, id) ensures Reachable(big, roots, id) {
      var path :| IsPath(small, path) && path[0] in roots && path[|path| - 1] == id;
      forall i | 0 < i < |path| ensures path[i] in Dependencies(big[path[i - 1]]) {
        assert path[i] in Dependencies(small[path[i - 1]]);
      }
      assert IsPath(big, path);
    }
  }

  lemma RoundReaches(installed: Modules, batch: seq<string>, read: Modules, next: seq<string>, seen: set<string>)
    requires batch != [] && Agrees(installed, read) && read.Keys == Chosen(installed, batch).Keys
    requires forall d | d in next :: exists m :: m in read && d in Dependencies(read[m])
    requires Seen(installed, read) <= seen
    ensures forall id | id in read :: Reachable(WithModfilesOf(installed, seen), Elements(batch), id)
    ensures forall id | Reachable(WithModfilesOf(installed, seen), Elements(next), id) ::
              Reachable(WithModfilesOf(installed, seen), Elements(batch), id)
  {
    var roots, known := Elements(batch), WithModfilesOf(installed, seen);
    forall id | id in read ensures Reachable(known, roots, id) {
      assert IsPath(known, [id]) && [id][0] in roots && [id][|[id]| - 1] == id;
    }
    forall d | d in Elements(next) ensures exists m :: m in roots && m in known && d in Dependencies(known[m]) {
      var m :| m in read && d in Dependencies(read[m]);
      assert m in roots && m in installed && Resembles(installed[m], read[m]);
      assert m in Seen(installed, read);
    }
    ReachableThroughDependency(known, roots, Elements(next));
  }

  lemma RoundHoldsSeen(installed: Modules, before: Modules, batch: seq<string>, read: Modules, round: Modules,
                       next: seq<string>, after: Modules)
    requires Round(installed, before, batch, read, round, next)
    requires forall id | id in round :: id in after
    requires forall id | id in next && id in installed :: id in after
    ensures HoldsSeen(installed, after, Seen(installed, read))
  {
  }

  lemma LastRound(installed: Modules, before: Modules, batch: seq<string>, read: Modules, round: Modules)
    requires Round(installed, before, batch, read, round, [])
    ensures Collected(installed, before, batch, round, Seen(installed, read))
  {
    var seen := Seen(installed, read);
    RoundHoldsSeen(installed, before, batch, read, round, [], round);
    assert SawAdded(installed, before, round, seen);
    assert ReachedThrough(installed, before, batch, round, seen) by {
      RoundReaches(installed, batch, read, [], seen);
    }
  }

  lemma ReachedComposes(installed: Modules, before: Modules, batch: seq<string>, read: Modules, round: Modules,
                        next: seq<string>, after: Modules, deeper: set<string>)
    requires Round(installed, before, batch, read, round, next)
    requires ReachedThrough(installed, round, next, after, deeper)
    ensures ReachedThrough(installed, before, batch, after, Seen(installed, read) + deeper)
  {
    var seen := Seen(installed, read) + deeper;
    ReachableThroughMore(installed, deeper, seen, Elements(next));
    RoundReaches(installed, batch, read, next, seen);
  }

  lemma SeenComposes(installed: Modules, before: Modules, batch: seq<string>, read: Modules, round: Modules,
                     next: seq<string>, after: Modules, deeper: set<string>)
    requires Round(installed, before, batch, read, round, next)
    requires SawAdded(installed, round, after, deeper)
    requires forall id | id in round :: id in after && after[id] == round[id]
    ensures SawAdded(installed, before, after, Seen(installed, read) + deeper)
  {
  }

  /** A round, and after it a correct rest, are correct together. */
  lemma RoundsCompose(installed: Modules, before: Modules, batch: seq<string>, read: Modules, round: Modules,
                      next: seq<string>, after: Modules, deeper: set<string>)
    requires Round(installed, before, batch, read, round, next)
    requires Collected(installed, round, next, after, deeper)
    ensures Collected(installed, before, batch, after, Seen(installed, read) + deeper)
  {
    ReachedComposes(installed, before, batch, read, round, next, after, deeper);
    RoundHoldsSeen(installed, before, batch, read, round, next, after);
    SeenComposes(installed, before, batch, read, round, next, after, deeper);
  }

  lemma FewerLeft(installed: Modules, before: Modules, after: Modules)
    requires Agrees(installed, after) && before.Keys <= after.Keys && before.Keys != after.Keys
    ensures |installed.Keys - after.Keys| < |installed.Keys - before.Keys|
  {
    var left, right := installed.Keys - after.Keys, installed.Keys - before.Keys;
    var extra :| extra in after.Keys && extra !in before.Keys;
    assert extra in right && extra !in left;
    SubsetSmaller(left, right, extra);
  }

  lemma MeasureDecreases(installed: Modules, before: Modules, batch: seq<string>, read: Modules, round: Modules,
                         next: seq<string>)
    requires Round(installed, before, batch, read, round, next) && next != []
    ensures Measure(installed, round, next) < Measure(installed, before, batch)
  {
    assert next[0] in next;
    var m :| m in read && next[0] in Dependencies(read[m]);
    if round.Keys == before.Keys {
      assert m in batch && m in before;
      assert Meets(batch, before) && !Meets(next, round);
    } else {
      FewerLeft(installed, before, round);
    }
  }

  /** The number of queries is linear in the number of installed modules. */
  lemma QueriesAreLinear(installed: Modules, batch: seq<string>)
    ensures Measure(installed, map[], batch) + 1 <= 2 * |installed| + 1
  {
    assert installed.Keys - {} == installed.Keys;
    assert |installed.Keys| == |installed|;
  }

  /** The map that the recursion fills in place. */
  class Accumulator {
    var modules: Modules

    constructor ()
      ensures modules == map[]
    {
      modules := map[];
    }
  }

  lemma FillingKeepsInstalled(rows: map<string, Row>, disk: map<nat, Dir>, before: map<string, Mod>,
                              after: map<string, Mod>)
    requires Filled(rows, disk, before, after)
    ensures InstalledOf(rows, disk, after) == InstalledOf(rows, disk, before)
  {
  }

  lemma DescribedAgrees(rows: map<string, Row>, disk: map<nat, Dir>, cache: map<string, Mod>, ids: seq<string>,
                        modules: Modules, reliable: bool)
    requires modules.Keys == Select(rows, ids).Keys
    requires DescribesAll(rows, disk, cache, modules, reliable)
    ensures Agrees(InstalledOf(rows, disk, cache), modules)
    ensures modules.Keys == Chosen(InstalledOf(rows, disk, cache), ids).Keys
    ensures reliable ==> Agreed(InstalledOf(rows, disk, cache), modules)
  {
    var installed := InstalledOf(rows, disk, cache);
    assert installed.Keys == rows.Keys;
    forall id | id in modules
      ensures id in installed && Resembles(installed[id], modules[id]) && (reliable ==> modules[id] == installed[id])
    {
      assert Describes(CurrentMod(rows, disk, cache, id), rows[id], modules[id], reliable);
    }
  }

  method ReadModules(store: Handler, ids: seq<string>) returns (modules: Option<Modules>)
    requires store.Valid()
    modifies store`cache, store`failed
    ensures store.Valid() && InstalledIn(store) == old(InstalledIn(store))
    ensures modules.Some? ==> Agrees(InstalledIn(store), modules.value)
    ensures modules.Some? ==> modules.value.Keys == Chosen(InstalledIn(store), ids).Keys
    ensures modules.None? ==> ReadingRows in store.failed
    ensures store.env.reliable ==> modules.Some? && Agreed(InstalledIn(store), modules.value)
  {
    ghost var cache := store.cache;
    modules := store.GetModules(ids);
    FillingKeepsInstalled(store.rows, store.disk, cache, store.cache);
    if modules.Some? {
      DescribedAgrees(store.rows, store.disk, cache, ids, modules.value, store.env.reliable);
    }
  }

  lemma ExtendedPath(installed: Modules, path: seq<string>, d: string)
    requires IsPath(installed, path) && d in installed && d in Dependencies(installed[path[|path| - 1]])
    ensures IsPath(installed, path + [d])
  {
    var longer := path + [d];
    forall i | 0 < i < |longer| ensures longer[i] in Dependencies(installed[longer[i - 1]]) {
      if i < |path| {
        assert path[i] in Dependencies(installed[path[i - 1]]);
      }
    }
  }

  /** What is collected is exactly what can be reached through the modules that were read with their
      modfiles. */
  lemma CollectedIsReached(installed: Modules, ids: seq<string>, collected: Modules, seen: set<string>)
    requires Collected(installed, map[], ids, collected, seen)
    ensures forall id :: id in collected <==> Reachable(WithModfilesOf(installed, seen), Elements(ids), id)
  {
    var known := WithModfilesOf(installed, seen);
    assert Closed(known, collected, known);
    ClosedHoldsReachable(known, collected, Elements(ids));
  }

  lemma ReachableInStore(installed: Modules, seen: set<string>, roots: set<string>)
    ensures forall id | Reachable(WithModfilesOf(installed, seen), roots, id) :: Reachable(installed, roots, id)
  {
    ReachableThroughMore(installed, seen, seen + installed.Keys, roots);
    assert WithModfilesOf(installed, seen + installed.Keys) == installed;
  }

  /** No unread modfile hides anything: whatever the store knows such a module to depend on is reached
      in another way, or is not installed. */
  ghost predicate UnreadHideNothing(installed: Modules, roots: set<string>, seen: set<string>) {
    forall m, d | m in installed && m !in seen && Reachable(WithModfilesOf(installed, seen), roots, m)
                  && d in Dependencies(installed[m]) && d in installed ::
      Reachable(WithModfilesOf(installed, seen), roots, d)
  }

  lemma ClosedIffNothingHidden(installed: Modules, ids: seq<string>, collected: Modules, seen: set<string>)
    requires Collected(installed, map[], ids, collected, seen)
    ensures Closed(installed, collected, installed) <==> UnreadHideNothing(installed, Elements(ids), seen)
  {
    CollectedIsReached(installed, ids, collected, seen);
    if UnreadHideNothing(installed, Elements(ids), seen) {
      forall c, d | c in collected && c in installed && d in Dependencies(installed[c])
        ensures d in collected || d !in installed
      {
        if c !in seen && d in installed {
          assert Reachable(WithModfilesOf(installed, seen), Elements(ids), c);
          assert Reachable(WithModfilesOf(installed, seen), Elements(ids), d);
        }
      }
    }
  }

  lemma ReachableOnwards(installed: Modules, roots: set<string>, c: string, d: string)
    requires Reachable(installed, roots, c) && c in installed && d in Dependencies(installed[c]) && d in installed
    ensures Reachable(installed, roots, d)
  {
    var path :| IsPath(installed, path) && path[0] in roots && path[|path| - 1] == c;
    ExtendedPath(installed, path, d);
    assert (path + [d])[0] in roots && (path + [d])[|path + [d]| - 1] == d;
  }

  ghost predicate IsWhole(installed: Modules, roots: set<string>, collected: Modules) {
    forall id :: id in collected <==> Reachable(installed, roots, id)
  }

  lemma WholeIffClosed(installed: Modules, ids: seq<string>, collected: Modules, seen: set<string>)
    requires Collected(installed, map[], ids, collected, seen)
    ensures Closed(installed, collected, installed) <==> IsWhole(installed, Elements(ids), collected)
  {
    var roots := Elements(ids);
    if Closed(installed, collected, installed) {
      CollectedIsReached(installed, ids, collected, seen);
      ReachableInStore(installed, seen, roots);
      ClosedHoldsReachable(installed, collected, roots);
    }
    if IsWhole(installed, roots, collected) {
      forall c, d | c in collected && d in Dependencies(installed[c]) && d in installed ensures d in collected {
        assert Reachable(installed, roots, c);
        ReachableOnwards(installed, roots, c, d);
      }
    }
  }

  /** The result is the whole closure if and only if no unread modfile hides anything; so it is if all
      were read. */
  lemma ExactIffNothingHidden(installed: Modules, ids: seq<string>, collected: Modules, seen: set<string>)
    requires Collected(installed, map[], ids, collected, seen)
    ensures IsWhole(installed, Elements(ids), collected) <==> UnreadHideNothing(installed, Elements(ids), seen)
    ensures Agreed(installed, collected) ==> UnreadHideNothing(installed, Elements(ids), seen)
  {
    WholeIffClosed(installed, ids, collected, seen);
    ClosedIffNothingHidden(installed, ids, collected, seen);
    if Agreed(installed, collected) {
      assert Closed(installed, collected, installed);
    }
  }

  /** A round in which the modules `done` of those read had their turn. */
  ghost predicate Collecting(read: Modules, done: set<string>, before: Modules, now: Modules, ids: seq<string>) {
    && (forall id :: id in now <==> id in before || (id in read && id in done))
    && (forall id | id in now :: now[id] == if id in before then before[id] else read[id])
    && (forall d | d in ids :: d !in before && exists m :: m in read && d in Dependencies(read[m]))
    && (forall m, d | m in done && m in read && d in Dependencies(read[m]) :: d in now || d in ids)
  }

  /** The ids that are neither collected nor gathered yet, in any order. */
  method Gather(dependencies: set<string>, collected: Modules, ids: seq<string>) returns (ids': seq<string>)
    ensures forall d :: d in ids' <==> d in ids || (d in dependencies && d !in collected)
  {
    ids' := ids;
    var todo := dependencies;
    while todo != {}
      invariant todo <= dependencies
      invariant forall d :: d in ids' <==> d in ids || (d in dependencies && d !in todo && d !in collected)
    {
      var d :| d in todo;
      if d !in collected && d !in ids' {
        ids' := ids' + [d];
      }
      todo := todo - {d};
    }
  }

  method CollectOne(modules: Modules, ghost done: set<string>, ghost before: Modules, id: string, acc: Accumulator,
                    ids: seq<string>)
    returns (dependencyIds: seq<string>)
    requires Collecting(modules, done, before, acc.modules, ids) && id in modules
    modifies acc
    ensures Collecting(modules, done + {id}, before, acc.modules, dependencyIds)
  {
    if id !in acc.modules {
      acc.modules := acc.modules[id := modules[id]];
    }
    dependencyIds := Gather(Dependencies(modules[id]), acc.modules, ids);
  }

  /** One round: add what was read and gather the ids to read next. A dependency that this
      round collects later stays in the batch. */
  method Collect(modules: Modules, acc: Accumulator) returns (dependencyIds: seq<string>)
    modifies acc
    ensures acc.modules == modules + old(acc.modules)
    ensures forall d | d in dependencyIds ::
              d !in old(acc.modules) && exists m :: m in modules && d in Dependencies(modules[m])
    ensures forall m, d | m in modules && d in Dependencies(modules[m]) :: d in acc.modules || d in dependencyIds
  {
    dependencyIds := [];
    var todo := modules.Keys;
    while todo != {}
      invariant todo <= modules.Keys
      invariant Collecting(modules, modules.Keys - todo, old(acc.modules), acc.modules, dependencyIds)
    {
      var id :| id in todo;
      DoneOneMore(modules.Keys, todo, id);
      dependencyIds := CollectOne(modules, modules.Keys - todo, old(acc.modules), id, acc, dependencyIds);
      todo := todo - {id};
    }
  }

  method ReadRound(store: Handler, filterIds: seq<string>, acc: Accumulator)
    returns (ok: bool, dependencyIds: seq<string>, ghost read: Modules)
    requires store.Valid() && filterIds != []
    requires Agrees(InstalledIn(store), acc.modules) && Pending(InstalledIn(store), acc.modules, filterIds)
    modifies store`cache, store`failed, acc
    ensures store.Valid() && InstalledIn(store) == old(InstalledIn(store))
    ensures ok ==> Round(InstalledIn(store), old(acc.modules), filterIds, read, acc.modules, dependencyIds)
    ensures !ok ==> acc.modules == old(acc.modules) && ReadingRows in store.failed
    ensures store.env.reliable ==> ok
    ensures store.env.reliable && old(Agreed(InstalledIn(store), acc.modules)) ==>
              Agreed(InstalledIn(store), acc.modules)
  {
    read, dependencyIds := map[], [];
    var modules := ReadModules(store, filterIds);
    if modules.None? {
      return false, dependencyIds, read;
    }
    read := modules.value;
    dependencyIds := Collect(modules.value, acc);
    return true, dependencyIds, read;
  }

  method GetModulesWithDependencies(store: Handler, filterIds: seq<string>, acc: Accumulator)
    returns (ok: bool, ghost calls: nat, ghost seen: set<string>)
    requires store.Valid() && filterIds != []
    requires Agrees(InstalledIn(store), acc.modules) && Pending(InstalledIn(store), acc.modules, filterIds)
    modifies store`cache, store`failed, acc
    ensures store.Valid() && InstalledIn(store) == old(InstalledIn(store))
    ensures ok ==> Collected(InstalledIn(store), old(acc.modules), filterIds, acc.modules, seen)
    ensures !ok ==> ReadingRows in store.failed
    ensures calls <= Measure(InstalledIn(store), old(acc.modules), filterIds) + 1
    ensures store.env.reliable ==> ok
    ensures store.env.reliable && old(Agreed(InstalledIn(store), acc.modules)) ==>
              Agreed(InstalledIn(store), acc.modules)
    decreases Measure(InstalledIn(store), acc.modules, filterIds)
  {
    calls, seen := 1, {};
    ghost var installed, before := InstalledIn(store), acc.modules;
    var dependencyIds;
    ghost var read;
    ok, dependencyIds, read := ReadRound(store, filterIds, acc);
    if !ok {
      return;
    }
    ghost var round := acc.modules;
    if |dependencyIds| > 0 {
      MeasureDecreases(installed, before, filterIds, read, round, dependencyIds);
      ghost var more, deeper;
      ok, more, deeper := GetModulesWithDependencies(store, dependencyIds, acc);
      calls := 1 + more;
      if !ok {
        return;
      }
      RoundsCompose(installed, before, filterIds, read, round, dependencyIds, acc.modules, deeper);
      seen := Seen(installed, read) + deeper;
    } else {
      LastRound(installed, before, filterIds, read, round);
      seen := Seen(installed, read);
    }
  }

  /** Whatever comes back is as the store has it, up to modfiles that could not be read just then, and
      is what is reachable through the modules in `seen`, whose modfiles could be read; without failures
      it is exactly what is reachable. */
  method GetModules(store: Handler, ids: seq<string>, dependencies: bool)
    returns (modules: Option<Modules>, ghost queries: nat, ghost seen: set<string>)
    requires store.Valid()
    modifies store`cache, store`failed
    ensures store.Valid() && InstalledIn(store) == old(InstalledIn(store))
    ensures queries <= 2 * |InstalledIn(store)| + 1
    // only a failed query is an error, a modfile that cannot be read is not
    ensures modules.None? ==> ReadingRows in store.failed
    ensures modules.Some? && dependencies && ids != [] ==>
              Collected(InstalledIn(store), map[], ids, modules.value, seen)
    ensures modules.Some? && (!dependencies || ids == []) ==>
              && Agrees(InstalledIn(store), modules.value)
              && forall id :: id in modules.value <==> id in InstalledIn(store) && (ids == [] || id in ids)
    ensures store.env.reliable ==> modules.Some? && Agreed(InstalledIn(store), modules.value)
    ensures store.env.reliable && dependencies && ids != [] ==>
              IsWhole(InstalledIn(store), Elements(ids), modules.value)
  {
    if dependencies && |ids| > 0 {
      var acc := new Accumulator();
      QueriesAreLinear(InstalledIn(store), ids);
      var ok;
      ok, queries, seen := GetModulesWithDependencies(store, ids, acc);
      if !ok {
        return None, queries, seen;
      }
      if store.env.reliable {
        ExactIffNothingHidden(InstalledIn(store), ids, acc.modules, seen);
      }
      modules := Some(acc.modules);
    } else {
      modules := ReadModules(store, ids);
      queries, seen := 1, {};
    }
  }

  /** A result that is too small: `a` came back without its modfile, so nobody asked for `b`. */
  lemma UnreadModfileHidesDependency()
    ensures var installed := map["a" := Module("s", "c", Some(Mod("a", "1", {"b"}, map[]))),
                                 "b" := Module("s", "c", Some(Mod("b", "1", {}, map[])))];
            var collected := map["a" := Blank(installed["a"])];
            Collected(installed, map[], ["a"], collected, {}) && Reachable(installed, {"a"}, "b")
  {
    var installed := map["a" := Module("s", "c", Some(Mod("a", "1", {"b"}, map[]))),
                         "b" := Module("s", "c", Some(Mod("b", "1", {}, map[])))];
    assert IsPath(installed, ["a"]) && IsPath(installed, ["a", "b"]);
    assert IsPath(WithModfilesOf(installed, {}), ["a"]);
    assert ["a"][0] in Elements(["a"]) && ["a"][|["a"]| - 1] == "a";
    assert ["a", "b"][0] in {"a"} && ["a", "b"][|["a", "b"]| - 1] == "b";
  }
}
