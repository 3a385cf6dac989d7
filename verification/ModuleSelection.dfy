/** Choosing the repository variants for a change request: the requested ones and their
    dependencies (pkg/service/repository.go). */
module ModuleSelection {
  import opened Modfiles
  import opened Prelude
  import opened Slices
  import opened RepoDependencies
  import opened SelectionOrder

  datatype Item = Item(id: string, source: string, channel: string, remove: bool, update: bool)

  datatype Installed = Installed(id: string, source: string, channel: string, version: string)

  datatype Channel = Channel(name: string, priority: int)

  datatype Repository = Repository(source: string, priority: int, channels: seq<Channel>)

  // ----- Priorities -----

  /** `e` has the highest priority in `s`, and no later element has the same. */
  ghost predicate LastHighest<E(!new)>(s: seq<E>, priority: E -> int, e: E)
  {
    exists i :: 0 <= i < |s| && s[i] == e
                && (forall j | 0 <= j < |s| :: priority(s[j]) <= priority(e))
                && (forall j | i < j < |s| :: priority(s[j]) < priority(e))
  }

  method SelectByPriority<E(!new)>(s: seq<E>, priority: E -> int, zero: E) returns (candidate: E)
    ensures s == [] ==> candidate == zero
    ensures s != [] ==> LastHighest(s, priority, candidate)
  {
    var lastPrio := 0;
    candidate := zero;
    for i := 0 to |s|
      invariant i == 0 ==> candidate == zero
      invariant i > 0 ==> lastPrio == priority(candidate) && LastHighest(s[..i], priority, candidate)
    {
      var prio := priority(s[i]);
      assert s[..i + 1] == s[..i] + [s[i]];
      if i == 0 || prio >= lastPrio {
        lastPrio, candidate := prio, s[i];
        assert s[..i + 1][i] == candidate;
      } else {
        ghost var k :|
          && 0 <= k < i && s[..i][k] == candidate
          && forall j | k < j < i :: priority(s[..i][j]) < priority(candidate);
        assert s[..i + 1][k] == candidate;
        assert forall j | k < j < i :: s[..i + 1][j] == s[..i][j];
      }
    }
    assert s[..|s|] == s;
  }

  // ----- Requested variants -----

  datatype Resolution = Ignored | Unavailable | Chosen(wrapper: Wrapper)

  /** What one request item asks for. An update item takes source and channel from the
      installed module and asks for nothing if the version would not change. */
  function Resolve(catalog: Catalog, installed: map<string, Installed>, item: Item): Resolution {
    if item.remove || (item.update && item.id !in installed) then Ignored
    else
      var source := if item.update then installed[item.id].source else item.source;
      var channel := if item.update then installed[item.id].channel else item.channel;
      if !Available(catalog, source, channel, item.id) then Unavailable
      else
        var wrapper := Variant(catalog, source, channel, item.id);
        if item.update && wrapper.mod.version == installed[item.id].version then Ignored else Chosen(wrapper)
  }

  ghost predicate FirstChoice(catalog: Catalog, installed: map<string, Installed>, items: seq<Item>, wrapper: Wrapper,
                              i: nat)
    requires i < |items|
  {
    && Resolve(catalog, installed, items[i]) == Chosen(wrapper)
    && forall j | 0 <= j < i && Resolve(catalog, installed, items[j]).Chosen? ::
         Resolve(catalog, installed, items[j]).wrapper.mod.id != wrapper.mod.id
  }

  /** For every id the first item that asks for it decides. */
  ghost predicate FirstChoices(catalog: Catalog, installed: map<string, Installed>, items: seq<Item>, mods: Selected)
  {
    && (forall i | 0 <= i < |items| :: !Resolve(catalog, installed, items[i]).Unavailable?)
    && (forall i | 0 <= i < |items| && Resolve(catalog, installed, items[i]).Chosen? ::
          Resolve(catalog, installed, items[i]).wrapper.mod.id in mods)
    && (forall id | id in mods :: exists i :: 0 <= i < |items| && FirstChoice(catalog, installed, items, mods[id], i)
                                              && mods[id].mod.id == id)
  }

  lemma OneMoreItem(catalog: Catalog, installed: map<string, Installed>, items: seq<Item>, before: Selected, item: Item,
                    after: Selected)
    requires FirstChoices(catalog, installed, items, before)
    requires match Resolve(catalog, installed, item)
             case Ignored => after == before
             case Unavailable => false
             case Chosen(wrapper) =>
               after == if wrapper.mod.id in before then before else before[wrapper.mod.id := wrapper]
    ensures FirstChoices(catalog, installed, items + [item], after)
  {
    var more := items + [item];
    forall i | 0 <= i < |more| ensures !Resolve(catalog, installed, more[i]).Unavailable? {
      if i < |items| { assert more[i] == items[i]; }
    }
    forall id | id in after
      ensures exists i ::
                  0 <= i < |more| && FirstChoice(catalog, installed, more, after[id], i) && after[id].mod.id == id
    {
      if id in before {
        var i :| 0 <= i < |items| && FirstChoice(catalog, installed, items, before[id], i) && before[id].mod.id == id;
        assert FirstChoice(catalog, installed, more, after[id], i);
      } else {
        assert FirstChoice(catalog, installed, more, after[id], |items|);
      }
    }
  }

  /** Only one item is about this module. */
  ghost predicate MentionedOnce(items: seq<Item>, i: nat) {
    && i < |items|
    && forall j | 0 <= j < |items| && j != i :: items[j].id != items[i].id
  }

  lemma ChosenOfItem(catalog: Catalog, installed: map<string, Installed>, items: seq<Item>, mods: Selected, i: nat)
    requires Indexed(catalog) && FirstChoices(catalog, installed, items, mods) && MentionedOnce(items, i)
    ensures items[i].id in mods <==> Resolve(catalog, installed, items[i]).Chosen?
    ensures items[i].id in mods ==> Resolve(catalog, installed, items[i]) == Chosen(mods[items[i].id])
  {
    var id := items[i].id;
    if id in mods {
      var k :| 0 <= k < |items| && FirstChoice(catalog, installed, items, mods[id], k) && mods[id].mod.id == id;
      assert items[k].id == id;
    }
  }

  /** What is requested for a module that one item is about. An item that installs gets the variant of
      its own place, whatever is installed. An item that updates gets the variant of the place the module
      was installed from, if and only if that has another version. A removal, or an update of a module
      that is not installed, gets none. */
  lemma RequestedOfItem(catalog: Catalog, installed: map<string, Installed>, items: seq<Item>, mods: Selected, i: nat)
    requires Indexed(catalog) && FirstChoices(catalog, installed, items, mods) && MentionedOnce(items, i)
    ensures var item := items[i];
            item.remove || (item.update && item.id !in installed) ==> item.id !in mods
    ensures var item := items[i];
            !item.remove && !item.update ==>
              && Available(catalog, item.source, item.channel, item.id) && item.id in mods
              && mods[item.id] == Variant(catalog, item.source, item.channel, item.id)
    ensures var item := items[i];
            !item.remove && item.update && item.id in installed ==>
              var place := installed[item.id];
              && Available(catalog, place.source, place.channel, item.id)
              && var offered := Variant(catalog, place.source, place.channel, item.id);
                 && (item.id in mods <==> offered.mod.version != place.version)
                 && (item.id in mods ==> mods[item.id] == offered)
  {
    ChosenOfItem(catalog, installed, items, mods, i);
  }

  /** Nothing is requested for a module that no item is about. */
  lemma RequestedIsMentioned(catalog: Catalog, installed: map<string, Installed>, items: seq<Item>, mods: Selected,
                             id: string)
    requires Indexed(catalog) && FirstChoices(catalog, installed, items, mods) && id in mods
    ensures exists i :: 0 <= i < |items| && items[i].id == id
  {
    var k :| 0 <= k < |items| && FirstChoice(catalog, installed, items, mods[id], k) && mods[id].mod.id == id;
    assert items[k].id == id;
  }

  /** An item cannot be met if it installs and its own place lacks the module, or if it updates an
      installed module and the place that was installed from lacks it. */
  lemma UnavailableIff(catalog: Catalog, installed: map<string, Installed>, item: Item)
    ensures Resolve(catalog, installed, item).Unavailable? <==>
            || (!item.remove && !item.update && !Available(catalog, item.source, item.channel, item.id))
            || (&& !item.remove && item.update && item.id in installed
                && !Available(catalog, installed[item.id].source, installed[item.id].channel, item.id))
  {
  }

  // ----- The whole selection -----

  ghost function DependenciesOf(requested: Selected, ids: set<string>): set<string> {
    set id, d | id in ids && id in requested && d in requested[id].mod.dependencies :: d
  }

  ghost function AllDependencies(requested: Selected): set<string> {
    DependenciesOf(requested, requested.Keys)
  }

  /** Why a selection fails when every lookup answers truthfully: the main channel demands a
      variant that is there but unreadable, or the channel of a requested module demands one
      that it cannot deliver. */
  ghost predicate Stuck(catalog: Catalog, source: string, channel: string, requested: Selected, main: Selected)
  {
    || Blocked(catalog, source, channel, true, {}, AllDependencies(requested))
    || (&& Extends(catalog, source, channel, true, map[], AllDependencies(requested), main)
        && exists w :: w in requested && OriginBlocked(catalog, requested[w], main.Keys))
  }

  /** `id` was added by the second pass: it is a variant from the channel of a requested module,
      reachable there around everything the first pass had selected, and nothing that it depends
      on is missing. */
  ghost predicate FromOrigin(catalog: Catalog, requested: Selected, main: Selected, result: Selected, id: string)
  {
    && id in result
    && (exists w :: w in requested && OriginReach(catalog, requested[w], main, id)
                    && result[id] == Variant(catalog, requested[w].source, requested[w].channel, id))
    && (forall d | d in result[id].mod.dependencies :: d in result)
  }

  /** The result of a selection that does not fail. `main` is what the first pass takes from
      the highest-priority channel, before the second pass turns to the channels of the
      requested modules themselves. */
  ghost predicate Selection(catalog: Catalog, source: string, channel: string, requested: Selected, main: Selected,
                            result: Selected)
  {
    && Extends(catalog, source, channel, true, map[], AllDependencies(requested), main)
    && (forall id | id in requested :: id in result && result[id] == requested[id])
    && (forall d | d in AllDependencies(requested) :: d in result)
    && (forall id | id in main && id !in requested :: id in result && result[id] == main[id])
    && (forall id | id in result && id !in requested && id !in main :: FromOrigin(catalog, requested, main, result, id))
  }

  ghost predicate DependencyClosed(selected: Selected) {
    forall id, d | id in selected && d in selected[id].mod.dependencies :: d in selected
  }

  /** A dependency that the main channel demands but does not offer. */
  ghost predicate MainGap(catalog: Catalog, source: string, channel: string, requested: Selected, id: string, d: string)
  {
    && FreshReach(catalog, source, channel, {}, AllDependencies(requested), id)
    && Available(catalog, source, channel, id)
    && id !in requested
    && d in Variant(catalog, source, channel, id).mod.dependencies
    && Key(d, source, channel) !in catalog
  }

  lemma MissingIsMainGap(catalog: Catalog, source: string, channel: string, requested: Selected, main: Selected,
                         result: Selected, id: string, d: string)
    requires Selection(catalog, source, channel, requested, main, result)
    requires id in result && d in result[id].mod.dependencies && d !in result
    ensures MainGap(catalog, source, channel, requested, id, d)
  {
    assert id in requested ==> d in AllDependencies(requested);
    assert id !in requested && id !in main ==> FromOrigin(catalog, requested, main, result, id);
    assert id !in requested && id in main ==> Settled(catalog, source, channel, true, main, d);
  }

  lemma MainGapIsSelected(catalog: Catalog, source: string, channel: string, requested: Selected, main: Selected,
                          result: Selected, id: string, d: string)
    requires Selection(catalog, source, channel, requested, main, result)
    requires MainGap(catalog, source, channel, requested, id, d)
    ensures id in result && d in result[id].mod.dependencies
  {
    ExtendsExactly(catalog, source, channel, true, map[], AllDependencies(requested), main);
  }

  /** The selection is dependency-closed if and only if every gap of the main channel happens
      to be selected for another reason. */
  lemma ClosedIffGapsFilled(catalog: Catalog, source: string, channel: string, requested: Selected, main: Selected,
                            result: Selected)
    requires Selection(catalog, source, channel, requested, main, result)
    ensures DependencyClosed(result) <==>
            forall id, d :: MainGap(catalog, source, channel, requested, id, d) ==> d in result
  {
    if DependencyClosed(result) {
      forall id, d | MainGap(catalog, source, channel, requested, id, d) ensures d in result {
        MainGapIsSelected(catalog, source, channel, requested, main, result, id, d);
      }
    } else {
      var id, d :| id in result && d in result[id].mod.dependencies && d !in result;
      MissingIsMainGap(catalog, source, channel, requested, main, result, id, d);
    }
  }

  /** No gap, hence a closed selection, if the main channel offers whatever its own modules
      depend on. */
  lemma ClosedMainGivesClosed(catalog: Catalog, source: string, channel: string, requested: Selected, main: Selected,
                              result: Selected)
    requires Selection(catalog, source, channel, requested, main, result)
    requires forall id, d | Available(catalog, source, channel, id)
                            && d in Variant(catalog, source, channel, id).mod.dependencies ::
               Key(d, source, channel) in catalog
    ensures DependencyClosed(result)
  {
    ClosedIffGapsFilled(catalog, source, channel, requested, main, result);
  }

  lemma NotReachedAround(catalog: Catalog, wrapper: Wrapper, main: Selected, a: string, b: string)
    requires wrapper.mod.dependencies == {a} && a in main
    ensures !OriginReach(catalog, wrapper, main, b)
  {
    forall path | FreshPath(catalog, wrapper.source, wrapper.channel, main.Keys, path) ensures path[0] != a {
      assert path[0] !in main.Keys;
    }
  }

  lemma GapIsNotSelected(catalog: Catalog, source: string, channel: string, requested: Selected, main: Selected,
                         result: Selected, r: string, a: string, b: string)
    requires Selection(catalog, source, channel, requested, main, result)
    requires requested.Keys == {r} && requested[r].mod.dependencies == {a} && a != r && b != r && a in main
    requires Key(b, source, channel) !in catalog
    ensures b !in result
  {
    assert AllDependencies(requested) == {a};
    NotReachedAround(catalog, requested[r], main, a, b);
    assert b in main ==> Available(catalog, source, channel, b);
    assert b in result ==> FromOrigin(catalog, requested, main, result, b);
  }

  /** The second pass does not look behind what the first pass selected: if the single
      dependency `a` of the single requested module comes from the main channel and needs `b`
      there, which the main channel lacks, then `b` is never selected, even where the channel
      of the requested module offers both. */
  lemma SecondPassDoesNotRevisit(catalog: Catalog, source: string, channel: string, requested: Selected, main: Selected,
                                 result: Selected, r: string, a: string, b: string)
    requires Selection(catalog, source, channel, requested, main, result)
    requires requested.Keys == {r} && requested[r].mod.dependencies == {a} && a != r && b != r
    requires Available(catalog, source, channel, a) && b in Variant(catalog, source, channel, a).mod.dependencies
    requires Key(b, source, channel) !in catalog
    ensures b !in result && !DependencyClosed(result)
  {
    assert AllDependencies(requested) == {a};
    assert a in main by { assert Settled(catalog, source, channel, true, main, a); }
    GapIsNotSelected(catalog, source, channel, requested, main, result, r, a, b);
    assert result[a] == main[a];
  }

  /** A module `r` whose own channel offers `a` and `b`, and a main channel that offers `a` only. */
  function GapCatalog(): Catalog {
    map[Key("r", "own", "c") := Some(Mod("r", "1", {"a"}, map[])),
        Key("a", "own", "c") := Some(Mod("a", "1", {"b"}, map[])),
        Key("b", "own", "c") := Some(Mod("b", "1", {}, map[])),
        Key("a", "main", "c") := Some(Mod("a", "1", {"b"}, map[]))]
  }

  lemma GapCatalogHas()
    ensures Available(GapCatalog(), "own", "c", "r") && Variant(GapCatalog(), "own", "c", "r").mod.dependencies == {"a"}
    ensures Available(GapCatalog(), "own", "c", "a") && Available(GapCatalog(), "own", "c", "b")
    ensures Available(GapCatalog(), "main", "c", "a")
    ensures Variant(GapCatalog(), "main", "c", "a").mod.dependencies == {"b"}
    ensures Key("b", "main", "c") !in GapCatalog()
  {
  }

  lemma GapSelection(catalog: Catalog, source: string, channel: string, wrapper: Wrapper, r: string, a: string,
                     b: string)
    requires wrapper.mod.dependencies == {a} && a != r && b != r && a != b
    requires Available(catalog, source, channel, a) && Variant(catalog, source, channel, a).mod.dependencies == {b}
    requires Key(b, source, channel) !in catalog
    ensures var variant := Variant(catalog, source, channel, a);
            && Selection(catalog, source, channel, map[r := wrapper], map[a := variant],
                         map[r := wrapper, a := variant])
            && !DependencyClosed(map[r := wrapper, a := variant])
  {
    var variant, requested: Selected := Variant(catalog, source, channel, a), map[r := wrapper];
    var result := requested[a := variant];
    assert r in requested && a in requested[r].mod.dependencies;
    assert AllDependencies(requested) == {a};
    FreshReachStep(catalog, source, channel, {}, {a}, a);
    assert result == map[r := wrapper, a := variant];
    assert b in result[a].mod.dependencies && b !in result;
  }

  /** The selection `r`, `a` is one for `r`, and lacks `b`. */
  lemma SecondPassDoesNotRevisitExample()
    ensures Available(GapCatalog(), "own", "c", "r") && Available(GapCatalog(), "main", "c", "a")
    ensures var r, a := Variant(GapCatalog(), "own", "c", "r"), Variant(GapCatalog(), "main", "c", "a");
            && Selection(GapCatalog(), "main", "c", map["r" := r], map["a" := a], map["r" := r, "a" := a])
            && !DependencyClosed(map["r" := r, "a" := a])
    ensures Available(GapCatalog(), "own", "c", "a") && Available(GapCatalog(), "own", "c", "b")
  {
    GapCatalogHas();
    GapSelection(GapCatalog(), "main", "c", Variant(GapCatalog(), "own", "c", "r"), "r", "a", "b");
  }

  // ----- There is one main channel, one choice and one first pass -----

  lemma LastHighestIsUnique<E(!new)>(s: seq<E>, priority: E -> int, e: E, e': E)
    requires LastHighest(s, priority, e) && LastHighest(s, priority, e')
    ensures e == e'
  {
    var i :| 0 <= i < |s| && s[i] == e && (forall j | 0 <= j < |s| :: priority(s[j]) <= priority(e))
             && (forall j | i < j < |s| :: priority(s[j]) < priority(e));
    var k :| 0 <= k < |s| && s[k] == e' && (forall j | 0 <= j < |s| :: priority(s[j]) <= priority(e'))
             && (forall j | k < j < |s| :: priority(s[j]) < priority(e'));
    assert priority(s[i]) <= priority(s[k]) && priority(s[k]) <= priority(s[i]);
  }

  /** The first item that asks for an id is the same for everybody. */
  lemma FirstItemIsUnique(catalog: Catalog, installed: map<string, Installed>, items: seq<Item>, a: Wrapper, i: nat,
                          b: Wrapper, k: nat)
    requires i < |items| && FirstChoice(catalog, installed, items, a, i)
    requires k < |items| && FirstChoice(catalog, installed, items, b, k)
    requires a.mod.id == b.mod.id
    ensures a == b
  {
    assert !(i < k) && !(k < i);
  }

  lemma ChosenInBoth(catalog: Catalog, installed: map<string, Installed>, items: seq<Item>, a: Selected, b: Selected,
                     id: string)
    requires FirstChoices(catalog, installed, items, a) && FirstChoices(catalog, installed, items, b) && id in a
    ensures id in b && a[id] == b[id]
  {
    var i :| 0 <= i < |items| && FirstChoice(catalog, installed, items, a[id], i) && a[id].mod.id == id;
    assert id in b by { assert Resolve(catalog, installed, items[i]).wrapper.mod.id in b; }
    var k :| 0 <= k < |items| && FirstChoice(catalog, installed, items, b[id], k) && b[id].mod.id == id;
    FirstItemIsUnique(catalog, installed, items, a[id], i, b[id], k);
  }

  lemma FirstChoicesAreUnique(catalog: Catalog, installed: map<string, Installed>, items: seq<Item>, a: Selected,
                              b: Selected)
    requires FirstChoices(catalog, installed, items, a) && FirstChoices(catalog, installed, items, b)
    ensures a == b
  {
    forall id | id in a ensures id in b && a[id] == b[id] {
      ChosenInBoth(catalog, installed, items, a, b, id);
    }
    forall id | id in b ensures id in a {
      ChosenInBoth(catalog, installed, items, b, a, id);
    }
  }

  lemma FirstPassIsUnique(catalog: Catalog, source: string, channel: string, requested: Selected, a: Selected,
                          b: Selected)
    requires Extends(catalog, source, channel, true, map[], AllDependencies(requested), a)
    requires Extends(catalog, source, channel, true, map[], AllDependencies(requested), b)
    ensures a == b
  {
    WalkIsDetermined(catalog, source, channel, true, map[], AllDependencies(requested), a);
    WalkIsDetermined(catalog, source, channel, true, map[], AllDependencies(requested), b);
  }

  // ----- The second pass -----

  lemma VisitOneMore(catalog: Catalog, requested: Selected, main: Selected, order: seq<string>, todo: set<string>,
                     id: string, reliable: bool, after: Selected, ok: bool)
    requires Known(requested, order) && NoDuplicates(order) && Elements(order) == requested.Keys - todo
    requires id in todo && todo <= requested.Keys && Succeeds(catalog, requested, main, order)
    requires Walked(catalog, requested[id].source, requested[id].channel, false, reliable,
                    Pass(catalog, requested, main, order), requested[id].mod.dependencies, after, ok)
    ensures Known(requested, order + [id]) && NoDuplicates(order + [id])
    ensures Elements(order + [id]) == requested.Keys - (todo - {id})
    ensures ok ==> after == Pass(catalog, requested, main, order + [id])
    ensures ok ==> Succeeds(catalog, requested, main, order + [id])
    ensures reliable && !ok ==> !Succeeds(catalog, requested, main, order + [id])
  {
    var w, before := requested[id], Pass(catalog, requested, main, order);
    assert (order + [id])[..|order|] == order;
    assert Elements(order + [id]) == Elements(order) + {id};
    forall i | 0 <= i < |order| ensures order[i] != id { assert order[i] in Elements(order); }
    if ok {
      WalkIsDetermined(catalog, w.source, w.channel, false, before, w.mod.dependencies, after);
    }
  }

  /** What the second pass has added comes from the channels of the modules visited, and is complete. */
  ghost predicate SecondPassState(catalog: Catalog, requested: Selected, main: Selected, order: seq<string>,
                                  current: Selected)
    requires Known(requested, order)
  {
    && Includes(current, main)
    && (forall id | id in current && id !in main :: FromOrigin(catalog, requested, main, current, id))
    && (forall w, d | w in order && d in requested[w].mod.dependencies :: d in current)
  }

  lemma OneMoreOrigin(catalog: Catalog, requested: Selected, main: Selected, done: seq<string>, current: Selected,
                      w: string, after: Selected)
    requires w in requested && Known(requested, done) && SecondPassState(catalog, requested, main, done, current)
    requires Extends(catalog, requested[w].source, requested[w].channel, false, current, requested[w].mod.dependencies,
                     after)
    ensures Known(requested, done + [w]) && SecondPassState(catalog, requested, main, done + [w], after)
  {
    var wrapper := requested[w];
    FreshReachMonotone(catalog, wrapper.source, wrapper.channel, current.Keys, wrapper.mod.dependencies,
                       main.Keys, wrapper.mod.dependencies);
    forall id | id in after && id !in main ensures FromOrigin(catalog, requested, main, after, id) {
      if id in current {
        assert FromOrigin(catalog, requested, main, current, id);
      } else {
        assert OriginReach(catalog, wrapper, main, id);
        assert forall d | d in after[id].mod.dependencies ::
            Settled(catalog, wrapper.source, wrapper.channel, false, after, d);
      }
    }
    forall v, d | v in done + [w] && d in requested[v].mod.dependencies ensures d in after {
      if v !in done {
        assert Settled(catalog, wrapper.source, wrapper.channel, false, after, d);
      }
    }
  }

  lemma {:induction false} PassState(catalog: Catalog, requested: Selected, main: Selected, order: seq<string>)
    requires Known(requested, order) && Succeeds(catalog, requested, main, order)
    ensures SecondPassState(catalog, requested, main, order, Pass(catalog, requested, main, order))
  {
    if order != [] {
      var n := |order| - 1;
      PassState(catalog, requested, main, order[..n]);
      var w, before := requested[order[n]], Pass(catalog, requested, main, order[..n]);
      var after := WalkFor(catalog, w, before);
      WalkIsDetermined(catalog, w.source, w.channel, false, before, w.mod.dependencies, after);
      OneMoreOrigin(catalog, requested, main, order[..n], before, order[n], after);
      assert order[..n] + [order[n]] == order;
    }
  }

  ghost predicate MadeIn(catalog: Catalog, requested: Selected, main: Selected, order: seq<string>, result: Selected) {
    && IsOrder(requested, order) && SucceedsIn(catalog, requested, main, order)
    && result == PassIn(catalog, requested, main, order) + requested
  }

  /** The second pass visited the requested modules in some order. */
  ghost predicate MadeInSomeOrder(catalog: Catalog, requested: Selected, main: Selected, result: Selected) {
    exists order :: MadeIn(catalog, requested, main, order, result)
  }

  lemma StuckIff(catalog: Catalog, source: string, channel: string, requested: Selected, main: Selected,
                 main': Selected)
    requires Extends(catalog, source, channel, true, map[], AllDependencies(requested), main)
    requires main' == main || !Extends(catalog, source, channel, true, map[], AllDependencies(requested), main')
    ensures Stuck(catalog, source, channel, requested, main') <==>
            main' == main && !NoneBlocked(catalog, requested, main)
  {
    assert !Blocked(catalog, source, channel, true, {}, AllDependencies(requested)) by {
      var empty: Selected := map[];
      WalkIsDetermined(catalog, source, channel, true, empty, AllDependencies(requested), main);
      assert empty.Keys == {};
    }
  }

  lemma FailureIsBlocked(catalog: Catalog, requested: Selected, main: Selected, order: seq<string>)
    requires Known(requested, order) && !Succeeds(catalog, requested, main, order)
    ensures exists w :: w in requested && OriginBlocked(catalog, requested[w], main.Keys)
  {
    if NoneBlocked(catalog, requested, main) {
      UnblockedSucceeds(catalog, requested, main, order);
    }
  }

  lemma BothPassesSelect(catalog: Catalog, source: string, channel: string, requested: Selected, main: Selected,
                         order: seq<string>, result: Selected)
    requires Extends(catalog, source, channel, true, map[], AllDependencies(requested), main)
    requires MadeIn(catalog, requested, main, order, result)
    ensures Selection(catalog, source, channel, requested, main, result)
  {
    OrderIsKnown(requested, order);
    PassState(catalog, requested, main, order);
    var passed := Pass(catalog, requested, main, order);
    forall d | d in AllDependencies(requested) ensures d in result {
      var w :| w in requested && d in requested[w].mod.dependencies;
      assert w in Elements(order);
    }
    forall id | id in result && id !in requested && id !in main
      ensures FromOrigin(catalog, requested, main, result, id)
    {
      assert FromOrigin(catalog, requested, main, passed, id);
    }
  }

  class Selector {
    const repos: Repositories
    const repositories: seq<Repository>

    constructor (repos: Repositories, repositories: seq<Repository>)
      ensures this.repos == repos && this.repositories == repositories
    {
      this.repos, this.repositories := repos, repositories;
    }

    ghost predicate IsMainOf(repo: Repository, main: Channel) {
      && (if repositories == [] then repo == Repository("", 0, [])
          else LastHighest(repositories, (r: Repository) => r.priority, repo))
      && (if repo.channels == [] then main == Channel("", 0)
          else LastHighest(repo.channels, (c: Channel) => c.priority, main))
    }

    ghost predicate IsMain(source: string, channel: string) {
      exists repo, main :: IsMainOf(repo, main) && repo.source == source && main.name == channel
    }

    /** The channel the dependencies are looked for first. */
    method MainChannel() returns (source: string, channel: string)
      ensures IsMain(source, channel)
    {
      var zero := Repository("", 0, []);
      var repo := SelectByPriority(repositories, (r: Repository) => r.priority, zero);
      var main := SelectByPriority(repo.channels, (c: Channel) => c.priority, Channel("", 0));
      source, channel := repo.source, main.name;
      assert IsMainOf(repo, main);
    }

    method RequestedVariants(items: seq<Item>, installed: map<string, Installed>) returns (mods: Option<Selected>)
      ensures mods.Some? ==> FirstChoices(repos.catalog, installed, items, mods.value)
      ensures repos.env.reliable ==>
                (mods.Some? <==>
                   forall i | 0 <= i < |items| :: !Resolve(repos.catalog, installed, items[i]).Unavailable?)
    {
      var selected: Selected := map[];
      for i := 0 to |items|
        invariant FirstChoices(repos.catalog, installed, items[..i], selected)
      {
        var item := items[i];
        assert items[..i + 1] == items[..i] + [item];
        if item.remove || (item.update && item.id !in installed) {
          OneMoreItem(repos.catalog, installed, items[..i], selected, item, selected);
          continue;
        }
        var source := if item.update then installed[item.id].source else item.source;
        var channel := if item.update then installed[item.id].channel else item.channel;
        var mod := repos.GetModule(item.id, source, channel);
        if !mod.Found? {
          assert repos.env.reliable ==> Resolve(repos.catalog, installed, items[i]).Unavailable?;
          return None;
        }
        ghost var previous := selected;
        if item.update && mod.mod.version == installed[item.id].version {
        } else if mod.mod.id !in selected {
          selected := selected[mod.mod.id := Wrapper(mod.mod, source, channel)];
        }
        OneMoreItem(repos.catalog, installed, items[..i], previous, item, selected);
      }
      assert items[..|items|] == items;
      return Some(selected);
    }

    method FirstPass(requested: Selected, source: string, channel: string, deps: Dependencies) returns (ok: bool)
      requires deps.entries == map[]
      modifies deps
      ensures ok ==> Extends(repos.catalog, source, channel, true, map[], AllDependencies(requested), deps.entries)
      ensures repos.env.reliable && !ok ==>
                Blocked(repos.catalog, source, channel, true, {}, AllDependencies(requested))
    {
      var todo := requested.Keys;
      while todo != {}
        invariant todo <= requested.Keys
        invariant Extends(repos.catalog, source, channel, true, map[],
                          DependenciesOf(requested, requested.Keys - todo), deps.entries)
      {
        var id :| id in todo;
        var mod := requested[id].mod;
        ghost var current, done := deps.entries, DependenciesOf(requested, requested.Keys - todo);
        todo := todo - {id};
        assert DependenciesOf(requested, requested.Keys - todo) == done + mod.dependencies;
        ok := repos.AddRepoModDepsToMap(mod, source, channel, deps, true);
        if !ok {
          if repos.env.reliable {
            BlockedPart(repos.catalog, source, channel, true, current.Keys, mod.dependencies, {},
                        AllDependencies(requested));
          }
          return;
        }
        ExtendsCompose(repos.catalog, source, channel, true, map[], done, current, mod.dependencies, deps.entries);
      }
      assert requested.Keys - todo == requested.Keys;
      return true;
    }

    /** `order` is how far the loop came, and whether it failed is decided by that. */
    method SecondPass(requested: Selected, deps: Dependencies, ghost main: Selected)
      returns (ok: bool, ghost order: seq<string>)
      requires deps.entries == main
      modifies deps
      ensures ok ==> IsOrder(requested, order) && SucceedsIn(repos.catalog, requested, main, order)
      ensures ok ==> deps.entries == PassIn(repos.catalog, requested, main, order)
      ensures Known(requested, order)
      ensures repos.env.reliable && !ok ==> !Succeeds(repos.catalog, requested, main, order)
    {
      var todo := requested.Keys;
      order := [];
      while todo != {}
        invariant todo <= requested.Keys
        invariant NoDuplicates(order) && Elements(order) == requested.Keys - todo && Known(requested, order)
        invariant Succeeds(repos.catalog, requested, main, order)
        invariant deps.entries == Pass(repos.catalog, requested, main, order)
      {
        var id :| id in todo;
        var wrapper := requested[id];
        ghost var visited := order;
        ok := repos.AddRepoModDepsToMap(wrapper.mod, wrapper.source, wrapper.channel, deps, false);
        VisitOneMore(repos.catalog, requested, main, visited, todo, id, repos.env.reliable, deps.entries, ok);
        order := visited + [id];
        if !ok {
          return;
        }
        todo := todo - {id};
      }
      assert requested.Keys - todo == requested.Keys;
      return true, order;
    }

    ghost predicate IsSelectionFrom(items: seq<Item>, installed: map<string, Installed>, source: string,
                                    channel: string, requested: Selected, main: Selected, result: Selected)
    {
      && IsMain(source, channel)
      && FirstChoices(repos.catalog, installed, items, requested)
      && Selection(repos.catalog, source, channel, requested, main, result)
      && MadeInSomeOrder(repos.catalog, requested, main, result)
    }

    /** A selection for these items, from the main channel of these repositories. */
    ghost predicate IsSelection(items: seq<Item>, installed: map<string, Installed>, result: Selected) {
      exists source, channel, requested, main ::
        IsSelectionFrom(items, installed, source, channel, requested, main, result)
    }

    /** Each item of a validated request shows in the selection: an item that installs is there with the
        variant of its own place, an item that updates with that of the installed place if it has another
        version. */
    lemma SelectionFollowsItem(items: seq<Item>, installed: map<string, Installed>, result: Selected, i: nat)
      requires Indexed(repos.catalog) && IsSelection(items, installed, result) && MentionedOnce(items, i)
      ensures var item := items[i];
              !item.remove && !item.update ==>
                && Available(repos.catalog, item.source, item.channel, item.id) && item.id in result
                && result[item.id] == Variant(repos.catalog, item.source, item.channel, item.id)
      ensures var item := items[i];
              !item.remove && item.update && item.id in installed ==>
                var place := installed[item.id];
                && Available(repos.catalog, place.source, place.channel, item.id)
                && var offered := Variant(repos.catalog, place.source, place.channel, item.id);
                   (offered.mod.version != place.version ==> item.id in result && result[item.id] == offered)
    {
      var source, channel, requested, main :|
        IsSelectionFrom(items, installed, source, channel, requested, main, result);
      RequestedOfItem(repos.catalog, installed, items, requested, i);
    }

    /** An item asks for a variant that is not available, or the channels cannot deliver what the
        requested modules demand. */
    ghost predicate CannotSelect(items: seq<Item>, installed: map<string, Installed>) {
      || (exists i :: 0 <= i < |items| && Resolve(repos.catalog, installed, items[i]).Unavailable?)
      || (exists source, channel, requested, main ::
            && IsMain(source, channel)
            && FirstChoices(repos.catalog, installed, items, requested)
            && Stuck(repos.catalog, source, channel, requested, main))
    }

    lemma MainIsUnique(source: string, channel: string, source': string, channel': string)
      requires IsMain(source, channel) && IsMain(source', channel')
      ensures source == source' && channel == channel'
    {
      var repo, main :| IsMainOf(repo, main) && repo.source == source && main.name == channel;
      var repo', main' :| IsMainOf(repo', main') && repo'.source == source' && main'.name == channel';
      if repositories != [] {
        LastHighestIsUnique(repositories, (r: Repository) => r.priority, repo, repo');
      }
      if repo.channels != [] {
        LastHighestIsUnique(repo.channels, (c: Channel) => c.priority, main, main');
      }
    }

    lemma CannotSelectIff(items: seq<Item>, installed: map<string, Installed>, source: string, channel: string,
                          requested: Selected, main: Selected)
      requires IsMain(source, channel) && FirstChoices(repos.catalog, installed, items, requested)
      requires Extends(repos.catalog, source, channel, true, map[], AllDependencies(requested), main)
      ensures CannotSelect(items, installed) <==> !NoneBlocked(repos.catalog, requested, main)
    {
      StuckIff(repos.catalog, source, channel, requested, main, main);
      if CannotSelect(items, installed) {
        var source', channel', requested', main' :|
          && IsMain(source', channel')
          && FirstChoices(repos.catalog, installed, items, requested')
          && Stuck(repos.catalog, source', channel', requested', main');
        MainIsUnique(source, channel, source', channel');
        FirstChoicesAreUnique(repos.catalog, installed, items, requested, requested');
        if Extends(repos.catalog, source, channel, true, map[], AllDependencies(requested), main') {
          FirstPassIsUnique(repos.catalog, source, channel, requested, main, main');
        }
        StuckIff(repos.catalog, source, channel, requested, main, main');
      }
    }

    /** A selection shows that each item is available, that the first pass is not blocked, and that no
        modules hold each other up. That no module is blocked it shows if and only if every order of the
        second pass would have succeeded, as with modules that neither compete nor help each other out;
        otherwise it was luck with the order. */
    lemma SelectedMeansSelectable(items: seq<Item>, installed: map<string, Installed>, source: string, channel: string,
                                  requested: Selected, main: Selected, result: Selected)
      requires IsSelectionFrom(items, installed, source, channel, requested, main, result)
      ensures forall i | 0 <= i < |items| :: !Resolve(repos.catalog, installed, items[i]).Unavailable?
      ensures !Blocked(repos.catalog, source, channel, true, {}, AllDependencies(requested))
      ensures !SomeHoldEachOtherUp(repos.catalog, requested, main)
      ensures !CannotSelect(items, installed) <==>
              forall o | IsOrder(requested, o) :: SucceedsIn(repos.catalog, requested, main, o)
      ensures NoConflict(repos.catalog, requested, main) && NoRescue(repos.catalog, requested, main) ==>
                !CannotSelect(items, installed)
    {
      var order :| MadeIn(repos.catalog, requested, main, order, result);
      EveryOrderFailsIff(repos.catalog, requested, main);
      EveryOrderSucceedsIff(repos.catalog, requested, main);
      CannotSelectIff(items, installed, source, channel, requested, main);
      if NoConflict(repos.catalog, requested, main) && NoRescue(repos.catalog, requested, main) {
        SuccessIsOrderIndependent(repos.catalog, requested, main, order);
      }
      assert !Blocked(repos.catalog, source, channel, true, {}, AllDependencies(requested)) by {
        var empty: Selected := map[];
        WalkIsDetermined(repos.catalog, source, channel, true, empty, AllDependencies(requested), main);
        assert empty.Keys == {};
      }
    }

    ghost predicate IsSelectable(items: seq<Item>, installed: map<string, Installed>, source: string, channel: string,
                                 requested: Selected, main: Selected)
    {
      exists result :: IsSelectionFrom(items, installed, source, channel, requested, main, result)
    }

    lemma OrderSelects(items: seq<Item>, installed: map<string, Installed>, source: string, channel: string,
                       requested: Selected, main: Selected, order: seq<string>)
      requires IsMain(source, channel) && FirstChoices(repos.catalog, installed, items, requested)
      requires Extends(repos.catalog, source, channel, true, map[], AllDependencies(requested), main)
      requires IsOrder(requested, order) && SucceedsIn(repos.catalog, requested, main, order)
      ensures IsSelectable(items, installed, source, channel, requested, main)
    {
      var result := PassIn(repos.catalog, requested, main, order) + requested;
      assert MadeIn(repos.catalog, requested, main, order, result);
      BothPassesSelect(repos.catalog, source, channel, requested, main, order, result);
      assert IsSelectionFrom(items, installed, source, channel, requested, main, result);
    }

    lemma SelectedInSomeOrder(items: seq<Item>, installed: map<string, Installed>, source: string, channel: string,
                              requested: Selected, main: Selected)
      requires IsSelectable(items, installed, source, channel, requested, main)
      ensures !EveryOrderFails(repos.catalog, requested, main)
    {
      var result :| IsSelectionFrom(items, installed, source, channel, requested, main, result);
      var order :| MadeIn(repos.catalog, requested, main, order, result);
      assert IsOrder(requested, order) && SucceedsIn(repos.catalog, requested, main, order);
    }

    lemma SelectableInSomeOrder(items: seq<Item>, installed: map<string, Installed>, source: string, channel: string,
                                requested: Selected, main: Selected)
      requires IsMain(source, channel) && FirstChoices(repos.catalog, installed, items, requested)
      requires Extends(repos.catalog, source, channel, true, map[], AllDependencies(requested), main)
      ensures IsSelectable(items, installed, source, channel, requested, main) <==>
              !EveryOrderFails(repos.catalog, requested, main)
    {
      if !EveryOrderFails(repos.catalog, requested, main) {
        var order :| IsOrder(requested, order) && SucceedsIn(repos.catalog, requested, main, order);
        OrderSelects(items, installed, source, channel, requested, main, order);
      }
      if IsSelectable(items, installed, source, channel, requested, main) {
        SelectedInSomeOrder(items, installed, source, channel, requested, main);
      }
    }

    /** There is a selection only if no requested modules hold each other up, and where no two of them
        compete for an id, if and only if. */
    lemma SelectableIff(items: seq<Item>, installed: map<string, Installed>, source: string, channel: string,
                        requested: Selected, main: Selected)
      requires IsMain(source, channel) && FirstChoices(repos.catalog, installed, items, requested)
      requires Extends(repos.catalog, source, channel, true, map[], AllDependencies(requested), main)
      ensures IsSelectable(items, installed, source, channel, requested, main) ==>
                !SomeHoldEachOtherUp(repos.catalog, requested, main)
      ensures NoConflict(repos.catalog, requested, main) ==>
                (IsSelectable(items, installed, source, channel, requested, main) <==>
                 !SomeHoldEachOtherUp(repos.catalog, requested, main))
    {
      SelectableInSomeOrder(items, installed, source, channel, requested, main);
      EveryOrderFailsIff(repos.catalog, requested, main);
    }

    method SelectRepoModules(items: seq<Item>, installed: map<string, Installed>) returns (result: Option<Selected>)
      ensures result.Some? ==> IsSelection(items, installed, result.value)
      ensures repos.env.reliable && result.None? ==> CannotSelect(items, installed)
    {
      var s, c := MainChannel();
      var mods := RequestedVariants(items, installed);
      if mods.None? {
        return None;
      }
      ghost var requested := mods.value;
      var deps := new Dependencies();
      var ok := FirstPass(mods.value, s, c, deps);
      ghost var main := deps.entries;
      if !ok {
        assert repos.env.reliable ==> Stuck(repos.catalog, s, c, requested, main);
        return None;
      }
      ghost var order;
      ok, order := SecondPass(mods.value, deps, main);
      if !ok {
        if repos.env.reliable {
          FailureIsBlocked(repos.catalog, requested, main, order);
          assert Stuck(repos.catalog, s, c, requested, main);
        }
        return None;
      }
      result := Some(deps.entries + mods.value);
      assert MadeIn(repos.catalog, requested, main, order, result.value);
      BothPassesSelect(repos.catalog, s, c, requested, main, order, result.value);
      assert IsSelectionFrom(items, installed, s, c, requested, main, result.value);
    }
  }
}
