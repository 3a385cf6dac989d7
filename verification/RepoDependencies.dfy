/** Collecting what a repository module depends on, inside one source and channel
    (pkg/service/repository.go). */
module RepoDependencies {
  import opened Modfiles
  import opened Prelude

  datatype Wrapper = Wrapper(mod: Mod, source: string, channel: string)

  datatype Key = Key(id: string, source: string, channel: string)

  /** What the repositories offer. A missing key is "not found"; None is a variant whose file
      system or modfile cannot be read. */
  type Catalog = map<Key, Option<Mod>>

  datatype Lookup = Found(mod: Mod) | NotFound | Failed

  /** The repository index files every variant under the id in its modfile. */
  ghost predicate Indexed(catalog: Catalog) {
    forall key | key in catalog && catalog[key].Some? :: catalog[key].value.id == key.id
  }

  predicate Available(catalog: Catalog, source: string, channel: string, id: string) {
    var key := Key(id, source, channel);
    key in catalog && catalog[key].Some?
  }

  function Variant(catalog: Catalog, source: string, channel: string, id: string): Wrapper
    requires Available(catalog, source, channel, id)
  {
    Wrapper(catalog[Key(id, source, channel)].value, source, channel)
  }

  type Selected = map<string, Wrapper>

  // ----- The meaning: reachability inside one source and channel -----

  /** A dependency chain inside one channel that stays clear of the ids in `avoid`. */
  ghost predicate FreshPath(catalog: Catalog, source: string, channel: string, avoid: set<string>, path: seq<string>)
  {
    && path != []
    && (forall i | 0 <= i < |path| :: path[i] !in avoid && Available(catalog, source, channel, path[i]))
    && (forall i | 0 < i < |path| :: path[i] in Variant(catalog, source, channel, path[i - 1]).mod.dependencies)
  }

  ghost predicate FreshReach(catalog: Catalog, source: string, channel: string, avoid: set<string>, roots: set<string>,
                             id: string)
  {
    exists path: seq<string> ::
      FreshPath(catalog, source, channel, avoid, path) && path[0] in roots && path[|path| - 1] == id
  }

  lemma FreshReachMonotone(catalog: Catalog, source: string, channel: string, avoid: set<string>, roots: set<string>,
                           avoid': set<string>, roots': set<string>)
    requires avoid' <= avoid && roots <= roots'
    ensures forall id | FreshReach(catalog, source, channel, avoid, roots, id) ::
              FreshReach(catalog, source, channel, avoid', roots', id)
  {
    forall id | FreshReach(catalog, source, channel, avoid, roots, id)
      ensures FreshReach(catalog, source, channel, avoid', roots', id)
    {
      var path :| FreshPath(catalog, source, channel, avoid, path) && path[0] in roots && path[|path| - 1] == id;
      assert FreshPath(catalog, source, channel, avoid', path);
    }
  }

  lemma FreshReachStep(catalog: Catalog, source: string, channel: string, avoid: set<string>, roots: set<string>,
                       first: string)
    requires first in roots && first !in avoid && Available(catalog, source, channel, first)
    ensures FreshReach(catalog, source, channel, avoid, roots, first)
    ensures forall id | FreshReach(catalog, source, channel, avoid,
                                   Variant(catalog, source, channel, first).mod.dependencies, id) ::
              FreshReach(catalog, source, channel, avoid, roots, id)
  {
    assert FreshPath(catalog, source, channel, avoid, [first]) && [first][|[first]| - 1] == first;
    var next := Variant(catalog, source, channel, first).mod.dependencies;
    forall id | FreshReach(catalog, source, channel, avoid, next, id)
      ensures FreshReach(catalog, source, channel, avoid, roots, id)
    {
      var path :| FreshPath(catalog, source, channel, avoid, path) && path[0] in next && path[|path| - 1] == id;
      var longer := [first] + path;
      forall i | 0 < i < |longer|
        ensures longer[i] in Variant(catalog, source, channel, longer[i - 1]).mod.dependencies
      {
        if i > 1 { assert path[i - 1] in Variant(catalog, source, channel, path[i - 2]).mod.dependencies; }
      }
      assert FreshPath(catalog, source, channel, avoid, longer) && longer[|longer| - 1] == id;
    }
  }

  /** Dependency `d` needs nothing more: it is selected, or it may be skipped. */
  ghost predicate Settled(catalog: Catalog, source: string, channel: string, skipNotFound: bool, selected: Selected,
                          d: string)
  {
    d in selected || (skipNotFound && Key(d, source, channel) !in catalog)
  }

  ghost predicate Grows(catalog: Catalog, source: string, channel: string, before: Selected, roots: set<string>,
                        after: Selected)
  {
    && (forall id | id in before :: id in after && after[id] == before[id])
    && (forall id | id in after && id !in before ::
          && Available(catalog, source, channel, id)
          && after[id] == Variant(catalog, source, channel, id)
          && FreshReach(catalog, source, channel, before.Keys, roots, id))
  }

  /** What a walk from `roots` leaves behind: old entries stay, each new one is a variant of
      this channel reachable from the roots through new ones, and the dependencies of the
      roots and of every new entry are settled. */
  ghost predicate Extends(catalog: Catalog, source: string, channel: string, skipNotFound: bool, before: Selected,
                          roots: set<string>, after: Selected)
  {
    && Grows(catalog, source, channel, before, roots, after)
    && (forall d | d in roots :: Settled(catalog, source, channel, skipNotFound, after, d))
    && (forall id, d | id in after && id !in before && d in after[id].mod.dependencies ::
          Settled(catalog, source, channel, skipNotFound, after, d))
  }

  lemma {:induction false} ExtendsHoldsPath(catalog: Catalog, source: string, channel: string, skipNotFound: bool,
                                            before: Selected, roots: set<string>, after: Selected, path: seq<string>)
    requires Extends(catalog, source, channel, skipNotFound, before, roots, after)
    requires FreshPath(catalog, source, channel, before.Keys, path) && path[0] in roots
    ensures path[|path| - 1] in after
    decreases |path|
  {
    assert Settled(catalog, source, channel, skipNotFound, after, path[0]);
    if |path| > 1 {
      var shorter := path[..|path| - 1];
      assert forall i | 0 < i < |shorter| ::
          shorter[i] in Variant(catalog, source, channel, shorter[i - 1]).mod.dependencies;
      ExtendsHoldsPath(catalog, source, channel, skipNotFound, before, roots, after, shorter);
      assert path[|path| - 1] in Variant(catalog, source, channel, path[|path| - 2]).mod.dependencies;
      assert Settled(catalog, source, channel, skipNotFound, after, path[|path| - 1]);
    }
  }

  /** The walk adds exactly the fresh ids reachable from the roots, whatever the order in which
      it meets them. */
  lemma ExtendsExactly(catalog: Catalog, source: string, channel: string, skipNotFound: bool, before: Selected,
                       roots: set<string>, after: Selected)
    requires Extends(catalog, source, channel, skipNotFound, before, roots, after)
    ensures forall id :: id in after <==>
                         id in before || FreshReach(catalog, source, channel, before.Keys, roots, id)
  {
    forall id | FreshReach(catalog, source, channel, before.Keys, roots, id) ensures id in after {
      var path :| FreshPath(catalog, source, channel, before.Keys, path) && path[0] in roots && path[|path| - 1] == id;
      ExtendsHoldsPath(catalog, source, channel, skipNotFound, before, roots, after, path);
    }
  }

  /** The walk has to look up `d`, unless it is selected already. */
  ghost predicate Demanded(catalog: Catalog, source: string, channel: string, before: set<string>, roots: set<string>,
                           d: string)
  {
    d in roots || exists id :: FreshReach(catalog, source, channel, before, roots, id)
                               && Available(catalog, source, channel, id)
                               && d in Variant(catalog, source, channel, id).mod.dependencies
  }

  ghost predicate Blocks(catalog: Catalog, source: string, channel: string, skipNotFound: bool, before: set<string>,
                         roots: set<string>, d: string)
  {
    && d !in before
    && !Available(catalog, source, channel, d)
    && !(skipNotFound && Key(d, source, channel) !in catalog)
    && Demanded(catalog, source, channel, before, roots, d)
  }

  /** An id the walk must look up but cannot use. */
  ghost predicate Blocked(catalog: Catalog, source: string, channel: string, skipNotFound: bool, before: set<string>,
                          roots: set<string>)
  {
    exists d :: Blocks(catalog, source, channel, skipNotFound, before, roots, d)
  }

  lemma FreshReachAvoids(catalog: Catalog, source: string, channel: string, avoid: set<string>, roots: set<string>,
                         id: string)
    requires FreshReach(catalog, source, channel, avoid, roots, id)
    ensures id !in avoid && Available(catalog, source, channel, id)
  {
    var path :| FreshPath(catalog, source, channel, avoid, path) && path[0] in roots && path[|path| - 1] == id;
  }

  lemma ExtendsUnblocked(catalog: Catalog, source: string, channel: string, skipNotFound: bool, before: Selected,
                         roots: set<string>, after: Selected)
    requires Extends(catalog, source, channel, skipNotFound, before, roots, after)
    ensures !Blocked(catalog, source, channel, skipNotFound, before.Keys, roots)
  {
    ExtendsExactly(catalog, source, channel, skipNotFound, before, roots, after);
    forall d | Demanded(catalog, source, channel, before.Keys, roots, d)
      ensures Settled(catalog, source, channel, skipNotFound, after, d)
    {
      if d !in roots {
        var id :| FreshReach(catalog, source, channel, before.Keys, roots, id)
                  && Available(catalog, source, channel, id)
                  && d in Variant(catalog, source, channel, id).mod.dependencies;
        FreshReachAvoids(catalog, source, channel, before.Keys, roots, id);
      }
    }
  }

  /** What blocks a later part of the walk blocks the whole walk. */
  lemma BlockedPart(catalog: Catalog, source: string, channel: string, skipNotFound: bool, avoid: set<string>,
                    roots: set<string>, avoid': set<string>, roots': set<string>)
    requires avoid' <= avoid && roots <= roots'
    requires Blocked(catalog, source, channel, skipNotFound, avoid, roots)
    ensures Blocked(catalog, source, channel, skipNotFound, avoid', roots')
  {
    var d :| Blocks(catalog, source, channel, skipNotFound, avoid, roots, d);
    FreshReachMonotone(catalog, source, channel, avoid, roots, avoid', roots');
    assert Blocks(catalog, source, channel, skipNotFound, avoid', roots', d);
  }

  lemma BlockedStep(catalog: Catalog, source: string, channel: string, skipNotFound: bool, avoid: set<string>,
                    first: string)
    requires first !in avoid && Available(catalog, source, channel, first)
    requires Blocked(catalog, source, channel, skipNotFound, avoid + {first},
                     Variant(catalog, source, channel, first).mod.dependencies)
    ensures Blocked(catalog, source, channel, skipNotFound, avoid, {first})
  {
    var next := Variant(catalog, source, channel, first).mod.dependencies;
    var d :| Blocks(catalog, source, channel, skipNotFound, avoid + {first}, next, d);
    FreshReachStep(catalog, source, channel, avoid, {first}, first);
    FreshReachMonotone(catalog, source, channel, avoid + {first}, next, avoid, next);
    assert Blocks(catalog, source, channel, skipNotFound, avoid, {first}, d);
  }

  lemma GrowsCompose(catalog: Catalog, source: string, channel: string, before: Selected, roots1: set<string>,
                     middle: Selected, roots2: set<string>, after: Selected, roots: set<string>)
    requires Grows(catalog, source, channel, before, roots1, middle)
    requires Grows(catalog, source, channel, middle, roots2, after)
    requires roots1 + roots2 <= roots
    ensures Grows(catalog, source, channel, before, roots, after)
  {
    FreshReachMonotone(catalog, source, channel, middle.Keys, roots2, before.Keys, roots);
    FreshReachMonotone(catalog, source, channel, before.Keys, roots1, before.Keys, roots);
  }

  /** Two walks, one after the other, are one walk from both sets of roots. */
  lemma ExtendsCompose(catalog: Catalog, source: string, channel: string, skipNotFound: bool, before: Selected,
                       roots1: set<string>, middle: Selected, roots2: set<string>, after: Selected)
    requires Extends(catalog, source, channel, skipNotFound, before, roots1, middle)
    requires Extends(catalog, source, channel, skipNotFound, middle, roots2, after)
    ensures Extends(catalog, source, channel, skipNotFound, before, roots1 + roots2, after)
  {
    GrowsCompose(catalog, source, channel, before, roots1, middle, roots2, after, roots1 + roots2);
    forall d | d in roots1 + roots2 ensures Settled(catalog, source, channel, skipNotFound, after, d) {
      if d in roots1 { assert Settled(catalog, source, channel, skipNotFound, middle, d); }
    }
    forall id, d | id in after && id !in before && d in after[id].mod.dependencies
      ensures Settled(catalog, source, channel, skipNotFound, after, d)
    {
      if id in middle { assert Settled(catalog, source, channel, skipNotFound, middle, d); }
    }
  }

  lemma DescentGrows(catalog: Catalog, source: string, channel: string, before: Selected, id: string, middle: Selected,
                     after: Selected)
    requires id !in before && Available(catalog, source, channel, id)
    requires middle == before[id := Variant(catalog, source, channel, id)]
    requires Grows(catalog, source, channel, middle, middle[id].mod.dependencies, after)
    ensures Grows(catalog, source, channel, before, {id}, after)
  {
    FreshReachStep(catalog, source, channel, before.Keys, {id}, id);
    var next := middle[id].mod.dependencies;
    FreshReachMonotone(catalog, source, channel, middle.Keys, next, before.Keys, next);
  }

  /** The entry that is visited but unfinished while the walk descends is finished by the
      descent itself. */
  lemma DescentExtends(catalog: Catalog, source: string, channel: string, skipNotFound: bool, before: Selected,
                       id: string, middle: Selected, after: Selected)
    requires id !in before && Available(catalog, source, channel, id)
    requires middle == before[id := Variant(catalog, source, channel, id)]
    requires Extends(catalog, source, channel, skipNotFound, middle, middle[id].mod.dependencies, after)
    ensures Extends(catalog, source, channel, skipNotFound, before, {id}, after)
  {
    DescentGrows(catalog, source, channel, before, id, middle, after);
  }

  /** The outcome of a walk: whatever fails, it adds nothing but reachable variants of the channel and
      keeps what there was; on success every dependency that it met is settled; and without failures
      it succeeds if and only if no id that it must look up is unusable. */
  ghost predicate Walked(catalog: Catalog, source: string, channel: string, skipNotFound: bool, reliable: bool,
                         before: Selected, roots: set<string>, after: Selected, ok: bool)
  {
    && Grows(catalog, source, channel, before, roots, after)
    && (ok ==> Extends(catalog, source, channel, skipNotFound, before, roots, after))
    && (reliable ==> (ok <==> !Blocked(catalog, source, channel, skipNotFound, before.Keys, roots)))
  }

  lemma Finished(catalog: Catalog, source: string, channel: string, skipNotFound: bool, reliable: bool,
                 before: Selected, roots: set<string>, after: Selected)
    requires Extends(catalog, source, channel, skipNotFound, before, roots, after)
    ensures Walked(catalog, source, channel, skipNotFound, reliable, before, roots, after, true)
  {
    ExtendsUnblocked(catalog, source, channel, skipNotFound, before, roots, after);
  }

  lemma NothingToDo(catalog: Catalog, source: string, channel: string, skipNotFound: bool, reliable: bool,
                    before: Selected, d: string)
    requires Settled(catalog, source, channel, skipNotFound, before, d)
    ensures Walked(catalog, source, channel, skipNotFound, reliable, before, {d}, before, true)
  {
    Finished(catalog, source, channel, skipNotFound, reliable, before, {d}, before);
  }

  lemma Unusable(catalog: Catalog, source: string, channel: string, skipNotFound: bool, reliable: bool,
                 before: Selected, d: string)
    requires reliable ==> !Available(catalog, source, channel, d) && d !in before
    requires reliable ==> !Settled(catalog, source, channel, skipNotFound, before, d)
    ensures Walked(catalog, source, channel, skipNotFound, reliable, before, {d}, before, false)
  {
    if reliable {
      assert Blocks(catalog, source, channel, skipNotFound, before.Keys, {d}, d);
    }
  }

  lemma Descended(catalog: Catalog, source: string, channel: string, skipNotFound: bool, reliable: bool,
                  before: Selected, id: string, middle: Selected, after: Selected, ok: bool)
    requires id !in before && Available(catalog, source, channel, id)
    requires middle == before[id := Variant(catalog, source, channel, id)]
    requires Walked(catalog, source, channel, skipNotFound, reliable, middle, middle[id].mod.dependencies, after, ok)
    ensures Walked(catalog, source, channel, skipNotFound, reliable, before, {id}, after, ok)
  {
    DescentGrows(catalog, source, channel, before, id, middle, after);
    if ok {
      DescentExtends(catalog, source, channel, skipNotFound, before, id, middle, after);
      Finished(catalog, source, channel, skipNotFound, reliable, before, {id}, after);
    } else if reliable {
      assert middle.Keys == before.Keys + {id};
      BlockedStep(catalog, source, channel, skipNotFound, before.Keys, id);
    }
  }

  lemma OneMoreRoot(catalog: Catalog, source: string, channel: string, skipNotFound: bool, reliable: bool,
                    before: Selected, roots: set<string>, todo: set<string>, current: Selected, d: string,
                    after: Selected, ok: bool)
    requires d in todo && todo <= roots
    requires Extends(catalog, source, channel, skipNotFound, before, roots - todo, current)
    requires Walked(catalog, source, channel, skipNotFound, reliable, current, {d}, after, ok)
    ensures if ok then Extends(catalog, source, channel, skipNotFound, before, roots - (todo - {d}), after)
            else Walked(catalog, source, channel, skipNotFound, reliable, before, roots, after, false)
  {
    GrowsCompose(catalog, source, channel, before, roots - todo, current, {d}, after, roots);
    if ok {
      DoneOneMore(roots, todo, d);
      ExtendsCompose(catalog, source, channel, skipNotFound, before, roots - todo, current, {d}, after);
    } else if reliable {
      BlockedPart(catalog, source, channel, skipNotFound, current.Keys, {d}, before.Keys, roots);
    }
  }

  // ----- The result as a function -----

  /** The ids that a channel offers. */
  ghost function Offered(catalog: Catalog, source: string, channel: string): set<string> {
    set key | key in catalog && key.source == source && key.channel == channel :: key.id
  }

  ghost function Walk(catalog: Catalog, source: string, channel: string, before: Selected, roots: set<string>)
    : Selected
  {
    before + map id | id in Offered(catalog, source, channel) && id !in before
                      && Available(catalog, source, channel, id)
                      && FreshReach(catalog, source, channel, before.Keys, roots, id)
      :: Variant(catalog, source, channel, id)
  }

  lemma WalkHas(catalog: Catalog, source: string, channel: string, before: Selected, roots: set<string>)
    ensures var after := Walk(catalog, source, channel, before, roots);
            && Grows(catalog, source, channel, before, roots, after)
            && (forall id :: id in after <==>
                  id in before || FreshReach(catalog, source, channel, before.Keys, roots, id))
  {
    forall id | FreshReach(catalog, source, channel, before.Keys, roots, id)
      ensures id in Walk(catalog, source, channel, before, roots)
    {
      FreshReachAvoids(catalog, source, channel, before.Keys, roots, id);
      assert Key(id, source, channel) in catalog;
    }
  }

  lemma FreshReachExtends(catalog: Catalog, source: string, channel: string, avoid: set<string>, roots: set<string>,
                          id: string, d: string)
    requires FreshReach(catalog, source, channel, avoid, roots, id) && Available(catalog, source, channel, id)
    requires d in Variant(catalog, source, channel, id).mod.dependencies
    requires d !in avoid && Available(catalog, source, channel, d)
    ensures FreshReach(catalog, source, channel, avoid, roots, d)
  {
    var path :| FreshPath(catalog, source, channel, avoid, path) && path[0] in roots && path[|path| - 1] == id;
    var longer := path + [d];
    forall i | 0 < i < |longer|
      ensures longer[i] in Variant(catalog, source, channel, longer[i - 1]).mod.dependencies
    {
      if i < |path| { assert path[i] in Variant(catalog, source, channel, path[i - 1]).mod.dependencies; }
    }
    assert FreshPath(catalog, source, channel, avoid, longer) && longer[|longer| - 1] == d;
  }

  lemma UnblockedWalkExtends(catalog: Catalog, source: string, channel: string, skipNotFound: bool, before: Selected,
                             roots: set<string>)
    requires !Blocked(catalog, source, channel, skipNotFound, before.Keys, roots)
    ensures Extends(catalog, source, channel, skipNotFound, before, roots,
                    Walk(catalog, source, channel, before, roots))
  {
    WalkHas(catalog, source, channel, before, roots);
    var walk := Walk(catalog, source, channel, before, roots);
    forall d | d in roots ensures Settled(catalog, source, channel, skipNotFound, walk, d) {
      if d !in before {
        assert !Blocks(catalog, source, channel, skipNotFound, before.Keys, roots, d);
        if Available(catalog, source, channel, d) {
          FreshReachStep(catalog, source, channel, before.Keys, roots, d);
        }
      }
    }
    forall id, d | id in walk && id !in before && d in walk[id].mod.dependencies
      ensures Settled(catalog, source, channel, skipNotFound, walk, d)
    {
      if d !in before {
        assert !Blocks(catalog, source, channel, skipNotFound, before.Keys, roots, d);
        if Available(catalog, source, channel, d) {
          FreshReachExtends(catalog, source, channel, before.Keys, roots, id, d);
        }
      }
    }
  }

  lemma GrowthsAgree(catalog: Catalog, source: string, channel: string, before: Selected, roots: set<string>,
                     a: Selected, b: Selected)
    requires Grows(catalog, source, channel, before, roots, a) && Grows(catalog, source, channel, before, roots, b)
    requires a.Keys == b.Keys
    ensures a == b
  {
    forall id | id in a ensures a[id] == b[id] {
      assert id in b.Keys;
    }
  }

  lemma ExtendsIsWalk(catalog: Catalog, source: string, channel: string, skipNotFound: bool, before: Selected,
                      roots: set<string>, after: Selected)
    requires Extends(catalog, source, channel, skipNotFound, before, roots, after)
    ensures after == Walk(catalog, source, channel, before, roots)
  {
    var walk := Walk(catalog, source, channel, before, roots);
    assert Grows(catalog, source, channel, before, roots, walk) && after.Keys == walk.Keys by {
      WalkHas(catalog, source, channel, before, roots);
      ExtendsExactly(catalog, source, channel, skipNotFound, before, roots, after);
    }
    GrowthsAgree(catalog, source, channel, before, roots, after, walk);
  }

  /** A walk has one possible result, whatever the order in which it meets the dependencies, and has
      it if and only if it is not blocked. */
  lemma WalkIsDetermined(catalog: Catalog, source: string, channel: string, skipNotFound: bool, before: Selected,
                         roots: set<string>, after: Selected)
    ensures Extends(catalog, source, channel, skipNotFound, before, roots, after) <==>
            && !Blocked(catalog, source, channel, skipNotFound, before.Keys, roots)
            && after == Walk(catalog, source, channel, before, roots)
  {
    if Extends(catalog, source, channel, skipNotFound, before, roots, after) {
      ExtendsUnblocked(catalog, source, channel, skipNotFound, before, roots, after);
      ExtendsIsWalk(catalog, source, channel, skipNotFound, before, roots, after);
    } else if !Blocked(catalog, source, channel, skipNotFound, before.Keys, roots) {
      UnblockedWalkExtends(catalog, source, channel, skipNotFound, before, roots);
    }
  }

  // ----- The walk -----

  class Dependencies {
    var entries: Selected

    constructor ()
      ensures entries == map[]
    {
      entries := map[];
    }
  }

  lemma StillOfferedShrinks(catalog: Catalog, source: string, channel: string, before: Selected, after: Selected)
    requires before.Keys <= after.Keys
    ensures |Offered(catalog, source, channel) - after.Keys| <= |Offered(catalog, source, channel) - before.Keys|
  {
    SubsetCardinality(Offered(catalog, source, channel) - after.Keys, Offered(catalog, source, channel) - before.Keys);
  }

  lemma StillOfferedDecreases(catalog: Catalog, source: string, channel: string, before: Selected, id: string,
                              after: Selected)
    requires id !in before && Available(catalog, source, channel, id) && after.Keys == before.Keys + {id}
    ensures |Offered(catalog, source, channel) - after.Keys| < |Offered(catalog, source, channel) - before.Keys|
  {
    assert Key(id, source, channel) in catalog;
    assert id in Offered(catalog, source, channel);
    SubsetSmaller(Offered(catalog, source, channel) - after.Keys, Offered(catalog, source, channel) - before.Keys, id);
  }

  class Repositories {
    const catalog: Catalog
    const env: Environment

    constructor (catalog: Catalog, env: Environment)
      ensures this.catalog == catalog && this.env == env
    {
      this.catalog := catalog;
      this.env := env;
    }

    method GetModule(id: string, source: string, channel: string) returns (r: Lookup)
      ensures r.Found? ==> Available(catalog, source, channel, id) && r.mod == Variant(catalog, source, channel, id).mod
      ensures r.NotFound? ==> Key(id, source, channel) !in catalog
      ensures r.Failed? && env.reliable ==>
                Key(id, source, channel) in catalog && !Available(catalog, source, channel, id)
    {
      var failed := env.Fails();
      var key := Key(id, source, channel);
      if failed {
        r := Failed;
      } else if key !in catalog {
        r := NotFound;
      } else {
        r := match catalog[key] case None => Failed case Some(mod) => Found(mod);
      }
    }

    /** What is not there already and can be read is descended into; otherwise `ok` tells whether the
        walk goes on. */
    method Look(depId: string, source: string, channel: string, before: Selected, skipNotFound: bool)
      returns (mod: Option<Mod>, ok: bool)
      ensures mod.None? ==> Walked(catalog, source, channel, skipNotFound, env.reliable, before, {depId}, before, ok)
      ensures mod.Some? ==> depId !in before && Available(catalog, source, channel, depId)
                            && mod.value == Variant(catalog, source, channel, depId).mod
    {
      if depId in before {
        NothingToDo(catalog, source, channel, skipNotFound, env.reliable, before, depId);
        return None, true;
      }
      var dep := GetModule(depId, source, channel);
      if dep.Found? {
        return Some(dep.mod), true;
      }
      if dep.NotFound? && skipNotFound {
        NothingToDo(catalog, source, channel, skipNotFound, env.reliable, before, depId);
        return None, true;
      }
      Unusable(catalog, source, channel, skipNotFound, env.reliable, before, depId);
      return None, false;
    }

    method AddRepoModDepsToMap(mod: Mod, source: string, channel: string, deps: Dependencies, skipNotFound: bool)
      returns (ok: bool)
      modifies deps
      ensures Walked(catalog, source, channel, skipNotFound, env.reliable, old(deps.entries), mod.dependencies,
                     deps.entries, ok)
      decreases |Offered(catalog, source, channel) - deps.entries.Keys|, 1
    {
      ghost var before, roots := deps.entries, mod.dependencies;
      var todo := mod.dependencies;
      while todo != {}
        invariant todo <= mod.dependencies
        invariant Extends(catalog, source, channel, skipNotFound, before, roots - todo, deps.entries)
        decreases |todo|
      {
        var depId :| depId in todo;
        ghost var current := deps.entries;
        StillOfferedShrinks(catalog, source, channel, before, current);
        ok := AddDependency(depId, source, channel, deps, skipNotFound);
        OneMoreRoot(catalog, source, channel, skipNotFound, env.reliable, before, roots, todo, current, depId,
                    deps.entries, ok);
        if !ok {
          return false;
        }
        todo := todo - {depId};
      }
      assert roots - todo == roots;
      Finished(catalog, source, channel, skipNotFound, env.reliable, before, roots, deps.entries);
      return true;
    }

    /** The body of the loop over the dependencies. */
    method AddDependency(depId: string, source: string, channel: string, deps: Dependencies, skipNotFound: bool)
      returns (ok: bool)
      modifies deps
      ensures Walked(catalog, source, channel, skipNotFound, env.reliable, old(deps.entries), {depId}, deps.entries, ok)
      decreases |Offered(catalog, source, channel) - deps.entries.Keys|, 0
    {
      ghost var before := deps.entries;
      var mod;
      mod, ok := Look(depId, source, channel, deps.entries, skipNotFound);
      if mod.None? {
        return;
      }
      deps.entries := deps.entries[depId := Wrapper(mod.value, source, channel)];
      ghost var middle := deps.entries;
      StillOfferedDecreases(catalog, source, channel, before, depId, middle);
      ok := AddRepoModDepsToMap(mod.value, source, channel, deps, skipNotFound);
      Descended(catalog, source, channel, skipNotFound, env.reliable, before, depId, middle, deps.entries, ok);
    }
  }
}
