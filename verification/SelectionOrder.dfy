/** The second pass of the selection visits the requested modules in the order of a Go map, each in
    its own source and channel: what depends on that order (pkg/service/repository.go). */
module SelectionOrder {
  import opened Modfiles
  import opened Prelude
  import opened Slices
  import opened RepoDependencies

  // ----- One requested module -----

  /** The channel of this module demands an id that it cannot deliver. */
  ghost predicate OriginBlocked(catalog: Catalog, wrapper: Wrapper, avoid: set<string>) {
    Blocked(catalog, wrapper.source, wrapper.channel, false, avoid, wrapper.mod.dependencies)
  }

  ghost predicate OriginBlocks(catalog: Catalog, wrapper: Wrapper, avoid: set<string>, d: string) {
    Blocks(catalog, wrapper.source, wrapper.channel, false, avoid, wrapper.mod.dependencies, d)
  }

  /** What this module depends on in its own channel, around what the first pass selected. */
  ghost predicate OriginReach(catalog: Catalog, wrapper: Wrapper, main: Selected, id: string) {
    && Available(catalog, wrapper.source, wrapper.channel, id)
    && FreshReach(catalog, wrapper.source, wrapper.channel, main.Keys, wrapper.mod.dependencies, id)
  }

  ghost function FromChannelOf(catalog: Catalog, wrapper: Wrapper, id: string): Wrapper
    requires Available(catalog, wrapper.source, wrapper.channel, id)
  {
    Variant(catalog, wrapper.source, wrapper.channel, id)
  }

  predicate SameChannel(a: Wrapper, b: Wrapper) {
    a.source == b.source && a.channel == b.channel
  }

  ghost function WalkFor(catalog: Catalog, wrapper: Wrapper, before: Selected): Selected {
    Walk(catalog, wrapper.source, wrapper.channel, before, wrapper.mod.dependencies)
  }

  ghost predicate Includes(whole: Selected, part: Selected) {
    forall id | id in part :: id in whole && whole[id] == part[id]
  }

  lemma IncludesThrough(whole: Selected, middle: Selected, part: Selected)
    requires Includes(whole, middle) && Includes(middle, part)
    ensures Includes(whole, part)
  {
  }

  lemma WalkForKeeps(catalog: Catalog, wrapper: Wrapper, before: Selected)
    ensures Includes(WalkFor(catalog, wrapper, before), before)
  {
  }

  // ----- The pass in a given order -----

  ghost predicate Known(requested: Selected, order: seq<string>) {
    forall id | id in order :: id in requested
  }

  ghost predicate IsOrder(requested: Selected, order: seq<string>) {
    IsOrderOf(requested.Keys, order)
  }

  ghost function Pass(catalog: Catalog, requested: Selected, main: Selected, order: seq<string>): Selected
    requires Known(requested, order)
  {
    if order == [] then main
    else
      var n := |order| - 1;
      WalkFor(catalog, requested[order[n]], Pass(catalog, requested, main, order[..n]))
  }

  ghost predicate Succeeds(catalog: Catalog, requested: Selected, main: Selected, order: seq<string>)
    requires Known(requested, order)
  {
    order == []
    || var n := |order| - 1;
       && Succeeds(catalog, requested, main, order[..n])
       && !OriginBlocked(catalog, requested[order[n]], Pass(catalog, requested, main, order[..n]).Keys)
  }

  /** No id can be delivered by the channels of two requested modules that differ in them. */
  ghost predicate NoConflict(catalog: Catalog, requested: Selected, main: Selected) {
    forall a, b, id | a in requested && b in requested
                      && OriginReach(catalog, requested[a], main, id) && OriginReach(catalog, requested[b], main, id) ::
      SameChannel(requested[a], requested[b])
  }

  /** What a requested module lacks in its own channel no other requested module brings in. */
  ghost predicate NoRescue(catalog: Catalog, requested: Selected, main: Selected) {
    forall a, b, d | a in requested && b in requested && OriginBlocks(catalog, requested[a], main.Keys, d) ::
      !OriginReach(catalog, requested[b], main, d)
  }

  lemma {:induction false} PassKeeps(catalog: Catalog, requested: Selected, main: Selected, order: seq<string>, i: nat)
    requires Known(requested, order) && i <= |order|
    ensures Known(requested, order[..i])
    ensures Includes(Pass(catalog, requested, main, order), Pass(catalog, requested, main, order[..i]))
  {
    if i < |order| {
      var n := |order| - 1;
      PassKeeps(catalog, requested, main, order[..n], i);
      assert order[..n][..i] == order[..i];
      var before := Pass(catalog, requested, main, order[..n]);
      WalkForKeeps(catalog, requested[order[n]], before);
      IncludesThrough(WalkFor(catalog, requested[order[n]], before), before,
                      Pass(catalog, requested, main, order[..i]));
    } else {
      assert order[..i] == order;
    }
  }

  lemma PassKeepsMain(catalog: Catalog, requested: Selected, main: Selected, order: seq<string>)
    requires Known(requested, order)
    ensures Includes(Pass(catalog, requested, main, order), main)
  {
    PassKeeps(catalog, requested, main, order, 0);
    assert order[..0] == [];
  }

  lemma PassOfOne(catalog: Catalog, requested: Selected, main: Selected, order: seq<string>)
    requires Known(requested, order) && order != []
    ensures order[0] in requested && Known(requested, order[..1])
    ensures Pass(catalog, requested, main, order[..1]) == WalkFor(catalog, requested[order[0]], main)
    ensures Succeeds(catalog, requested, main, order[..1]) <==> !OriginBlocked(catalog, requested[order[0]], main.Keys)
  {
    assert order[0] in order && order[..1][..0] == [];
  }

  lemma {:induction false} SucceedsPrefix(catalog: Catalog, requested: Selected, main: Selected, order: seq<string>,
                                          i: nat)
    requires Known(requested, order) && i <= |order| && Succeeds(catalog, requested, main, order)
    ensures Known(requested, order[..i]) && Succeeds(catalog, requested, main, order[..i])
  {
    if i < |order| {
      SucceedsPrefix(catalog, requested, main, order[..|order| - 1], i);
      assert order[..|order| - 1][..i] == order[..i];
    } else {
      assert order[..i] == order;
    }
  }

  // ----- What a pass holds -----

  lemma ReachedAvoidsMain(catalog: Catalog, wrapper: Wrapper, main: Selected, id: string)
    requires OriginReach(catalog, wrapper, main, id)
    ensures id !in main
  {
    FreshReachAvoids(catalog, wrapper.source, wrapper.channel, main.Keys, wrapper.mod.dependencies, id);
  }

  /** What was added comes from the channel of a module visited that reaches it. */
  ghost predicate FromVisited(catalog: Catalog, requested: Selected, main: Selected, order: seq<string>,
                              after: Selected)
    requires Known(requested, order)
  {
    forall id | id in after && id !in main ::
      exists v :: v in order && OriginReach(catalog, requested[v], main, id)
                  && after[id] == FromChannelOf(catalog, requested[v], id)
  }

  /** What a module visited or an entry added depends on is there, if its channel has it. */
  ghost predicate Filled(catalog: Catalog, requested: Selected, main: Selected, order: seq<string>, after: Selected)
    requires Known(requested, order)
  {
    && (forall id, d | id in after && id !in main && d in after[id].mod.dependencies
                       && Available(catalog, after[id].source, after[id].channel, d) :: d in after)
    && (forall w, d | w in order && d in requested[w].mod.dependencies
                      && Available(catalog, requested[w].source, requested[w].channel, d) :: d in after)
  }

  lemma VisitAddsOwn(catalog: Catalog, requested: Selected, main: Selected, done: seq<string>, before: Selected,
                     w: string)
    requires Known(requested, done) && w in requested && Includes(before, main)
    requires FromVisited(catalog, requested, main, done, before)
    ensures Known(requested, done + [w])
    ensures FromVisited(catalog, requested, main, done + [w], WalkFor(catalog, requested[w], before))
  {
    var s, c, roots := requested[w].source, requested[w].channel, requested[w].mod.dependencies;
    WalkHas(catalog, s, c, before, roots);
    FreshReachMonotone(catalog, s, c, before.Keys, roots, main.Keys, roots);
    var after, more := WalkFor(catalog, requested[w], before), done + [w];
    forall id | id in after && id !in main
      ensures exists v :: v in more && OriginReach(catalog, requested[v], main, id)
                          && after[id] == FromChannelOf(catalog, requested[v], id)
    {
      if id in before {
        var v :| v in done && OriginReach(catalog, requested[v], main, id)
                 && before[id] == FromChannelOf(catalog, requested[v], id);
        assert v in more;
      } else {
        assert w in more && OriginReach(catalog, requested[w], main, id);
      }
    }
  }

  lemma VisitFills(catalog: Catalog, requested: Selected, main: Selected, done: seq<string>, before: Selected,
                   w: string)
    requires Known(requested, done) && w in requested && Includes(before, main)
    requires Filled(catalog, requested, main, done, before)
    ensures Known(requested, done + [w])
    ensures Filled(catalog, requested, main, done + [w], WalkFor(catalog, requested[w], before))
  {
    var s, c, roots := requested[w].source, requested[w].channel, requested[w].mod.dependencies;
    WalkHas(catalog, s, c, before, roots);
    var after := WalkFor(catalog, requested[w], before);
    forall id, d | id in after && id !in main && d in after[id].mod.dependencies
                   && Available(catalog, after[id].source, after[id].channel, d)
      ensures d in after
    {
      if id !in before && d !in before {
        FreshReachExtends(catalog, s, c, before.Keys, roots, id, d);
      }
    }
    forall v, d | v in done + [w] && d in requested[v].mod.dependencies
                  && Available(catalog, requested[v].source, requested[v].channel, d)
      ensures d in after
    {
      if v !in done && d !in before {
        FreshReachStep(catalog, s, c, before.Keys, roots, d);
      }
    }
  }

  lemma {:induction false} PassHolds(catalog: Catalog, requested: Selected, main: Selected, order: seq<string>)
    requires Known(requested, order)
    ensures Includes(Pass(catalog, requested, main, order), main)
    ensures FromVisited(catalog, requested, main, order, Pass(catalog, requested, main, order))
    ensures Filled(catalog, requested, main, order, Pass(catalog, requested, main, order))
  {
    PassKeepsMain(catalog, requested, main, order);
    if order != [] {
      var n := |order| - 1;
      var before := Pass(catalog, requested, main, order[..n]);
      PassHolds(catalog, requested, main, order[..n]);
      VisitAddsOwn(catalog, requested, main, order[..n], before, order[n]);
      VisitFills(catalog, requested, main, order[..n], before, order[n]);
      assert order[..n] + [order[n]] == order;
    }
  }

  /** Whoever else of those visited reaches `id` takes it from the same channel. */
  ghost predicate OneChannelFor(catalog: Catalog, requested: Selected, main: Selected, order: seq<string>, w: string,
                                id: string)
    requires Known(requested, order) && w in requested
  {
    forall v | v in order && OriginReach(catalog, requested[v], main, id) :: SameChannel(requested[v], requested[w])
  }

  /** The path of a module visited is there if nobody competes for what is on it. */
  lemma {:induction false} PathIsThere(catalog: Catalog, requested: Selected, main: Selected, order: seq<string>,
                                       w: string, path: seq<string>, i: nat)
    requires Known(requested, order) && w in order && i < |path|
    requires FreshPath(catalog, requested[w].source, requested[w].channel, main.Keys, path)
    requires path[0] in requested[w].mod.dependencies
    requires forall k | 0 <= k < |path| :: OneChannelFor(catalog, requested, main, order, w, path[k])
    ensures path[i] in Pass(catalog, requested, main, order)
    ensures Pass(catalog, requested, main, order)[path[i]] == FromChannelOf(catalog, requested[w], path[i])
  {
    PassHolds(catalog, requested, main, order);
    var after := Pass(catalog, requested, main, order);
    if i > 0 {
      PathIsThere(catalog, requested, main, order, w, path, i - 1);
      assert path[i] in after[path[i - 1]].mod.dependencies;
    }
    assert path[i] in after && path[i] !in main;
    assert OneChannelFor(catalog, requested, main, order, w, path[i]);
  }

  lemma PathIsReached(catalog: Catalog, wrapper: Wrapper, main: Selected, path: seq<string>, k: nat)
    requires FreshPath(catalog, wrapper.source, wrapper.channel, main.Keys, path) && k < |path|
    requires path[0] in wrapper.mod.dependencies
    ensures OriginReach(catalog, wrapper, main, path[k])
  {
    var front := path[..k + 1];
    assert FreshPath(catalog, wrapper.source, wrapper.channel, main.Keys, front);
    assert front[0] in wrapper.mod.dependencies && front[|front| - 1] == path[k];
  }

  // ----- What some of the modules bring in -----

  /** What these modules reach, each in its own channel. */
  ghost function Brought(catalog: Catalog, requested: Selected, main: Selected, visited: set<string>): set<string> {
    set key | key in catalog && (exists w :: w in visited && w in requested
                                             && OriginReach(catalog, requested[w], main, key.id)) :: key.id
  }

  lemma BroughtIs(catalog: Catalog, requested: Selected, main: Selected, visited: set<string>, id: string)
    ensures id in Brought(catalog, requested, main, visited) <==>
            exists w :: w in visited && w in requested && OriginReach(catalog, requested[w], main, id)
  {
    if w :| w in visited && w in requested && OriginReach(catalog, requested[w], main, id) {
      assert Key(id, requested[w].source, requested[w].channel) in catalog;
    }
  }

  lemma BroughtGrows(catalog: Catalog, requested: Selected, main: Selected, visited: set<string>, more: set<string>)
    requires visited <= more
    ensures Brought(catalog, requested, main, visited) <= Brought(catalog, requested, main, more)
  {
    forall id | id in Brought(catalog, requested, main, visited) ensures id in Brought(catalog, requested, main, more) {
      BroughtIs(catalog, requested, main, visited, id);
      BroughtIs(catalog, requested, main, more, id);
    }
  }

  /** A pass adds at most what its modules reach. */
  lemma PassIsBrought(catalog: Catalog, requested: Selected, main: Selected, order: seq<string>)
    requires Known(requested, order)
    ensures Pass(catalog, requested, main, order).Keys <=
            main.Keys + Brought(catalog, requested, main, Elements(order))
  {
    PassHolds(catalog, requested, main, order);
    forall id | id in Pass(catalog, requested, main, order) && id !in main
      ensures id in Brought(catalog, requested, main, Elements(order))
    {
      var v :| v in order && OriginReach(catalog, requested[v], main, id);
      assert v in Elements(order);
      BroughtIs(catalog, requested, main, Elements(order), id);
    }
  }

  lemma DeliveredInOneChannel(catalog: Catalog, requested: Selected, main: Selected, order: seq<string>, w: string,
                              id: string)
    requires Known(requested, order) && w in order && OriginReach(catalog, requested[w], main, id)
    requires forall v, w | v in order && w in order :: SameChannel(requested[v], requested[w])
    ensures id in Pass(catalog, requested, main, order)
  {
    var path :| FreshPath(catalog, requested[w].source, requested[w].channel, main.Keys, path)
                && path[0] in requested[w].mod.dependencies && path[|path| - 1] == id;
    PathIsThere(catalog, requested, main, order, w, path, |path| - 1);
  }

  /** Modules of one channel add all of it. */
  lemma BroughtIsThere(catalog: Catalog, requested: Selected, main: Selected, order: seq<string>)
    requires Known(requested, order)
    requires forall v, w | v in order && w in order :: SameChannel(requested[v], requested[w])
    ensures main.Keys + Brought(catalog, requested, main, Elements(order)) ==
            Pass(catalog, requested, main, order).Keys
  {
    PassIsBrought(catalog, requested, main, order);
    PassKeepsMain(catalog, requested, main, order);
    forall id | id in Brought(catalog, requested, main, Elements(order))
      ensures id in Pass(catalog, requested, main, order)
    {
      BroughtIs(catalog, requested, main, Elements(order), id);
      var w :| w in Elements(order) && w in requested && OriginReach(catalog, requested[w], main, id);
      DeliveredInOneChannel(catalog, requested, main, order, w, id);
    }
  }

  // ----- Without conflicts -----

  ghost predicate Reached(catalog: Catalog, requested: Selected, main: Selected, order: seq<string>, id: string)
    requires Known(requested, order)
  {
    exists w :: w in order && OriginReach(catalog, requested[w], main, id)
  }

  /** The pass so far: the first pass, and what the modules visited reach, each from its own channel. */
  ghost predicate IsUnion(catalog: Catalog, requested: Selected, main: Selected, order: seq<string>, after: Selected)
    requires Known(requested, order)
  {
    && (forall id :: id in after <==> id in main || Reached(catalog, requested, main, order, id))
    && (forall id | id in main :: id in after && after[id] == main[id])
    && (forall w, id | w in order && OriginReach(catalog, requested[w], main, id) ::
          id in after && after[id] == FromChannelOf(catalog, requested[w], id))
  }

  lemma DeliveredWithoutConflict(catalog: Catalog, requested: Selected, main: Selected, order: seq<string>, w: string,
                                 id: string)
    requires NoConflict(catalog, requested, main) && Known(requested, order) && w in order
    requires OriginReach(catalog, requested[w], main, id)
    ensures id in Pass(catalog, requested, main, order)
    ensures Pass(catalog, requested, main, order)[id] == FromChannelOf(catalog, requested[w], id)
  {
    var path :| FreshPath(catalog, requested[w].source, requested[w].channel, main.Keys, path)
                && path[0] in requested[w].mod.dependencies && path[|path| - 1] == id;
    forall k | 0 <= k < |path| ensures OneChannelFor(catalog, requested, main, order, w, path[k]) {
      PathIsReached(catalog, requested[w], main, path, k);
    }
    PathIsThere(catalog, requested, main, order, w, path, |path| - 1);
  }

  lemma PassHasReached(catalog: Catalog, requested: Selected, main: Selected, order: seq<string>, id: string)
    requires NoConflict(catalog, requested, main) && Known(requested, order)
    ensures id in Pass(catalog, requested, main, order) <==>
            id in main || Reached(catalog, requested, main, order, id)
  {
    PassHolds(catalog, requested, main, order);
    if Reached(catalog, requested, main, order, id) {
      var w :| w in order && OriginReach(catalog, requested[w], main, id);
      DeliveredWithoutConflict(catalog, requested, main, order, w, id);
    }
  }

  lemma PassIsUnion(catalog: Catalog, requested: Selected, main: Selected, order: seq<string>)
    requires NoConflict(catalog, requested, main) && Known(requested, order)
    ensures IsUnion(catalog, requested, main, order, Pass(catalog, requested, main, order))
  {
    var after := Pass(catalog, requested, main, order);
    PassKeepsMain(catalog, requested, main, order);
    forall id ensures id in after <==> id in main || Reached(catalog, requested, main, order, id) {
      PassHasReached(catalog, requested, main, order, id);
    }
    forall w, id | w in order && OriginReach(catalog, requested[w], main, id)
      ensures id in after && after[id] == FromChannelOf(catalog, requested[w], id)
    {
      DeliveredWithoutConflict(catalog, requested, main, order, w, id);
    }
  }

  lemma UnionsAgree(catalog: Catalog, requested: Selected, main: Selected, order: seq<string>, order': seq<string>,
                    a: Selected, b: Selected)
    requires Known(requested, order) && Known(requested, order') && Elements(order) == Elements(order')
    requires IsUnion(catalog, requested, main, order, a) && IsUnion(catalog, requested, main, order', b)
    ensures a == b
  {
    forall w ensures w in order <==> w in order' { assert w in Elements(order) <==> w in Elements(order'); }
    forall id ensures Reached(catalog, requested, main, order, id) <==> Reached(catalog, requested, main, order', id) {
      if Reached(catalog, requested, main, order, id) {
        var w :| w in order && OriginReach(catalog, requested[w], main, id);
        assert w in order';
      }
      if Reached(catalog, requested, main, order', id) {
        var w :| w in order' && OriginReach(catalog, requested[w], main, id);
        assert w in order;
      }
    }
    assert a.Keys == b.Keys;
    forall id | id in a ensures a[id] == b[id] {
      if id !in main {
        var w :| w in order && OriginReach(catalog, requested[w], main, id);
        assert w in order';
      }
    }
  }

  // ----- The result -----

  lemma OrderIsKnown(requested: Selected, order: seq<string>)
    requires IsOrder(requested, order)
    ensures Known(requested, order)
  {
    forall id | id in order ensures id in requested { assert id in Elements(order); }
  }

  ghost function PassIn(catalog: Catalog, requested: Selected, main: Selected, order: seq<string>): Selected
    requires IsOrder(requested, order)
  {
    OrderIsKnown(requested, order);
    Pass(catalog, requested, main, order)
  }

  ghost predicate SameForEveryOrder(catalog: Catalog, requested: Selected, main: Selected) {
    forall o, o' | IsOrder(requested, o) && IsOrder(requested, o') ::
      PassIn(catalog, requested, main, o) == PassIn(catalog, requested, main, o')
  }

  lemma FirstDelivers(catalog: Catalog, requested: Selected, main: Selected, order: seq<string>, id: string)
    requires IsOrder(requested, order) && order != []
    requires order[0] in requested && OriginReach(catalog, requested[order[0]], main, id)
    ensures id in PassIn(catalog, requested, main, order)
    ensures PassIn(catalog, requested, main, order)[id] == FromChannelOf(catalog, requested[order[0]], id)
  {
    OrderIsKnown(requested, order);
    var w := requested[order[0]];
    PassKeeps(catalog, requested, main, order, 1);
    PassOfOne(catalog, requested, main, order);
    ReachedAvoidsMain(catalog, w, main, id);
    WalkHas(catalog, w.source, w.channel, main, w.mod.dependencies);
  }

  /** An id that two requested modules could deliver comes from the one that is visited first. */
  lemma ConflictShows(catalog: Catalog, requested: Selected, main: Selected, a: string, b: string, id: string)
    returns (o: seq<string>, o': seq<string>)
    requires a in requested && b in requested && !SameChannel(requested[a], requested[b])
    requires OriginReach(catalog, requested[a], main, id) && OriginReach(catalog, requested[b], main, id)
    ensures IsOrder(requested, o) && IsOrder(requested, o')
    ensures var x, y := PassIn(catalog, requested, main, o), PassIn(catalog, requested, main, o');
            && id in x && id in y && x[id] == FromChannelOf(catalog, requested[a], id)
            && y[id] == FromChannelOf(catalog, requested[b], id) && x[id] != y[id]
  {
    o := OrderFrom(requested.Keys, [a]);
    o' := OrderFrom(requested.Keys, [b]);
    FirstDelivers(catalog, requested, main, o, id);
    FirstDelivers(catalog, requested, main, o', id);
  }

  /** The second pass has the same result in every order if and only if no id can be delivered by two
      requested modules of different source or channel. */
  lemma OrderIndependentIff(catalog: Catalog, requested: Selected, main: Selected)
    ensures SameForEveryOrder(catalog, requested, main) <==> NoConflict(catalog, requested, main)
  {
    if NoConflict(catalog, requested, main) {
      forall o, o' | IsOrder(requested, o) && IsOrder(requested, o')
        ensures PassIn(catalog, requested, main, o) == PassIn(catalog, requested, main, o')
      {
        OrderIsKnown(requested, o);
        OrderIsKnown(requested, o');
        PassIsUnion(catalog, requested, main, o);
        PassIsUnion(catalog, requested, main, o');
        UnionsAgree(catalog, requested, main, o, o', PassIn(catalog, requested, main, o),
                    PassIn(catalog, requested, main, o'));
      }
    } else {
      var a, b, id :| a in requested && b in requested && OriginReach(catalog, requested[a], main, id)
                      && OriginReach(catalog, requested[b], main, id) && !SameChannel(requested[a], requested[b]);
      var _, _ := ConflictShows(catalog, requested, main, a, b, id);
    }
  }

  // ----- Success -----

  ghost predicate SucceedsIn(catalog: Catalog, requested: Selected, main: Selected, order: seq<string>)
    requires IsOrder(requested, order)
  {
    OrderIsKnown(requested, order);
    Succeeds(catalog, requested, main, order)
  }

  ghost predicate NoneBlocked(catalog: Catalog, requested: Selected, main: Selected) {
    forall w | w in requested :: !OriginBlocked(catalog, requested[w], main.Keys)
  }

  lemma {:induction false} UnblockedSucceeds(catalog: Catalog, requested: Selected, main: Selected, order: seq<string>)
    requires Known(requested, order) && NoneBlocked(catalog, requested, main)
    ensures Succeeds(catalog, requested, main, order)
  {
    if order != [] {
      var n := |order| - 1;
      UnblockedSucceeds(catalog, requested, main, order[..n]);
      var w, before := requested[order[n]], Pass(catalog, requested, main, order[..n]);
      PassKeepsMain(catalog, requested, main, order[..n]);
      if OriginBlocked(catalog, w, before.Keys) {
        BlockedPart(catalog, w.source, w.channel, false, before.Keys, w.mod.dependencies, main.Keys,
                    w.mod.dependencies);
      }
    }
  }

  /** The pass succeeds in every order if and only if no requested module is blocked when it comes first. */
  lemma EveryOrderSucceedsIff(catalog: Catalog, requested: Selected, main: Selected)
    ensures (forall o | IsOrder(requested, o) :: SucceedsIn(catalog, requested, main, o)) <==>
            NoneBlocked(catalog, requested, main)
  {
    if NoneBlocked(catalog, requested, main) {
      forall o | IsOrder(requested, o) ensures SucceedsIn(catalog, requested, main, o) {
        OrderIsKnown(requested, o);
        UnblockedSucceeds(catalog, requested, main, o);
      }
    } else {
      var w :| w in requested && OriginBlocked(catalog, requested[w], main.Keys);
      var o := OrderFrom(requested.Keys, [w]);
      OrderIsKnown(requested, o);
      PassOfOne(catalog, requested, main, o);
      if SucceedsIn(catalog, requested, main, o) {
        SucceedsPrefix(catalog, requested, main, o, 1);
      }
    }
  }

  /** Whatever was added to `main` is there with all its dependencies, and so is what the modules
      visited depend on. */
  ghost predicate Complete(requested: Selected, main: Selected, order: seq<string>, after: Selected)
    requires Known(requested, order)
  {
    && (forall id, d | id in after && id !in main && d in after[id].mod.dependencies :: d in after)
    && (forall w, d | w in order && d in requested[w].mod.dependencies :: d in after)
  }

  lemma CompleteOneMore(catalog: Catalog, requested: Selected, main: Selected, done: seq<string>, before: Selected,
                        w: string, after: Selected)
    requires Known(requested, done) && w in requested && Complete(requested, main, done, before)
    requires Extends(catalog, requested[w].source, requested[w].channel, false, before,
                     requested[w].mod.dependencies, after)
    ensures Known(requested, done + [w]) && Complete(requested, main, done + [w], after)
  {
    var s, c := requested[w].source, requested[w].channel;
    forall id, d | id in after && id !in main && d in after[id].mod.dependencies ensures d in after {
      if id !in before {
        assert Settled(catalog, s, c, false, after, d);
      }
    }
    forall v, d | v in done + [w] && d in requested[v].mod.dependencies ensures d in after {
      if v !in done {
        assert Settled(catalog, s, c, false, after, d);
      }
    }
  }

  lemma {:induction false} AddedIsComplete(catalog: Catalog, requested: Selected, main: Selected, order: seq<string>)
    requires Known(requested, order) && Succeeds(catalog, requested, main, order)
    ensures Complete(requested, main, order, Pass(catalog, requested, main, order))
  {
    if order != [] {
      var n := |order| - 1;
      AddedIsComplete(catalog, requested, main, order[..n]);
      var w, before := requested[order[n]], Pass(catalog, requested, main, order[..n]);
      var after := WalkFor(catalog, w, before);
      WalkIsDetermined(catalog, w.source, w.channel, false, before, w.mod.dependencies, after);
      CompleteOneMore(catalog, requested, main, order[..n], before, order[n], after);
      assert order[..n] + [order[n]] == order;
    }
  }

  /** Without conflicts, whatever a module visited demands is there in the end. */
  lemma DemandIsMet(catalog: Catalog, requested: Selected, main: Selected, order: seq<string>, after: Selected,
                    w: string, d: string)
    requires Known(requested, order) && w in order && Complete(requested, main, order, after)
    requires IsUnion(catalog, requested, main, order, after)
    requires Demanded(catalog, requested[w].source, requested[w].channel, main.Keys, requested[w].mod.dependencies, d)
    ensures d in after
  {
    var s, c, roots := requested[w].source, requested[w].channel, requested[w].mod.dependencies;
    if d !in roots {
      var id :| FreshReach(catalog, s, c, main.Keys, roots, id) && Available(catalog, s, c, id)
                && d in Variant(catalog, s, c, id).mod.dependencies;
      assert OriginReach(catalog, requested[w], main, id);
      assert after[id] == FromChannelOf(catalog, requested[w], id);
      ReachedAvoidsMain(catalog, requested[w], main, id);
    }
  }

  lemma BlockedFailsEverywhere(catalog: Catalog, requested: Selected, main: Selected, order: seq<string>, w: string)
    requires NoConflict(catalog, requested, main) && NoRescue(catalog, requested, main)
    requires IsOrder(requested, order) && w in requested && OriginBlocked(catalog, requested[w], main.Keys)
    ensures !SucceedsIn(catalog, requested, main, order)
  {
    OrderIsKnown(requested, order);
    var d :| Blocks(catalog, requested[w].source, requested[w].channel, false, main.Keys,
                    requested[w].mod.dependencies, d);
    assert OriginBlocks(catalog, requested[w], main.Keys, d);
    if SucceedsIn(catalog, requested, main, order) {
      var after := Pass(catalog, requested, main, order);
      assert w in order by { assert w in Elements(order); }
      AddedIsComplete(catalog, requested, main, order);
      PassIsUnion(catalog, requested, main, order);
      DemandIsMet(catalog, requested, main, order, after, w, d);
    }
  }

  /** Without conflicts and rescues all orders succeed or none does. */
  lemma SuccessIsOrderIndependent(catalog: Catalog, requested: Selected, main: Selected, order: seq<string>)
    requires NoConflict(catalog, requested, main) && NoRescue(catalog, requested, main)
    requires IsOrder(requested, order)
    ensures SucceedsIn(catalog, requested, main, order) <==> NoneBlocked(catalog, requested, main)
  {
    OrderIsKnown(requested, order);
    if NoneBlocked(catalog, requested, main) {
      UnblockedSucceeds(catalog, requested, main, order);
    } else {
      var w :| w in requested && OriginBlocked(catalog, requested[w], main.Keys);
      BlockedFailsEverywhere(catalog, requested, main, order, w);
    }
  }

  // ----- Failure -----

  ghost predicate EveryOrderFails(catalog: Catalog, requested: Selected, main: Selected) {
    forall o | IsOrder(requested, o) :: !SucceedsIn(catalog, requested, main, o)
  }

  ghost predicate AgreeOnSuccess(catalog: Catalog, requested: Selected, main: Selected) {
    forall o, o' | IsOrder(requested, o) && IsOrder(requested, o') ::
      SucceedsIn(catalog, requested, main, o) <==> SucceedsIn(catalog, requested, main, o')
  }

  /** Each of these modules lacks something, even around all that the other requested modules reach:
      none of them can be the first of them to be visited. */
  ghost predicate HoldEachOtherUp(catalog: Catalog, requested: Selected, main: Selected, group: set<string>) {
    && group != {} && group <= requested.Keys
    && forall w | w in group ::
         OriginBlocked(catalog, requested[w], main.Keys + Brought(catalog, requested, main, requested.Keys - group))
  }

  ghost predicate SomeHoldEachOtherUp(catalog: Catalog, requested: Selected, main: Selected) {
    exists group :: HoldEachOtherUp(catalog, requested, main, group)
  }

  /** As long as the pass succeeds it has visited none of them. */
  lemma {:induction false} GroupIsNeverVisited(catalog: Catalog, requested: Selected, main: Selected,
                                               group: set<string>, order: seq<string>)
    requires HoldEachOtherUp(catalog, requested, main, group)
    requires Known(requested, order) && Succeeds(catalog, requested, main, order)
    ensures Elements(order) !! group
  {
    if order != [] {
      var n := |order| - 1;
      var w, before := requested[order[n]], Pass(catalog, requested, main, order[..n]);
      GroupIsNeverVisited(catalog, requested, main, group, order[..n]);
      if order[n] in group {
        var others := requested.Keys - group;
        PassIsBrought(catalog, requested, main, order[..n]);
        BroughtGrows(catalog, requested, main, Elements(order[..n]), others);
        BlockedPart(catalog, w.source, w.channel, false, main.Keys + Brought(catalog, requested, main, others),
                    w.mod.dependencies, before.Keys, w.mod.dependencies);
      }
      assert Elements(order) == Elements(order[..n]) + {order[n]};
    }
  }

  lemma HeldUpFails(catalog: Catalog, requested: Selected, main: Selected)
    requires SomeHoldEachOtherUp(catalog, requested, main)
    ensures EveryOrderFails(catalog, requested, main)
  {
    var group :| HoldEachOtherUp(catalog, requested, main, group);
    forall o | IsOrder(requested, o) ensures !SucceedsIn(catalog, requested, main, o) {
      OrderIsKnown(requested, o);
      if Succeeds(catalog, requested, main, o) {
        GroupIsNeverVisited(catalog, requested, main, group, o);
      }
    }
  }

  lemma UnionIsBrought(catalog: Catalog, requested: Selected, main: Selected, order: seq<string>)
    requires NoConflict(catalog, requested, main) && Known(requested, order)
    ensures Pass(catalog, requested, main, order).Keys ==
            main.Keys + Brought(catalog, requested, main, Elements(order))
  {
    PassIsBrought(catalog, requested, main, order);
    PassKeepsMain(catalog, requested, main, order);
    forall id | id in Brought(catalog, requested, main, Elements(order))
      ensures id in Pass(catalog, requested, main, order)
    {
      BroughtIs(catalog, requested, main, Elements(order), id);
      var w :| w in Elements(order) && w in requested && OriginReach(catalog, requested[w], main, id);
      DeliveredWithoutConflict(catalog, requested, main, order, w, id);
    }
  }

  lemma SucceedsOneMore(catalog: Catalog, requested: Selected, main: Selected, done: seq<string>, w: string)
    requires Known(requested, done) && Succeeds(catalog, requested, main, done) && w in requested
    requires !OriginBlocked(catalog, requested[w], Pass(catalog, requested, main, done).Keys)
    ensures Known(requested, done + [w]) && Succeeds(catalog, requested, main, done + [w])
  {
    assert (done + [w])[..|done|] == done;
  }

  /** A pass that nobody holds up can go on. */
  lemma OneMoreCanBeVisited(catalog: Catalog, requested: Selected, main: Selected, done: seq<string>,
                            todo: set<string>)
    returns (w: string)
    requires NoConflict(catalog, requested, main) && !SomeHoldEachOtherUp(catalog, requested, main)
    requires Known(requested, done) && todo != {} && todo <= requested.Keys
    requires requested.Keys - todo == Elements(done)
    ensures w in todo && w in requested
    ensures !OriginBlocked(catalog, requested[w], Pass(catalog, requested, main, done).Keys)
  {
    assert !HoldEachOtherUp(catalog, requested, main, todo);
    UnionIsBrought(catalog, requested, main, done);
    w :| w in todo && !OriginBlocked(catalog, requested[w],
                                     main.Keys + Brought(catalog, requested, main, requested.Keys - todo));
  }

  lemma VisitedOneMore(requested: Selected, done: seq<string>, todo: set<string>, w: string)
    requires NoDuplicates(done) && requested.Keys - todo == Elements(done) && todo <= requested.Keys && w in todo
    ensures NoDuplicates(done + [w]) && requested.Keys - (todo - {w}) == Elements(done + [w])
  {
    OrderOneMore(done, w);
  }

  lemma {:induction false} NotHeldUpSucceeds(catalog: Catalog, requested: Selected, main: Selected, done: seq<string>,
                                             todo: set<string>)
    returns (o: seq<string>)
    requires NoConflict(catalog, requested, main) && !SomeHoldEachOtherUp(catalog, requested, main)
    requires Known(requested, done) && NoDuplicates(done) && Succeeds(catalog, requested, main, done)
    requires todo <= requested.Keys && requested.Keys - todo == Elements(done)
    ensures Known(requested, o) && IsOrder(requested, o) && Succeeds(catalog, requested, main, o)
    decreases todo
  {
    if todo == {} {
      o := done;
    } else {
      var w := OneMoreCanBeVisited(catalog, requested, main, done, todo);
      VisitedOneMore(requested, done, todo, w);
      SucceedsOneMore(catalog, requested, main, done, w);
      o := NotHeldUpSucceeds(catalog, requested, main, done + [w], todo - {w});
    }
  }

  /** Modules that hold each other up make the pass fail in every order, and where no two modules
      compete for an id nothing else does. */
  lemma EveryOrderFailsIff(catalog: Catalog, requested: Selected, main: Selected)
    ensures SomeHoldEachOtherUp(catalog, requested, main) ==> EveryOrderFails(catalog, requested, main)
    ensures NoConflict(catalog, requested, main) ==>
              (EveryOrderFails(catalog, requested, main) <==> SomeHoldEachOtherUp(catalog, requested, main))
  {
    if SomeHoldEachOtherUp(catalog, requested, main) {
      HeldUpFails(catalog, requested, main);
    } else if NoConflict(catalog, requested, main) {
      var _ := NotHeldUpSucceeds(catalog, requested, main, [], requested.Keys);
    }
  }

  lemma AgreementIs(catalog: Catalog, requested: Selected, main: Selected)
    ensures AgreeOnSuccess(catalog, requested, main) <==>
            NoneBlocked(catalog, requested, main) || EveryOrderFails(catalog, requested, main)
  {
    EveryOrderSucceedsIff(catalog, requested, main);
    if AgreeOnSuccess(catalog, requested, main) && !EveryOrderFails(catalog, requested, main) {
      var good :| IsOrder(requested, good) && SucceedsIn(catalog, requested, main, good);
      forall o | IsOrder(requested, o) ensures SucceedsIn(catalog, requested, main, o) {
        assert SucceedsIn(catalog, requested, main, o) <==> SucceedsIn(catalog, requested, main, good);
      }
    }
  }

  /** The order does not decide about success if and only if no module is blocked when it comes first,
      or every order fails. */
  lemma OrdersAgreeIff(catalog: Catalog, requested: Selected, main: Selected)
    ensures AgreeOnSuccess(catalog, requested, main) <==>
            NoneBlocked(catalog, requested, main) || EveryOrderFails(catalog, requested, main)
    ensures NoConflict(catalog, requested, main) ==>
              (AgreeOnSuccess(catalog, requested, main) <==>
               NoneBlocked(catalog, requested, main) || SomeHoldEachOtherUp(catalog, requested, main))
  {
    AgreementIs(catalog, requested, main);
    EveryOrderFailsIff(catalog, requested, main);
  }

  // ----- The selection -----

  ghost predicate UnrequestedConflict(catalog: Catalog, requested: Selected, main: Selected) {
    exists a, b, id :: a in requested && b in requested && id !in requested
                       && OriginReach(catalog, requested[a], main, id) && OriginReach(catalog, requested[b], main, id)
                       && !SameChannel(requested[a], requested[b])
  }

  ghost predicate SelectionSameForEveryOrder(catalog: Catalog, requested: Selected, main: Selected) {
    forall o, o' | IsOrder(requested, o) && IsOrder(requested, o') ::
      PassIn(catalog, requested, main, o) + requested == PassIn(catalog, requested, main, o') + requested
  }

  ghost function OtherChannels(requested: Selected, a: string): set<string>
    requires a in requested
  {
    set w | w in requested && !SameChannel(requested[w], requested[a])
  }

  /** What the other channels reach leaves a module of this channel a path to the id. */
  ghost predicate HasFreeWay(catalog: Catalog, requested: Selected, main: Selected, a: string, id: string)
    requires a in requested
  {
    exists w :: w in requested && SameChannel(requested[w], requested[a])
                && FreshReach(catalog, requested[w].source, requested[w].channel,
                              main.Keys + Brought(catalog, requested, main, OtherChannels(requested, a)),
                              requested[w].mod.dependencies, id)
  }

  ghost predicate AllHaveFreeWay(catalog: Catalog, requested: Selected, main: Selected) {
    forall a, id | a in requested && id !in requested && OriginReach(catalog, requested[a], main, id) ::
      HasFreeWay(catalog, requested, main, a, id)
  }

  /** Seen from each requested module, the others come from its own channel or from one more. */
  ghost predicate AtMostTwoChannels(requested: Selected) {
    forall a, v, w | a in requested && v in OtherChannels(requested, a) && w in OtherChannels(requested, a) ::
      SameChannel(requested[v], requested[w])
  }

  /** With a free way to it, the id is selected in every order, from the same channel. */
  lemma FreeWayDelivers(catalog: Catalog, requested: Selected, main: Selected, order: seq<string>, a: string,
                        id: string)
    requires IsOrder(requested, order) && a in requested && OriginReach(catalog, requested[a], main, id)
    requires HasFreeWay(catalog, requested, main, a, id)
    ensures id in PassIn(catalog, requested, main, order)
    ensures PassIn(catalog, requested, main, order)[id] == FromChannelOf(catalog, requested[a], id)
  {
    OrderIsKnown(requested, order);
    var others := OtherChannels(requested, a);
    var avoid := main.Keys + Brought(catalog, requested, main, others);
    var w :| w in requested && SameChannel(requested[w], requested[a])
             && FreshReach(catalog, requested[w].source, requested[w].channel, avoid,
                           requested[w].mod.dependencies, id);
    var path :| FreshPath(catalog, requested[w].source, requested[w].channel, avoid, path)
                && path[0] in requested[w].mod.dependencies && path[|path| - 1] == id;
    forall k | 0 <= k < |path| ensures OneChannelFor(catalog, requested, main, order, w, path[k]) {
      BroughtIs(catalog, requested, main, others, path[k]);
    }
    assert w in order by { assert w in Elements(order); }
    assert FreshPath(catalog, requested[w].source, requested[w].channel, main.Keys, path);
    PathIsThere(catalog, requested, main, order, w, path, |path| - 1);
  }

  lemma FreeWaysAgree(catalog: Catalog, requested: Selected, main: Selected, o: seq<string>, o': seq<string>,
                      id: string)
    requires AllHaveFreeWay(catalog, requested, main) && IsOrder(requested, o) && IsOrder(requested, o')
    requires id in PassIn(catalog, requested, main, o) && id !in requested
    ensures id in PassIn(catalog, requested, main, o')
    ensures PassIn(catalog, requested, main, o)[id] == PassIn(catalog, requested, main, o')[id]
  {
    OrderIsKnown(requested, o);
    OrderIsKnown(requested, o');
    PassHolds(catalog, requested, main, o);
    PassHolds(catalog, requested, main, o');
    if id !in main {
      var v :| v in o && OriginReach(catalog, requested[v], main, id);
      FreeWayDelivers(catalog, requested, main, o, v, id);
      FreeWayDelivers(catalog, requested, main, o', v, id);
    }
  }

  lemma SelectionsInclude(catalog: Catalog, requested: Selected, main: Selected, o: seq<string>, o': seq<string>)
    requires AllHaveFreeWay(catalog, requested, main) && IsOrder(requested, o) && IsOrder(requested, o')
    ensures Includes(PassIn(catalog, requested, main, o') + requested, PassIn(catalog, requested, main, o) + requested)
  {
    var x, y := PassIn(catalog, requested, main, o) + requested, PassIn(catalog, requested, main, o') + requested;
    forall id | id in x ensures id in y && x[id] == y[id] {
      if id !in requested { FreeWaysAgree(catalog, requested, main, o, o', id); }
    }
  }

  lemma IncludeEachOther(a: Selected, b: Selected)
    requires Includes(a, b) && Includes(b, a)
    ensures a == b
  {
  }

  lemma FreeWaysGiveSame(catalog: Catalog, requested: Selected, main: Selected)
    requires AllHaveFreeWay(catalog, requested, main)
    ensures SelectionSameForEveryOrder(catalog, requested, main)
  {
    forall o, o' | IsOrder(requested, o) && IsOrder(requested, o')
      ensures PassIn(catalog, requested, main, o) + requested == PassIn(catalog, requested, main, o') + requested
    {
      SelectionsInclude(catalog, requested, main, o, o');
      SelectionsInclude(catalog, requested, main, o', o);
      IncludeEachOther(PassIn(catalog, requested, main, o) + requested,
                       PassIn(catalog, requested, main, o') + requested);
    }
  }

  ghost predicate Reaches(catalog: Catalog, wrapper: Wrapper, there: set<string>, id: string) {
    FreshReach(catalog, wrapper.source, wrapper.channel, there, wrapper.mod.dependencies, id)
  }

  lemma NotAddedNow(catalog: Catalog, wrapper: Wrapper, before: Selected, there: set<string>, id: string)
    requires there <= before.Keys && id !in before && !Reaches(catalog, wrapper, there, id)
    ensures id !in WalkFor(catalog, wrapper, before)
  {
    WalkHas(catalog, wrapper.source, wrapper.channel, before, wrapper.mod.dependencies);
    FreshReachMonotone(catalog, wrapper.source, wrapper.channel, before.Keys, wrapper.mod.dependencies, there,
                       wrapper.mod.dependencies);
  }

  lemma PassOneMore(catalog: Catalog, requested: Selected, main: Selected, done: seq<string>, w: string)
    requires Known(requested, done + [w])
    ensures w in requested && Known(requested, done)
    ensures Pass(catalog, requested, main, done + [w]) ==
            WalkFor(catalog, requested[w], Pass(catalog, requested, main, done))
  {
    assert (done + [w])[..|done|] == done && w in done + [w];
    forall id | id in done ensures id in requested { assert id in done + [w]; }
  }

  /** What nobody reaches any more is not added later. */
  lemma {:induction false} NeverAdded(catalog: Catalog, requested: Selected, main: Selected, first: seq<string>,
                                      rest: seq<string>, there: set<string>, id: string)
    requires Known(requested, first) && Known(requested, first + rest)
    requires there <= Pass(catalog, requested, main, first).Keys && id !in Pass(catalog, requested, main, first)
    requires forall w | w in requested :: !Reaches(catalog, requested[w], there, id)
    ensures there <= Pass(catalog, requested, main, first + rest).Keys
    ensures id !in Pass(catalog, requested, main, first + rest)
  {
    if rest == [] {
      assert first + rest == first;
    } else {
      var n := |rest| - 1;
      var done := first + rest[..n];
      assert done + [rest[n]] == first + rest;
      PassOneMore(catalog, requested, main, done, rest[n]);
      NeverAdded(catalog, requested, main, first, rest[..n], there, id);
      NotAddedNow(catalog, requested[rest[n]], Pass(catalog, requested, main, done), there, id);
      WalkForKeeps(catalog, requested[rest[n]], Pass(catalog, requested, main, done));
    }
  }

  lemma NobodyReaches(catalog: Catalog, requested: Selected, main: Selected, a: string, id: string)
    requires a in requested && !HasFreeWay(catalog, requested, main, a, id)
    requires id !in Brought(catalog, requested, main, OtherChannels(requested, a))
    ensures var there := main.Keys + Brought(catalog, requested, main, OtherChannels(requested, a));
            forall w | w in requested :: !Reaches(catalog, requested[w], there, id)
  {
    var others := OtherChannels(requested, a);
    var there := main.Keys + Brought(catalog, requested, main, others);
    forall w | w in requested ensures !Reaches(catalog, requested[w], there, id) {
      var s, c, roots := requested[w].source, requested[w].channel, requested[w].mod.dependencies;
      if w in others && Reaches(catalog, requested[w], there, id) {
        FreshReachMonotone(catalog, s, c, there, roots, main.Keys, roots);
        FreshReachAvoids(catalog, s, c, there, roots, id);
        assert OriginReach(catalog, requested[w], main, id);
        BroughtIs(catalog, requested, main, others, id);
      }
    }
  }

  lemma OthersFirst(catalog: Catalog, requested: Selected, main: Selected, a: string)
    returns (first: seq<string>)
    requires AtMostTwoChannels(requested) && a in requested
    ensures NoDuplicates(first) && Elements(first) == OtherChannels(requested, a) && Known(requested, first)
    ensures main.Keys + Brought(catalog, requested, main, OtherChannels(requested, a)) ==
            Pass(catalog, requested, main, first).Keys
  {
    var others := OtherChannels(requested, a);
    first := AnyOrder(others);
    forall v | v in first ensures v in others { assert v in Elements(first); }
    BroughtIsThere(catalog, requested, main, first);
  }

  lemma StaysHidden(catalog: Catalog, requested: Selected, main: Selected, first: seq<string>, o: seq<string>,
                    a: string, id: string)
    requires Known(requested, first) && Known(requested, o) && first <= o
    requires a in requested && !HasFreeWay(catalog, requested, main, a, id)
    requires id !in main && id !in Brought(catalog, requested, main, OtherChannels(requested, a))
    requires Pass(catalog, requested, main, first).Keys ==
             main.Keys + Brought(catalog, requested, main, OtherChannels(requested, a))
    ensures id !in Pass(catalog, requested, main, o)
  {
    NobodyReaches(catalog, requested, main, a, id);
    assert first + o[|first|..] == o;
    NeverAdded(catalog, requested, main, first, o[|first|..], Pass(catalog, requested, main, first).Keys, id);
  }

  /** If the other channel comes first, an id without a free way to it is hidden. */
  lemma OtherChannelHides(catalog: Catalog, requested: Selected, main: Selected, a: string, id: string)
    returns (o: seq<string>)
    requires AtMostTwoChannels(requested) && a in requested && id !in main
    requires !HasFreeWay(catalog, requested, main, a, id)
    requires id !in Brought(catalog, requested, main, OtherChannels(requested, a))
    ensures IsOrder(requested, o) && id !in PassIn(catalog, requested, main, o)
  {
    var first := OthersFirst(catalog, requested, main, a);
    o := OrderFrom(requested.Keys, first);
    OrderIsKnown(requested, o);
    StaysHidden(catalog, requested, main, first, o, a, id);
  }

  lemma UnrequestedConflictShows(catalog: Catalog, requested: Selected, main: Selected)
    requires UnrequestedConflict(catalog, requested, main)
    ensures !SelectionSameForEveryOrder(catalog, requested, main)
  {
    var a, b, id :| a in requested && b in requested && id !in requested
                    && OriginReach(catalog, requested[a], main, id) && OriginReach(catalog, requested[b], main, id)
                    && !SameChannel(requested[a], requested[b]);
    var o, o' := ConflictShows(catalog, requested, main, a, b, id);
    assert (PassIn(catalog, requested, main, o) + requested)[id] !=
           (PassIn(catalog, requested, main, o') + requested)[id];
  }

  lemma NoFreeWayShows(catalog: Catalog, requested: Selected, main: Selected, a: string, id: string)
    requires AtMostTwoChannels(requested) && a in requested && id !in requested
    requires OriginReach(catalog, requested[a], main, id) && !HasFreeWay(catalog, requested, main, a, id)
    ensures !SelectionSameForEveryOrder(catalog, requested, main)
  {
    var others := OtherChannels(requested, a);
    if id in Brought(catalog, requested, main, others) {
      BroughtIs(catalog, requested, main, others, id);
      assert UnrequestedConflict(catalog, requested, main);
      UnrequestedConflictShows(catalog, requested, main);
    } else {
      ReachedAvoidsMain(catalog, requested[a], main, id);
      var o := OtherChannelHides(catalog, requested, main, a, id);
      var o' := OrderFrom(requested.Keys, [a]);
      FirstDelivers(catalog, requested, main, o', id);
      assert id in PassIn(catalog, requested, main, o') + requested;
      assert id !in PassIn(catalog, requested, main, o) + requested;
    }
  }

  lemma NoConflictLeavesFreeWays(catalog: Catalog, requested: Selected, main: Selected)
    requires NoConflict(catalog, requested, main)
    ensures AllHaveFreeWay(catalog, requested, main)
  {
    forall a, id | a in requested && id !in requested && OriginReach(catalog, requested[a], main, id)
      ensures HasFreeWay(catalog, requested, main, a, id)
    {
      var w, others := requested[a], OtherChannels(requested, a);
      var path :| FreshPath(catalog, w.source, w.channel, main.Keys, path) && path[0] in w.mod.dependencies
                  && path[|path| - 1] == id;
      forall k | 0 <= k < |path| ensures path[k] !in Brought(catalog, requested, main, others) {
        PathIsReached(catalog, w, main, path, k);
        BroughtIs(catalog, requested, main, others, path[k]);
      }
      assert FreshPath(catalog, w.source, w.channel, main.Keys + Brought(catalog, requested, main, others), path);
    }
  }

  /** In the selection the requested variants replace what the pass found for their ids. It is the same in
      every order if each other id that a module reaches has a way to it that is free of what the other
      channels reach; with two channels, if and only if. A conflict about such an id always shows. */
  lemma SelectionOrder(catalog: Catalog, requested: Selected, main: Selected)
    ensures AllHaveFreeWay(catalog, requested, main) ==> SelectionSameForEveryOrder(catalog, requested, main)
    ensures AtMostTwoChannels(requested) ==>
              (SelectionSameForEveryOrder(catalog, requested, main) <==> AllHaveFreeWay(catalog, requested, main))
    ensures NoConflict(catalog, requested, main) ==> AllHaveFreeWay(catalog, requested, main)
    ensures UnrequestedConflict(catalog, requested, main) ==> !SelectionSameForEveryOrder(catalog, requested, main)
  {
    if AllHaveFreeWay(catalog, requested, main) {
      FreeWaysGiveSame(catalog, requested, main);
    } else if AtMostTwoChannels(requested) {
      var a, id :| a in requested && id !in requested && OriginReach(catalog, requested[a], main, id)
                   && !HasFreeWay(catalog, requested, main, a, id);
      NoFreeWayShows(catalog, requested, main, a, id);
    }
    if NoConflict(catalog, requested, main) {
      NoConflictLeavesFreeWays(catalog, requested, main);
    }
    if UnrequestedConflict(catalog, requested, main) {
      UnrequestedConflictShows(catalog, requested, main);
    }
  }

  // ----- Examples -----

  /** Two modules that need `x`, from two sources. */
  function Needs(id: string, source: string): Wrapper {
    Wrapper(Mod(id, "1", {"x"}, map[]), source, "c")
  }

  function TwoSources(): Selected {
    map["r1" := Needs("r1", "s1"), "r2" := Needs("r2", "s2")]
  }

  function X(version: string): Mod {
    Mod("x", version, {}, map[])
  }

  /** What the first source has for `x`; the second one offers version 2. */
  function Offers(first: Option<Mod>): Catalog {
    map[Key("x", "s1", "c") := first, Key("x", "s2", "c") := Some(X("2"))]
  }

  lemma DeliversDirectly(catalog: Catalog, wrapper: Wrapper, main: Selected, d: string)
    requires wrapper.mod.dependencies == {d} && d !in main
    requires Available(catalog, wrapper.source, wrapper.channel, d)
    ensures OriginReach(catalog, wrapper, main, d)
  {
    FreshReachStep(catalog, wrapper.source, wrapper.channel, main.Keys, {d}, d);
  }

  lemma FirstStep(catalog: Catalog, source: string, channel: string, avoid: set<string>, path: seq<string>)
    requires FreshPath(catalog, source, channel, avoid, path) && |path| > 1
    ensures path[1] in Variant(catalog, source, channel, path[0]).mod.dependencies
  {
  }

  lemma OneStepUnblocked(catalog: Catalog, wrapper: Wrapper, main: Selected, d: string)
    requires wrapper.mod.dependencies == {d} && Available(catalog, wrapper.source, wrapper.channel, d)
    requires FromChannelOf(catalog, wrapper, d).mod.dependencies == {}
    ensures !OriginBlocked(catalog, wrapper, main.Keys)
  {
    forall id | FreshReach(catalog, wrapper.source, wrapper.channel, main.Keys, {d}, id) ensures id == d {
      var path :| FreshPath(catalog, wrapper.source, wrapper.channel, main.Keys, path) && path[0] in {d}
                  && path[|path| - 1] == id;
      if |path| > 1 {
        FirstStep(catalog, wrapper.source, wrapper.channel, main.Keys, path);
      }
    }
  }

  lemma NothingLeft(catalog: Catalog, wrapper: Wrapper, there: set<string>)
    requires wrapper.mod.dependencies <= there
    ensures !OriginBlocked(catalog, wrapper, there)
  {
  }

  lemma TwoSourcesAre()
    ensures TwoSources().Keys == {"r1", "r2"}
    ensures TwoSources()["r1"] == Needs("r1", "s1") && TwoSources()["r2"] == Needs("r2", "s2")
    ensures !SameChannel(Needs("r1", "s1"), Needs("r2", "s2")) && "x" !in TwoSources()
  {
  }

  lemma OffersAre(first: Option<Mod>)
    ensures Available(Offers(first), "s2", "c", "x")
    ensures Variant(Offers(first), "s2", "c", "x") == Wrapper(X("2"), "s2", "c")
    ensures if first.Some? then Available(Offers(first), "s1", "c", "x")
                                && Variant(Offers(first), "s1", "c", "x") == Wrapper(first.value, "s1", "c")
            else !Available(Offers(first), "s1", "c", "x") && Key("x", "s1", "c") in Offers(first)
  {
  }

  lemma TwoDeliverers(catalog: Catalog, requested: Selected, main: Selected, a: string, b: string, id: string)
    requires a in requested && b in requested && !SameChannel(requested[a], requested[b]) && id !in requested
    requires OriginReach(catalog, requested[a], main, id) && OriginReach(catalog, requested[b], main, id)
    ensures !SameForEveryOrder(catalog, requested, main) && !SelectionSameForEveryOrder(catalog, requested, main)
  {
    OrderIndependentIff(catalog, requested, main);
    assert UnrequestedConflict(catalog, requested, main);
    SelectionOrder(catalog, requested, main);
  }

  /** Both sources offer `x`, the main channel does not: every order succeeds, and the version of `x`
      depends on the order. */
  lemma OrderDecidesVersion()
    ensures NoneBlocked(Offers(Some(X("1"))), TwoSources(), map[])
    ensures !SameForEveryOrder(Offers(Some(X("1"))), TwoSources(), map[])
    ensures !SelectionSameForEveryOrder(Offers(Some(X("1"))), TwoSources(), map[])
  {
    var catalog, requested, main: Selected := Offers(Some(X("1"))), TwoSources(), map[];
    TwoSourcesAre();
    OffersAre(Some(X("1")));
    forall w | w in requested ensures !OriginBlocked(catalog, requested[w], main.Keys) {
      OneStepUnblocked(catalog, requested[w], main, "x");
    }
    DeliversDirectly(catalog, Needs("r1", "s1"), map[], "x");
    DeliversDirectly(catalog, Needs("r2", "s2"), map[], "x");
    TwoDeliverers(catalog, requested, map[], "r1", "r2", "x");
  }

  lemma DirectlyBlocked(catalog: Catalog, wrapper: Wrapper, main: Selected, d: string)
    requires wrapper.mod.dependencies == {d} && d !in main
    requires !Available(catalog, wrapper.source, wrapper.channel, d)
    ensures OriginBlocked(catalog, wrapper, main.Keys)
  {
    assert Blocks(catalog, wrapper.source, wrapper.channel, false, main.Keys, {d}, d);
  }

  lemma FailsAtOnce(catalog: Catalog, requested: Selected, main: Selected, order: seq<string>)
    requires IsOrder(requested, order) && order != [] && order[0] in requested
    requires OriginBlocked(catalog, requested[order[0]], main.Keys)
    ensures !SucceedsIn(catalog, requested, main, order)
  {
    OrderIsKnown(requested, order);
    PassOfOne(catalog, requested, main, order);
    if Succeeds(catalog, requested, main, order) {
      SucceedsPrefix(catalog, requested, main, order, 1);
    }
  }

  lemma SucceedsOfTwo(catalog: Catalog, requested: Selected, main: Selected, order: seq<string>)
    requires Known(requested, order) && |order| == 2 && Known(requested, order[..1]) && order[1] in requested
    requires Succeeds(catalog, requested, main, order[..1])
    requires !OriginBlocked(catalog, requested[order[1]], Pass(catalog, requested, main, order[..1]).Keys)
    ensures Succeeds(catalog, requested, main, order)
  {
  }

  lemma SecondIsServed(catalog: Catalog, requested: Selected, main: Selected, order: seq<string>, id: string)
    requires IsOrder(requested, order) && |order| == 2 && order[0] in requested && order[1] in requested
    requires OriginReach(catalog, requested[order[0]], main, id)
    requires !OriginBlocked(catalog, requested[order[0]], main.Keys)
    requires requested[order[1]].mod.dependencies == {id}
    ensures SucceedsIn(catalog, requested, main, order)
  {
    OrderIsKnown(requested, order);
    PassOfOne(catalog, requested, main, order);
    var w := requested[order[0]];
    var after := WalkFor(catalog, w, main);
    assert id in after.Keys by {
      WalkHas(catalog, w.source, w.channel, main, w.mod.dependencies);
    }
    NothingLeft(catalog, requested[order[1]], after.Keys);
    SucceedsOfTwo(catalog, requested, main, order);
  }

  /** The first source has `x` but cannot read it: the pass succeeds if the second source comes first,
      and fails otherwise. */
  lemma OrderDecidesSuccess()
    ensures IsOrder(TwoSources(), ["r1", "r2"]) && !SucceedsIn(Offers(None), TwoSources(), map[], ["r1", "r2"])
    ensures IsOrder(TwoSources(), ["r2", "r1"]) && SucceedsIn(Offers(None), TwoSources(), map[], ["r2", "r1"])
  {
    var catalog, requested := Offers(None), TwoSources();
    TwoSourcesAre();
    OffersAre(None);
    assert Elements(["r1", "r2"]) == {"r1", "r2"} && Elements(["r2", "r1"]) == {"r1", "r2"};
    DirectlyBlocked(catalog, Needs("r1", "s1"), map[], "x");
    FailsAtOnce(catalog, requested, map[], ["r1", "r2"]);
    DeliversDirectly(catalog, Needs("r2", "s2"), map[], "x");
    OneStepUnblocked(catalog, Needs("r2", "s2"), map[], "x");
    SecondIsServed(catalog, requested, map[], ["r2", "r1"], "x");
  }

  lemma {:induction false} OnlyOffersAreAdded(catalog: Catalog, requested: Selected, order: seq<string>, only: string)
    requires Known(requested, order) && forall key | key in catalog :: key.id == only
    ensures forall id | id in Pass(catalog, requested, map[], order) :: id == only
  {
    if order != [] {
      OnlyOffersAreAdded(catalog, requested, order[..|order| - 1], only);
    }
  }

  /** A conflict about a requested id need not show in the selection: whichever source delivers `x`,
      the requested `x` replaces it. */
  lemma RequestedConflictNeedNotShow()
    ensures var requested := TwoSources()["x" := Wrapper(X("3"), "s3", "c")];
            && !NoConflict(Offers(Some(X("1"))), requested, map[])
            && SelectionSameForEveryOrder(Offers(Some(X("1"))), requested, map[])
  {
    var catalog, requested := Offers(Some(X("1"))), TwoSources()["x" := Wrapper(X("3"), "s3", "c")];
    TwoSourcesAre();
    OffersAre(Some(X("1")));
    assert requested["r1"] == Needs("r1", "s1") && requested["r2"] == Needs("r2", "s2");
    DeliversDirectly(catalog, Needs("r1", "s1"), map[], "x");
    DeliversDirectly(catalog, Needs("r2", "s2"), map[], "x");
    forall o | IsOrder(requested, o) ensures PassIn(catalog, requested, map[], o) + requested == requested {
      OrderIsKnown(requested, o);
      OnlyOffersAreAdded(catalog, requested, o, "x");
    }
  }

  /** `r1` takes `x` from the first source. The `x` of the second source, which `r2` would take, also brings
      `y` and needs `z`, which is unreadable; `r3` needs `y`, which its own source cannot read. */
  function Thwarting(): Catalog {
    map[Key("x", "s1", "c") := Some(X("1")),
        Key("x", "s2", "c") := Some(Mod("x", "2", {"y", "z"}, map[])),
        Key("y", "s2", "c") := Some(Mod("y", "2", {}, map[])),
        Key("z", "s2", "c") := None,
        Key("y", "s3", "c") := None]
  }

  function Three(): Selected {
    map["r1" := Needs("r1", "s1"), "r2" := Needs("r2", "s2"),
        "r3" := Wrapper(Mod("r3", "1", {"y"}, map[]), "s3", "c")]
  }

  lemma ThreeAre()
    ensures Three().Keys == {"r1", "r2", "r3"}
    ensures Three()["r1"] == Needs("r1", "s1") && Three()["r2"] == Needs("r2", "s2")
    ensures Three()["r3"].mod.dependencies == {"y"} && Three()["r3"].source == "s3" && Three()["r3"].channel == "c"
  {
  }

  lemma ThwartingHas()
    ensures Available(Thwarting(), "s1", "c", "x")
    ensures Variant(Thwarting(), "s1", "c", "x").mod.dependencies == {}
    ensures Available(Thwarting(), "s2", "c", "x")
    ensures Variant(Thwarting(), "s2", "c", "x").mod.dependencies == {"y", "z"}
    ensures Available(Thwarting(), "s2", "c", "y") && !Available(Thwarting(), "s2", "c", "z")
    ensures !Available(Thwarting(), "s3", "c", "y")
  {
  }

  lemma SecondNeedsZ()
    ensures OriginBlocked(Thwarting(), Needs("r2", "s2"), {})
    ensures OriginReach(Thwarting(), Needs("r2", "s2"), map[], "y")
  {
    ThwartingHas();
    var catalog := Thwarting();
    FreshReachStep(catalog, "s2", "c", {}, {"x"}, "x");
    FreshReachExtends(catalog, "s2", "c", {}, {"x"}, "x", "y");
    assert Blocks(catalog, "s2", "c", false, {}, {"x"}, "z");
  }

  lemma NothingNew(catalog: Catalog, wrapper: Wrapper, before: Selected)
    requires wrapper.mod.dependencies <= before.Keys
    ensures WalkFor(catalog, wrapper, before) == before
  {
    WalkHas(catalog, wrapper.source, wrapper.channel, before, wrapper.mod.dependencies);
    forall path | FreshPath(catalog, wrapper.source, wrapper.channel, before.Keys, path)
      ensures path[0] !in wrapper.mod.dependencies
    {
      assert path[0] !in before.Keys;
    }
  }

  lemma OnlyOne(catalog: Catalog, wrapper: Wrapper, before: Selected, d: string)
    requires wrapper.mod.dependencies == {d} && d !in before
    requires forall id :: Available(catalog, wrapper.source, wrapper.channel, id) <==> id == d
    ensures WalkFor(catalog, wrapper, before).Keys == before.Keys + {d}
  {
    var s, c := wrapper.source, wrapper.channel;
    WalkHas(catalog, s, c, before, {d});
    FreshReachStep(catalog, s, c, before.Keys, {d}, d);
    forall id | FreshReach(catalog, s, c, before.Keys, {d}, id) ensures id == d {
      FreshReachAvoids(catalog, s, c, before.Keys, {d}, id);
    }
  }

  lemma FirstHasOnlyX()
    ensures forall id :: Available(Thwarting(), "s1", "c", id) <==> id == "x"
  {
  }

  lemma FirstBringsX(before: Selected)
    requires before.Keys <= {"x"}
    ensures WalkFor(Thwarting(), Needs("r1", "s1"), before).Keys == {"x"}
  {
    FirstHasOnlyX();
    if "x" in before {
      NothingNew(Thwarting(), Needs("r1", "s1"), before);
    } else {
      OnlyOne(Thwarting(), Needs("r1", "s1"), before, "x");
    }
  }

  lemma VisitOfThree(before: Selected, w: string)
    requires before.Keys <= {"x"} && w in Three() && !OriginBlocked(Thwarting(), Three()[w], before.Keys)
    ensures w != "r3" && WalkFor(Thwarting(), Three()[w], before).Keys == {"x"}
  {
    ThreeAre();
    if w == "r1" {
      FirstBringsX(before);
    } else if w == "r2" {
      SecondNeedsZ();
      assert before.Keys != {};
      assert "x" in before.Keys;
      NothingNew(Thwarting(), Needs("r2", "s2"), before);
    } else {
      ThwartingHas();
      DirectlyBlocked(Thwarting(), Three()["r3"], before, "y");
    }
  }

  ghost predicate VisitStaysWithin(catalog: Catalog, requested: Selected, before: Selected, w: string,
                                   bound: set<string>, never: string)
    requires w in requested
  {
    before.Keys <= bound && !OriginBlocked(catalog, requested[w], before.Keys) ==>
    w != never && WalkFor(catalog, requested[w], before).Keys <= bound
  }

  lemma {:induction false} PassStaysWithin(catalog: Catalog, requested: Selected, main: Selected, order: seq<string>,
                                           bound: set<string>, never: string)
    requires Known(requested, order) && Succeeds(catalog, requested, main, order) && main.Keys <= bound
    requires forall before, w | w in requested :: VisitStaysWithin(catalog, requested, before, w, bound, never)
    ensures never !in order && Pass(catalog, requested, main, order).Keys <= bound
  {
    if order != [] {
      var n := |order| - 1;
      PassStaysWithin(catalog, requested, main, order[..n], bound, never);
      assert VisitStaysWithin(catalog, requested, Pass(catalog, requested, main, order[..n]), order[n], bound, never);
      assert order == order[..n] + [order[n]];
    }
  }

  /** After `r1`, the second module finds its `x` there, brings nothing, and `r3` fails. */
  lemma OnlyXIsThere(order: seq<string>)
    requires Known(Three(), order) && Succeeds(Thwarting(), Three(), map[], order)
    ensures "r3" !in order
  {
    forall before, w | w in Three() ensures VisitStaysWithin(Thwarting(), Three(), before, w, {"x"}, "r3") {
      if before.Keys <= {"x"} && !OriginBlocked(Thwarting(), Three()[w], before.Keys) {
        VisitOfThree(before, w);
      }
    }
    PassStaysWithin(Thwarting(), Three(), map[], order, {"x"}, "r3");
  }

  lemma NobodyHoldsUp(group: set<string>)
    ensures !HoldEachOtherUp(Thwarting(), Three(), map[], group)
  {
    ThreeAre();
    ThwartingHas();
    var catalog, requested, main: Selected := Thwarting(), Three(), map[];
    var others := requested.Keys - group;
    if HoldEachOtherUp(catalog, requested, main, group) {
      if "r1" in group {
        OneStepUnblocked(catalog, Needs("r1", "s1"), map[], "x");
        BlockedPart(catalog, "s1", "c", false, main.Keys + Brought(catalog, requested, main, others), {"x"},
                    main.Keys, {"x"});
      } else if "r2" in group {
        DeliversDirectly(catalog, Needs("r1", "s1"), map[], "x");
        BroughtIs(catalog, requested, main, others, "x");
        NothingLeft(catalog, Needs("r2", "s2"), main.Keys + Brought(catalog, requested, main, others));
      } else {
        assert "r3" in group;
        SecondNeedsZ();
        BroughtIs(catalog, requested, main, others, "y");
        NothingLeft(catalog, requested["r3"], main.Keys + Brought(catalog, requested, main, others));
      }
    }
  }

  /** With competition every order can fail although no modules hold each other up: what helps one of
      them keeps another from being helped. */
  lemma CompetitionThwarts()
    ensures EveryOrderFails(Thwarting(), Three(), map[]) && !SomeHoldEachOtherUp(Thwarting(), Three(), map[])
  {
    forall o | IsOrder(Three(), o) ensures !SucceedsIn(Thwarting(), Three(), map[], o) {
      OrderIsKnown(Three(), o);
      ThreeAre();
      assert "r3" in Elements(o);
      if Succeeds(Thwarting(), Three(), map[], o) {
        OnlyXIsThere(o);
      }
    }
    forall group ensures !HoldEachOtherUp(Thwarting(), Three(), map[], group) {
      NobodyHoldsUp(group);
    }
  }
}
