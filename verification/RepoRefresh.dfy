/** Which repositories are accepted, when they are initialised and when they are refreshed
    (pkg/components/handler/repositories/handler.go, with github/repository.go and
    host_dir/handler.go for what a refresh does). */
module RepoRefresh {
  import opened NestedMaps
  import opened Prelude
  import opened RepoIndex
  import opened Slices

  /** The repositories of each type; None if they cannot be listed. */
  type Handlers = map<string, Option<Repositories>>

  ghost predicate Offered(handlers: Handlers, t: string, source: string) {
    t in handlers && handlers[t].Some? && source in handlers[t].value
  }

  ghost predicate NoSharedSource(handlers: Handlers, t: string, u: string) {
    forall source :: !(Offered(handlers, t, source) && Offered(handlers, u, source))
  }

  ghost predicate DistinctSources(handlers: Handlers) {
    forall t, u | t in handlers && u in handlers && t != u :: NoSharedSource(handlers, t, u)
  }

  ghost predicate DistinctPriorities(accepted: Repositories) {
    forall a, b | a in accepted && b in accepted && accepted[a].priority == accepted[b].priority :: a == b
  }

  // ----- Initialising -----

  ghost predicate NoErrors(handlers: Handlers, types: set<string>) {
    && (forall t | t in types :: t in handlers && handlers[t].Some?)
    && (forall t, u | t in types && u in types && t != u :: NoSharedSource(handlers, t, u))
  }

  ghost function Sources(handlers: Handlers, types: set<string>): set<string> {
    set t, source | t in types && t in handlers && handlers[t].Some? && source in handlers[t].value :: source
  }

  lemma NoErrorsOneMore(handlers: Handlers, types: set<string>, t: string)
    requires t in handlers && t !in types
    ensures NoErrors(handlers, types + {t}) <==>
              NoErrors(handlers, types) && handlers[t].Some? && Sources(handlers, types) !! handlers[t].value.Keys
  {
    if NoErrors(handlers, types + {t}) {
      forall source | source in Sources(handlers, types) ensures source !in handlers[t].value {
        var u :| u in types && u in handlers && handlers[u].Some? && source in handlers[u].value;
        assert NoSharedSource(handlers, u, t);
        assert Offered(handlers, u, source);
      }
      assert forall u | u in types :: u in types + {t};
    }
    if NoErrors(handlers, types) && handlers[t].Some? && Sources(handlers, types) !! handlers[t].value.Keys {
      forall u | u in types ensures NoSharedSource(handlers, t, u) && NoSharedSource(handlers, u, t) {
        forall source | Offered(handlers, u, source) ensures !Offered(handlers, t, source) {
          assert source in Sources(handlers, types);
        }
      }
    }
  }

  /** The types one after the other: a source that is there already is not taken again. */
  ghost function MergedBy(handlers: Handlers, order: seq<string>): Repositories {
    if order == [] then map[]
    else
      var before, t := MergedBy(handlers, order[..|order| - 1]), order[|order| - 1];
      if t in handlers && handlers[t].Some? then handlers[t].value + before else before
  }

  lemma MergedOneMore(handlers: Handlers, order: seq<string>, t: string)
    requires t in handlers
    ensures MergedBy(handlers, order + [t]) ==
            if handlers[t].Some? then handlers[t].value + MergedBy(handlers, order) else MergedBy(handlers, order)
  {
    assert (order + [t])[..|order|] == order;
  }

  lemma {:induction false} MergedSources(handlers: Handlers, order: seq<string>)
    ensures MergedBy(handlers, order).Keys == Sources(handlers, Elements(order))
  {
    if order != [] {
      var front, t := order[..|order| - 1], order[|order| - 1];
      MergedSources(handlers, front);
      assert order == front + [t];
      ElementsOneMore(front, t);
    } else {
      var none: Repositories := map[];
      assert none.Keys == {};
    }
  }

  /** The first type in the order that offers the source. */
  ghost predicate FirstToOffer(handlers: Handlers, order: seq<string>, i: nat, source: string) {
    i < |order| && Offered(handlers, order[i], source) && forall j | 0 <= j < i :: !Offered(handlers, order[j], source)
  }

  lemma {:induction false} FirstIsTaken(handlers: Handlers, order: seq<string>, i: nat, source: string)
    requires FirstToOffer(handlers, order, i, source)
    ensures source in MergedBy(handlers, order)
    ensures MergedBy(handlers, order)[source] == handlers[order[i]].value[source]
  {
    var front, t := order[..|order| - 1], order[|order| - 1];
    if i < |front| {
      assert FirstToOffer(handlers, front, i, source);
      FirstIsTaken(handlers, front, i, source);
    } else {
      MergedSources(handlers, front);
      assert source !in MergedBy(handlers, front);
    }
  }

  lemma {:induction false} TakenFromFirst(handlers: Handlers, order: seq<string>, source: string) returns (i: nat)
    requires source in MergedBy(handlers, order)
    ensures FirstToOffer(handlers, order, i, source)
  {
    var front, t := order[..|order| - 1], order[|order| - 1];
    if source in MergedBy(handlers, front) {
      i := TakenFromFirst(handlers, front, source);
    } else {
      i := |front|;
      forall j | 0 <= j < i ensures !Offered(handlers, order[j], source) {
        assert front[j] == order[j] && front[j] in Elements(front);
        MergedSources(handlers, front);
      }
    }
  }

  /** Two repositories that are never accepted together: each of their types offers the other's
      source, so whichever type comes first keeps out the other repository. */
  ghost predicate KeepEachOtherOut(handlers: Handlers, t: string, a: string, u: string, b: string) {
    t != u && Offered(handlers, t, b) && Offered(handlers, u, a)
  }

  /** An order in which both are accepted. */
  lemma OrderForBoth(handlers: Handlers, t: string, a: string, u: string, b: string) returns (order: seq<string>)
    requires Offered(handlers, t, a) && Offered(handlers, u, b) && a != b && !KeepEachOtherOut(handlers, t, a, u, b)
    requires handlers[t].value[a].priority == handlers[u].value[b].priority
    ensures IsOrderOf(handlers.Keys, order) && !DistinctPriorities(MergedBy(handlers, order))
  {
    if t == u {
      order := OrderFrom(handlers.Keys, [t]);
      FirstIsTaken(handlers, order, 0, a);
      FirstIsTaken(handlers, order, 0, b);
    } else if !Offered(handlers, t, b) {
      order := OrderFrom(handlers.Keys, [t, u]);
      FirstIsTaken(handlers, order, 0, a);
      FirstIsTaken(handlers, order, 1, b);
    } else {
      order := OrderFrom(handlers.Keys, [u, t]);
      FirstIsTaken(handlers, order, 0, b);
      FirstIsTaken(handlers, order, 1, a);
    }
  }

  lemma SamePriorityInOrder(handlers: Handlers, order: seq<string>)
    requires IsOrderOf(handlers.Keys, order) && !DistinctPriorities(MergedBy(handlers, order))
    ensures exists t, u, a, b ::
              && Offered(handlers, t, a) && Offered(handlers, u, b) && a != b
              && handlers[t].value[a].priority == handlers[u].value[b].priority
              && !KeepEachOtherOut(handlers, t, a, u, b)
  {
    var accepted := MergedBy(handlers, order);
    var a, b :| a in accepted && b in accepted && accepted[a].priority == accepted[b].priority && a != b;
    var i := TakenFromFirst(handlers, order, a);
    var j := TakenFromFirst(handlers, order, b);
    FirstIsTaken(handlers, order, i, a);
    FirstIsTaken(handlers, order, j, b);
    assert !KeepEachOtherOut(handlers, order[i], a, order[j], b);
  }

  /** Init records no priorities, so the accepted ones have distinct priorities in every order of the
      types if and only if repositories with the same priority keep each other out. */
  lemma InitKeepsPriorities(handlers: Handlers)
    ensures (forall order | IsOrderOf(handlers.Keys, order) :: DistinctPriorities(MergedBy(handlers, order))) <==>
              forall t, u, a, b | Offered(handlers, t, a) && Offered(handlers, u, b) && a != b
                                  && handlers[t].value[a].priority == handlers[u].value[b].priority ::
                KeepEachOtherOut(handlers, t, a, u, b)
  {
    if forall order | IsOrderOf(handlers.Keys, order) :: DistinctPriorities(MergedBy(handlers, order)) {
      forall t, u, a, b | Offered(handlers, t, a) && Offered(handlers, u, b) && a != b
                          && handlers[t].value[a].priority == handlers[u].value[b].priority
        ensures KeepEachOtherOut(handlers, t, a, u, b)
      {
        if !KeepEachOtherOut(handlers, t, a, u, b) {
          var order := OrderForBoth(handlers, t, a, u, b);
        }
      }
    } else {
      var order :| IsOrderOf(handlers.Keys, order) && !DistinctPriorities(MergedBy(handlers, order));
      SamePriorityInOrder(handlers, order);
    }
  }

  /** Two types with one repository each and the same priority: Init accepts both. */
  lemma InitAcceptsEqualPriorities(t: string, a: string, u: string, b: string, p: Repository, q: Repository)
    requires t != u && a != b && p.priority == q.priority
    ensures var handlers: Handlers := map[t := Some(map[a := p]), u := Some(map[b := q])];
            && IsOrderOf(handlers.Keys, [t, u]) && DistinctSources(handlers)
            && !DistinctPriorities(MergedBy(handlers, [t, u]))
  {
    var handlers: Handlers := map[t := Some(map[a := p]), u := Some(map[b := q])];
    assert FirstToOffer(handlers, [t, u], 0, a) && FirstToOffer(handlers, [t, u], 1, b);
    FirstIsTaken(handlers, [t, u], 0, a);
    FirstIsTaken(handlers, [t, u], 1, b);
  }

  lemma MergeOneMore(repos: Repositories, repositories: Repositories, more: Repositories, todo: set<string>,
                     source: string)
    requires todo <= repos.Keys && source in todo && more == (repos - todo) + repositories
    ensures (if source in more then more else more[source := repos[source]]) ==
              (repos - (todo - {source})) + repositories
    ensures source in more <==> source in repositories
  {
  }

  /** The repositories of one more type. */
  method Merge(repos: Repositories, repositories: Repositories) returns (more: Repositories, collision: bool)
    ensures more == repos + repositories
    ensures collision <==> !(repositories.Keys !! repos.Keys)
  {
    more, collision := repositories, false;
    var todo := repos.Keys;
    assert repos - todo + repositories == repositories;
    while todo != {}
      invariant todo <= repos.Keys && more == (repos - todo) + repositories
      invariant collision <==> !((repos.Keys - todo) !! repositories.Keys)
    {
      var source :| source in todo;
      MergeOneMore(repos, repositories, more, todo, source);
      DoneOneMore(repos.Keys, todo, source);
      todo := todo - {source};
      if source in more {
        collision := true;
      } else {
        more := more[source := repos[source]];
      }
    }
    assert repos - todo == repos && repos.Keys - todo == repos.Keys;
  }

  // ----- Refreshing -----

  datatype Error = NoError | SourceCollision | PriorityCollision | RefreshFailed | ChannelErrors(count: nat)

  datatype Result = Result(repoType: string, source: string, refresh: bool, error: Error)

  datatype RefreshFilter = RefreshFilter(types: seq<string>, sources: seq<string>)

  predicate WantsRefresh(filter: RefreshFilter, repo: Repository, source: string) {
    (filter.types == [] && filter.sources == []) || repo.repoType in filter.types || source in filter.sources
  }

  /** A refresh brings other files, nothing else. */
  ghost predicate SameShape(before: Repository, after: Repository) {
    && after.repoType == before.repoType && after.priority == before.priority
    && after.invalid == before.invalid && after.latest == before.latest
    && |after.channels| == |before.channels|
    && forall i | 0 <= i < |before.channels| :: after.channels[i].name == before.channels[i].name
  }

  /** The channels have what the source has by now. */
  ghost predicate IsFetched(before: Repository, after: Repository) {
    && SameShape(before, after)
    && forall i | 0 <= i < |before.channels| ::
         after.channels[i].files == if before.latest.None? then before.channels[i].files
                                    else if i < |before.latest.value| then before.latest.value[i] else None
  }

  /** One repository of one type. */
  datatype Offer = Offer(repoType: string, source: string)

  ghost function AllOffers(handlers: Handlers, types: set<string>): set<Offer> {
    set t, source | t in types && t in handlers && handlers[t].Some? && source in handlers[t].value :: Offer(t, source)
  }

  ghost function OffersOf(repos: Repositories, t: string, sources: set<string>): set<Offer> {
    set source | source in repos && source in sources :: Offer(t, source)
  }

  ghost predicate IsOffered(handlers: Handlers, o: Offer) {
    Offered(handlers, o.repoType, o.source)
  }

  ghost function RepositoryOf(handlers: Handlers, o: Offer): Repository
    requires IsOffered(handlers, o)
  {
    handlers[o.repoType].value[o.source]
  }

  function PrioritiesOf(repositories: Repositories): set<int> {
    set source | source in repositories :: repositories[source].priority
  }

  lemma PrioritiesOneMore(repositories: Repositories, source: string, repo: Repository)
    requires source !in repositories
    ensures PrioritiesOf(repositories[source := repo]) == PrioritiesOf(repositories) + {repo.priority}
  {
    var more := repositories[source := repo];
    assert more[source] == repo;
    assert forall s | s in repositories :: more[s] == repositories[s];
  }

  ghost predicate IsAccepted(o: Offer, from: map<string, string>) {
    o.source in from && from[o.source] == o.repoType
  }

  /** Accepted, or in the way of something that is. */
  ghost predicate Settled(handlers: Handlers, o: Offer, accepted: Repositories, from: map<string, string>)
    requires IsOffered(handlers, o)
  {
    IsAccepted(o, from) || o.source in accepted || RepositoryOf(handlers, o).priority in PrioritiesOf(accepted)
  }

  ghost predicate Kept(filter: RefreshFilter, source: string, before: Repository, after: Repository) {
    SameShape(before, after) && (!WantsRefresh(filter, before, source) ==> after == before)
  }

  /** What was decided so far: `accepted` has the repositories as they are after their refresh. */
  ghost predicate Accepts(handlers: Handlers, filter: RefreshFilter, done: set<Offer>, accepted: Repositories,
                          from: map<string, string>) {
    && accepted.Keys == from.Keys
    && (forall source | source in accepted ::
          && Offer(from[source], source) in done && Offered(handlers, from[source], source)
          && Kept(filter, source, handlers[from[source]].value[source], accepted[source]))
    && DistinctPriorities(accepted)
    && (forall o | o in done :: IsOffered(handlers, o) && Settled(handlers, o, accepted, from))
  }

  /** An accepted repository tells whether it was refreshed; if that failed, it is as it was. Any other
      repository was not refreshed and has an error. */
  ghost predicate Honest(handlers: Handlers, filter: RefreshFilter, reliable: bool, accepted: Repositories,
                         from: map<string, string>, r: Result)
    requires accepted.Keys == from.Keys && Offered(handlers, r.repoType, r.source)
  {
    var before := handlers[r.repoType].value[r.source];
    if IsAccepted(Offer(r.repoType, r.source), from) then
      && r.refresh == WantsRefresh(filter, before, r.source)
      && !r.error.SourceCollision? && !r.error.PriorityCollision?
      && (r.error.RefreshFailed? ==> r.refresh && (!reliable || before.invalid) && accepted[r.source] == before)
      && (r.refresh && before.invalid ==> r.error != NoError)
      && (r.refresh && r.error == NoError ==> IsFetched(before, accepted[r.source]))
    else !r.refresh && r.error != NoError && r.error != RefreshFailed
  }

  /** The accepted ones that should have been refreshed, and could have been, but were not. */
  ghost function NotFetched(handlers: Handlers, filter: RefreshFilter, accepted: Repositories,
                            from: map<string, string>): set<string> {
    set source | source in accepted && source in from && Offered(handlers, from[source], source)
                 && WantsRefresh(filter, handlers[from[source]].value[source], source)
                 && !handlers[from[source]].value[source].invalid
                 && !IsFetched(handlers[from[source]].value[source], accepted[source])
  }

  ghost predicate AtMost(handlers: Handlers, filter: RefreshFilter, accepted: Repositories, from: map<string, string>,
                         n: nat) {
    |NotFetched(handlers, filter, accepted, from)| <= n
  }

  ghost predicate FewLeft(handlers: Handlers, filter: RefreshFilter, accepted: Repositories, from: map<string, string>,
                          n: nat) {
    exists m :: m == n && AtMost(handlers, filter, accepted, from, m)
  }

  lemma NotFetchedOneMore(handlers: Handlers, filter: RefreshFilter, accepted: Repositories, from: map<string, string>,
                          t: string, source: string, after: Repository, n: nat, failures: nat)
    requires FewLeft(handlers, filter, accepted, from, n)
    requires accepted.Keys == from.Keys && source !in accepted && Offered(handlers, t, source)
    requires failures > 0 || !WantsRefresh(filter, handlers[t].value[source], source)
             || handlers[t].value[source].invalid || IsFetched(handlers[t].value[source], after)
    ensures FewLeft(handlers, filter, accepted[source := after], from[source := t], n + failures)
  {
    var more := NotFetched(handlers, filter, accepted[source := after], from[source := t]);
    var less := NotFetched(handlers, filter, accepted, from);
    if failures == 0 {
      assert more <= less;
      SubsetCardinality(more, less);
    } else {
      assert more <= less + {source};
      SubsetCardinality(more, less + {source});
    }
    assert AtMost(handlers, filter, accepted[source := after], from[source := t], n + failures);
  }

  ghost predicate HasResult(results: seq<Result>, o: Offer) {
    exists r :: r in results && r.repoType == o.repoType && r.source == o.source
  }

  /** Every repository has one result. */
  ghost predicate Reported(handlers: Handlers, filter: RefreshFilter, reliable: bool, done: set<Offer>,
                           accepted: Repositories, from: map<string, string>, results: seq<Result>)
    requires accepted.Keys == from.Keys
  {
    && |results| == |done|
    && (forall r | r in results ::
          && Offer(r.repoType, r.source) in done && Offered(handlers, r.repoType, r.source)
          && Honest(handlers, filter, reliable, accepted, from, r))
    && (forall o | o in done :: HasResult(results, o))
  }

  ghost predicate AcceptsAll(handlers: Handlers, filter: RefreshFilter, done: set<Offer>, accepted: Repositories,
                             from: map<string, string>) {
    exists d :: d == done && Accepts(handlers, filter, d, accepted, from)
  }

  ghost predicate ReportsAll(handlers: Handlers, filter: RefreshFilter, reliable: bool, done: set<Offer>,
                             accepted: Repositories, from: map<string, string>, results: seq<Result>)
    requires accepted.Keys == from.Keys
  {
    exists d :: d == done && Reported(handlers, filter, reliable, d, accepted, from, results)
  }

  /** Both, before the channels are read. */
  ghost predicate Decided(handlers: Handlers, filter: RefreshFilter, reliable: bool, done: set<Offer>,
                          accepted: Repositories, from: map<string, string>, results: seq<Result>) {
    && accepted.Keys == from.Keys
    && AcceptsAll(handlers, filter, done, accepted, from)
    && ReportsAll(handlers, filter, reliable, done, accepted, from, results)
    && forall r | r in results :: !r.error.ChannelErrors?
  }

  lemma NothingDecided(handlers: Handlers, filter: RefreshFilter, reliable: bool)
    ensures Decided(handlers, filter, reliable, {}, map[], map[], [])
  {
    var none: Repositories, nobody: map<string, string> := map[], map[];
    assert none.Keys == {} && nobody.Keys == {};
    assert Accepts(handlers, filter, {}, none, nobody);
    assert Reported(handlers, filter, reliable, {}, none, nobody, []);
  }

  lemma ResultsOneMore(results: seq<Result>, r: Result, o: Offer)
    ensures HasResult(results + [r], o) <==> HasResult(results, o) || o == Offer(r.repoType, r.source)
  {
    assert r in results + [r];
    assert forall x :: x in results + [r] <==> x in results || x == r;
  }

  lemma ReportedOneMore(handlers: Handlers, filter: RefreshFilter, reliable: bool, done: set<Offer>,
                        accepted: Repositories, from: map<string, string>, results: seq<Result>, o: Offer, r: Result,
                        accepted': Repositories, from': map<string, string>)
    requires accepted.Keys == from.Keys && accepted'.Keys == from'.Keys
    requires ReportsAll(handlers, filter, reliable, done, accepted, from, results) && o !in done
    requires forall x | x in results :: Honest(handlers, filter, reliable, accepted', from', x)
    requires Offered(handlers, r.repoType, r.source) && o == Offer(r.repoType, r.source)
    requires Honest(handlers, filter, reliable, accepted', from', r)
    ensures ReportsAll(handlers, filter, reliable, done + {o}, accepted', from', results + [r])
  {
    var more := results + [r];
    forall p | p in done + {o} ensures HasResult(more, p) {
      ResultsOneMore(results, r, p);
    }
    forall x | x in more
      ensures Offer(x.repoType, x.source) in done + {o} && Offered(handlers, x.repoType, x.source)
      ensures Honest(handlers, filter, reliable, accepted', from', x)
    {
      assert x in results || x == r;
    }
    assert Reported(handlers, filter, reliable, done + {o}, accepted', from', more);
  }

  lemma SettledOneMore(handlers: Handlers, filter: RefreshFilter, done: set<Offer>, accepted: Repositories,
                       from: map<string, string>, o: Offer)
    requires AcceptsAll(handlers, filter, done, accepted, from) && IsOffered(handlers, o)
    requires Settled(handlers, o, accepted, from)
    ensures AcceptsAll(handlers, filter, done + {o}, accepted, from)
  {
    assert Accepts(handlers, filter, done + {o}, accepted, from);
  }

  lemma Rejected(handlers: Handlers, filter: RefreshFilter, reliable: bool, done: set<Offer>, accepted: Repositories,
                 from: map<string, string>, results: seq<Result>, o: Offer, r: Result)
    requires Decided(handlers, filter, reliable, done, accepted, from, results) && o !in done
    requires IsOffered(handlers, o) && r.repoType == o.repoType && r.source == o.source
    requires !r.refresh && (r.error.SourceCollision? || r.error.PriorityCollision?)
    requires o.source in accepted || RepositoryOf(handlers, o).priority in PrioritiesOf(accepted)
    ensures Decided(handlers, filter, reliable, done + {o}, accepted, from, results + [r])
  {
    SettledOneMore(handlers, filter, done, accepted, from, o);
    assert !IsAccepted(o, from);
    ReportedOneMore(handlers, filter, reliable, done, accepted, from, results, o, r, accepted, from);
  }

  lemma AcceptsOneMore(handlers: Handlers, filter: RefreshFilter, done: set<Offer>, accepted: Repositories,
                       from: map<string, string>, o: Offer, after: Repository)
    requires AcceptsAll(handlers, filter, done, accepted, from) && o !in done && IsOffered(handlers, o)
    requires Kept(filter, o.source, RepositoryOf(handlers, o), after)
    requires o.source !in accepted && after.priority !in PrioritiesOf(accepted)
    ensures AcceptsAll(handlers, filter, done + {o}, accepted[o.source := after], from[o.source := o.repoType])
  {
    var more := accepted[o.source := after];
    PrioritiesOneMore(accepted, o.source, after);
    forall a | a in accepted ensures accepted[a].priority != after.priority {
      assert accepted[a].priority in PrioritiesOf(accepted);
    }
    forall p | p in done + {o} ensures Settled(handlers, p, more, from[o.source := o.repoType]) {
      if p != o {
        assert Settled(handlers, p, accepted, from);
      }
    }
    assert Accepts(handlers, filter, done + {o}, more, from[o.source := o.repoType]);
  }

  lemma HonestStays(handlers: Handlers, filter: RefreshFilter, reliable: bool, accepted: Repositories,
                    from: map<string, string>, o: Offer, after: Repository, r: Result)
    requires accepted.Keys == from.Keys && o.source !in accepted && Offered(handlers, r.repoType, r.source)
    requires Honest(handlers, filter, reliable, accepted, from, r) && o != Offer(r.repoType, r.source)
    ensures Honest(handlers, filter, reliable, accepted[o.source := after], from[o.source := o.repoType], r)
  {
  }

  /** A good result for a repository that is accepted now. */
  ghost predicate IsResultOf(filter: RefreshFilter, reliable: bool, o: Offer, before: Repository, after: Repository,
                             r: Result) {
    && r.repoType == o.repoType && r.source == o.source
    && r.refresh == WantsRefresh(filter, before, o.source)
    && (r.error == NoError || r.error == RefreshFailed) && (r.refresh && before.invalid ==> r.error != NoError)
    && (r.error.RefreshFailed? ==> r.refresh && (!reliable || before.invalid) && after == before)
    && (r.refresh && r.error == NoError ==> IsFetched(before, after))
  }

  lemma Taken(handlers: Handlers, filter: RefreshFilter, reliable: bool, done: set<Offer>, accepted: Repositories,
              from: map<string, string>, results: seq<Result>, o: Offer, after: Repository, r: Result)
    requires Decided(handlers, filter, reliable, done, accepted, from, results) && o !in done
    requires IsOffered(handlers, o) && Kept(filter, o.source, RepositoryOf(handlers, o), after)
    requires IsResultOf(filter, reliable, o, RepositoryOf(handlers, o), after, r)
    requires o.source !in accepted && after.priority !in PrioritiesOf(accepted)
    ensures Decided(handlers, filter, reliable, done + {o}, accepted[o.source := after],
                       from[o.source := o.repoType], results + [r])
  {
    var accepted', from' := accepted[o.source := after], from[o.source := o.repoType];
    AcceptsOneMore(handlers, filter, done, accepted, from, o, after);
    forall x | x in results ensures Honest(handlers, filter, reliable, accepted', from', x) {
      HonestStays(handlers, filter, reliable, accepted, from, o, after, x);
    }
    ReportedOneMore(handlers, filter, reliable, done, accepted, from, results, o, r, accepted', from');
  }

  ghost function WithErrors(r: Result, errors: map<string, nat>): Result {
    if r.source in errors then r.(error := ChannelErrors(errors[r.source])) else r
  }

  /** The results of repositories with channel errors get these as their error. */
  method AddChannelErrors(results: seq<Result>, errors: map<string, nat>) returns (results': seq<Result>)
    ensures |results'| == |results|
    ensures forall i | 0 <= i < |results| :: results'[i] == WithErrors(results[i], errors)
  {
    results' := results;
    for i := 0 to |results|
      invariant |results'| == |results|
      invariant forall j | 0 <= j < |results| ::
                  results'[j] == if j < i then WithErrors(results[j], errors) else results[j]
    {
      if results[i].source in errors {
        results' := results'[i := results[i].(error := ChannelErrors(errors[results[i].source]))];
      }
    }
  }

  lemma HonestWithErrors(handlers: Handlers, filter: RefreshFilter, reliable: bool, accepted: Repositories,
                         from: map<string, string>, r: Result, errors: map<string, nat>)
    requires accepted.Keys == from.Keys && Offered(handlers, r.repoType, r.source)
    requires Honest(handlers, filter, reliable, accepted, from, r)
    ensures Honest(handlers, filter, reliable, accepted, from, WithErrors(r, errors))
  {
  }

  lemma ErrorsKeepReport(handlers: Handlers, filter: RefreshFilter, reliable: bool, done: set<Offer>,
                         accepted: Repositories, from: map<string, string>, results: seq<Result>,
                         errors: map<string, nat>, results': seq<Result>)
    requires Decided(handlers, filter, reliable, done, accepted, from, results) && |results'| == |results|
    requires forall i | 0 <= i < |results| :: results'[i] == WithErrors(results[i], errors)
    ensures Reported(handlers, filter, reliable, done, accepted, from, results')
    ensures forall r | r in results' ::
              if r.source in errors then r.error == ChannelErrors(errors[r.source]) else !r.error.ChannelErrors?
  {
    forall r | r in results'
      ensures Offer(r.repoType, r.source) in done && Offered(handlers, r.repoType, r.source)
      ensures Honest(handlers, filter, reliable, accepted, from, r)
      ensures if r.source in errors then r.error == ChannelErrors(errors[r.source]) else !r.error.ChannelErrors?
    {
      var i :| 0 <= i < |results'| && results'[i] == r;
      assert results[i] in results;
      HonestWithErrors(handlers, filter, reliable, accepted, from, results[i], errors);
    }
    forall o | o in done ensures HasResult(results', o) {
      assert HasResult(results, o);
      var i :| 0 <= i < |results| && results[i].repoType == o.repoType && results[i].source == o.source;
      assert results'[i] in results';
    }
  }

  /** Those of other types, and the first ones of this type. */
  ghost function OffersSoFar(done: set<Offer>, repos: Repositories, t: string, todo: set<string>): set<Offer> {
    done + OffersOf(repos, t, repos.Keys - todo)
  }

  lemma OffersOneMore(done: set<Offer>, repos: Repositories, t: string, todo: set<string>, source: string)
    requires source in todo && source in repos && forall o | o in done :: o.repoType != t
    ensures OffersSoFar(done, repos, t, todo - {source}) == OffersSoFar(done, repos, t, todo) + {Offer(t, source)}
    ensures Offer(t, source) !in OffersSoFar(done, repos, t, todo)
  {
  }

  lemma OffersOfType(handlers: Handlers, types: set<string>, t: string)
    requires t in handlers && t !in types
    ensures handlers[t].None? ==> AllOffers(handlers, types + {t}) == AllOffers(handlers, types)
    ensures handlers[t].Some? ==> var repos := handlers[t].value;
              && AllOffers(handlers, types + {t}) == AllOffers(handlers, types) + OffersOf(repos, t, repos.Keys)
              && forall o | o in AllOffers(handlers, types) :: o.repoType != t
  {
  }

  class Handler {
    const env: Environment

    var lookUpMap: Index

    constructor (env: Environment)
      ensures this.env == env && lookUpMap == map[]
    {
      this.env, lookUpMap := env, map[];
    }

    /** Every channel of every repository; what cannot be read is reported and left out. */
    method UpdateLookupMap(repositories: Repositories) returns (errors: map<string, nat>)
      modifies `lookUpMap
      ensures IsIndex(lookUpMap, GivenByAll(repositories, repositories.Keys))
      ensures forall p :: Has(lookUpMap, p) <==>
                          exists e :: Provides(repositories, e) && p == Place(e.id, e.source, e.channel)
      ensures errors == ErrorsOf(repositories, repositories.Keys)
      ensures forall source | source in repositories ::
                var count := |Unreadable(repositories[source].channels)|;
                (source in errors <==> count > 0) && (source in errors ==> errors[source] == count)
    {
      var index: Index := map[];
      errors := map[];
      var todo := repositories.Keys;
      NothingGiven(repositories);
      assert repositories.Keys - todo == {};
      while todo != {}
        invariant todo <= repositories.Keys
        invariant IsIndex(index, GivenByAll(repositories, repositories.Keys - todo))
        invariant errors == ErrorsOf(repositories, repositories.Keys - todo)
      {
        var source :| source in todo;
        ghost var done := repositories.Keys - todo;
        OneMoreSource(repositories, done, source);
        ErrorsOneMore(repositories, done, source);
        DoneOneMore(repositories.Keys, todo, source);
        todo := todo - {source};
        var count;
        index, count := AddRepository(index, GivenByAll(repositories, done), source, repositories[source]);
        if count > 0 {
          errors := errors[source := count];
        }
      }
      assert repositories.Keys - todo == repositories.Keys;
      lookUpMap := index;
      forall source | source in repositories
        ensures ErrorCount(repositories[source].channels) == |Unreadable(repositories[source].channels)|
      {
        ErrorCountIs(repositories[source].channels);
      }
      IndexHasPlaces(index, repositories);
    }

    /** Only sources are compared here, priorities are not. */
    method Init(handlers: Handlers) returns (ok: bool, ghost order: seq<string>)
      modifies `lookUpMap
      ensures IsOrderOf(handlers.Keys, order)
      ensures var accepted := MergedBy(handlers, order); IsIndex(lookUpMap, GivenByAll(accepted, accepted.Keys))
      ensures ok <==> (forall t | t in handlers :: handlers[t].Some?) && DistinctSources(handlers)
    {
      var errs := false;
      var repositories: Repositories := map[];
      var todo := handlers.Keys;
      order := [];
      while todo != {}
        invariant todo <= handlers.Keys && NoDuplicates(order) && Elements(order) == handlers.Keys - todo
        invariant repositories == MergedBy(handlers, order)
        invariant !errs <==> NoErrors(handlers, handlers.Keys - todo)
      {
        var t :| t in todo;
        NoErrorsOneMore(handlers, handlers.Keys - todo, t);
        MergedSources(handlers, order);
        MergedOneMore(handlers, order, t);
        OrderOneMore(order, t);
        DoneOneMore(handlers.Keys, todo, t);
        todo := todo - {t};
        order := order + [t];
        if handlers[t].None? {
          errs := true;
        } else {
          var collision;
          repositories, collision := Merge(handlers[t].value, repositories);
          errs := errs || collision;
        }
      }
      assert handlers.Keys - todo == handlers.Keys;
      var errors := UpdateLookupMap(repositories);
      ok := !errs;
    }

    /** Fetches the files of the channels anew, all of them or none. */
    method Refresh(repo: Repository) returns (repo': Repository, ok: bool)
      modifies env
      ensures SameShape(repo, repo')
      ensures !ok ==> repo' == repo
      ensures ok ==> IsFetched(repo, repo')
      ensures repo.invalid ==> !ok
      ensures env.Since(old(env.failures)) && (!ok && !repo.invalid ==> env.failures > old(env.failures))
    {
      var failed := env.Attempt();
      if failed || repo.invalid {
        return repo, false;
      }
      if repo.latest.None? {
        return repo, true;
      }
      var latest := repo.latest.value;
      var channels := seq(|repo.channels|, i requires 0 <= i < |repo.channels| =>
        repo.channels[i].(files := if i < |latest| then latest[i] else None));
      return repo.(channels := channels), true;
    }

    /** Without types and sources everything is refreshed. */
    method DoRepoRefresh(repo: Repository, source: string, filter: RefreshFilter)
      returns (repo': Repository, refresh: bool, ok: bool)
      modifies env
      ensures refresh <==>
                || (filter.types == [] && filter.sources == [])
                || repo.repoType in filter.types || source in filter.sources
      ensures refresh == WantsRefresh(filter, repo, source) && Kept(filter, source, repo, repo')
      ensures if refresh then repo.invalid ==> !ok else ok
      ensures refresh && ok ==> IsFetched(repo, repo')
      ensures env.Since(old(env.failures))
      ensures !ok ==> repo' == repo && (env.failures > old(env.failures) || repo.invalid)
    {
      if (|filter.types| > 0 || |filter.sources| > 0) && !(repo.repoType in filter.types || source in filter.sources) {
        return repo, false, true;
      }
      refresh := true;
      repo', ok := Refresh(repo);
    }

    method RefreshOne(ghost handlers: Handlers, filter: RefreshFilter, ghost done: set<Offer>, t: string,
                      source: string, repo: Repository, repositories: Repositories, priorities: set<int>,
                      ghost from: map<string, string>, results: seq<Result>, ghost first: nat)
      returns (repositories': Repositories, priorities': set<int>, ghost from': map<string, string>,
               results': seq<Result>)
      requires Offered(handlers, t, source) && handlers[t].value[source] == repo && Offer(t, source) !in done
      requires Decided(handlers, filter, env.reliable, done, repositories, from, results)
      requires priorities == PrioritiesOf(repositories)
      requires env.Since(first) && FewLeft(handlers, filter, repositories, from, env.failures - first)
      modifies env
      ensures Decided(handlers, filter, env.reliable, done + {Offer(t, source)}, repositories', from', results')
      ensures env.Since(first)
      ensures FewLeft(handlers, filter, repositories', from', env.failures - first)
      ensures priorities' == PrioritiesOf(repositories')
    {
      ghost var o := Offer(t, source);
      repositories', priorities', from' := repositories, priorities, from;
      var result;
      if source in repositories {
        result := Result(t, source, false, SourceCollision);
        Rejected(handlers, filter, env.reliable, done, repositories, from, results, o, result);
      } else if repo.priority in priorities {
        result := Result(t, source, false, PriorityCollision);
        Rejected(handlers, filter, env.reliable, done, repositories, from, results, o, result);
      } else {
        var repo', refresh, ok := DoRepoRefresh(repo, source, filter);
        result := Result(t, source, refresh, if ok then NoError else RefreshFailed);
        Taken(handlers, filter, env.reliable, done, repositories, from, results, o, repo', result);
        PrioritiesOneMore(repositories, source, repo');
        NotFetchedOneMore(handlers, filter, repositories, from, t, source, repo', old(env.failures) - first,
                          env.failures - old(env.failures));
        repositories', from' := repositories[source := repo'], from[source := t];
        priorities' := priorities + {repo.priority};
      }
      results' := results + [result];
    }

    method RefreshType(ghost handlers: Handlers, filter: RefreshFilter, ghost done: set<Offer>, t: string,
                       repos: Repositories, repositories: Repositories, priorities: set<int>,
                       ghost from: map<string, string>, results: seq<Result>, ghost first: nat)
      returns (repositories': Repositories, priorities': set<int>, ghost from': map<string, string>,
               results': seq<Result>)
      requires t in handlers && handlers[t] == Some(repos) && forall o | o in done :: o.repoType != t
      requires Decided(handlers, filter, env.reliable, done, repositories, from, results)
      requires priorities == PrioritiesOf(repositories)
      requires env.Since(first) && FewLeft(handlers, filter, repositories, from, env.failures - first)
      modifies env
      ensures Decided(handlers, filter, env.reliable, done + OffersOf(repos, t, repos.Keys), repositories', from',
                      results')
      ensures env.Since(first)
      ensures FewLeft(handlers, filter, repositories', from', env.failures - first)
      ensures priorities' == PrioritiesOf(repositories')
    {
      repositories', priorities', from', results' := repositories, priorities, from, results;
      var todo := repos.Keys;
      assert OffersSoFar(done, repos, t, todo) == done;
      while todo != {}
        invariant todo <= repos.Keys && priorities' == PrioritiesOf(repositories') && env.Since(first)
        invariant FewLeft(handlers, filter, repositories', from', env.failures - first)
        invariant Decided(handlers, filter, env.reliable, OffersSoFar(done, repos, t, todo), repositories',
                             from', results')
      {
        var source :| source in todo;
        ghost var decided := OffersSoFar(done, repos, t, todo);
        OffersOneMore(done, repos, t, todo, source);
        repositories', priorities', from', results' :=
          RefreshOne(handlers, filter, decided, t, source, repos[source], repositories', priorities', from', results',
                     first);
        todo := todo - {source};
      }
      assert repos.Keys - todo == repos.Keys;
    }

    method Decide(handlers: Handlers, filter: RefreshFilter)
      returns (repositories: Repositories, ghost from: map<string, string>, results: seq<Result>)
      modifies env
      ensures Decided(handlers, filter, env.reliable, AllOffers(handlers, handlers.Keys), repositories, from, results)
      ensures env.Since(old(env.failures))
      ensures |NotFetched(handlers, filter, repositories, from)| <= env.failures - old(env.failures)
    {
      repositories, from, results := map[], map[], [];
      assert NotFetched(handlers, filter, repositories, from) == {};
      assert AtMost(handlers, filter, repositories, from, 0);
      var priorities := {};
      var todo := handlers.Keys;
      NothingDecided(handlers, filter, env.reliable);
      assert AllOffers(handlers, handlers.Keys - todo) == {};
      assert PrioritiesOf(repositories) == {};
      while todo != {}
        invariant todo <= handlers.Keys && priorities == PrioritiesOf(repositories) && env.Since(old(env.failures))
        invariant FewLeft(handlers, filter, repositories, from, env.failures - old(env.failures))
        invariant Decided(handlers, filter, env.reliable, AllOffers(handlers, handlers.Keys - todo), repositories,
                             from, results)
      {
        var t :| t in todo;
        ghost var done := handlers.Keys - todo;
        OffersOfType(handlers, done, t);
        DoneOneMore(handlers.Keys, todo, t);
        todo := todo - {t};
        if handlers[t].Some? {
          repositories, priorities, from, results :=
            RefreshType(handlers, filter, AllOffers(handlers, done), t, handlers[t].value, repositories, priorities,
                        from, results, old(env.failures));
        }
      }
      assert handlers.Keys - todo == handlers.Keys;
    }

    /** What is accepted has a source and a priority of its own; whatever is not accepted collides
        with what is, and is never reported as good. The index is that of the accepted ones as they
        are after their refresh. */
    method RefreshRepositories(handlers: Handlers, filter: RefreshFilter)
      returns (results: seq<Result>, ghost accepted: Repositories, ghost from: map<string, string>)
      modifies `lookUpMap, env
      ensures Accepts(handlers, filter, AllOffers(handlers, handlers.Keys), accepted, from)
      ensures Reported(handlers, filter, env.reliable, AllOffers(handlers, handlers.Keys), accepted, from, results)
      // no more of them were not refreshed than calls failed
      ensures env.Since(old(env.failures))
      ensures |NotFetched(handlers, filter, accepted, from)| <= env.failures - old(env.failures)
      ensures var errors := ErrorsOf(accepted, accepted.Keys);
              forall r | r in results ::
                if r.source in errors then r.error == ChannelErrors(errors[r.source]) else !r.error.ChannelErrors?
      ensures IsIndex(lookUpMap, GivenByAll(accepted, accepted.Keys))
    {
      ghost var decided: seq<Result>;
      var repositories, errors;
      repositories, from, results := Decide(handlers, filter);
      errors := UpdateLookupMap(repositories);
      accepted, decided := repositories, results;
      results := AddChannelErrors(results, errors);
      ErrorsKeepReport(handlers, filter, env.reliable, AllOffers(handlers, handlers.Keys), accepted, from, decided,
                       errors, results);
    }
  }
}
