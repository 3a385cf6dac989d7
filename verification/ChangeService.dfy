/** The pending change request of the service, from the request items to the installed modules
    (pkg/service/module.go). */
module ChangeService {
  import opened Modfiles
  import opened Prelude
  import opened Slices
  import opened RepoDependencies
  import opened ModuleSelection
  import opened ChangePlan
  import opened PlanExecution
  import JobSlots

  lemma VariantsAreFiledById(catalog: Catalog, installed: map<string, Installed>, items: seq<Item>, source: string,
                             channel: string, requested: Selected, main: Selected, result: Selected)
    requires Indexed(catalog) && FirstChoices(catalog, installed, items, requested)
    requires Selection(catalog, source, channel, requested, main, result)
    ensures forall id | id in result :: result[id].mod.id == id
  {
    forall id | id in result ensures result[id].mod.id == id {
      if id in requested {
      } else if id !in main {
        assert FromOrigin(catalog, requested, main, result, id);
      }
    }
  }

  lemma SelectionIsFiledById(selector: Selector, installed: map<string, Installed>, items: seq<Item>, result: Selected)
    requires Indexed(selector.repos.catalog) && selector.IsSelection(items, installed, result)
    ensures forall id | id in result :: result[id].mod.id == id
  {
    var source, channel, requested, main :|
      selector.IsSelectionFrom(items, installed, source, channel, requested, main, result);
    VariantsAreFiledById(selector.repos.catalog, installed, items, source, channel, requested, main, result);
  }

  ghost function RemovalIds(items: seq<Item>): seq<string> {
    if items == [] then []
    else
      var front, last := RemovalIds(items[..|items| - 1]), items[|items| - 1];
      if last.remove then front + [last.id] else front
  }

  /** An item asks for the removal of this module. */
  ghost predicate AsksToRemove(items: seq<Item>, id: string) {
    exists item :: item in items && item.remove && item.id == id
  }

  /** The ids collected are those of the items that remove. */
  lemma {:induction false} RemovalIdsAre(items: seq<Item>)
    ensures forall id :: id in RemovalIds(items) <==> AsksToRemove(items, id)
  {
    if items != [] {
      var front, last := items[..|items| - 1], items[|items| - 1];
      RemovalIdsAre(front);
      assert items == front + [last];
      forall id ensures AsksToRemove(items, id) <==> AsksToRemove(front, id) || (last.remove && last.id == id) {
        if AsksToRemove(front, id) {
          var item :| item in front && item.remove && item.id == id;
          assert item in items;
        }
        assert last in items;
      }
    }
  }

  lemma {:induction false} RemovalIdsAreDistinct(items: seq<Item>)
    requires forall i, j | 0 <= i < j < |items| :: items[i].id != items[j].id
    ensures NoDuplicates(RemovalIds(items))
  {
    if items != [] {
      var front := items[..|items| - 1];
      RemovalIdsAreDistinct(front);
      RemovalIdsAre(front);
      forall i | 0 <= i < |RemovalIds(front)| ensures RemovalIds(front)[i] != items[|items| - 1].id {
        assert AsksToRemove(front, RemovalIds(front)[i]);
      }
    }
  }

  // ----- The installed modules as they were read -----

  function ReadVersion(m: Store.Module): string {
    if m.mod.Some? then m.mod.value.version else ""
  }

  function AsRead(modules: map<string, Store.Module>): map<string, Installed> {
    map id | id in modules :: Installed(id, modules[id].source, modules[id].channel, ReadVersion(modules[id]))
  }

  ghost predicate SeenAs(id: string, entry: Store.Entry, seen: Installed) {
    && seen.id == id && seen.source == entry.source && seen.channel == entry.channel
    && (seen.version == VersionOf(entry.status) || seen.version == "")
  }

  /** What was read is what is there, up to versions of modfiles that could not be read. */
  ghost predicate Seen(view: View, seen: map<string, Installed>, reliable: bool) {
    && seen.Keys == view.Keys
    && (forall id | id in seen :: SeenAs(id, view[id], seen[id]))
    && (reliable ==> seen == InstalledOf(view))
  }

  lemma ReadingSees(rows: map<string, Store.Row>, disk: map<nat, Store.Dir>, before: map<string, Mod>,
                    after: map<string, Mod>, modules: map<string, Store.Module>, reliable: bool)
    requires Store.Filled(rows, disk, before, after) && modules.Keys == rows.Keys
    requires Store.DescribesAll(rows, disk, before, modules, reliable)
    ensures Seen(Store.ViewOf(rows, disk, after), AsRead(modules), reliable)
  {
    var view, seen := Store.ViewOf(rows, disk, after), AsRead(modules);
    assert view.Keys == rows.Keys && seen.Keys == modules.Keys;
    forall id | id in seen
      ensures SeenAs(id, view[id], seen[id]) && (reliable ==> seen[id] == InstalledOf(view)[id])
    {
      assert Store.Describes(Store.CurrentMod(rows, disk, before, id), rows[id], modules[id], reliable);
    }
    assert InstalledOf(view).Keys == view.Keys;
  }

  /** A plan, what it selects and removes, and the installed modules it was made for. */
  datatype Request = Request(plan: Plan, selected: Selected, removals: seq<string>, seen: map<string, Installed>)

  /** The plan removes exactly the installed modules that an item removes and that are not selected. */
  lemma PlanRemoves(items: seq<Item>, request: Request)
    requires WellFormed(items) && request.removals == RemovalIds(Unique(items))
    requires request.plan.remove == ToRemove(request.selected, request.seen, request.removals)
    ensures forall id :: id in request.removals <==> AsksToRemove(items, id)
    ensures forall id :: id in request.plan.remove <==>
                         AsksToRemove(items, id) && id in request.seen && id !in request.selected
  {
    UniqueElements(items);
    ValidatedIdsAreDistinct(items);
    RemovalIdsAre(Unique(items));
    RemovalIdsAreDistinct(Unique(items));
    forall item ensures item in items <==> item in Unique(items) {
      assert item in Elements(items) <==> item in Elements(Unique(items));
    }
    RemovesAre(request.selected, request.seen, request.removals);
  }

  /** A request made for these modules, as far as they could be read. */
  ghost predicate MadeFor(view: View, reliable: bool, request: Request) {
    && Seen(view, request.seen, reliable) && NoDuplicates(request.removals)
    && FiledById(request.selected, request.seen)
    && IsPlan(request.selected, request.seen, request.removals, request.plan)
  }

  /** Every plan item is reported once. */
  ghost predicate Accounts(report: Report, steps: seq<Step>) {
    multiset(report.success) + multiset(report.failed) == multiset(AllItems(steps))
  }

  /** Nothing failed if and only if the plan was feasible, and the modules are as wanted if and only
      if, besides, every file system still held the version that was selected. */
  ghost predicate Fulfils(world: World, request: Request, before: View, after: View, report: Report) {
    && (report.failed == [] <==> Feasible(world, before, request.plan))
    && (InstalledOf(after) == Wanted(request.selected, InstalledOf(before), request.removals) <==>
        Feasible(world, before, request.plan) && AllAsSelected(world, request.plan))
  }

  lemma ExecutionFulfils(world: World, request: Request, before: View, after: View, trace: Trace, report: Report)
    requires MadeFor(before, world.reliable, request)
    requires Progress(world, before, Steps(request.plan), after, trace, report)
    ensures Accounts(report, Steps(request.plan))
    ensures forall id | id in before && id in world.deployed :: id in after
    ensures world.reliable ==> Fulfils(world, request, before, after, report)
  {
    var steps := Steps(request.plan);
    ReportPartitionsPlan(steps, trace.outcomes);
    forall id | id in before && id in world.deployed ensures id in after {
      DeployedModulesStay(world, steps, trace.views, trace.outcomes, id);
    }
    if world.reliable {
      NothingFailed(steps, trace.outcomes);
      ReliableStepsSucceed(world, request.selected, request.removals, request.plan, trace.views, trace.outcomes);
      ReliableExecutionGivesWanted(world, request.selected, request.removals, request.plan, trace.views,
                                   trace.outcomes);
    }
  }

  // ----- The service -----

  /** The slots that have to be free when a change request is made. */
  const CREATE_GUARDS := [JobSlots.MODULE_SLOT, JobSlots.REPOSITORY_SLOT]

  class Service {
    const executor: Executor
    const selector: Selector
    const jobs: JobSlots.Handler
    var changeRequest: Option<Plan>

    /** What the pending plan was made from. */
    ghost var basis: Request

    /** Between these calls, none of which overlap here, the pending request is a plan for the modules
        installed right now, as far as they could be read; `StalePlans` is about calls that overlap. */
    ghost predicate Valid()
      reads this, executor.modules
    {
      && Indexed(selector.repos.catalog) && executor.Valid()
      && (changeRequest.Some? ==>
            basis.plan == changeRequest.value && MadeFor(executor.modules.Modules(), executor.env.reliable, basis))
    }

    constructor (executor: Executor, selector: Selector, jobs: JobSlots.Handler)
      requires Indexed(selector.repos.catalog) && executor.Valid()
      ensures Valid() && changeRequest == None
      ensures this.executor == executor && this.selector == selector && this.jobs == jobs
    {
      this.executor, this.selector, this.jobs, changeRequest := executor, selector, jobs, None;
      basis := Request(Plan([], [], []), map[], [], map[]);
    }

    ghost predicate Reliable() {
      executor.env.reliable && selector.repos.env.reliable
    }

    method Accept(request: Request)
      requires Valid() && MadeFor(executor.modules.Modules(), executor.env.reliable, request)
      modifies this`changeRequest, this`basis
      ensures Valid() && changeRequest == Some(request.plan) && basis == request
    {
      changeRequest := Some(request.plan);
      basis := request;
    }

    /** The plan selects what the items ask for, with dependencies, and removes what they name. */
    ghost predicate Answers(items: seq<Item>, request: Request) {
      && WellFormed(items)
      && selector.IsSelection(Unique(items), request.seen, request.selected)
      && request.removals == RemovalIds(Unique(items))
    }

    ghost predicate Refused(items: seq<Item>)
      reads executor.modules
    {
      !WellFormed(items) || selector.CannotSelect(Unique(items), InstalledOf(executor.modules.Modules()))
    }

    method ReadInstalled() returns (installed: Option<map<string, Installed>>)
      requires Valid()
      modifies executor.modules`cache, executor.modules`failed
      ensures Valid() && executor.modules.Modules() == old(executor.modules.Modules())
      ensures installed.Some? ==> Seen(executor.modules.Modules(), installed.value, executor.env.reliable)
      ensures executor.env.reliable ==> installed.Some?
    {
      var store := executor.modules;
      ghost var before := store.cache;
      var modules := store.GetModules([]);
      if modules.None? {
        return None;
      }
      ReadingSees(store.rows, store.disk, before, store.cache, modules.value, executor.env.reliable);
      return Some(AsRead(modules.value));
    }

    method IdsToRemove(items: seq<Item>) returns (toRemove: seq<string>)
      ensures toRemove == RemovalIds(items)
    {
      toRemove := [];
      for i := 0 to |items|
        invariant toRemove == RemovalIds(items[..i])
      {
        assert items[..i + 1][..i] == items[..i];
        if items[i].remove {
          toRemove := toRemove + [items[i].id];
        }
      }
      assert items[..|items|] == items;
    }

    /** Selects, collects the ids to remove and plans. */
    method PlanFor(items: seq<Item>, installed: map<string, Installed>) returns (request: Option<Request>)
      requires Indexed(selector.repos.catalog)
      ensures request.Some? ==>
                && request.value.seen == installed && request.value.removals == RemovalIds(items)
                && selector.IsSelection(items, installed, request.value.selected)
                && (forall id | id in request.value.selected :: request.value.selected[id].mod.id == id)
                && IsPlan(request.value.selected, installed, request.value.removals, request.value.plan)
      ensures selector.repos.env.reliable && request.None? ==> selector.CannotSelect(items, installed)
    {
      var selection := selector.SelectRepoModules(items, installed);
      if selection.None? {
        return None;
      }
      SelectionIsFiledById(selector, installed, items, selection.value);
      var toRemove := IdsToRemove(items);
      var plan := NewModulesChangeRequest(selection.value, installed, toRemove);
      return Some(Request(plan, selection.value, toRemove, installed));
    }

    /** Validates, reads, selects and plans. */
    method NewRequest(items: seq<Item>) returns (request: Option<Request>)
      requires Valid()
      modifies executor.modules`cache, executor.modules`failed
      ensures Valid() && executor.modules.Modules() == old(executor.modules.Modules())
      ensures request.Some? ==> Answers(items, request.value)
      ensures request.Some? ==> MadeFor(old(executor.modules.Modules()), executor.env.reliable, request.value)
      ensures request.None? && Reliable() ==> old(Refused(items))
    {
      var validated := ValidateReqItems(items);
      if validated.None? {
        return None;
      }
      var installed := ReadInstalled();
      if installed.None? {
        return None;
      }
      request := PlanFor(validated.value, installed.value);
      ValidatedIdsAreDistinct(items);
      RemovalIdsAreDistinct(validated.value);
    }

    ghost predicate Busy(slots: seq<int>)
      reads jobs
    {
      exists slot :: slot in slots && slot in jobs.jobSlots
    }

    method AnyJob(slots: seq<int>) returns (busy: bool)
      requires slots != []
      ensures busy <==> Busy(slots)
    {
      var current := jobs.CurrentSlotJobs(slots);
      busy := current.Keys != {};
      if Busy(slots) {
        ghost var slot :| slot in slots && slot in jobs.jobSlots;
        assert slot in current.Keys;
      } else {
        assert forall slot :: slot !in current.Keys;
      }
    }

    /** A change request is made only while no module or repository job runs. A request that turns
        out to change nothing leaves an earlier pending one in place. */
    method CreateModulesChangeRequest(items: seq<Item>) returns (request: Option<Request>)
      requires Valid()
      modifies this, executor.modules`cache, executor.modules`failed
      ensures Valid() && executor.modules.Modules() == old(executor.modules.Modules())
      ensures request.Some? ==>
                JobSlots.MODULE_SLOT !in jobs.jobSlots && JobSlots.REPOSITORY_SLOT !in jobs.jobSlots
      ensures request.Some? ==> Answers(items, request.value)
      ensures request.Some? ==> MadeFor(old(executor.modules.Modules()), executor.env.reliable, request.value)
      ensures request.Some? ==>
                forall id :: id in request.value.plan.remove <==>
                             && AsksToRemove(items, id) && id in old(executor.modules.Modules())
                             && id !in request.value.selected
      ensures request.Some? && request.value.plan != Plan([], [], []) ==>
                changeRequest == Some(request.value.plan) && basis == request.value
      ensures request.None? || request.value.plan == Plan([], [], []) ==>
                changeRequest == old(changeRequest) && basis == old(basis)
      ensures request.None? && Reliable() ==>
                || JobSlots.MODULE_SLOT in jobs.jobSlots || JobSlots.REPOSITORY_SLOT in jobs.jobSlots
                || old(Refused(items))
    {
      var busy := AnyJob(CREATE_GUARDS);
      if busy {
        return None;
      }
      request := NewRequest(items);
      if request.Some? {
        var plan := request.value.plan;
        PlanRemoves(items, request.value);
        if |plan.install| > 0 || |plan.change| > 0 || |plan.remove| > 0 {
          Accept(request.value);
        }
      }
    }

    /** Carries out the pending request and forgets it, if nobody interferes (see ChangeRuns). */
    method ExecModulesChangeRequest() returns (report: Option<Report>)
      requires Valid()
      modifies this, executor.modules, executor`faults
      ensures Valid()
      ensures report.Some? <==> old(changeRequest).Some? && !Busy(JobSlots.Guards(JobSlots.ExecModulesChange))
      ensures report.None? ==>
                changeRequest == old(changeRequest) && executor.modules.Modules() == old(executor.modules.Modules())
      ensures report.Some? ==> changeRequest == None && Accounts(report.value, Steps(old(changeRequest).value))
      ensures forall id | id in old(executor.modules.Modules()) && id in executor.deployed ::
                id in executor.modules.Modules()
      ensures report.Some? && executor.env.reliable ==>
                Fulfils(executor.Around(), old(basis), old(executor.modules.Modules()), executor.modules.Modules(),
                        report.value)
    {
      if changeRequest.None? {
        return None;
      }
      var busy := AnyJob(JobSlots.Guards(JobSlots.ExecModulesChange));
      if busy {
        return None;
      }
      ghost var before := executor.modules.Modules();
      var r, trace := executor.ExecModulesChangeRequest(changeRequest.value);
      ExecutionFulfils(executor.Around(), basis, before, executor.modules.Modules(), trace, r);
      changeRequest := None;
      return Some(r);
    }

    method CancelModulesChangeRequest() returns (found: bool)
      requires Valid()
      modifies this`changeRequest
      ensures Valid() && changeRequest == None && found == old(changeRequest).Some?
    {
      found := changeRequest.Some?;
      changeRequest := None;
    }
  }
}
