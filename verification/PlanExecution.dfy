/** Carrying out a plan on the module store, item by item (pkg/service/module.go). */
module PlanExecution {
  import opened Prelude
  import opened Slices
  import opened RepoDependencies
  import opened ModuleSelection
  import opened ChangePlan
  import Store = ModuleStore

  datatype Action = Install | ChangeAction | Remove

  datatype ReportItem = ReportItem(id: string, action: Action)

  ghost predicate Delivers(world: World, wrapper: Wrapper) {
    Store.Offers(world.files(wrapper), wrapper.mod.id)
  }

  type View = Store.View

  datatype Step = RemoveStep(remove: string) | InstallStep(install: Wrapper) | ChangeStep(change: Change) {
    function Item(): ReportItem {
      match this
      case RemoveStep(id) => ReportItem(id, Remove)
      case InstallStep(wrapper) => ReportItem(wrapper.mod.id, Install)
      case ChangeStep(change) => ReportItem(change.next.mod.id, ChangeAction)
    }

    /** Without external failures this decides whether the step is carried out. */
    ghost predicate Possible(world: World, view: View) {
      match this
      case RemoveStep(id) => id !in world.deployed && (id in view ==> view[id].status != Store.Broken)
      case InstallStep(wrapper) => wrapper.mod.id !in view && Delivers(world, wrapper)
      case ChangeStep(change) =>
        change.next.mod.id in view && view[change.next.mod.id].status.Intact? && Delivers(world, change.next)
    }

    ghost function Effect(world: World, view: View): View
      requires Possible(world, view)
    {
      match this
      case RemoveStep(id) => view - {id}
      case InstallStep(wrapper) => view[wrapper.mod.id := AsDelivered(world, wrapper)]
      case ChangeStep(change) => view[change.next.mod.id := AsDelivered(world, change.next)]
    }
  }

  /** What an execution meets: the modules that turn out to be deployed, what the file system of
      a variant holds when it is copied, and whether nothing outside fails. */
  datatype World = World(deployed: set<string>, files: Wrapper -> Store.Dir, reliable: bool)

  // ----- Steps -----

  datatype Report = Report(success: seq<ReportItem>, failed: seq<ReportItem>)

  ghost function AsDelivered(world: World, wrapper: Wrapper): Store.Entry
    requires Delivers(world, wrapper)
  {
    Store.Entry(wrapper.source, wrapper.channel, Store.Intact(world.files(wrapper).modfile.value))
  }

  ghost predicate DeleteWentWrong(world: World, step: Step, before: View, after: View) {
    step.RemoveStep? && step.remove !in world.deployed && Store.Damaged(before, after, step.remove)
  }

  /** A delete that fails late may leave a module without its modfile. */
  ghost predicate StepOutcome(world: World, step: Step, before: View, after: View, ok: bool) {
    && (ok ==> step.Possible(world, before) && after == step.Effect(world, before))
    && (!ok ==> after == before || DeleteWentWrong(world, step, before, after))
    && (world.reliable && !ok ==> !step.Possible(world, before) && after == before)
  }

  ghost function RemoveSteps(ids: seq<string>): seq<Step> {
    seq(|ids|, i requires 0 <= i < |ids| => RemoveStep(ids[i]))
  }

  ghost function InstallSteps(wrappers: seq<Wrapper>): seq<Step> {
    seq(|wrappers|, i requires 0 <= i < |wrappers| => InstallStep(wrappers[i]))
  }

  ghost function ChangeSteps(changes: seq<Change>): seq<Step> {
    seq(|changes|, i requires 0 <= i < |changes| => ChangeStep(changes[i]))
  }

  ghost function Steps(plan: Plan): seq<Step> {
    RemoveSteps(plan.remove) + InstallSteps(plan.install) + ChangeSteps(plan.change)
  }

  lemma RemoveStepsOneMore(done: seq<Step>, ids: seq<string>, i: nat)
    requires i < |ids|
    ensures done + RemoveSteps(ids[..i + 1]) == done + RemoveSteps(ids[..i]) + [RemoveStep(ids[i])]
  {
  }

  lemma InstallStepsOneMore(done: seq<Step>, wrappers: seq<Wrapper>, i: nat)
    requires i < |wrappers|
    ensures done + InstallSteps(wrappers[..i + 1]) == done + InstallSteps(wrappers[..i]) + [InstallStep(wrappers[i])]
  {
  }

  lemma ChangeStepsOneMore(done: seq<Step>, changes: seq<Change>, i: nat)
    requires i < |changes|
    ensures done + ChangeSteps(changes[..i + 1]) == done + ChangeSteps(changes[..i]) + [ChangeStep(changes[i])]
  {
  }

  // ----- Executions -----

  /** Steps taken one after the other, the store before and after each, and which succeeded. */
  ghost predicate Execution(world: World, steps: seq<Step>, views: seq<View>, outcomes: seq<bool>) {
    && |views| == |steps| + 1 && |outcomes| == |steps|
    && forall i | 0 <= i < |steps| :: StepOutcome(world, steps[i], views[i], views[i + 1], outcomes[i])
  }

  /** The report items of the steps whose outcome is `wanted`, in order. */
  ghost function Items(steps: seq<Step>, outcomes: seq<bool>, wanted: bool): seq<ReportItem>
    requires |steps| == |outcomes|
  {
    if steps == [] then []
    else
      var n := |steps| - 1;
      var front := Items(steps[..n], outcomes[..n], wanted);
      if outcomes[n] == wanted then front + [steps[n].Item()] else front
  }

  ghost predicate Reports(steps: seq<Step>, outcomes: seq<bool>, report: Report)
    requires |steps| == |outcomes|
  {
    report.success == Items(steps, outcomes, true) && report.failed == Items(steps, outcomes, false)
  }

  function Reported(report: Report, item: ReportItem, ok: bool): Report {
    if ok then report.(success := report.success + [item]) else report.(failed := report.failed + [item])
  }

  datatype Trace = Trace(views: seq<View>, outcomes: seq<bool>) {
    ghost function Then(after: View, ok: bool): Trace {
      Trace(views + [after], outcomes + [ok])
    }
  }

  /** An execution from one state of the store to another, and its report. */
  ghost predicate Progress(world: World, before: View, steps: seq<Step>, after: View, trace: Trace, report: Report) {
    && Execution(world, steps, trace.views, trace.outcomes)
    && trace.views[0] == before && trace.views[|steps|] == after
    && Reports(steps, trace.outcomes, report)
  }

  lemma OneMoreStep(world: World, before: View, steps: seq<Step>, now: View, trace: Trace, report: Report, step: Step,
                    after: View, ok: bool)
    requires Progress(world, before, steps, now, trace, report) && StepOutcome(world, step, now, after, ok)
    ensures Progress(world, before, steps + [step], after, trace.Then(after, ok), Reported(report, step.Item(), ok))
  {
    var n := |steps|;
    assert (steps + [step])[..n] == steps && (trace.outcomes + [ok])[..n] == trace.outcomes;
  }

  /** The steps that were possible, and failed. */
  ghost function Hindered(world: World, steps: seq<Step>, trace: Trace): set<int>
    requires |trace.views| == |steps| + 1 && |trace.outcomes| == |steps|
  {
    set i | 0 <= i < |steps| && !trace.outcomes[i] && steps[i].Possible(world, trace.views[i])
  }

  ghost predicate AtMost(world: World, steps: seq<Step>, trace: Trace, n: nat) {
    |trace.views| == |steps| + 1 && |trace.outcomes| == |steps| && |Hindered(world, steps, trace)| <= n
  }

  ghost predicate FewHindered(world: World, steps: seq<Step>, trace: Trace, n: nat) {
    exists m :: m == n && AtMost(world, steps, trace, m)
  }

  lemma NoneHindered(world: World, view: View)
    ensures FewHindered(world, [], Trace([view], []), 0)
  {
    assert Hindered(world, [], Trace([view], [])) == {};
    assert AtMost(world, [], Trace([view], []), 0);
  }

  lemma HinderedBefore(world: World, steps: seq<Step>, trace: Trace, step: Step, after: View, ok: bool, i: int)
    requires |trace.views| == |steps| + 1 && |trace.outcomes| == |steps|
    requires i in Hindered(world, steps + [step], trace.Then(after, ok))
    ensures i in Hindered(world, steps, trace) || (i == |steps| && !ok && step.Possible(world, trace.views[i]))
  {
    if i < |steps| {
      assert (steps + [step])[i] == steps[i] && trace.Then(after, ok).views[i] == trace.views[i];
    }
  }

  lemma HinderedOneMore(world: World, steps: seq<Step>, trace: Trace, n: nat, step: Step, after: View, ok: bool,
                        faults: nat)
    requires FewHindered(world, steps, trace, n)
    requires |trace.views| == |steps| + 1 && (!ok && step.Possible(world, trace.views[|steps|]) ==> faults > 0)
    ensures FewHindered(world, steps + [step], trace.Then(after, ok), n + faults)
  {
    assert AtMost(world, steps, trace, n);
    var less, more := Hindered(world, steps, trace), Hindered(world, steps + [step], trace.Then(after, ok));
    var last := if faults > 0 then {|steps|} else {};
    forall i | i in more ensures i in less + last {
      HinderedBefore(world, steps, trace, step, after, ok, i);
    }
    SubsetCardinality(more, less + last);
    assert AtMost(world, steps + [step], trace.Then(after, ok), n + faults);
  }

  class Executor {
    const env: Environment
    const modules: Store.Handler
    const deployed: set<string>
    const files: Wrapper -> Store.Dir

    /** In how many steps a call failed. */
    ghost var faults: nat

    constructor (modules: Store.Handler, deployed: set<string>, files: Wrapper -> Store.Dir)
      ensures this.env == modules.env && this.modules == modules && this.deployed == deployed && this.files == files
    {
      this.env, this.modules, this.deployed, this.files := modules.env, modules, deployed, files;
    }

    ghost predicate Valid()
      reads modules
    {
      modules.env == env && modules.Valid()
    }

    ghost function Around(): World {
      World(deployed, files, env.reliable)
    }

    /** Whether a call failed during the operation on the store that has just ended. */
    ghost method NoteFault()
      modifies `faults
      ensures faults == if modules.failed == {} then old(faults) else old(faults) + 1
    {
      if modules.failed != {} {
        faults := faults + 1;
      }
    }

    method RemoveUnlessDeployed(id: string) returns (ok: bool)
      requires Valid()
      modifies modules, `faults
      ensures Valid()
      ensures StepOutcome(Around(), RemoveStep(id), old(modules.Modules()), modules.Modules(), ok)
      ensures old(faults) <= faults && (env.reliable ==> faults == old(faults))
      ensures faults == old(faults) && !ok ==>
                !RemoveStep(id).Possible(Around(), old(modules.Modules())) && modules.Modules() ==
                  old(modules.Modules())
    {
      var failed := env.Fails();
      if failed {
        faults := faults + 1;
        return false;
      }
      if id in deployed {
        return false;
      }
      var r := modules.DeleteModule(id);
      NoteFault();
      return r == Store.Success;
    }

    method AddModule(wrapper: Wrapper) returns (ok: bool)
      requires Valid()
      modifies modules, `faults
      ensures Valid()
      ensures StepOutcome(Around(), InstallStep(wrapper), old(modules.Modules()), modules.Modules(), ok)
      ensures old(faults) <= faults && (env.reliable ==> faults == old(faults))
      ensures faults == old(faults) && !ok ==>
                !InstallStep(wrapper).Possible(Around(), old(modules.Modules())) && modules.Modules() ==
                  old(modules.Modules())
    {
      var r := modules.AddModule(wrapper.mod.id, wrapper.source, wrapper.channel, files(wrapper));
      NoteFault();
      return r == Store.Success;
    }

    method UpdateModule(change: Change) returns (ok: bool)
      requires Valid()
      modifies modules, `faults
      ensures Valid()
      ensures StepOutcome(Around(), ChangeStep(change), old(modules.Modules()), modules.Modules(), ok)
      ensures old(faults) <= faults && (env.reliable ==> faults == old(faults))
      ensures faults == old(faults) && !ok ==>
                !ChangeStep(change).Possible(Around(), old(modules.Modules())) && modules.Modules() ==
                  old(modules.Modules())
    {
      var next := change.next;
      var r := modules.UpdateModule(next.mod.id, next.source, next.channel, files(next));
      NoteFault();
      return r == Store.Success;
    }

    method ExecRemoves(ids: seq<string>, report: Report, ghost before: View, ghost done: seq<Step>, ghost trace: Trace,
                       ghost first: nat)
      returns (result: Report, ghost result': Trace)
      requires Valid() && Progress(Around(), before, done, modules.Modules(), trace, report)
      requires first <= faults && (env.reliable ==> faults == first)
      requires FewHindered(Around(), done, trace, faults - first)
      modifies modules, `faults
      ensures Valid() && first <= faults && (env.reliable ==> faults == first)
      ensures FewHindered(Around(), done + RemoveSteps(ids), result', faults - first)
      ensures Progress(Around(), before, done + RemoveSteps(ids), modules.Modules(), result', result)
    {
      result, result' := report, trace;
      assert done + RemoveSteps(ids[..0]) == done;
      for i := 0 to |ids|
        invariant Valid() && first <= faults && (env.reliable ==> faults == first)
        invariant FewHindered(Around(), done + RemoveSteps(ids[..i]), result', faults - first)
        invariant Progress(Around(), before, done + RemoveSteps(ids[..i]), modules.Modules(), result', result)
      {
        ghost var now, soFar, faulty := modules.Modules(), done + RemoveSteps(ids[..i]), faults;
        RemoveStepsOneMore(done, ids, i);
        var ok := RemoveUnlessDeployed(ids[i]);
        ghost var after := modules.Modules();
        HinderedOneMore(Around(), soFar, result', faulty - first, RemoveStep(ids[i]), after, ok, faults - faulty);
        OneMoreStep(Around(), before, soFar, now, result', result, RemoveStep(ids[i]), after, ok);
        result' := result'.Then(after, ok);
        result := Reported(result, ReportItem(ids[i], Remove), ok);
      }
      assert ids[..|ids|] == ids;
    }

    method ExecInstalls(wrappers: seq<Wrapper>, report: Report, ghost before: View, ghost done: seq<Step>,
                        ghost trace: Trace, ghost first: nat)
      returns (result: Report, ghost result': Trace)
      requires Valid() && Progress(Around(), before, done, modules.Modules(), trace, report)
      requires first <= faults && (env.reliable ==> faults == first)
      requires FewHindered(Around(), done, trace, faults - first)
      modifies modules, `faults
      ensures Valid() && first <= faults && (env.reliable ==> faults == first)
      ensures FewHindered(Around(), done + InstallSteps(wrappers), result', faults - first)
      ensures Progress(Around(), before, done + InstallSteps(wrappers), modules.Modules(), result', result)
    {
      result, result' := report, trace;
      assert done + InstallSteps(wrappers[..0]) == done;
      for i := 0 to |wrappers|
        invariant Valid() && first <= faults && (env.reliable ==> faults == first)
        invariant FewHindered(Around(), done + InstallSteps(wrappers[..i]), result', faults - first)
        invariant Progress(Around(), before, done + InstallSteps(wrappers[..i]), modules.Modules(), result', result)
      {
        ghost var now, soFar, faulty := modules.Modules(), done + InstallSteps(wrappers[..i]), faults;
        InstallStepsOneMore(done, wrappers, i);
        var ok := AddModule(wrappers[i]);
        ghost var after := modules.Modules();
        HinderedOneMore(Around(), soFar, result', faulty - first, InstallStep(wrappers[i]), after, ok, faults - faulty);
        OneMoreStep(Around(), before, soFar, now, result', result, InstallStep(wrappers[i]), after, ok);
        result' := result'.Then(after, ok);
        result := Reported(result, ReportItem(wrappers[i].mod.id, Install), ok);
      }
      assert wrappers[..|wrappers|] == wrappers;
    }

    method ExecChanges(changes: seq<Change>, report: Report, ghost before: View, ghost done: seq<Step>,
                       ghost trace: Trace, ghost first: nat)
      returns (result: Report, ghost result': Trace)
      requires Valid() && Progress(Around(), before, done, modules.Modules(), trace, report)
      requires first <= faults && (env.reliable ==> faults == first)
      requires FewHindered(Around(), done, trace, faults - first)
      modifies modules, `faults
      ensures Valid() && first <= faults && (env.reliable ==> faults == first)
      ensures FewHindered(Around(), done + ChangeSteps(changes), result', faults - first)
      ensures Progress(Around(), before, done + ChangeSteps(changes), modules.Modules(), result', result)
    {
      result, result' := report, trace;
      assert done + ChangeSteps(changes[..0]) == done;
      for i := 0 to |changes|
        invariant Valid() && first <= faults && (env.reliable ==> faults == first)
        invariant FewHindered(Around(), done + ChangeSteps(changes[..i]), result', faults - first)
        invariant Progress(Around(), before, done + ChangeSteps(changes[..i]), modules.Modules(), result', result)
      {
        ghost var now, soFar, faulty := modules.Modules(), done + ChangeSteps(changes[..i]), faults;
        ChangeStepsOneMore(done, changes, i);
        var ok := UpdateModule(changes[i]);
        ghost var after := modules.Modules();
        HinderedOneMore(Around(), soFar, result', faulty - first, ChangeStep(changes[i]), after, ok, faults - faulty);
        OneMoreStep(Around(), before, soFar, now, result', result, ChangeStep(changes[i]), after, ok);
        result' := result'.Then(after, ok);
        result := Reported(result, ReportItem(changes[i].next.mod.id, ChangeAction), ok);
      }
      assert changes[..|changes|] == changes;
    }

    method ExecModulesChangeRequest(plan: Plan) returns (report: Report, ghost trace: Trace)
      requires Valid()
      modifies modules, `faults
      ensures Valid()
      ensures Progress(Around(), old(modules.Modules()), Steps(plan), modules.Modules(), trace, report)
      // a step that fails does not keep the others from being taken
      ensures old(faults) <= faults && (env.reliable ==> faults == old(faults))
      ensures |Hindered(Around(), Steps(plan), trace)| <= faults - old(faults)
    {
      ghost var before := modules.Modules();
      NoneHindered(Around(), before);
      report, trace := Report([], []), Trace([before], []);
      report, trace := ExecRemoves(plan.remove, report, before, [], trace, old(faults));
      assert [] + RemoveSteps(plan.remove) == RemoveSteps(plan.remove);
      report, trace := ExecInstalls(plan.install, report, before, RemoveSteps(plan.remove), trace, old(faults));
      report, trace := ExecChanges(plan.change, report, before,
                                   RemoveSteps(plan.remove) + InstallSteps(plan.install), trace, old(faults));
    }
  }

  // ----- What follows for any steps -----

  ghost function AllItems(steps: seq<Step>): seq<ReportItem> {
    seq(|steps|, i requires 0 <= i < |steps| => steps[i].Item())
  }

  /** The items to report for a plan: a removal for each id to be removed, an installation for each module
      to be installed, and a change for each module to be changed. */
  lemma ItemsOfPlan(plan: Plan, id: string)
    ensures var items := AllItems(Steps(plan));
            && (ReportItem(id, Remove) in items <==> id in plan.remove)
            && (ReportItem(id, Install) in items <==> exists w :: w in plan.install && w.mod.id == id)
            && (ReportItem(id, ChangeAction) in items <==> exists c :: c in plan.change && c.next.mod.id == id)
  {
    var items, n, k := AllItems(Steps(plan)), |plan.remove|, |plan.remove| + |plan.install|;
    forall i | 0 <= i < |items|
      ensures items[i] == if i < n then ReportItem(plan.remove[i], Remove)
                          else if i < k then ReportItem(plan.install[i - n].mod.id, Install)
                          else ReportItem(plan.change[i - k].next.mod.id, ChangeAction)
    {
    }
    if id in plan.remove {
      var i :| 0 <= i < n && plan.remove[i] == id;
      assert items[i] == ReportItem(id, Remove);
    }
    if w :| w in plan.install && w.mod.id == id {
      var i :| 0 <= i < |plan.install| && plan.install[i] == w;
      assert items[n + i] == ReportItem(id, Install);
    }
    if c :| c in plan.change && c.next.mod.id == id {
      var i :| 0 <= i < |plan.change| && plan.change[i] == c;
      assert items[k + i] == ReportItem(id, ChangeAction);
    }
  }

  /** Success and failure together report every plan item exactly once. */
  lemma {:induction false} ReportPartitionsPlan(steps: seq<Step>, outcomes: seq<bool>)
    requires |steps| == |outcomes|
    ensures multiset(Items(steps, outcomes, true)) + multiset(Items(steps, outcomes, false)) ==
              multiset(AllItems(steps))
  {
    if steps != [] {
      var n := |steps| - 1;
      ReportPartitionsPlan(steps[..n], outcomes[..n]);
      assert AllItems(steps) == AllItems(steps[..n]) + [steps[n].Item()];
    }
  }

  lemma {:induction false} NothingFailed(steps: seq<Step>, outcomes: seq<bool>)
    requires |steps| == |outcomes|
    ensures Items(steps, outcomes, false) == [] <==> forall i | 0 <= i < |outcomes| :: outcomes[i]
  {
    if steps != [] {
      var n := |steps| - 1;
      NothingFailed(steps[..n], outcomes[..n]);
      assert outcomes == outcomes[..n] + [outcomes[n]];
    }
  }

  /** Whatever fails, a deployed module stays installed, and nothing but a change of its own touches it. */
  lemma {:induction false} DeployedModulesStay(world: World, steps: seq<Step>, views: seq<View>, outcomes: seq<bool>,
                                               id: string)
    requires Execution(world, steps, views, outcomes) && id in views[0] && id in world.deployed
    ensures id in views[|steps|]
    ensures (forall i | 0 <= i < |steps| :: steps[i].Item() != ReportItem(id, ChangeAction)) ==>
              views[|steps|][id] == views[0][id]
  {
    if steps != [] {
      var n := |steps| - 1;
      DeployedModulesStay(world, steps[..n], views[..n + 1], outcomes[..n], id);
      assert StepOutcome(world, steps[n], views[n], views[n + 1], outcomes[n]);
    }
  }

  ghost predicate DistinctTargets(steps: seq<Step>) {
    forall i, j | 0 <= i < j < |steps| :: steps[i].Item().id != steps[j].Item().id
  }

  ghost predicate Targets(steps: seq<Step>, id: string) {
    exists i :: 0 <= i < |steps| && steps[i].Item().id == id
  }

  ghost predicate SameAt(before: View, after: View, id: string) {
    (id in after <==> id in before) && (id in after ==> after[id] == before[id])
  }

  ghost predicate IsDelivered(world: World, wrapper: Wrapper, after: View) {
    Delivers(world, wrapper) && wrapper.mod.id in after && after[wrapper.mod.id] == AsDelivered(world, wrapper)
  }

  /** How a step leaves the module it is about. */
  ghost predicate Settled(world: World, before: View, after: View, step: Step, ok: bool) {
    if !ok then
      var id := step.Item().id;
      SameAt(before, after, id) || (step.RemoveStep? && id in after && !world.reliable)
    else match step
         case RemoveStep(id) => id !in after
         case InstallStep(wrapper) => IsDelivered(world, wrapper, after)
         case ChangeStep(change) => IsDelivered(world, change.next, after)
  }

  lemma OtherModulesStay(world: World, step: Step, before: View, after: View, ok: bool)
    requires StepOutcome(world, step, before, after, ok)
    ensures Settled(world, before, after, step, ok)
    ensures forall id | id != step.Item().id :: SameAt(before, after, id)
  {
  }

  lemma LastTargetIsNew(steps: seq<Step>)
    requires DistinctTargets(steps) && steps != []
    ensures !Targets(steps[..|steps| - 1], steps[|steps| - 1].Item().id)
  {
    var n := |steps| - 1;
    forall i | 0 <= i < n ensures steps[..n][i].Item().id != steps[n].Item().id { assert steps[..n][i] == steps[i]; }
  }

  /** Every module ends up as its own plan item left it; the others are left alone. */
  lemma {:induction false} RunByTarget(world: World, steps: seq<Step>, views: seq<View>, outcomes: seq<bool>)
    requires Execution(world, steps, views, outcomes) && DistinctTargets(steps)
    ensures forall i | 0 <= i < |steps| :: Settled(world, views[0], views[|steps|], steps[i], outcomes[i])
    ensures forall id | !Targets(steps, id) :: SameAt(views[0], views[|steps|], id)
  {
    if steps != [] {
      var n := |steps| - 1;
      RunByTarget(world, steps[..n], views[..n + 1], outcomes[..n]);
      OtherModulesStay(world, steps[n], views[n], views[n + 1], outcomes[n]);
      forall id | !Targets(steps, id) ensures !Targets(steps[..n], id) && steps[n].Item().id != id {
        forall i | 0 <= i < n ensures steps[..n][i].Item().id != id { assert steps[i].Item().id != id; }
      }
      LastTargetIsNew(steps);
      forall i | 0 <= i < |steps| ensures Settled(world, views[0], views[|steps|], steps[i], outcomes[i]) {
        if i < n {
          assert steps[..n][i] == steps[i];
          assert SameAt(views[n], views[n + 1], steps[i].Item().id);
        }
      }
    }
  }

  /** Without external failures a step succeeds if and only if it was possible from the start. */
  lemma PossibleFromTheStart(world: World, steps: seq<Step>, views: seq<View>, outcomes: seq<bool>, i: nat)
    requires Execution(world, steps, views, outcomes) && DistinctTargets(steps) && i < |steps| && world.reliable
    ensures outcomes[i] <==> steps[i].Possible(world, views[0])
  {
    RunByTarget(world, steps[..i], views[..i + 1], outcomes[..i]);
    assert steps[..i + 1][..i] == steps[..i];
    LastTargetIsNew(steps[..i + 1]);
    assert SameAt(views[0], views[i], steps[i].Item().id);
    assert StepOutcome(world, steps[i], views[i], views[i + 1], outcomes[i]);
  }

  // ----- Plan and execution together -----

  ghost function VersionOf(status: Store.Status): string {
    if status.Intact? then status.mod.version else ""
  }

  /** What the planning looks at. */
  ghost function InstalledOf(view: View): map<string, Installed> {
    map id | id in view :: Installed(id, view[id].source, view[id].channel, VersionOf(view[id].status))
  }

  /** Which module a step of the plan is about. */
  ghost predicate StepFor(selected: Selected, installed: map<string, Installed>, ids: seq<string>, step: Step) {
    match step
    case RemoveStep(id) => id in ids && id in installed && id !in selected
    case InstallStep(wrapper) =>
      wrapper.mod.id in selected && wrapper == selected[wrapper.mod.id] && wrapper.mod.id !in installed
    case ChangeStep(change) =>
      && change.next.mod.id in selected && change.next == selected[change.next.mod.id]
      && change.next.mod.id in installed && !EqualMods(change.next, installed[change.next.mod.id])
  }

  lemma StepsAreSound(selected: Selected, installed: map<string, Installed>, ids: seq<string>, plan: Plan, i: nat)
    requires IsPlan(selected, installed, ids, plan) && FiledById(selected, installed) && NoDuplicates(ids)
    requires i < |Steps(plan)|
    ensures StepFor(selected, installed, ids, Steps(plan)[i])
  {
    var installKeys :| Lists(ToInstall(selected, installed), installKeys, plan.install);
    var changeKeys :| Lists(ToChange(selected, installed), changeKeys, plan.change);
    RemovesAre(selected, installed, ids);
    if i < |plan.remove| {
      assert plan.remove[i] in plan.remove;
    }
  }

  /** The module each step of the plan is about, by its place in the plan. */
  lemma StepTargets(selected: Selected, installed: map<string, Installed>, plan: Plan, installKeys: seq<string>,
                    changeKeys: seq<string>)
    requires FiledById(selected, installed)
    requires Lists(ToInstall(selected, installed), installKeys, plan.install)
    requires Lists(ToChange(selected, installed), changeKeys, plan.change)
    ensures |Steps(plan)| == |plan.remove + installKeys + changeKeys|
    ensures forall i | 0 <= i < |Steps(plan)| ::
              Steps(plan)[i].Item().id == (plan.remove + installKeys + changeKeys)[i]
  {
  }

  /** Install, change and remove are disjoint and free of duplicates. */
  lemma PlanIsDisjoint(selected: Selected, installed: map<string, Installed>, ids: seq<string>, plan: Plan)
    requires IsPlan(selected, installed, ids, plan) && FiledById(selected, installed) && NoDuplicates(ids)
    ensures DistinctTargets(Steps(plan))
  {
    var installKeys :| Lists(ToInstall(selected, installed), installKeys, plan.install);
    var changeKeys :| Lists(ToChange(selected, installed), changeKeys, plan.change);
    StepTargets(selected, installed, plan, installKeys, changeKeys);
    KeysAreDistinct(selected, installed, ids, plan.remove, installKeys, plan.install, changeKeys, plan.change);
  }

  /** Nothing that the request wants is missing from the plan. */
  lemma PlanIsComplete(selected: Selected, installed: map<string, Installed>, ids: seq<string>, plan: Plan, id: string)
    requires IsPlan(selected, installed, ids, plan) && FiledById(selected, installed)
    requires || id in ToInstall(selected, installed)
             || id in ToChange(selected, installed)
             || id in ToRemove(selected, installed, ids)
    ensures Targets(Steps(plan), id)
  {
    var installKeys :| Lists(ToInstall(selected, installed), installKeys, plan.install);
    var changeKeys :| Lists(ToChange(selected, installed), changeKeys, plan.change);
    StepTargets(selected, installed, plan, installKeys, changeKeys);
    var keys := plan.remove + installKeys + changeKeys;
    assert id in keys;
    var k :| 0 <= k < |keys| && keys[k] == id;
    assert Steps(plan)[k].Item().id == id;
  }

  ghost predicate HasMod(view: View, id: string) {
    id in view && view[id].status.Intact?
  }

  /** Nothing that is to go is deployed or beyond deletion, everything to be replaced still has its
      modfile, and every file system holds the module it is for. */
  ghost predicate Feasible(world: World, view: View, plan: Plan) {
    && (forall id | id in plan.remove ::
          id !in world.deployed && (id in view ==> view[id].status != Store.Broken))
    && (forall wrapper | wrapper in plan.install :: Delivers(world, wrapper))
    && (forall change | change in plan.change :: Delivers(world, change.next) && HasMod(view, change.next.mod.id))
  }

  lemma PossibleIsFeasible(world: World, view: View, plan: Plan)
    requires forall i | 0 <= i < |Steps(plan)| :: Steps(plan)[i].Possible(world, view)
    ensures Feasible(world, view, plan)
  {
    var steps, r, n := Steps(plan), |plan.remove|, |plan.install|;
    forall id | id in plan.remove ensures RemoveStep(id).Possible(world, view) {
      var k :| 0 <= k < r && plan.remove[k] == id;
      assert steps[k] == RemoveStep(id);
    }
    forall wrapper | wrapper in plan.install ensures Delivers(world, wrapper) {
      var k :| 0 <= k < n && plan.install[k] == wrapper;
      assert steps[r + k] == InstallStep(wrapper);
    }
    forall change | change in plan.change ensures ChangeStep(change).Possible(world, view) {
      var k :| 0 <= k < |plan.change| && plan.change[k] == change;
      assert steps[r + n + k] == ChangeStep(change);
    }
  }

  lemma FeasibleStep(world: World, view: View, plan: Plan, i: nat)
    requires Feasible(world, view, plan) && i < |Steps(plan)|
    requires Steps(plan)[i].InstallStep? ==> Steps(plan)[i].install.mod.id !in view
    ensures Steps(plan)[i].Possible(world, view)
  {
    var r, n := |plan.remove|, |plan.install|;
    if i < r {
      assert plan.remove[i] in plan.remove;
    } else if i < r + n {
      assert plan.install[i - r] in plan.install;
    } else {
      assert plan.change[i - r - n] in plan.change;
    }
  }

  lemma FeasibleIsPossible(world: World, selected: Selected, view: View, ids: seq<string>, plan: Plan)
    requires IsPlan(selected, InstalledOf(view), ids, plan) && FiledById(selected, InstalledOf(view))
    requires NoDuplicates(ids)
    ensures Feasible(world, view, plan) <==> forall i | 0 <= i < |Steps(plan)| :: Steps(plan)[i].Possible(world, view)
  {
    forall i | 0 <= i < |Steps(plan)| && Feasible(world, view, plan) ensures Steps(plan)[i].Possible(world, view) {
      StepsAreSound(selected, InstalledOf(view), ids, plan, i);
      FeasibleStep(world, view, plan, i);
    }
    if forall i | 0 <= i < |Steps(plan)| :: Steps(plan)[i].Possible(world, view) {
      PossibleIsFeasible(world, view, plan);
    }
  }

  /** Without external failures every step of the plan succeeds if and only if the plan is feasible. */
  lemma ReliableStepsSucceed(world: World, selected: Selected, ids: seq<string>, plan: Plan, views: seq<View>,
                             outcomes: seq<bool>)
    requires Execution(world, Steps(plan), views, outcomes) && world.reliable
    requires IsPlan(selected, InstalledOf(views[0]), ids, plan) && FiledById(selected, InstalledOf(views[0]))
    requires NoDuplicates(ids)
    ensures (forall i | 0 <= i < |outcomes| :: outcomes[i]) <==> Feasible(world, views[0], plan)
  {
    PlanIsDisjoint(selected, InstalledOf(views[0]), ids, plan);
    FeasibleIsPossible(world, selected, views[0], ids, plan);
    forall i | 0 <= i < |outcomes| ensures outcomes[i] <==> Steps(plan)[i].Possible(world, views[0]) {
      PossibleFromTheStart(world, Steps(plan), views, outcomes, i);
    }
  }

  /** What is copied has the version that was selected. */
  ghost predicate VersionKept(world: World, wrapper: Wrapper) {
    Delivers(world, wrapper) && world.files(wrapper).modfile.value.version == wrapper.mod.version
  }

  ghost predicate AsSelected(world: World, step: Step) {
    match step
    case RemoveStep(_) => true
    case InstallStep(wrapper) => VersionKept(world, wrapper)
    case ChangeStep(change) => VersionKept(world, change.next)
  }

  ghost predicate AllAsSelected(world: World, plan: Plan) {
    && (forall wrapper | wrapper in plan.install :: VersionKept(world, wrapper))
    && (forall change | change in plan.change :: VersionKept(world, change.next))
  }

  lemma StepsAreAsSelected(world: World, plan: Plan)
    ensures AllAsSelected(world, plan) <==> forall i | 0 <= i < |Steps(plan)| :: AsSelected(world, Steps(plan)[i])
  {
    var steps, r, n := Steps(plan), |plan.remove|, |plan.install|;
    if forall i | 0 <= i < |Steps(plan)| :: AsSelected(world, Steps(plan)[i]) {
      forall wrapper | wrapper in plan.install ensures VersionKept(world, wrapper) {
        var k :| 0 <= k < n && plan.install[k] == wrapper;
        assert steps[r + k] == InstallStep(wrapper);
      }
      forall change | change in plan.change ensures VersionKept(world, change.next) {
        var k :| 0 <= k < |plan.change| && plan.change[k] == change;
        assert steps[r + n + k] == ChangeStep(change);
      }
    }
  }

  ghost predicate AgreeAt(wanted: map<string, Installed>, installed: map<string, Installed>, id: string) {
    (id in installed <==> id in wanted) && (id in installed ==> installed[id] == wanted[id])
  }

  /** Each step that succeeds does what is wanted of its module if and only if the version was kept;
      each that fails does not. */
  lemma WantedAtTarget(world: World, selected: Selected, view: View, ids: seq<string>, step: Step, after: View,
                       ok: bool)
    requires StepFor(selected, InstalledOf(view), ids, step) && FiledById(selected, InstalledOf(view))
    requires Settled(world, view, after, step, ok)
    ensures AgreeAt(Wanted(selected, InstalledOf(view), ids), InstalledOf(after), step.Item().id) <==>
            ok && AsSelected(world, step)
  {
  }

  lemma UntargetedIsWanted(selected: Selected, view: View, ids: seq<string>, plan: Plan, after: View, id: string)
    requires IsPlan(selected, InstalledOf(view), ids, plan) && FiledById(selected, InstalledOf(view))
    requires NoDuplicates(ids)
    requires !Targets(Steps(plan), id) && SameAt(view, after, id)
    ensures AgreeAt(Wanted(selected, InstalledOf(view), ids), InstalledOf(after), id)
  {
    var installed := InstalledOf(view);
    RemovesAre(selected, installed, ids);
    if id in ToInstall(selected, installed) || id in ToChange(selected, installed)
       || id in ToRemove(selected, installed, ids) {
      PlanIsComplete(selected, installed, ids, plan, id);
    }
  }

  lemma AgreeingIsEqual(wanted: map<string, Installed>, installed: map<string, Installed>)
    ensures installed == wanted <==> forall id :: AgreeAt(wanted, installed, id)
  {
    if forall id :: AgreeAt(wanted, installed, id) {
      forall id ensures id in installed.Keys <==> id in wanted.Keys { assert AgreeAt(wanted, installed, id); }
      forall id | id in installed ensures installed[id] == wanted[id] { assert AgreeAt(wanted, installed, id); }
    }
  }

  /** An execution brings about exactly what was wanted if and only if every step succeeds and copies
      the version that was selected. */
  lemma ExecutionGivesWanted(world: World, selected: Selected, ids: seq<string>, plan: Plan, views: seq<View>,
                             outcomes: seq<bool>)
    requires Execution(world, Steps(plan), views, outcomes)
    requires IsPlan(selected, InstalledOf(views[0]), ids, plan) && FiledById(selected, InstalledOf(views[0]))
    requires NoDuplicates(ids)
    ensures InstalledOf(views[|Steps(plan)|]) == Wanted(selected, InstalledOf(views[0]), ids) <==>
            forall i | 0 <= i < |outcomes| :: outcomes[i] && AsSelected(world, Steps(plan)[i])
  {
    var steps := Steps(plan);
    var first, last := views[0], views[|steps|];
    var wanted := Wanted(selected, InstalledOf(first), ids);
    PlanIsDisjoint(selected, InstalledOf(first), ids, plan);
    RunByTarget(world, steps, views, outcomes);
    forall i | 0 <= i < |steps|
      ensures AgreeAt(wanted, InstalledOf(last), steps[i].Item().id) <==> outcomes[i] && AsSelected(world, steps[i])
    {
      StepsAreSound(selected, InstalledOf(first), ids, plan, i);
      WantedAtTarget(world, selected, first, ids, steps[i], last, outcomes[i]);
    }
    forall id | !Targets(steps, id) ensures AgreeAt(wanted, InstalledOf(last), id) {
      UntargetedIsWanted(selected, first, ids, plan, last, id);
    }
    AgreeingIsEqual(wanted, InstalledOf(last));
    if forall i | 0 <= i < |outcomes| :: outcomes[i] && AsSelected(world, steps[i]) {
      forall id ensures AgreeAt(wanted, InstalledOf(last), id) {
        if Targets(steps, id) {
          var i :| 0 <= i < |steps| && steps[i].Item().id == id;
        }
      }
    }
  }

  /** Without external failures it does so if and only if the plan is feasible and every file system
      still holds the version that was selected. */
  lemma ReliableExecutionGivesWanted(world: World, selected: Selected, ids: seq<string>, plan: Plan, views: seq<View>,
                                     outcomes: seq<bool>)
    requires Execution(world, Steps(plan), views, outcomes) && world.reliable
    requires IsPlan(selected, InstalledOf(views[0]), ids, plan) && FiledById(selected, InstalledOf(views[0]))
    requires NoDuplicates(ids)
    ensures InstalledOf(views[|Steps(plan)|]) == Wanted(selected, InstalledOf(views[0]), ids) <==>
            Feasible(world, views[0], plan) && AllAsSelected(world, plan)
  {
    ExecutionGivesWanted(world, selected, ids, plan, views, outcomes);
    ReliableStepsSucceed(world, selected, ids, plan, views, outcomes);
    StepsAreAsSelected(world, plan);
  }
}
