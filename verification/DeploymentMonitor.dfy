/** The monitor that starts enabled and stops disabled deployments
    (pkg/components/handler/deployments/runtime_monitor.go, list.go). */
module DeploymentMonitor {
  import opened Prelude
  import opened RuntimeMonitor
  import Runs = MonitorRuns

  /** `containers` maps service references to container names. */
  datatype Deployment = Deployment(enabled: bool, containers: map<string, string>)

  datatype Combined = AllStopped | AllRunning | Partial | SomeUnhealthy | Broken

  predicate IsUnhealthy(container: Container) {
    container.health == Some(Unhealthy)
  }

  ghost function RunningRefs(containers: map<string, string>, engine: Engine): set<string> {
    set ref | ref in containers && containers[ref] in engine && engine[containers[ref]].state == Running
  }

  ghost function UnhealthyRefs(containers: map<string, string>, engine: Engine): set<string> {
    set ref | ref in containers && containers[ref] in engine && IsUnhealthy(engine[containers[ref]])
  }

  ghost predicate AllPresent(containers: map<string, string>, engine: Engine) {
    forall ref | ref in containers :: containers[ref] in engine
  }

  ghost predicate IsUp(engine: Engine, name: string) {
    name in engine && engine[name].state == Running
  }

  ghost predicate AllUp(containers: map<string, string>, engine: Engine) {
    forall ref | ref in containers :: IsUp(engine, containers[ref])
  }

  ghost predicate NoneUp(containers: map<string, string>, engine: Engine) {
    forall ref | ref in containers :: !IsUp(engine, containers[ref])
  }

  ghost predicate NoneUnhealthy(containers: map<string, string>, engine: Engine) {
    forall ref | ref in containers && containers[ref] in engine :: !IsUnhealthy(engine[containers[ref]])
  }

  /** The combined state, said without counting. No containers at all counts as stopped. */
  ghost function CombinedState(containers: map<string, string>, engine: Engine): Combined {
    if !AllPresent(containers, engine) then Broken
    else if RunningRefs(containers, engine) == {} then AllStopped
    else if RunningRefs(containers, engine) != containers.Keys then Partial
    else if UnhealthyRefs(containers, engine) != {} then SomeUnhealthy else AllRunning
  }

  lemma CountingIsEnough(containers: map<string, string>, engine: Engine)
    ensures |RunningRefs(containers, engine)| == |containers| <==> RunningRefs(containers, engine) == containers.Keys
  {
    assert |containers| == |containers.Keys|;
    if |RunningRefs(containers, engine)| == |containers| {
      SameSizeSubset(RunningRefs(containers, engine), containers.Keys);
    }
  }

  method GetContainersCombinedState(containers: map<string, string>, engine: Engine) returns (state: Combined)
    ensures state == CombinedState(containers, engine)
  {
    var runningCount, unhealthyCount := 0, 0;
    ghost var running: set<string>, unhealthy: set<string> := {}, {};
    var todo := containers.Keys;
    while todo != {}
      invariant todo <= containers.Keys
      invariant forall ref | ref in containers && ref !in todo :: containers[ref] in engine
      invariant forall ref :: ref in running <==> ref in RunningRefs(containers, engine) && ref !in todo
      invariant forall ref :: ref in unhealthy <==> ref in UnhealthyRefs(containers, engine) && ref !in todo
      invariant |running| == runningCount && |unhealthy| == unhealthyCount
    {
      var ref :| ref in todo;
      todo := todo - {ref};
      if containers[ref] !in engine {
        return Broken;
      }
      var container := engine[containers[ref]];
      if container.state == Running {
        runningCount, running := runningCount + 1, running + {ref};
      }
      if IsUnhealthy(container) {
        unhealthyCount, unhealthy := unhealthyCount + 1, unhealthy + {ref};
      }
    }
    assert running == RunningRefs(containers, engine) && unhealthy == UnhealthyRefs(containers, engine);
    CountingIsEnough(containers, engine);
    state := if runningCount == 0 then AllStopped
             else if runningCount == |containers| then if unhealthyCount > 0 then SomeUnhealthy else AllRunning
             else Partial;
  }

  ghost function Decide(deployment: Deployment, engine: Engine): Option<Work> {
    var state := CombinedState(deployment.containers, engine);
    if state == Broken || state == SomeUnhealthy then None
    else if deployment.enabled then
      if state == AllRunning then None else Some(Work(deployment.containers.Values, {}))
    else
      if state == AllStopped then None else Some(Work({}, deployment.containers.Values))
  }

  lemma RefsAre(containers: map<string, string>, engine: Engine)
    requires AllPresent(containers, engine)
    ensures RunningRefs(containers, engine) == {} <==> NoneUp(containers, engine)
    ensures RunningRefs(containers, engine) == containers.Keys <==> AllUp(containers, engine)
    ensures UnhealthyRefs(containers, engine) == {} <==> NoneUnhealthy(containers, engine)
  {
    var running, unhealthy := RunningRefs(containers, engine), UnhealthyRefs(containers, engine);
    forall ref | ref in containers
      ensures IsUp(engine, containers[ref]) <==> ref in running
      ensures IsUnhealthy(engine[containers[ref]]) <==> ref in unhealthy
    {
    }
    if NoneUp(containers, engine) {
      assert forall ref :: ref !in running;
    }
    if NoneUnhealthy(containers, engine) {
      assert forall ref :: ref !in unhealthy;
    }
    if running == containers.Keys {
      assert forall ref | ref in containers.Keys :: ref in running;
    }
    if AllUp(containers, engine) {
      assert forall ref | ref in containers.Keys :: ref in running;
    }
  }

  /** What each combined state says of the containers. */
  lemma CombinedStateMeans(containers: map<string, string>, engine: Engine)
    ensures var state := CombinedState(containers, engine);
            && (state == Broken <==> exists ref :: ref in containers && containers[ref] !in engine)
            && (state == AllStopped <==> AllPresent(containers, engine) && NoneUp(containers, engine))
            && (state == Partial <==>
                  && AllPresent(containers, engine)
                  && !NoneUp(containers, engine) && !AllUp(containers, engine))
            && (state == SomeUnhealthy <==>
                  containers != map[] && AllUp(containers, engine) && !NoneUnhealthy(containers, engine))
            && (state == AllRunning <==>
                  containers != map[] && AllUp(containers, engine) && NoneUnhealthy(containers, engine))
  {
    if AllUp(containers, engine) {
      assert AllPresent(containers, engine) by {
        forall ref | ref in containers ensures containers[ref] in engine { assert IsUp(engine, containers[ref]); }
      }
    }
    if AllPresent(containers, engine) {
      RefsAre(containers, engine);
      assert containers != map[] <==> containers.Keys != {};
    }
  }

  /** When there is a job for a deployment, and what it is: everything is started if an enabled one has
      a container that does not run, or none at all, and everything stopped if one of a disabled one
      runs, unless all run and one is unhealthy. */
  lemma DecisionIs(deployment: Deployment, engine: Engine)
    ensures var containers := deployment.containers;
            Decide(deployment, engine).Some? <==>
              && AllPresent(containers, engine)
              && (if deployment.enabled then containers == map[] || !AllUp(containers, engine)
                  else !NoneUp(containers, engine)
                       && (!AllUp(containers, engine) || NoneUnhealthy(containers, engine)))
    ensures Decide(deployment, engine).Some? ==>
              Decide(deployment, engine).value ==
              if deployment.enabled then Work(deployment.containers.Values, {})
              else Work({}, deployment.containers.Values)
  {
    CombinedStateMeans(deployment.containers, engine);
  }

  class Monitor {
    var runtimeMonitorJobs: set<string>

    constructor ()
      ensures runtimeMonitorJobs == {}
    {
      runtimeMonitorJobs := {};
    }

    method RuntimeMonitorJobsFilter(deployments: map<string, Deployment>) returns (filtered: map<string, Deployment>)
      ensures filtered == map id | id in deployments && id !in runtimeMonitorJobs :: deployments[id]
    {
      filtered := map[];
      var todo := deployments.Keys;
      while todo != {}
        invariant todo <= deployments.Keys
        invariant filtered == map id | id in deployments && id !in todo && id !in runtimeMonitorJobs :: deployments[id]
      {
        var id :| id in todo;
        todo := todo - {id};
        if id !in runtimeMonitorJobs {
          filtered := filtered[id := deployments[id]];
        }
      }
    }

    /** The body of the loop over the deployments; the id is taken before the job starts. */
    method CheckDeployment(id: string, deployment: Deployment, engine: Engine) returns (work: Option<Work>)
      modifies this
      ensures work == Decide(deployment, engine)
      ensures runtimeMonitorJobs == if work.Some? then old(runtimeMonitorJobs) + {id} else old(runtimeMonitorJobs)
    {
      var state := GetContainersCombinedState(deployment.containers, engine);
      if state == Broken || state == SomeUnhealthy {
        return None;
      }
      if deployment.enabled {
        if state == AllRunning {
          return None;
        }
        runtimeMonitorJobs := runtimeMonitorJobs + {id};
        return Some(Work(deployment.containers.Values, {}));
      } else {
        if state == AllStopped {
          return None;
        }
        runtimeMonitorJobs := runtimeMonitorJobs + {id};
        return Some(Work({}, deployment.containers.Values));
      }
    }

    /** One tick on its own: it launches exactly the jobs that are decided on, for exactly the
        deployments that are not in flight. */
    method CheckDeployments(deployments: map<string, Deployment>, engine: Engine) returns (launched: map<string, Work>)
      modifies this
      ensures forall id :: id in launched <==>
                           id in deployments && id !in old(runtimeMonitorJobs) && Decide(deployments[id], engine).Some?
      ensures forall id | id in launched :: Decide(deployments[id], engine) == Some(launched[id])
      ensures runtimeMonitorJobs == old(runtimeMonitorJobs) + launched.Keys
    {
      launched := map[];
      var filtered := RuntimeMonitorJobsFilter(deployments);
      var todo := filtered.Keys;
      while todo != {}
        invariant todo <= filtered.Keys
        invariant forall id :: id in launched <==>
                               id in filtered && id !in todo && Decide(deployments[id], engine).Some?
        invariant forall id | id in launched :: Decide(deployments[id], engine) == Some(launched[id])
        invariant runtimeMonitorJobs == old(runtimeMonitorJobs) + launched.Keys
      {
        var id :| id in todo;
        todo := todo - {id};
        var work := CheckDeployment(id, filtered[id], engine);
        if work.Some? {
          launched := launched[id := work.value];
        }
      }
    }
  }

  // ----- Convergence -----

  /** Container names are generated: no two deployments share one. */
  ghost predicate DistinctContainers(deployments: map<string, Deployment>) {
    forall u, v | u in deployments && v in deployments && u != v ::
      deployments[u].containers.Values !! deployments[v].containers.Values
  }

  /** What the decision makes of the containers of a deployment. */
  ghost predicate CarriedOut(deployment: Deployment, before: Engine, after: Engine) {
    && after.Keys == before.Keys
    && forall ref | ref in deployment.containers && deployment.containers[ref] in before ::
         var name := deployment.containers[ref];
         after[name] == match Decide(deployment, before)
                        case None => before[name]
                        case Some(work) => work.Effect(name, before[name])
  }

  lemma EffectOfDecision(deployment: Deployment, before: Engine, after: Engine, ref: string)
    requires CarriedOut(deployment, before, after) && ref in deployment.containers
    ensures var name := deployment.containers[ref];
            IsUp(after, name) <==>
            if Decide(deployment, before).Some? then name in before && deployment.enabled else IsUp(before, name)
  {
    DecisionIs(deployment, before);
    assert deployment.containers[ref] in deployment.containers.Values;
  }

  /** All containers of an enabled deployment run afterwards if and only if all of them exist; its
      combined state is running if and only if, besides, there is one and none is unhealthy. */
  lemma EnabledConverges(deployment: Deployment, before: Engine, after: Engine)
    requires deployment.enabled && CarriedOut(deployment, before, after)
    ensures AllUp(deployment.containers, after) <==> AllPresent(deployment.containers, before)
    ensures CombinedState(deployment.containers, after) == AllRunning <==>
            && deployment.containers != map[]
            && AllPresent(deployment.containers, before)
            && NoneUnhealthy(deployment.containers, before)
  {
    var containers := deployment.containers;
    DecisionIs(deployment, before);
    CombinedStateMeans(containers, after);
    forall ref | ref in containers
      ensures IsUp(after, containers[ref]) <==>
              if Decide(deployment, before).Some? then containers[ref] in before else IsUp(before, containers[ref])
    {
      EffectOfDecision(deployment, before, after, ref);
    }
    assert NoneUnhealthy(containers, after) <==> NoneUnhealthy(containers, before);
  }

  /** No container of a disabled deployment runs afterwards if and only if none did before, or all
      exist and they were not all running with one of them unhealthy: such a deployment is left running
      although it is disabled. */
  lemma DisabledConverges(deployment: Deployment, before: Engine, after: Engine)
    requires !deployment.enabled && CarriedOut(deployment, before, after)
    ensures NoneUp(deployment.containers, after) <==>
            || NoneUp(deployment.containers, before)
            || (&& AllPresent(deployment.containers, before)
                && !(AllUp(deployment.containers, before) && !NoneUnhealthy(deployment.containers, before)))
    ensures CombinedState(deployment.containers, after) == AllStopped <==>
            CombinedState(deployment.containers, before) != Broken
            && CombinedState(deployment.containers, before) != SomeUnhealthy
  {
    var containers := deployment.containers;
    DecisionIs(deployment, before);
    CombinedStateMeans(containers, before);
    CombinedStateMeans(containers, after);
    forall ref | ref in containers
      ensures IsUp(after, containers[ref]) <==> Decide(deployment, before).None? && IsUp(before, containers[ref])
    {
      EffectOfDecision(deployment, before, after, ref);
    }
  }

  /** After a round a deployment gets another job if and only if it is enabled without having
      any container: that one is started again at every tick. */
  lemma NextTickLaunches(deployment: Deployment, before: Engine, after: Engine)
    requires CarriedOut(deployment, before, after)
    ensures Decide(deployment, after).Some? <==> deployment.enabled && deployment.containers == map[]
  {
    var containers := deployment.containers;
    var state := CombinedState(containers, before);
    forall ref | ref in containers ensures containers[ref] in containers.Values {}
    if containers == map[] {
      assert RunningRefs(containers, before) == {};
    } else if Decide(deployment, before).None? {
      assert RunningRefs(containers, after) == RunningRefs(containers, before);
      assert UnhealthyRefs(containers, after) == UnhealthyRefs(containers, before);
    } else if deployment.enabled {
      assert RunningRefs(containers, after) == containers.Keys;
    } else {
      assert RunningRefs(containers, after) == {};
    }
  }

  /** A container is touched by the job of its own deployment, if there is one, and by no other. */
  lemma OnlyItsOwnJob(units: map<string, Deployment>, before: Engine, id: string, ref: string)
    requires DistinctContainers(units) && id in units && ref in units[id].containers
    requires units[id].containers[ref] in before
    ensures var name := units[id].containers[ref];
            if Decide(units[id], before).None? then
              forall u | u in units :: name !in Decided(Decide, units, before, u).Names()
            else name in Decided(Decide, units, before, id).Names()
  {
    var name := units[id].containers[ref];
    assert name in units[id].containers.Values;
    if Decide(units[id], before).None? {
      forall u | u in units ensures name !in Decided(Decide, units, before, u).Names() {
        assert u != id ==> name !in units[u].containers.Values;
      }
    }
  }

  /** One tick and the jobs it launched, in any interleaving and without failures, settle every
      deployment for good. */
  lemma OneRoundSettles(states: seq<System<Deployment>>, actions: seq<Action>, id: string)
    requires IsRun(Decide, states, actions) && RoundStart(states[0]) && DistinctContainers(states[0].units)
    requires forall action | action in actions :: QuietAction(action)
    requires states[|states| - 1].loop.Idle? && states[|states| - 1].jobs == []
    requires id in states[0].units
    ensures CarriedOut(states[0].units[id], states[0].engine, states[|states| - 1].engine)
  {
    var units, before, after := states[0].units, states[0].engine, states[|states| - 1].engine;
    RoundCompletes(Decide, states, actions);
    var deployment := units[id];
    forall ref | ref in deployment.containers && deployment.containers[ref] in before
      ensures var name := deployment.containers[ref];
              after[name] == match Decide(deployment, before)
                             case None => before[name]
                             case Some(work) => work.Effect(name, before[name])
    {
      OnlyItsOwnJob(units, before, id, ref);
    }
  }

  // ----- Many ticks -----

  /** A deployment wants all of its containers in the same state. */
  function Goals(): Runs.Goals<Deployment> {
    Runs.Goals((d: Deployment) => d.containers.Values, (d: Deployment) => if d.enabled then d.containers.Values else {},
               (d: Deployment, name: string, c: Container) => true)
  }

  lemma DecisionIsLocal(deployment: Deployment, engine: Engine, engine': Engine)
    requires Goals().SameFor(deployment, engine, engine')
    ensures Decide(deployment, engine) == Decide(deployment, engine')
  {
    var containers := deployment.containers;
    forall ref | ref in containers ensures Runs.SameAt(engine, engine', containers[ref]) {
      assert containers[ref] in containers.Values;
    }
    assert RunningRefs(containers, engine) == RunningRefs(containers, engine');
    assert UnhealthyRefs(containers, engine) == UnhealthyRefs(containers, engine');
  }

  lemma DecisionsFollow(units: map<string, Deployment>)
    ensures Runs.Follows(Goals(), Decide, units)
  {
    forall d, engine, engine' | Goals().SameFor(d, engine, engine') ensures Decide(d, engine) == Decide(d, engine') {
      DecisionIsLocal(d, engine, engine');
    }
  }

  lemma SettledIsCarriedOut(units: map<string, Deployment>, before: Engine, after: Engine, id: string)
    requires id in units && Goals().Moved(units, before, after)
    requires Runs.Settled(Goals(), Decide, units, before, after, id)
    ensures CarriedOut(units[id], before, after)
  {
    var deployment := units[id];
    forall ref | ref in deployment.containers && deployment.containers[ref] in before
      ensures var name := deployment.containers[ref];
              after[name] == match Decide(deployment, before)
                             case None => before[name]
                             case Some(work) => work.Effect(name, before[name])
    {
      var name := deployment.containers[ref];
      assert name in deployment.containers.Values;
      assert Goals().MovedAt(deployment, name, before[name], after[name]);
      if Decide(deployment, before).None? {
        assert Runs.SameAt(before, after, name);
      } else {
        var d :| Runs.IsBasis(Goals(), Decide, units, before, after, id, d);
        assert Goals().AtGoal(deployment, name, after[name]);
      }
    }
  }

  /** However many ticks there are, and however they overlap with the jobs of earlier ones: in the end
      every deployment is where the first decision about it puts it. */
  lemma ManyTicksSettle(states: seq<System<Deployment>>, actions: seq<Action>, id: string)
    requires IsRun(Decide, states, actions) && Start(states[0]) && DistinctContainers(states[0].units)
    requires forall i | 0 <= i < |actions| :: Runs.Undisturbed(actions[i])
    requires EndTick in actions && states[|actions|].loop.Idle? && states[|actions|].jobs == []
    requires id in states[0].units
    ensures CarriedOut(states[0].units[id], states[0].engine, states[|actions|].engine)
  {
    DecisionsFollow(states[0].units);
    Runs.TicksSettle(Goals(), Decide, states, actions);
    SettledIsCarriedOut(states[0].units, states[0].engine, states[|actions|].engine, id);
  }

  /** Whatever its containers are: after any run of ticks all containers of an enabled deployment run if
      and only if all existed, and none of a disabled one does unless one was missing, or all ran and
      one was unhealthy. */
  lemma ManyTicksConverge(states: seq<System<Deployment>>, actions: seq<Action>, id: string)
    requires IsRun(Decide, states, actions) && Start(states[0]) && DistinctContainers(states[0].units)
    requires forall i | 0 <= i < |actions| :: Runs.Undisturbed(actions[i])
    requires EndTick in actions && states[|actions|].loop.Idle? && states[|actions|].jobs == []
    requires id in states[0].units
    ensures var deployment, before, after := states[0].units[id], states[0].engine, states[|actions|].engine;
            var containers := deployment.containers;
            if deployment.enabled then AllUp(containers, after) <==> AllPresent(containers, before)
            else NoneUp(containers, after) <==>
                 || NoneUp(containers, before)
                 || (&& AllPresent(containers, before)
                     && !(AllUp(containers, before) && !NoneUnhealthy(containers, before)))
  {
    var deployment, before, after := states[0].units[id], states[0].engine, states[|actions|].engine;
    ManyTicksSettle(states, actions, id);
    if deployment.enabled {
      EnabledConverges(deployment, before, after);
    } else {
      DisabledConverges(deployment, before, after);
    }
  }

  ghost predicate IsSound(deployment: Deployment, engine: Engine) {
    && deployment.containers != map[]
    && AllPresent(deployment.containers, engine)
    && NoneUnhealthy(deployment.containers, engine)
  }

  lemma SoundConverges(deployment: Deployment, before: Engine, after: Engine)
    requires CarriedOut(deployment, before, after) && IsSound(deployment, before)
    ensures forall ref | ref in deployment.containers ::
              IsUp(after, deployment.containers[ref]) <==> deployment.enabled
    ensures CombinedState(deployment.containers, after) == if deployment.enabled then AllRunning else AllStopped
    ensures Decide(deployment, after).None?
  {
    NextTickLaunches(deployment, before, after);
    if deployment.enabled {
      EnabledConverges(deployment, before, after);
    } else {
      assert UnhealthyRefs(deployment.containers, before) == {};
      DisabledConverges(deployment, before, after);
    }
  }

  /** With sound containers everywhere, after any run of ticks every container of an enabled deployment
      runs and none of a disabled one does, and the next tick finds nothing to do. */
  lemma SoundSystemConverges(states: seq<System<Deployment>>, actions: seq<Action>)
    requires IsRun(Decide, states, actions) && Start(states[0]) && DistinctContainers(states[0].units)
    requires forall i | 0 <= i < |actions| :: Runs.Undisturbed(actions[i])
    requires EndTick in actions && states[|actions|].loop.Idle? && states[|actions|].jobs == []
    requires forall id | id in states[0].units :: IsSound(states[0].units[id], states[0].engine)
    ensures forall id | id in states[0].units ::
              var deployment, after := states[0].units[id], states[|actions|].engine;
              && (forall ref | ref in deployment.containers ::
                    var name := deployment.containers[ref];
                    name in after && (after[name].state == Running <==> deployment.enabled))
              && CombinedState(deployment.containers, after) == (if deployment.enabled then AllRunning else AllStopped)
              && Decide(deployment, after).None?
  {
    var units, before, after := states[0].units, states[0].engine, states[|actions|].engine;
    forall id | id in units
      ensures forall ref | ref in units[id].containers ::
                units[id].containers[ref] in after && (IsUp(after, units[id].containers[ref]) <==> units[id].enabled)
      ensures CombinedState(units[id].containers, after) == if units[id].enabled then AllRunning else AllStopped
      ensures Decide(units[id], after).None?
    {
      ManyTicksSettle(states, actions, id);
      SoundConverges(units[id], before, after);
    }
  }

  /** A disabled deployment that keeps running: its only container is unhealthy. */
  lemma UnhealthyKeepsRunning(reference: string, name: string)
    ensures var deployment := Deployment(false, map[reference := name]);
            var engine := map[name := Container(Running, Some(Unhealthy))];
            && Decide(deployment, engine).None? && !NoneUp(deployment.containers, engine)
            && CombinedState(deployment.containers, engine) != AllStopped
            && CarriedOut(deployment, engine, engine)
  {
    var containers := map[reference := name];
    var engine := map[name := Container(Running, Some(Unhealthy))];
    assert containers.Keys == {reference} && containers[reference] == name;
    assert RunningRefs(containers, engine) == {reference} && UnhealthyRefs(containers, engine) == {reference};
  }
}
