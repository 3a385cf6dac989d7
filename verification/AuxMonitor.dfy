/** The monitor of auxiliary deployments, one job per parent deployment
    (pkg/components/handler/aux_deployments/runtime_monitor.go). */
module AuxMonitor {
  import opened Prelude
  import opened RuntimeMonitor
  import Runs = MonitorRuns

  datatype Aux = Aux(enabled: bool, container: string)

  datatype Parent = Parent(enabled: bool, auxiliaries: map<string, Aux>)

  /** Negative for down, positive for up, zero for neither. */
  function GetContainerState(state: ContainerState): (direction: int)
    ensures direction > 0 <==> state in {Running, Paused, Restarting}
    ensures direction < 0 <==> state in {Initialized, Stopped, Dead}
  {
    match state
    case Initialized => -1
    case Stopped => -1
    case Dead => -1
    case Running => 1
    case Paused => 1
    case Restarting => 1
    case _ => 0
  }

  predicate Usable(aux: Aux, engine: Engine) {
    aux.container in engine && engine[aux.container].state != Removing
  }

  /** An auxiliary deployment is meant to be up if it and its parent are enabled. */
  predicate MeantUp(parent: Parent, aux: Aux) {
    parent.enabled && aux.enabled
  }

  predicate MustStart(parent: Parent, engine: Engine, aux: Aux) {
    Usable(aux, engine) && MeantUp(parent, aux) && GetContainerState(engine[aux.container].state) < 0
  }

  predicate MustStop(parent: Parent, engine: Engine, aux: Aux) {
    Usable(aux, engine) && !MeantUp(parent, aux) && GetContainerState(engine[aux.container].state) > 0
  }

  ghost function Plan(parent: Parent, engine: Engine): Work {
    Work(set id | id in parent.auxiliaries && MustStart(parent, engine, parent.auxiliaries[id]) ::
           parent.auxiliaries[id].container,
         set id | id in parent.auxiliaries && MustStop(parent, engine, parent.auxiliaries[id]) ::
           parent.auxiliaries[id].container)
  }

  ghost function Decide(parent: Parent, engine: Engine): Option<Work> {
    if Plan(parent, engine).Names() == {} then None else Some(Plan(parent, engine))
  }

  /** The check of one parent, with the two branches of the code. */
  method CheckParent(parent: Parent, engine: Engine) returns (toStart: seq<string>, toStop: seq<string>)
    ensures Elements(toStart) == Plan(parent, engine).starts
    ensures Elements(toStop) == Plan(parent, engine).stops
    ensures |toStart| > 0 || |toStop| > 0 <==> Decide(parent, engine).Some?
  {
    toStart, toStop := [], [];
    var todo := parent.auxiliaries.Keys;
    while todo != {}
      invariant todo <= parent.auxiliaries.Keys
      invariant forall name :: name in toStart <==>
                exists id ::
                  id in parent.auxiliaries && id !in todo && MustStart(parent, engine, parent.auxiliaries[id])
                             && parent.auxiliaries[id].container == name
      invariant forall name :: name in toStop <==>
                exists id :: id in parent.auxiliaries && id !in todo && MustStop(parent, engine, parent.auxiliaries[id])
                             && parent.auxiliaries[id].container == name
    {
      var id :| id in todo;
      todo := todo - {id};
      var aux := parent.auxiliaries[id];
      if aux.container !in engine || engine[aux.container].state == Removing {
      } else if parent.enabled && aux.enabled {
        if GetContainerState(engine[aux.container].state) < 0 {
          toStart := toStart + [aux.container];
        }
      } else {
        if GetContainerState(engine[aux.container].state) > 0 {
          toStop := toStop + [aux.container];
        }
      }
    }
    EmptyElements(toStart);
    EmptyElements(toStop);
    assert Elements(toStart) == Plan(parent, engine).starts && Elements(toStop) == Plan(parent, engine).stops;
  }

  // ----- Convergence -----

  ghost predicate DistinctInside(parent: Parent) {
    forall a, b | a in parent.auxiliaries && b in parent.auxiliaries && a != b ::
      parent.auxiliaries[a].container != parent.auxiliaries[b].container
  }

  ghost predicate DistinctContainers(parents: map<string, Parent>) {
    && (forall u, v, a, b | u in parents && v in parents && u != v
                            && a in parents[u].auxiliaries && b in parents[v].auxiliaries ::
          parents[u].auxiliaries[a].container != parents[v].auxiliaries[b].container)
    && (forall u | u in parents :: DistinctInside(parents[u]))
  }

  /** No container is to be started and stopped, not even one that two auxiliaries share: the
      lists depend on the opposite states of it. */
  lemma StartAndStopAreDisjoint(parent: Parent, engine: Engine)
    ensures Plan(parent, engine).starts !! Plan(parent, engine).stops
  {
  }

  lemma ParentsAreDisjoint(parents: map<string, Parent>, engine: Engine)
    requires DistinctContainers(parents)
    ensures Disjoint(Decide, parents, engine)
  {
  }

  ghost predicate InPlace(parent: Parent, aux: Aux, before: Engine, after: Engine) {
    && (aux.container in after <==> aux.container in before)
    && (aux.container in before && GetContainerState(before[aux.container].state) != 0 ==>
          && GetContainerState(after[aux.container].state) != 0
          && (GetContainerState(after[aux.container].state) > 0 <==> parent.enabled && aux.enabled))
    && (aux.container in before && GetContainerState(before[aux.container].state) == 0 ==>
          after[aux.container] == before[aux.container])
  }

  lemma NobodysWork(parents: map<string, Parent>, engine: Engine, u: string, id: string)
    requires DistinctContainers(parents) && u in parents && id in parents[u].auxiliaries
    requires !MustStart(parents[u], engine, parents[u].auxiliaries[id])
    requires !MustStop(parents[u], engine, parents[u].auxiliaries[id])
    ensures forall v | v in parents ::
              parents[u].auxiliaries[id].container !in Decided(Decide, parents, engine, v).Names()
  {
    var name := parents[u].auxiliaries[id].container;
    forall v | v in parents ensures name !in Decided(Decide, parents, engine, v).Names() {
      forall b | b in parents[v].auxiliaries && parents[v].auxiliaries[b].container == name ensures v == u && b == id {}
    }
  }

  lemma ContainerSettles(parents: map<string, Parent>, before: Engine, after: Engine, u: string, id: string)
    requires DistinctContainers(parents) && RoundResult(Decide, parents, before, after)
    requires u in parents && id in parents[u].auxiliaries
    ensures InPlace(parents[u], parents[u].auxiliaries[id], before, after)
  {
    var aux := parents[u].auxiliaries[id];
    var name := aux.container;
    if name in before {
      if MustStart(parents[u], before, aux) {
        assert name in Plan(parents[u], before).starts;
        assert name in Decided(Decide, parents, before, u).Names();
      } else if MustStop(parents[u], before, aux) {
        assert name in Plan(parents[u], before).stops;
        StartAndStopAreDisjoint(parents[u], before);
        assert name in Decided(Decide, parents, before, u).Names();
      } else {
        NobodysWork(parents, before, u, id);
      }
    }
  }

  lemma NothingLeft(parent: Parent, before: Engine, after: Engine)
    requires forall id | id in parent.auxiliaries :: InPlace(parent, parent.auxiliaries[id], before, after)
    ensures Decide(parent, after).None?
  {
    forall id | id in parent.auxiliaries
      ensures !MustStart(parent, after, parent.auxiliaries[id]) && !MustStop(parent, after, parent.auxiliaries[id])
    {
      assert InPlace(parent, parent.auxiliaries[id], before, after);
    }
    assert Plan(parent, after).Names() == {};
  }

  /** After a round every existing container in a known state is up exactly if it is meant to
      be, and the next tick leaves the parent alone. */
  lemma OneRoundSettles(states: seq<System<Parent>>, actions: seq<Action>, u: string)
    requires IsRun(Decide, states, actions) && RoundStart(states[0]) && DistinctContainers(states[0].units)
    requires forall action | action in actions :: QuietAction(action)
    requires states[|states| - 1].loop.Idle? && states[|states| - 1].jobs == []
    requires u in states[0].units
    ensures forall id | id in states[0].units[u].auxiliaries ::
              InPlace(states[0].units[u], states[0].units[u].auxiliaries[id], states[0].engine,
                      states[|states| - 1].engine)
    ensures Decide(states[0].units[u], states[|states| - 1].engine).None?
  {
    var units, before, after := states[0].units, states[0].engine, states[|states| - 1].engine;
    ParentsAreDisjoint(units, before);
    RoundCompletes(Decide, states, actions);
    forall id | id in units[u].auxiliaries ensures InPlace(units[u], units[u].auxiliaries[id], before, after) {
      ContainerSettles(units, before, after, u, id);
    }
    NothingLeft(units[u], before, after);
  }

  // ----- Many ticks -----

  ghost function Containers(parent: Parent): set<string> {
    set id | id in parent.auxiliaries :: parent.auxiliaries[id].container
  }

  ghost function ContainersUp(parent: Parent): set<string> {
    set id | id in parent.auxiliaries && MeantUp(parent, parent.auxiliaries[id]) :: parent.auxiliaries[id].container
  }

  /** Its own state decides whether a container is touched. */
  predicate Touched(up: bool, c: Container) {
    c.state != Removing && if up then GetContainerState(c.state) < 0 else GetContainerState(c.state) > 0
  }

  ghost function Goals(): Runs.Goals<Parent> {
    Runs.Goals((p: Parent) => Containers(p), (p: Parent) => ContainersUp(p),
               (p: Parent, name: string, c: Container) => Touched(name in ContainersUp(p), c))
  }

  /** The only auxiliary of a container tells where it is meant to be. */
  lemma MeantUpByName(parent: Parent, id: string)
    requires DistinctInside(parent) && id in parent.auxiliaries
    ensures parent.auxiliaries[id].container in Containers(parent)
    ensures parent.auxiliaries[id].container in ContainersUp(parent) <==> MeantUp(parent, parent.auxiliaries[id])
  {
  }

  ghost predicate WantedAt(parent: Parent, engine: Engine, name: string) {
    name in Containers(parent) && name in engine && Touched(name in ContainersUp(parent), engine[name])
  }

  lemma PlanAims(parent: Parent, engine: Engine)
    requires DistinctInside(parent)
    ensures Runs.Aims(Goals(), parent, engine, Plan(parent, engine))
  {
    var work := Plan(parent, engine);
    forall name | name in work.starts ensures name in ContainersUp(parent) && WantedAt(parent, engine, name) {
      var id :| id in parent.auxiliaries && MustStart(parent, engine, parent.auxiliaries[id])
                && parent.auxiliaries[id].container == name;
      MeantUpByName(parent, id);
    }
    forall name | name in work.stops ensures name !in ContainersUp(parent) && WantedAt(parent, engine, name) {
      var id :| id in parent.auxiliaries && MustStop(parent, engine, parent.auxiliaries[id])
                && parent.auxiliaries[id].container == name;
      MeantUpByName(parent, id);
    }
  }

  lemma PlanIsLocal(parent: Parent, engine: Engine, engine': Engine)
    requires Goals().SameFor(parent, engine, engine')
    ensures Plan(parent, engine) == Plan(parent, engine')
  {
    forall id | id in parent.auxiliaries
      ensures Runs.SameAt(engine, engine', parent.auxiliaries[id].container)
    {
      assert parent.auxiliaries[id].container in Containers(parent);
    }
  }

  lemma PlansFollow(parents: map<string, Parent>)
    requires DistinctContainers(parents)
    ensures Runs.Follows(Goals(), Decide, parents)
  {
    forall u, engine | u in parents && Decide(parents[u], engine).Some?
      ensures Runs.Aims(Goals(), parents[u], engine, Decide(parents[u], engine).value)
    {
      PlanAims(parents[u], engine);
    }
    forall u, engine, engine' | u in parents && Goals().SameFor(parents[u], engine, engine')
      ensures Decide(parents[u], engine) == Decide(parents[u], engine')
    {
      PlanIsLocal(parents[u], engine, engine');
    }
  }

  lemma ContainersAreDisjoint(parents: map<string, Parent>)
    requires DistinctContainers(parents)
    ensures Goals().Disjoint(parents)
  {
  }

  /** A container that no decision was about needs nothing, then and later. */
  lemma UntouchedNeedsNothing(parent: Parent, engine: Engine, id: string)
    requires DistinctInside(parent) && id in parent.auxiliaries
    requires parent.auxiliaries[id].container in engine
    requires parent.auxiliaries[id].container !in Plan(parent, engine).Names()
    ensures !Touched(MeantUp(parent, parent.auxiliaries[id]), engine[parent.auxiliaries[id].container])
  {
    var aux := parent.auxiliaries[id];
    assert MustStart(parent, engine, aux) ==> aux.container in Plan(parent, engine).starts;
    assert MustStop(parent, engine, aux) ==> aux.container in Plan(parent, engine).stops;
  }

  lemma BasisIsInPlace(parents: map<string, Parent>, before: Engine, after: Engine, u: string, id: string, d: Engine)
    requires DistinctContainers(parents) && u in parents && id in parents[u].auxiliaries
    requires parents[u].auxiliaries[id].container in before
    requires Goals().Moved(parents, before, after)
    requires Runs.IsBasis(Goals(), Decide, parents, before, after, u, d)
    ensures InPlace(parents[u], parents[u].auxiliaries[id], before, after)
  {
    var parent := parents[u];
    var name := parent.auxiliaries[id].container;
    assert DistinctInside(parent);
    MeantUpByName(parent, id);
    assert Goals().MovedAt(parent, name, before[name], after[name]);
    assert Goals().MovedAt(parent, name, before[name], d[name]) && Goals().MovedAt(parent, name, d[name], after[name]);
    if name in Plan(parent, d).Names() {
      assert Goals().AtGoal(parent, name, after[name]);
      PlanAims(parent, d);
    } else {
      UntouchedNeedsNothing(parent, d, id);
    }
  }

  lemma SettledIsInPlace(parents: map<string, Parent>, before: Engine, after: Engine, u: string, id: string)
    requires DistinctContainers(parents) && u in parents && id in parents[u].auxiliaries
    requires Goals().Moved(parents, before, after) && Runs.Settled(Goals(), Decide, parents, before, after, u)
    ensures InPlace(parents[u], parents[u].auxiliaries[id], before, after)
  {
    var parent := parents[u];
    var name := parent.auxiliaries[id].container;
    assert DistinctInside(parent);
    MeantUpByName(parent, id);
    if name in before {
      assert Goals().MovedAt(parent, name, before[name], after[name]);
      if Decide(parent, before).None? {
        assert Runs.SameAt(before, after, name);
        UntouchedNeedsNothing(parent, before, id);
      } else {
        var d :| Runs.IsBasis(Goals(), Decide, parents, before, after, u, d);
        BasisIsInPlace(parents, before, after, u, id, d);
      }
    }
  }

  /** However many ticks there are, and however they overlap with the jobs of earlier ones: in the end
      every existing container in a known state is up exactly if it is meant to be, and the next tick
      leaves the parent alone. */
  lemma ManyTicksSettle(states: seq<System<Parent>>, actions: seq<Action>, u: string)
    requires IsRun(Decide, states, actions) && Start(states[0]) && DistinctContainers(states[0].units)
    requires forall i | 0 <= i < |actions| :: Runs.Undisturbed(actions[i])
    requires EndTick in actions && states[|actions|].loop.Idle? && states[|actions|].jobs == []
    requires u in states[0].units
    ensures forall id | id in states[0].units[u].auxiliaries ::
              InPlace(states[0].units[u], states[0].units[u].auxiliaries[id], states[0].engine,
                      states[|actions|].engine)
    ensures Decide(states[0].units[u], states[|actions|].engine).None?
  {
    var parents, before, after := states[0].units, states[0].engine, states[|actions|].engine;
    PlansFollow(parents);
    ContainersAreDisjoint(parents);
    Runs.TicksSettle(Goals(), Decide, states, actions);
    forall id | id in parents[u].auxiliaries ensures InPlace(parents[u], parents[u].auxiliaries[id], before, after) {
      SettledIsInPlace(parents, before, after, u, id);
    }
    NothingLeft(parents[u], before, after);
  }
}
