/** The protocol both runtime monitors follow: a loop that reads the wanted and the actual
    state, skips what is being worked on, and launches one job for everything else that needs
    one. A step is one critical section of the code, one call to the container engine, or a
    change from outside (pkg/components/handler/deployments/runtime_monitor.go,
    pkg/components/handler/aux_deployments/runtime_monitor.go). */
module RuntimeMonitor {
  import opened Prelude

  datatype ContainerState = Initialized | Running | Paused | Restarting | Removing | Stopped | Dead | OtherState

  datatype Health = Healthy | Unhealthy | Transitioning

  datatype Container = Container(state: ContainerState, health: Option<Health>)

  /** Containers by name. */
  type Engine = map<string, Container>

  datatype Work = Work(starts: set<string>, stops: set<string>) {
    ghost function Names(): set<string> {
      starts + stops
    }

    ghost function Without(name: string): Work {
      Work(starts - {name}, stops - {name})
    }

    ghost function Effect(name: string, container: Container): Container {
      if name in starts then container.(state := Running)
      else if name in stops then container.(state := Stopped) else container
    }
  }

  /** A launched job, with the engine calls it still has to make. */
  datatype Job = Job(unit: string, work: Work)

  datatype Loop<U> =
    | Idle
    | HasUnits(units: map<string, U>)
    | HasData(units: map<string, U>, engine: Engine)
    | Checking(units: map<string, U>, engine: Engine, todo: set<string>)
    | Launching(units: map<string, U>, engine: Engine, todo: set<string>, job: Job)

  /** `units` are the database rows, `inFlight` is the set of ids under the mutex, `jobs` are the
      running goroutines. Nothing in the model prevents two jobs for one unit. */
  datatype System<U> = System(units: map<string, U>, engine: Engine, inFlight: set<string>, jobs: seq<Job>,
                              loop: Loop<U>)

  datatype Action =
    | ReadUnits
    | ReadEngine
    | ReadFailed
    | FilterInFlight
    | Check(unit: string)
    | Spawn
    | EndTick
    | EngineCall(job: nat, name: string, ok: bool)
    | EndJob(job: nat)
    | Outside

  ghost predicate Next<U(!new)>(decide: (U, Engine) -> Option<Work>, s: System<U>, action: Action, s': System<U>)
  {
    match action
    case ReadUnits => s.loop.Idle? && s' == s.(loop := HasUnits(s.units))
    case ReadEngine => s.loop.HasUnits? && s' == s.(loop := HasData(s.loop.units, s.engine))
    case ReadFailed => s.loop.HasUnits? && s' == s.(loop := Idle)
    case FilterInFlight =>
      && s.loop.HasData?
      && s' == s.(loop := Checking(s.loop.units, s.loop.engine, s.loop.units.Keys - s.inFlight))
    case Check(unit) =>
      && s.loop.Checking? && unit in s.loop.todo && unit in s.loop.units
      && var rest := s.loop.todo - {unit};
         (match decide(s.loop.units[unit], s.loop.engine)
          case None => s' == s.(loop := Checking(s.loop.units, s.loop.engine, rest))
          case Some(work) => s' == s.(inFlight := s.inFlight + {unit},
                                      loop := Launching(s.loop.units, s.loop.engine, rest, Job(unit, work))))
    case Spawn =>
      && s.loop.Launching?
      && s' == s.(jobs := s.jobs + [s.loop.job], loop := Checking(s.loop.units, s.loop.engine, s.loop.todo))
    case EndTick => s.loop.Checking? && s.loop.todo == {} && s' == s.(loop := Idle)
    case EngineCall(j, name, ok) =>
      && j < |s.jobs| && name in s.jobs[j].work.Names()
      && s' == s.(jobs := s.jobs[j := Job(s.jobs[j].unit, s.jobs[j].work.Without(name))],
                  engine := if ok && name in s.engine
                            then s.engine[name := s.jobs[j].work.Effect(name, s.engine[name])] else s.engine)
    case EndJob(j) =>
      && j < |s.jobs| && s.jobs[j].work.Names() == {}
      && s' == s.(jobs := s.jobs[..j] + s.jobs[j + 1..], inFlight := s.inFlight - {s.jobs[j].unit})
    case Outside => s' == s.(units := s'.units, engine := s'.engine)
  }

  ghost predicate TakesStep<U(!new)>(decide: (U, Engine) -> Option<Work>, states: seq<System<U>>, actions: seq<Action>,
                                     i: nat)
    requires i < |actions| < |states|
  {
    Next(decide, states[i], actions[i], states[i + 1])
  }

  ghost predicate IsRun<U(!new)>(decide: (U, Engine) -> Option<Work>, states: seq<System<U>>, actions: seq<Action>)
  {
    && |states| == |actions| + 1
    && forall i {:trigger TakesStep(decide, states, actions, i)} | 0 <= i < |actions| ::
         TakesStep(decide, states, actions, i)
  }

  // ----- No unit ever has two jobs -----

  ghost predicate Start<U(!new)>(s: System<U>) {
    s.inFlight == {} && s.jobs == [] && s.loop.Idle?
  }

  ghost function JobUnits(jobs: seq<Job>): set<string> {
    set job | job in jobs :: job.unit
  }

  ghost predicate OneJobPerUnit<U(!new)>(s: System<U>) {
    && (forall i, j | 0 <= i < j < |s.jobs| :: s.jobs[i].unit != s.jobs[j].unit)
    && (s.loop.Launching? ==> s.loop.job.unit !in JobUnits(s.jobs))
  }

  /** The mutex-guarded set is exact: ids of running jobs and of the one about to be started. */
  ghost predicate InFlightIsExact<U(!new)>(s: System<U>) {
    s.inFlight == JobUnits(s.jobs) + if s.loop.Launching? then {s.loop.job.unit} else {}
  }

  /** Filtering and adding are separate critical sections, but in between ids only leave the
      set: what the loop still has to check stays out of it. */
  ghost predicate TodoIsFree<U(!new)>(s: System<U>) {
    s.loop.Checking? || s.loop.Launching? ==> s.loop.todo !! s.inFlight
  }

  ghost predicate Inv<U(!new)>(s: System<U>) {
    OneJobPerUnit(s) && InFlightIsExact(s) && TodoIsFree(s)
  }

  lemma UnitsAfterCall(jobs: seq<Job>, j: nat, work: Work)
    requires j < |jobs|
    ensures JobUnits(jobs[j := Job(jobs[j].unit, work)]) == JobUnits(jobs)
  {
    var after := jobs[j := Job(jobs[j].unit, work)];
    forall u ensures u in JobUnits(after) <==> u in JobUnits(jobs) {
      if u in JobUnits(jobs) {
        var i :| 0 <= i < |jobs| && jobs[i].unit == u;
        assert after[i] in after;
      }
      if u in JobUnits(after) {
        var i :| 0 <= i < |after| && after[i].unit == u;
        assert jobs[i] in jobs;
      }
    }
  }

  lemma UnitsAfterEnd(jobs: seq<Job>, j: nat)
    requires j < |jobs| && forall i, k | 0 <= i < k < |jobs| :: jobs[i].unit != jobs[k].unit
    ensures JobUnits(jobs[..j] + jobs[j + 1..]) == JobUnits(jobs) - {jobs[j].unit}
  {
    var after := jobs[..j] + jobs[j + 1..];
    forall u ensures u in JobUnits(after) <==> u in JobUnits(jobs) && u != jobs[j].unit {
      if u in JobUnits(after) {
        var i :| 0 <= i < |after| && after[i].unit == u;
        assert after[i] in jobs && after[i] == jobs[if i < j then i else i + 1];
      }
      if u in JobUnits(jobs) && u != jobs[j].unit {
        var i :| 0 <= i < |jobs| && jobs[i].unit == u;
        assert after[if i < j then i else i - 1] == jobs[i];
      }
    }
  }

  lemma SpawnKeepsInv<U(!new)>(decide: (U, Engine) -> Option<Work>, s: System<U>, s': System<U>)
    requires Inv(s) && Next(decide, s, Spawn, s')
    ensures Inv(s')
  {
    assert JobUnits(s'.jobs) == JobUnits(s.jobs) + {s.loop.job.unit};
    forall i | 0 <= i < |s.jobs| ensures s.jobs[i].unit != s.loop.job.unit { assert s.jobs[i] in s.jobs; }
  }

  lemma EndJobKeepsInv<U(!new)>(decide: (U, Engine) -> Option<Work>, s: System<U>, j: nat, s': System<U>)
    requires Inv(s) && Next(decide, s, EndJob(j), s')
    ensures Inv(s')
  {
    UnitsAfterEnd(s.jobs, j);
  }

  lemma InvIsInductive<U(!new)>(decide: (U, Engine) -> Option<Work>, s: System<U>, action: Action, s': System<U>)
    requires Inv(s) && Next(decide, s, action, s')
    ensures Inv(s')
  {
    match action
    case Spawn => SpawnKeepsInv(decide, s, s');
    case EngineCall(j, name, ok) => UnitsAfterCall(s.jobs, j, s.jobs[j].work.Without(name));
    case EndJob(j) => EndJobKeepsInv(decide, s, j, s');
    case _ =>
  }

  lemma {:induction false} InvHolds<U(!new)>(decide: (U, Engine) -> Option<Work>, states: seq<System<U>>,
                                             actions: seq<Action>, n: nat)
    requires IsRun(decide, states, actions) && Start(states[0]) && n <= |actions|
    ensures Inv(states[n])
  {
    if n == 0 {
      assert JobUnits([]) == {};
    } else {
      InvHolds(decide, states, actions, n - 1);
      assert TakesStep(decide, states, actions, n - 1);
      InvIsInductive(decide, states[n - 1], actions[n - 1], states[n]);
    }
  }

  /** In every interleaving of ticks, jobs and outside changes. */
  lemma NoUnitHasTwoJobs<U(!new)>(decide: (U, Engine) -> Option<Work>, states: seq<System<U>>, actions: seq<Action>)
    requires IsRun(decide, states, actions) && Start(states[0])
    ensures forall i | 0 <= i < |states| :: OneJobPerUnit(states[i]) && InFlightIsExact(states[i])
  {
    forall i | 0 <= i < |states| ensures OneJobPerUnit(states[i]) && InFlightIsExact(states[i]) {
      InvHolds(decide, states, actions, i);
    }
  }

  // ----- One round does what it decided, in any interleaving -----

  ghost function Decided<U(!new)>(decide: (U, Engine) -> Option<Work>, units: map<string, U>, engine: Engine,
                           unit: string): Work
    requires unit in units
  {
    match decide(units[unit], engine) case None => Work({}, {}) case Some(work) => work
  }

  /** Different units work on different containers, and no job starts what it stops. */
  ghost predicate Disjoint<U(!new)>(decide: (U, Engine) -> Option<Work>, units: map<string, U>, engine: Engine) {
    && (forall u | u in units ::
          Decided(decide, units, engine, u).starts !! Decided(decide, units, engine, u).stops)
    && (forall u, v | u in units && v in units && u != v ::
          Decided(decide, units, engine, u).Names() !! Decided(decide, units, engine, v).Names())
  }

  /** All data has been read, nothing is in flight. */
  ghost predicate RoundStart<U(!new)>(s: System<U>) {
    s.inFlight == {} && s.jobs == [] && s.loop == HasData(s.units, s.engine)
  }

  ghost predicate QuietAction(action: Action) {
    match action
    case ReadUnits => false
    case EngineCall(_, _, ok) => ok
    case Outside => false
    case _ => true
  }

  ghost predicate InLoop<U(!new)>(loop: Loop<U>, u: string) {
    match loop
    case Idle => false
    case HasUnits(_) => true
    case HasData(_, _) => true
    case Checking(_, _, todo) => u in todo
    case Launching(_, _, todo, job) => u in todo || job.unit == u
  }

  ghost predicate InJob(jobs: seq<Job>, u: string, name: string) {
    exists j :: 0 <= j < |jobs| && jobs[j].unit == u && name in jobs[j].work.Names()
  }

  /** Unit `u` has not got around to container `name` yet. */
  ghost predicate Pending<U(!new)>(s: System<U>, u: string, name: string) {
    InLoop(s.loop, u) || InJob(s.jobs, u, name)
  }

  ghost predicate LoopFollows<U(!new)>(decide: (U, Engine) -> Option<Work>, s0: System<U>, s: System<U>) {
    match s.loop
    case Idle => true
    case HasUnits(_) => false
    case HasData(units, engine) => units == s0.units && engine == s0.engine && s.jobs == [] && s.inFlight == {}
    case Checking(units, engine, todo) => units == s0.units && engine == s0.engine && todo <= s0.units.Keys
    case Launching(units, engine, todo, job) =>
      && units == s0.units && engine == s0.engine && todo <= s0.units.Keys
      && job.unit in s0.units && job.work == Decided(decide, s0.units, s0.engine, job.unit)
  }

  ghost predicate JobsFollow<U(!new)>(decide: (U, Engine) -> Option<Work>, s0: System<U>, s: System<U>) {
    forall j | 0 <= j < |s.jobs| ::
      && s.jobs[j].unit in s0.units
      && s.jobs[j].work.starts <= Decided(decide, s0.units, s0.engine, s.jobs[j].unit).starts
      && s.jobs[j].work.stops <= Decided(decide, s0.units, s0.engine, s.jobs[j].unit).stops
  }

  ghost predicate EngineFollows<U(!new)>(decide: (U, Engine) -> Option<Work>, s0: System<U>, s: System<U>) {
    && s.engine.Keys == s0.engine.Keys
    && (forall u, name | u in s0.units && name in s0.engine
        && name in Decided(decide, s0.units, s0.engine, u).Names() ::
          s.engine[name] == if Pending(s, u, name) then s0.engine[name]
                            else Decided(decide, s0.units, s0.engine, u).Effect(name, s0.engine[name]))
    && (forall name | name in s0.engine
                      && (forall u | u in s0.units :: name !in Decided(decide, s0.units, s0.engine, u).Names()) ::
          s.engine[name] == s0.engine[name])
  }

  ghost predicate RoundInv<U(!new)>(decide: (U, Engine) -> Option<Work>, s0: System<U>, s: System<U>) {
    Inv(s) && LoopFollows(decide, s0, s) && JobsFollow(decide, s0, s) && EngineFollows(decide, s0, s)
  }

  lemma CallKeepsPending<U(!new)>(decide: (U, Engine) -> Option<Work>, s: System<U>, j: nat, name: string,
                           s': System<U>,
                                  u: string, n: string)
    requires Next(decide, s, EngineCall(j, name, true), s') && (u != s.jobs[j].unit || n != name)
    ensures Pending(s, u, n) <==> Pending(s', u, n)
  {
    if InJob(s.jobs, u, n) {
      var i :| 0 <= i < |s.jobs| && s.jobs[i].unit == u && n in s.jobs[i].work.Names();
      assert s'.jobs[i].unit == u && n in s'.jobs[i].work.Names();
    }
    if InJob(s'.jobs, u, n) {
      var i :| 0 <= i < |s'.jobs| && s'.jobs[i].unit == u && n in s'.jobs[i].work.Names();
      assert s.jobs[i].unit == u && n in s.jobs[i].work.Names();
    }
  }

  lemma CallKeepsRound<U(!new)>(decide: (U, Engine) -> Option<Work>, s0: System<U>, s: System<U>, j: nat, name: string,
                                s': System<U>)
    requires Disjoint(decide, s0.units, s0.engine)
    requires RoundInv(decide, s0, s) && Next(decide, s, EngineCall(j, name, true), s')
    ensures EngineFollows(decide, s0, s')
  {
    var unit := s.jobs[j].unit;
    assert s.jobs[j] in s.jobs;
    assert Pending(s, unit, name) && !Pending(s', unit, name);
    forall u, n | u in s0.units && n in s0.engine && n in Decided(decide, s0.units, s0.engine, u).Names()
      ensures s'.engine[n] == if Pending(s', u, n) then s0.engine[n]
                              else Decided(decide, s0.units, s0.engine, u).Effect(n, s0.engine[n])
    {
      if u != unit || n != name {
        CallKeepsPending(decide, s, j, name, s', u, n);
      }
    }
  }

  lemma InJobAfterSpawn(jobs: seq<Job>, job: Job, u: string, name: string)
    ensures InJob(jobs + [job], u, name) <==> InJob(jobs, u, name) || (job.unit == u && name in job.work.Names())
  {
    assert (jobs + [job])[|jobs|] == job;
    if InJob(jobs, u, name) {
      var i :| 0 <= i < |jobs| && jobs[i].unit == u && name in jobs[i].work.Names();
      assert (jobs + [job])[i] == jobs[i];
    }
  }

  lemma InJobAfterEnd(jobs: seq<Job>, j: nat, u: string, name: string)
    requires j < |jobs| && jobs[j].work.Names() == {}
    ensures InJob(jobs[..j] + jobs[j + 1..], u, name) <==> InJob(jobs, u, name)
  {
    var after := jobs[..j] + jobs[j + 1..];
    if InJob(jobs, u, name) {
      var i :| 0 <= i < |jobs| && jobs[i].unit == u && name in jobs[i].work.Names();
      assert after[if i < j then i else i - 1] == jobs[i];
    }
    if InJob(after, u, name) {
      var i :| 0 <= i < |after| && after[i].unit == u && name in after[i].work.Names();
      assert jobs[if i < j then i else i + 1] == after[i];
    }
  }

  lemma OtherActionsKeepPending<U(!new)>(decide: (U, Engine) -> Option<Work>, s0: System<U>, s: System<U>,
                                  action: Action,
                                         s': System<U>, u: string, name: string)
    requires RoundInv(decide, s0, s) && Next(decide, s, action, s') && QuietAction(action) && !action.EngineCall?
    requires u in s0.units && name in Decided(decide, s0.units, s0.engine, u).Names()
    ensures Pending(s, u, name) <==> Pending(s', u, name)
  {
    match action
    case Spawn => InJobAfterSpawn(s.jobs, s.loop.job, u, name);
    case EndJob(j) => InJobAfterEnd(s.jobs, j, u, name);
    case Check(unit) => assert u == unit ==> decide(s0.units[unit], s0.engine).Some?;
    case _ =>
  }

  lemma RoundInvIsInductive<U(!new)>(decide: (U, Engine) -> Option<Work>, s0: System<U>, s: System<U>, action: Action,
                                     s': System<U>)
    requires Disjoint(decide, s0.units, s0.engine)
    requires RoundInv(decide, s0, s) && Next(decide, s, action, s') && QuietAction(action)
    ensures RoundInv(decide, s0, s')
  {
    InvIsInductive(decide, s, action, s');
    if action.EngineCall? {
      CallKeepsRound(decide, s0, s, action.job, action.name, s');
    } else {
      forall u, name | u in s0.units && name in s0.engine && name in Decided(decide, s0.units, s0.engine, u).Names()
        ensures Pending(s, u, name) <==> Pending(s', u, name)
      {
        OtherActionsKeepPending(decide, s0, s, action, s', u, name);
      }
    }
  }

  lemma {:induction false} RoundInvHolds<U(!new)>(decide: (U, Engine) -> Option<Work>, states: seq<System<U>>,
                                                  actions: seq<Action>, n: nat)
    requires IsRun(decide, states, actions) && RoundStart(states[0]) && n <= |actions|
    requires Disjoint(decide, states[0].units, states[0].engine)
    requires forall action | action in actions :: QuietAction(action)
    ensures RoundInv(decide, states[0], states[n])
  {
    if n == 0 {
      assert JobUnits([]) == {};
    } else {
      assert actions[n - 1] in actions;
      RoundInvHolds(decide, states, actions, n - 1);
      assert TakesStep(decide, states, actions, n - 1);
      RoundInvIsInductive(decide, states[0], states[n - 1], actions[n - 1], states[n]);
    }
  }

  /** The containers after one round: each is where the job of its unit wanted it. */
  ghost predicate RoundResult<U(!new)>(decide: (U, Engine) -> Option<Work>, units: map<string, U>, before: Engine,
                                after: Engine) {
    && after.Keys == before.Keys
    && (forall u, name | u in units && name in before && name in Decided(decide, units, before, u).Names() ::
          after[name] == Decided(decide, units, before, u).Effect(name, before[name]))
    && (forall name | name in before && (forall u | u in units :: name !in Decided(decide, units, before, u).Names()) ::
          after[name] == before[name])
  }

  lemma NothingPending<U(!new)>(decide: (U, Engine) -> Option<Work>, s0: System<U>, s: System<U>)
    requires Inv(s) && EngineFollows(decide, s0, s) && s.loop.Idle? && s.jobs == []
    ensures RoundResult(decide, s0.units, s0.engine, s.engine) && s.inFlight == {}
  {
    assert JobUnits(s.jobs) == {};
    assert forall u, name :: !Pending(s, u, name);
  }

  /** However the check loop, the jobs and their engine calls interleave: once the loop is idle
      again and the launched jobs are gone, the containers are where one decision per unit, all
      taken on the state at the start, puts them. */
  lemma RoundCompletes<U(!new)>(decide: (U, Engine) -> Option<Work>, states: seq<System<U>>, actions: seq<Action>)
    requires IsRun(decide, states, actions) && RoundStart(states[0])
    requires Disjoint(decide, states[0].units, states[0].engine)
    requires forall action | action in actions :: QuietAction(action)
    requires states[|states| - 1].loop.Idle? && states[|states| - 1].jobs == []
    ensures RoundResult(decide, states[0].units, states[0].engine, states[|states| - 1].engine)
    ensures states[|states| - 1].inFlight == {}
  {
    RoundInvHolds(decide, states, actions, |actions|);
    NothingPending(decide, states[0], states[|states| - 1]);
  }
}
