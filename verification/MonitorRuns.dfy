/** Runs of a runtime monitor with any number of ticks: a tick may read the engine while jobs of an
    earlier one still run, and look at their units with this data after they have ended
    (pkg/components/handler/deployments/runtime_monitor.go,
    pkg/components/handler/aux_deployments/runtime_monitor.go). */
module MonitorRuns {
  import opened Prelude
  import opened RuntimeMonitor

  ghost predicate SameAt(before: Engine, after: Engine, name: string) {
    (name in after <==> name in before) && (name in before ==> after[name] == before[name])
  }

  /** Which containers a unit owns, which of them are to run, and which are touched at all. */
  datatype Goals<!U(!new)> = Goals(own: U -> set<string>, up: U -> set<string>,
                                   wanted: (U, string, Container) -> bool) {
    function Target(unit: U, name: string): ContainerState {
      if name in up(unit) then Running else Stopped
    }

    function Goal(unit: U, name: string, c: Container): Container {
      c.(state := Target(unit, name))
    }

    predicate AtGoal(unit: U, name: string, c: Container) {
      c.state == Target(unit, name)
    }

    /** A container is as it was, or was wanted and is where it is meant to be. */
    predicate MovedAt(unit: U, name: string, c: Container, c': Container) {
      c' == c || (wanted(unit, name, c) && c' == Goal(unit, name, c))
    }

    ghost predicate Moved(units: map<string, U>, before: Engine, after: Engine) {
      && after.Keys == before.Keys
      && forall u, name | u in units && name in own(units[u]) && name in before ::
           MovedAt(units[u], name, before[name], after[name])
    }

    ghost predicate SameFor(unit: U, before: Engine, after: Engine) {
      forall name | name in own(unit) :: SameAt(before, after, name)
    }

    ghost predicate Disjoint(units: map<string, U>) {
      forall u, v | u in units && v in units && u != v :: own(units[u]) !! own(units[v])
    }
  }

  ghost predicate Aims<U(!new)>(goals: Goals<U>, unit: U, engine: Engine, work: Work) {
    && work.Names() <= goals.own(unit) && work.starts <= goals.up(unit) && work.stops !! goals.up(unit)
    && forall name | name in work.Names() && name in engine :: goals.wanted(unit, name, engine[name])
  }

  /** Decisions are about own containers, look at nothing else, and move them towards the goal. */
  ghost predicate Follows<U(!new)>(goals: Goals<U>, decide: (U, Engine) -> Option<Work>, units: map<string, U>) {
    && (forall u, engine | u in units :: decide(units[u], engine).Some? ==>
          Aims(goals, units[u], engine, decide(units[u], engine).value))
    && (forall u, engine, engine' | u in units :: goals.SameFor(units[u], engine, engine') ==>
          decide(units[u], engine) == decide(units[u], engine'))
  }

  // ----- Moving towards the goal -----

  lemma MovedThrough<U(!new)>(goals: Goals<U>, units: map<string, U>, a: Engine, b: Engine, c: Engine)
    requires goals.Moved(units, a, b) && goals.Moved(units, b, c)
    ensures goals.Moved(units, a, c)
  {
    forall u, name | u in units && name in goals.own(units[u]) && name in a
      ensures goals.MovedAt(units[u], name, a[name], c[name])
    {
      assert goals.MovedAt(units[u], name, a[name], b[name]) && goals.MovedAt(units[u], name, b[name], c[name]);
    }
  }

  /** There is no way back: what lies between two equal states is equal to both. */
  lemma NothingBetween<U(!new)>(goals: Goals<U>, units: map<string, U>, a: Engine, b: Engine, c: Engine, u: string)
    requires goals.Moved(units, a, b) && goals.Moved(units, b, c) && u in units && goals.SameFor(units[u], a, c)
    ensures goals.SameFor(units[u], a, b)
  {
    forall name | name in goals.own(units[u]) ensures SameAt(a, b, name) {
      assert SameAt(a, c, name);
      if name in a {
        assert goals.MovedAt(units[u], name, a[name], b[name]) && goals.MovedAt(units[u], name, b[name], c[name]);
      }
    }
  }

  lemma GoalStays<U(!new)>(goals: Goals<U>, units: map<string, U>, a: Engine, b: Engine, u: string, name: string)
    requires goals.Moved(units, a, b) && u in units && name in goals.own(units[u]) && name in a
    requires goals.AtGoal(units[u], name, a[name])
    ensures goals.AtGoal(units[u], name, b[name])
  {
    assert goals.MovedAt(units[u], name, a[name], b[name]);
  }

  // ----- The invariant -----

  /** The job of this unit has still to call the engine for this container. */
  ghost predicate Open<U(!new)>(s: System<U>, u: string, name: string) {
    InJob(s.jobs, u, name) || (s.loop.Launching? && s.loop.job.unit == u && name in s.loop.job.work.Names())
  }

  ghost predicate IsFresh<U(!new)>(goals: Goals<U>, s0: System<U>, s: System<U>, u: string)
    requires u in s0.units
  {
    goals.SameFor(s0.units[u], s0.engine, s.engine) && u !in s.inFlight
  }

  /** What was decided on `d` is done or under way. */
  ghost predicate IsActive<U(!new)>(goals: Goals<U>, decide: (U, Engine) -> Option<Work>, s0: System<U>, s: System<U>,
                                    u: string, d: Engine)
    requires u in s0.units
  {
    && decide(s0.units[u], s0.engine).Some? && decide(s0.units[u], d).Some?
    && goals.Moved(s0.units, s0.engine, d) && goals.Moved(s0.units, d, s.engine)
    && forall name | name in decide(s0.units[u], d).value.Names() && name in s.engine ::
         goals.AtGoal(s0.units[u], name, s.engine[name]) || Open(s, u, name)
  }

  ghost predicate Part(job: Job, work: Work) {
    job.work.starts <= work.starts && job.work.stops <= work.stops
  }

  /** `basis` has the engine data of the last decision for each unit that ever got a job. */
  ghost predicate UnitsInv<U(!new)>(goals: Goals<U>, decide: (U, Engine) -> Option<Work>, s0: System<U>, s: System<U>,
                                    basis: map<string, Engine>)
  {
    && basis.Keys <= s0.units.Keys
    && (forall u | u in s0.units && u !in basis :: IsFresh(goals, s0, s, u))
    && (forall u | u in basis :: IsActive(goals, decide, s0, s, u, basis[u]))
  }

  ghost predicate IsJobOf<U(!new)>(decide: (U, Engine) -> Option<Work>, s0: System<U>, basis: map<string, Engine>,
                                   job: Job)
  {
    && job.unit in basis && job.unit in s0.units && decide(s0.units[job.unit], basis[job.unit]).Some?
    && Part(job, decide(s0.units[job.unit], basis[job.unit]).value)
  }

  ghost predicate JobsInv<U(!new)>(decide: (U, Engine) -> Option<Work>, s0: System<U>, s: System<U>,
                                   basis: map<string, Engine>)
  {
    && (forall j | 0 <= j < |s.jobs| :: IsJobOf(decide, s0, basis, s.jobs[j]))
    && (s.loop.Launching? ==> IsJobOf(decide, s0, basis, s.loop.job))
  }

  ghost predicate NeedsNothing<U(!new)>(decide: (U, Engine) -> Option<Work>, s0: System<U>, u: string)
    requires u in s0.units
  {
    decide(s0.units[u], s0.engine).None?
  }

  ghost predicate Between<U(!new)>(goals: Goals<U>, s0: System<U>, d: Engine, s: System<U>) {
    goals.Moved(s0.units, s0.engine, d) && goals.Moved(s0.units, d, s.engine)
  }

  ghost predicate Passed<U(!new)>(decide: (U, Engine) -> Option<Work>, s0: System<U>, todo: set<string>,
                                  basis: map<string, Engine>)
  {
    forall u | u in s0.units && u !in todo && u !in basis :: NeedsNothing(decide, s0, u)
  }

  /** The data of the tick under way, and what it has passed already. */
  ghost predicate LoopInv<U(!new)>(goals: Goals<U>, decide: (U, Engine) -> Option<Work>, s0: System<U>, s: System<U>,
                                   basis: map<string, Engine>)
  {
    match s.loop
    case Idle => true
    case HasUnits(units) => units == s0.units
    case HasData(units, d) => units == s0.units && Between(goals, s0, d, s)
    case Checking(units, d, todo) =>
      units == s0.units && Between(goals, s0, d, s) && Passed(decide, s0, todo, basis)
    case Launching(units, d, todo, job) =>
      units == s0.units && Between(goals, s0, d, s) && Passed(decide, s0, todo, basis)
  }

  ghost predicate RunInv<U(!new)>(goals: Goals<U>, decide: (U, Engine) -> Option<Work>, s0: System<U>, s: System<U>,
                                  basis: map<string, Engine>, ticked: bool)
  {
    && Inv(s) && s.units == s0.units && goals.Moved(s0.units, s0.engine, s.engine)
    && UnitsInv(goals, decide, s0, s, basis) && JobsInv(decide, s0, s, basis) && LoopInv(goals, decide, s0, s, basis)
    && (ticked ==> Passed(decide, s0, {}, basis))
  }

  // ----- Steps -----

  predicate OnlyLoop(action: Action) {
    action.ReadUnits? || action.ReadEngine? || action.ReadFailed? || action.FilterInFlight? || action.EndTick?
  }

  /** Steps after which the same containers are still to be called for do not matter to the units. */
  lemma KeepsUnits<U(!new)>(goals: Goals<U>, decide: (U, Engine) -> Option<Work>, s0: System<U>, s: System<U>,
                            s': System<U>, basis: map<string, Engine>)
    requires UnitsInv(goals, decide, s0, s, basis) && s'.engine == s.engine && s'.inFlight <= s.inFlight
    requires forall u, name :: Open(s, u, name) ==> Open(s', u, name)
    ensures UnitsInv(goals, decide, s0, s', basis)
  {
    forall u | u in s0.units && u !in basis ensures IsFresh(goals, s0, s', u) {
      assert IsFresh(goals, s0, s, u);
    }
    forall u | u in basis ensures IsActive(goals, decide, s0, s', u, basis[u]) {
      assert IsActive(goals, decide, s0, s, u, basis[u]);
    }
  }

  lemma LoopStep<U(!new)>(goals: Goals<U>, decide: (U, Engine) -> Option<Work>, s0: System<U>, s: System<U>,
                          action: Action, s': System<U>, basis: map<string, Engine>, ticked: bool)
    requires RunInv(goals, decide, s0, s, basis, ticked) && Next(decide, s, action, s') && OnlyLoop(action)
    ensures RunInv(goals, decide, s0, s', basis, ticked || action == EndTick)
  {
    InvIsInductive(decide, s, action, s');
    KeepsUnits(goals, decide, s0, s, s', basis);
  }

  /** What a fresh unit is checked with tells the same as the state at the start. */
  lemma FreshIsDecidedAsAtStart<U(!new)>(goals: Goals<U>, decide: (U, Engine) -> Option<Work>, s0: System<U>,
                                         s: System<U>, u: string, d: Engine)
    requires Follows(goals, decide, s0.units) && u in s0.units && IsFresh(goals, s0, s, u) && Between(goals, s0, d, s)
    ensures decide(s0.units[u], d) == decide(s0.units[u], s0.engine)
  {
    NothingBetween(goals, s0.units, s0.engine, d, s.engine, u);
  }

  lemma CheckSkips<U(!new)>(goals: Goals<U>, decide: (U, Engine) -> Option<Work>, s0: System<U>, s: System<U>,
                            u: string, s': System<U>, basis: map<string, Engine>, ticked: bool)
    requires Follows(goals, decide, s0.units) && RunInv(goals, decide, s0, s, basis, ticked)
    requires Next(decide, s, Check(u), s') && decide(s.units[u], s.loop.engine).None?
    ensures RunInv(goals, decide, s0, s', basis, ticked)
  {
    InvIsInductive(decide, s, Check(u), s');
    KeepsUnits(goals, decide, s0, s, s', basis);
    if u !in basis {
      FreshIsDecidedAsAtStart(goals, decide, s0, s, u, s.loop.engine);
    }
  }

  lemma LaunchKeepsUnits<U(!new)>(goals: Goals<U>, decide: (U, Engine) -> Option<Work>, s0: System<U>, s: System<U>,
                                  u: string, s': System<U>, basis: map<string, Engine>)
    requires UnitsInv(goals, decide, s0, s, basis) && s.units == s0.units && u in s0.units
    requires s.loop.Checking? && s.loop.units == s.units && Between(goals, s0, s.loop.engine, s)
    requires Next(decide, s, Check(u), s') && decide(s.units[u], s.loop.engine).Some?
    requires decide(s0.units[u], s0.engine).Some?
    ensures UnitsInv(goals, decide, s0, s', basis[u := s.loop.engine])
  {
    forall v | v in s0.units && v !in basis[u := s.loop.engine] ensures IsFresh(goals, s0, s', v) {
      assert IsFresh(goals, s0, s, v);
    }
    forall v | v in basis && v != u ensures IsActive(goals, decide, s0, s', v, basis[v]) {
      assert IsActive(goals, decide, s0, s, v, basis[v]);
    }
    assert IsActive(goals, decide, s0, s', u, s.loop.engine);
  }

  lemma CheckLaunches<U(!new)>(goals: Goals<U>, decide: (U, Engine) -> Option<Work>, s0: System<U>, s: System<U>,
                               u: string, s': System<U>, basis: map<string, Engine>, ticked: bool)
    requires Follows(goals, decide, s0.units) && RunInv(goals, decide, s0, s, basis, ticked)
    requires Next(decide, s, Check(u), s') && u in s.units && decide(s.units[u], s.loop.engine).Some?
    ensures RunInv(goals, decide, s0, s', basis[u := s.loop.engine], ticked)
  {
    var d := s.loop.engine;
    InvIsInductive(decide, s, Check(u), s');
    if u in basis {
      assert IsActive(goals, decide, s0, s, u, basis[u]);
    } else {
      FreshIsDecidedAsAtStart(goals, decide, s0, s, u, d);
    }
    LaunchKeepsUnits(goals, decide, s0, s, u, s', basis);
    forall j | 0 <= j < |s.jobs| ensures IsJobOf(decide, s0, basis[u := d], s.jobs[j]) {
      assert s.jobs[j] in s.jobs;
      assert IsJobOf(decide, s0, basis, s.jobs[j]);
    }
  }

  lemma SpawnStep<U(!new)>(goals: Goals<U>, decide: (U, Engine) -> Option<Work>, s0: System<U>, s: System<U>,
                           s': System<U>, basis: map<string, Engine>, ticked: bool)
    requires RunInv(goals, decide, s0, s, basis, ticked) && Next(decide, s, Spawn, s')
    ensures RunInv(goals, decide, s0, s', basis, ticked)
  {
    InvIsInductive(decide, s, Spawn, s');
    forall u, name | Open(s, u, name) ensures Open(s', u, name) {
      InJobAfterSpawn(s.jobs, s.loop.job, u, name);
    }
    KeepsUnits(goals, decide, s0, s, s', basis);
  }

  lemma JobsAfterEnd<U(!new)>(decide: (U, Engine) -> Option<Work>, s0: System<U>, basis: map<string, Engine>,
                              jobs: seq<Job>, j: nat)
    requires j < |jobs| && forall i | 0 <= i < |jobs| :: IsJobOf(decide, s0, basis, jobs[i])
    ensures var after := jobs[..j] + jobs[j + 1..];
            forall i | 0 <= i < |after| :: IsJobOf(decide, s0, basis, after[i])
  {
    var after := jobs[..j] + jobs[j + 1..];
    forall i | 0 <= i < |after| ensures IsJobOf(decide, s0, basis, after[i]) {
      assert after[i] == jobs[if i < j then i else i + 1];
    }
  }

  lemma EndJobStep<U(!new)>(goals: Goals<U>, decide: (U, Engine) -> Option<Work>, s0: System<U>, s: System<U>, j: nat,
                            s': System<U>, basis: map<string, Engine>, ticked: bool)
    requires RunInv(goals, decide, s0, s, basis, ticked) && Next(decide, s, EndJob(j), s')
    ensures RunInv(goals, decide, s0, s', basis, ticked)
  {
    InvIsInductive(decide, s, EndJob(j), s');
    forall u, name | Open(s, u, name) ensures Open(s', u, name) {
      InJobAfterEnd(s.jobs, j, u, name);
    }
    KeepsUnits(goals, decide, s0, s, s', basis);
    JobsAfterEnd(decide, s0, basis, s.jobs, j);
  }

  // ----- Calls to the engine -----

  ghost predicate MovesOwn<U(!new)>(goals: Goals<U>, s0: System<U>, s: System<U>, j: nat, name: string, s': System<U>,
                                    basis: map<string, Engine>)
    requires j < |s.jobs|
  {
    var u := s.jobs[j].unit;
    && u in s0.units && u in basis && name in goals.own(s0.units[u])
    && (name in s.engine ==> name in s'.engine && goals.AtGoal(s0.units[u], name, s'.engine[name]))
  }

  lemma CallReachesGoal<U(!new)>(goals: Goals<U>, units: map<string, U>, job: Job, work: Work, name: string, d: Engine,
                                 engine: Engine)
    requires job.unit in units && Aims(goals, units[job.unit], d, work) && Part(job, work) && name in job.work.Names()
    requires goals.Moved(units, d, engine) && name in engine
    ensures var c := job.work.Effect(name, engine[name]);
            && c == goals.Goal(units[job.unit], name, engine[name])
            && goals.MovedAt(units[job.unit], name, engine[name], c)
  {
    assert goals.MovedAt(units[job.unit], name, d[name], engine[name]);
  }

  lemma OnlyItsOwn<U(!new)>(goals: Goals<U>, units: map<string, U>, u: string, name: string, before: Engine,
                            after: Engine)
    requires goals.Disjoint(units) && u in units && name in goals.own(units[u]) && name in before && name in after
    requires after == before[name := after[name]] && goals.MovedAt(units[u], name, before[name], after[name])
    ensures goals.Moved(units, before, after)
  {
    forall v, n | v in units && n in goals.own(units[v]) && n in before
      ensures goals.MovedAt(units[v], n, before[n], after[n])
    {
      if n == name {
        assert v == u;
      }
    }
  }

  /** A call moves one container of its unit to its goal. */
  lemma CallMoves<U(!new)>(goals: Goals<U>, decide: (U, Engine) -> Option<Work>, s0: System<U>, s: System<U>, j: nat,
                           name: string, s': System<U>, basis: map<string, Engine>)
    requires Follows(goals, decide, s0.units) && goals.Disjoint(s0.units) && s.units == s0.units
    requires UnitsInv(goals, decide, s0, s, basis) && JobsInv(decide, s0, s, basis)
    requires Next(decide, s, EngineCall(j, name, true), s')
    ensures goals.Moved(s0.units, s.engine, s'.engine) && MovesOwn(goals, s0, s, j, name, s', basis)
  {
    var job := s.jobs[j];
    assert IsJobOf(decide, s0, basis, job) && IsActive(goals, decide, s0, s, job.unit, basis[job.unit]);
    var unit, d := s0.units[job.unit], basis[job.unit];
    assert Aims(goals, unit, d, decide(unit, d).value);
    if name in s.engine {
      CallReachesGoal(goals, s0.units, job, decide(unit, d).value, name, d, s.engine);
      OnlyItsOwn(goals, s0.units, job.unit, name, s.engine, s'.engine);
    }
  }

  lemma CallKeepsOpen<U(!new)>(decide: (U, Engine) -> Option<Work>, s: System<U>, j: nat, name: string, s': System<U>,
                               u: string, n: string)
    requires Next(decide, s, EngineCall(j, name, true), s') && (u != s.jobs[j].unit || n != name)
    requires Open(s, u, n)
    ensures Open(s', u, n)
  {
    if InJob(s.jobs, u, n) {
      var i :| 0 <= i < |s.jobs| && s.jobs[i].unit == u && n in s.jobs[i].work.Names();
      assert s'.jobs[i].unit == u && n in s'.jobs[i].work.Names();
    }
  }

  lemma CallKeepsActive<U(!new)>(goals: Goals<U>, decide: (U, Engine) -> Option<Work>, s0: System<U>, s: System<U>,
                                 j: nat, name: string, s': System<U>, u: string, d: Engine)
    requires Follows(goals, decide, s0.units) && s.units == s0.units && u in s0.units
    requires IsActive(goals, decide, s0, s, u, d)
    requires Next(decide, s, EngineCall(j, name, true), s') && goals.Moved(s0.units, s.engine, s'.engine)
    requires u == s.jobs[j].unit && name in s.engine ==> goals.AtGoal(s0.units[u], name, s'.engine[name])
    ensures IsActive(goals, decide, s0, s', u, d)
  {
    MovedThrough(goals, s0.units, d, s.engine, s'.engine);
    var unit := s0.units[u];
    var work := decide(unit, d).value;
    assert Aims(goals, unit, d, work);
    forall n | n in work.Names() && n in s'.engine
      ensures goals.AtGoal(unit, n, s'.engine[n]) || Open(s', u, n)
    {
      if goals.AtGoal(unit, n, s.engine[n]) {
        GoalStays(goals, s0.units, s.engine, s'.engine, u, n);
      } else if u != s.jobs[j].unit || n != name {
        CallKeepsOpen(decide, s, j, name, s', u, n);
      }
    }
  }

  lemma CallKeepsFresh<U(!new)>(goals: Goals<U>, s0: System<U>, s: System<U>, owner: string, name: string,
                                s': System<U>, u: string)
    requires goals.Disjoint(s0.units) && u in s0.units && owner in s0.units && u != owner
    requires name in goals.own(s0.units[owner]) && IsFresh(goals, s0, s, u) && s'.inFlight == s.inFlight
    requires forall n | n != name :: SameAt(s.engine, s'.engine, n)
    ensures IsFresh(goals, s0, s', u)
  {
    forall n | n in goals.own(s0.units[u]) ensures SameAt(s0.engine, s'.engine, n) {
      assert n != name;
      assert SameAt(s0.engine, s.engine, n) && SameAt(s.engine, s'.engine, n);
    }
  }

  lemma CallKeepsAllActive<U(!new)>(goals: Goals<U>, decide: (U, Engine) -> Option<Work>, s0: System<U>, s: System<U>,
                                    j: nat, name: string, s': System<U>, basis: map<string, Engine>)
    requires Follows(goals, decide, s0.units) && s.units == s0.units && basis.Keys <= s0.units.Keys
    requires forall u | u in basis :: IsActive(goals, decide, s0, s, u, basis[u])
    requires Next(decide, s, EngineCall(j, name, true), s')
    requires goals.Moved(s0.units, s.engine, s'.engine) && MovesOwn(goals, s0, s, j, name, s', basis)
    ensures forall u | u in basis :: IsActive(goals, decide, s0, s', u, basis[u])
  {
    forall u | u in basis ensures IsActive(goals, decide, s0, s', u, basis[u]) {
      CallKeepsActive(goals, decide, s0, s, j, name, s', u, basis[u]);
    }
  }

  lemma CallKeepsUnits<U(!new)>(goals: Goals<U>, decide: (U, Engine) -> Option<Work>, s0: System<U>, s: System<U>,
                                j: nat, name: string, s': System<U>, basis: map<string, Engine>)
    requires Follows(goals, decide, s0.units) && goals.Disjoint(s0.units) && s.units == s0.units
    requires UnitsInv(goals, decide, s0, s, basis) && Next(decide, s, EngineCall(j, name, true), s')
    requires goals.Moved(s0.units, s.engine, s'.engine) && MovesOwn(goals, s0, s, j, name, s', basis)
    ensures UnitsInv(goals, decide, s0, s', basis)
  {
    forall u | u in s0.units && u !in basis ensures IsFresh(goals, s0, s', u) {
      CallKeepsFresh(goals, s0, s, s.jobs[j].unit, name, s', u);
    }
    CallKeepsAllActive(goals, decide, s0, s, j, name, s', basis);
  }

  lemma CallStep<U(!new)>(goals: Goals<U>, decide: (U, Engine) -> Option<Work>, s0: System<U>, s: System<U>, j: nat,
                          name: string, s': System<U>, basis: map<string, Engine>, ticked: bool)
    requires Follows(goals, decide, s0.units) && goals.Disjoint(s0.units) && RunInv(goals, decide, s0, s, basis, ticked)
    requires Next(decide, s, EngineCall(j, name, true), s')
    ensures RunInv(goals, decide, s0, s', basis, ticked)
  {
    InvIsInductive(decide, s, EngineCall(j, name, true), s');
    CallMoves(goals, decide, s0, s, j, name, s', basis);
    CallKeepsUnits(goals, decide, s0, s, j, name, s', basis);
    MovedThrough(goals, s0.units, s0.engine, s.engine, s'.engine);
    if s.loop.HasData? || s.loop.Checking? || s.loop.Launching? {
      MovedThrough(goals, s0.units, s.loop.engine, s.engine, s'.engine);
    }
    forall i | 0 <= i < |s'.jobs| ensures IsJobOf(decide, s0, basis, s'.jobs[i]) {
      assert IsJobOf(decide, s0, basis, s.jobs[i]);
    }
  }

  // ----- Runs -----

  /** Nothing changes from outside, and calls to the engine succeed; reading may fail. */
  predicate Undisturbed(action: Action) {
    match action
    case EngineCall(_, _, ok) => ok
    case Outside => false
    case _ => true
  }

  lemma RunInvIsInductive<U(!new)>(goals: Goals<U>, decide: (U, Engine) -> Option<Work>, s0: System<U>, s: System<U>,
                                   action: Action, s': System<U>, basis: map<string, Engine>, ticked: bool)
    returns (basis': map<string, Engine>)
    requires Follows(goals, decide, s0.units) && goals.Disjoint(s0.units) && RunInv(goals, decide, s0, s, basis, ticked)
    requires Next(decide, s, action, s') && Undisturbed(action)
    ensures RunInv(goals, decide, s0, s', basis', ticked || action == EndTick)
  {
    basis' := basis;
    match action {
      case Check(u) =>
        if decide(s.units[u], s.loop.engine).None? {
          CheckSkips(goals, decide, s0, s, u, s', basis, ticked);
        } else {
          CheckLaunches(goals, decide, s0, s, u, s', basis, ticked);
          basis' := basis[u := s.loop.engine];
        }
      case Spawn => SpawnStep(goals, decide, s0, s, s', basis, ticked);
      case EngineCall(j, name, _) => CallStep(goals, decide, s0, s, j, name, s', basis, ticked);
      case EndJob(j) => EndJobStep(goals, decide, s0, s, j, s', basis, ticked);
      case _ => LoopStep(goals, decide, s0, s, action, s', basis, ticked);
    }
  }

  ghost predicate Invariant<U(!new)>(goals: Goals<U>, decide: (U, Engine) -> Option<Work>, s0: System<U>, s: System<U>,
                                     ticked: bool)
  {
    exists basis: map<string, Engine> :: RunInv(goals, decide, s0, s, basis, ticked)
  }

  lemma StartIsInvariant<U(!new)>(goals: Goals<U>, decide: (U, Engine) -> Option<Work>, s: System<U>)
    requires Start(s)
    ensures Invariant(goals, decide, s, s, false)
  {
    assert JobUnits([]) == {};
    assert RunInv(goals, decide, s, s, map[], false);
  }

  lemma StepKeepsInvariant<U(!new)>(goals: Goals<U>, decide: (U, Engine) -> Option<Work>, s0: System<U>, s: System<U>,
                                    action: Action, s': System<U>, ticked: bool)
    requires Follows(goals, decide, s0.units) && goals.Disjoint(s0.units) && Invariant(goals, decide, s0, s, ticked)
    requires Next(decide, s, action, s') && Undisturbed(action)
    ensures Invariant(goals, decide, s0, s', ticked || action == EndTick)
  {
    var basis: map<string, Engine> :| RunInv(goals, decide, s0, s, basis, ticked);
    var basis' := RunInvIsInductive(goals, decide, s0, s, action, s', basis, ticked);
  }

  lemma StepOfRun<U(!new)>(goals: Goals<U>, decide: (U, Engine) -> Option<Work>, states: seq<System<U>>,
                           actions: seq<Action>, i: nat, ticked: bool)
    requires IsRun(decide, states, actions) && i < |actions| && Undisturbed(actions[i])
    requires Follows(goals, decide, states[0].units) && goals.Disjoint(states[0].units)
    requires Invariant(goals, decide, states[0], states[i], ticked)
    ensures Invariant(goals, decide, states[0], states[i + 1], ticked || actions[i] == EndTick)
  {
    assert TakesStep(decide, states, actions, i);
    StepKeepsInvariant(goals, decide, states[0], states[i], actions[i], states[i + 1], ticked);
  }

  lemma {:induction false} InvariantHolds<U(!new)>(goals: Goals<U>, decide: (U, Engine) -> Option<Work>,
                                                   states: seq<System<U>>, actions: seq<Action>, n: nat)
    requires IsRun(decide, states, actions) && Start(states[0]) && n <= |actions|
    requires Follows(goals, decide, states[0].units) && goals.Disjoint(states[0].units)
    requires forall i | 0 <= i < |actions| :: Undisturbed(actions[i])
    ensures Invariant(goals, decide, states[0], states[n], EndTick in actions[..n])
  {
    if n == 0 {
      StartIsInvariant(goals, decide, states[0]);
    } else {
      InvariantHolds(goals, decide, states, actions, n - 1);
      StepOfRun(goals, decide, states, actions, n - 1, EndTick in actions[..n - 1]);
      assert actions[..n] == actions[..n - 1] + [actions[n - 1]];
    }
  }

  ghost predicate IsBasis<U(!new)>(goals: Goals<U>, decide: (U, Engine) -> Option<Work>, units: map<string, U>,
                                   before: Engine, after: Engine, u: string, d: Engine)
    requires u in units
  {
    && goals.Moved(units, before, d) && goals.Moved(units, d, after) && decide(units[u], d).Some?
    && forall name | name in decide(units[u], d).value.Names() && name in after ::
         goals.AtGoal(units[u], name, after[name])
  }

  /** Where the containers of a unit are in the end: as they were, if nothing was to be done; otherwise
      all that some decision on the way was about are at their goal. */
  ghost predicate Settled<U(!new)>(goals: Goals<U>, decide: (U, Engine) -> Option<Work>, units: map<string, U>,
                                   before: Engine, after: Engine, u: string)
    requires u in units
  {
    if decide(units[u], before).None? then goals.SameFor(units[u], before, after)
    else exists d :: IsBasis(goals, decide, units, before, after, u, d)
  }

  /** However many ticks there are, and however they overlap with jobs: once a tick has ended and
      neither the loop nor a job is under way, every unit is settled. */
  lemma TicksSettle<U(!new)>(goals: Goals<U>, decide: (U, Engine) -> Option<Work>, states: seq<System<U>>,
                             actions: seq<Action>)
    requires IsRun(decide, states, actions) && Start(states[0])
    requires Follows(goals, decide, states[0].units) && goals.Disjoint(states[0].units)
    requires forall i | 0 <= i < |actions| :: Undisturbed(actions[i])
    requires EndTick in actions && states[|actions|].loop.Idle? && states[|actions|].jobs == []
    ensures states[|actions|].inFlight == {}
    ensures goals.Moved(states[0].units, states[0].engine, states[|actions|].engine)
    ensures forall u | u in states[0].units ::
              Settled(goals, decide, states[0].units, states[0].engine, states[|actions|].engine, u)
  {
    var s0, s := states[0], states[|actions|];
    InvariantHolds(goals, decide, states, actions, |actions|);
    assert actions[..|actions|] == actions;
    var basis: map<string, Engine> :| RunInv(goals, decide, s0, s, basis, true);
    assert JobUnits(s.jobs) == {};
    forall u | u in s0.units ensures Settled(goals, decide, s0.units, s0.engine, s.engine, u) {
      if u in basis {
        assert IsActive(goals, decide, s0, s, u, basis[u]);
        assert IsBasis(goals, decide, s0.units, s0.engine, s.engine, u, basis[u]);
      } else {
        assert IsFresh(goals, s0, s, u) && NeedsNothing(decide, s0, u);
      }
    }
  }
}
