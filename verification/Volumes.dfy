/** The volumes of a deployment in the database and in the container engine
    (pkg/components/handler/deployments/volumes.go, update.go, create.go). */
module Volumes {
  import opened Prelude

  type DeploymentId = nat

  /** Made from the deployment id and the reference, or from earlier times; `Empty` is no name. */
  datatype Name = Empty | Generated(dep: DeploymentId, reference: string) | Other(text: string)

  /** By reference. */
  type Names = map<string, Name>

  /** The deployment a volume is labelled with; None for one that is not labelled as a deployment
      volume of this manager. */
  type Engine = map<Name, Option<DeploymentId>>

  datatype State = State(rows: map<DeploymentId, Names>, engine: Engine)

  // ----- Names -----

  function NewVolumes(references: set<string>, dep: DeploymentId): Names {
    map r | r in references :: Generated(dep, r)
  }

  function KeptName(current: Names, dep: DeploymentId, r: string): Name {
    if r in current && current[r] != Empty then current[r] else Generated(dep, r)
  }

  /** A new deployment has its own name for each of its references. */
  lemma NewNamesDiffer(references: set<string>, dep: DeploymentId, others: set<string>, other: DeploymentId)
    ensures NewVolumes(references, dep).Keys == references && Empty !in NewVolumes(references, dep).Values
    ensures forall r, s | r in references && s in references && r != s ::
              NewVolumes(references, dep)[r] != NewVolumes(references, dep)[s]
    ensures other != dep ==> NewVolumes(references, dep).Values !! NewVolumes(others, other).Values
  {
  }

  ghost predicate HasName(current: Names, r: string) {
    r in current && current[r] != Empty
  }

  /** An update gives two references the same name if and only if they had the same, or one of them had
      the name that is generated for the other one, which had none. */
  lemma SharedNameIff(current: Names, dep: DeploymentId, r: string, s: string)
    requires r != s
    ensures KeptName(current, dep, r) != Empty
    ensures KeptName(current, dep, r) == KeptName(current, dep, s) <==>
            || (HasName(current, r) && HasName(current, s) && current[r] == current[s])
            || (HasName(current, r) && !HasName(current, s) && current[r] == Generated(dep, s))
            || (HasName(current, s) && !HasName(current, r) && current[s] == Generated(dep, r))
  {
  }

  ghost function UpdatedVolumes(references: set<string>, current: Names, dep: DeploymentId): Names {
    map r | r in references :: KeptName(current, dep, r)
  }

  method UpdateVolumes(references: set<string>, current: Names, dep: DeploymentId) returns (volumes: Names)
    ensures volumes == UpdatedVolumes(references, current, dep)
  {
    volumes := map[];
    var todo := references;
    while todo != {}
      invariant todo <= references
      invariant volumes == UpdatedVolumes(references - todo, current, dep)
    {
      var r :| r in todo;
      todo := todo - {r};
      var name := if r in current then current[r] else Empty;
      if name == Empty {
        name := Generated(dep, r);
      }
      volumes := volumes[r := name];
    }
    assert references - todo == references;
  }

  // ----- Reconciliation -----

  /** Labelled with the deployment, but not wanted any more. */
  ghost predicate IsLeftOver(engine: Engine, dep: DeploymentId, wanted: set<Name>, n: Name) {
    n in engine && engine[n] == Some(dep) && n !in wanted
  }

  /** Exactly the left over ones are gone and the missing ones are there. */
  ghost function Reconciled(engine: Engine, dep: DeploymentId, wanted: set<Name>): Engine {
    map n | n in engine.Keys + wanted && !IsLeftOver(engine, dep, wanted, n) ::
      if n in engine then engine[n] else Some(dep)
  }

  /** Some of that, as far as it did not fail; `removing` and `creating` bound what is touched. */
  ghost predicate Touches(before: Engine, after: Engine, dep: DeploymentId, removing: set<Name>, creating: set<Name>) {
    && (forall n | n in before :: n in removing || (n in after && after[n] == before[n]))
    && (forall n | n in after :: if n in before then after[n] == before[n] else n in creating && after[n] == Some(dep))
  }

  ghost predicate PartlyReconciled(before: Engine, after: Engine, dep: DeploymentId, wanted: set<Name>) {
    && (forall n | n in before :: IsLeftOver(before, dep, wanted, n) || (n in after && after[n] == before[n]))
    && (forall n | n in after :: if n in before then after[n] == before[n] else n in wanted && after[n] == Some(dep))
  }

  /** The outcome, said the other way round: every wanted volume is there, the deployment's label is
      on nothing else, and nothing else is touched. */
  lemma ReconciledMeans(engine: Engine, dep: DeploymentId, wanted: set<Name>, after: Engine)
    ensures after == Reconciled(engine, dep, wanted) <==>
              && wanted <= after.Keys
              && (forall n | n in after && after[n] == Some(dep) :: n in wanted)
              && PartlyReconciled(engine, after, dep, wanted)
  {
    if && wanted <= after.Keys && (forall n | n in after && after[n] == Some(dep) :: n in wanted)
       && PartlyReconciled(engine, after, dep, wanted)
    {
      var expected := Reconciled(engine, dep, wanted);
      forall n ensures n in after <==> n in expected {
        if n in engine {
          assert n in after ==> after[n] == engine[n];
        }
      }
    }
  }

  lemma Together(before: Engine, middle: Engine, after: Engine, dep: DeploymentId, wanted: set<Name>,
                 existing: set<Name>, removed: bool, created: bool)
    requires forall n :: n in existing <==> n in before && (before[n] == Some(dep) || n in wanted)
    requires Touches(before, middle, dep, existing - wanted, {}) && (removed ==> (existing - wanted) !! middle.Keys)
    requires Touches(middle, after, dep, {}, wanted - existing) && (created ==> wanted - existing <= after.Keys)
    ensures PartlyReconciled(before, after, dep, wanted)
    ensures removed && created ==> after == Reconciled(before, dep, wanted)
  {
    assert PartlyReconciled(before, after, dep, wanted);
    if removed && created {
      ReconciledMeans(before, dep, wanted, after);
    }
  }

  /** Of the names that were dealt with, those that are still there, and those that are not there. */
  ghost function Kept(now: Engine, names: set<Name>, todo: set<Name>): set<Name> {
    set n | n in names && n !in todo && n in now
  }

  ghost function Lacking(now: Engine, names: set<Name>, todo: set<Name>): set<Name> {
    set n | n in names && n !in todo && n !in now
  }

  lemma KeptOneMore(before: Engine, after: Engine, names: set<Name>, todo: set<Name>, n: Name, ok: bool)
    requires n in todo && (after == before || after == before - {n}) && (ok ==> n !in after)
    ensures |Kept(after, names, todo - {n})| <= |Kept(before, names, todo)| + if ok then 0 else 1
  {
    var more, less := Kept(after, names, todo - {n}), Kept(before, names, todo);
    assert more <= less + if ok then {} else {n};
    SubsetCardinality(more, less + if ok then {} else {n});
  }

  lemma LackingOneMore(before: Engine, after: Engine, names: set<Name>, todo: set<Name>, n: Name, ok: bool)
    requires n in todo && (forall m | m in before :: m in after) && (ok ==> n in after)
    ensures |Lacking(after, names, todo - {n})| <= |Lacking(before, names, todo)| + if ok then 0 else 1
  {
    var more, less := Lacking(after, names, todo - {n}), Lacking(before, names, todo);
    assert more <= less + if ok then {} else {n};
    SubsetCardinality(more, less + if ok then {} else {n});
  }

  /** What is still to be removed or created. */
  ghost function Unreconciled(engine: Engine, dep: DeploymentId, wanted: set<Name>): set<Name> {
    (set n | n in engine && IsLeftOver(engine, dep, wanted, n)) + (set n | n in wanted && n !in engine)
  }

  lemma LeftOverIsKept(before: Engine, middle: Engine, after: Engine, dep: DeploymentId, wanted: set<Name>,
                       existing: set<Name>, n: Name)
    requires n in before && before[n] == Some(dep) && n !in wanted ==> n in existing
    requires Touches(before, middle, dep, existing - wanted, {}) && Touches(middle, after, dep, {}, wanted - existing)
    requires n in after && IsLeftOver(after, dep, wanted, n)
    ensures n in Kept(middle, existing - wanted, {})
  {
    assert n in middle;
    assert n in before;
  }

  lemma MissingIsLacking(before: Engine, middle: Engine, after: Engine, dep: DeploymentId, wanted: set<Name>,
                         existing: set<Name>, n: Name)
    requires n in existing ==> n in before
    requires Touches(before, middle, dep, existing - wanted, {}) && Touches(middle, after, dep, {}, wanted - existing)
    requires n in wanted && n !in after
    ensures n in Lacking(after, wanted - existing, {})
  {
    assert n !in middle;
  }

  lemma AtMostBoth(left: set<Name>, kept: set<Name>, lacking: set<Name>, f1: nat, f2: nat)
    requires (forall n | n in left :: n in kept || n in lacking) && |kept| <= f1 && |lacking| <= f2
    ensures |left| <= f1 + f2
  {
    assert left <= kept + lacking;
    SubsetCardinality(left, kept + lacking);
  }

  lemma LeftToDo(before: Engine, middle: Engine, after: Engine, dep: DeploymentId, wanted: set<Name>,
                 existing: set<Name>, f1: nat, f2: nat)
    requires forall n :: n in existing <==> n in before && (before[n] == Some(dep) || n in wanted)
    requires Touches(before, middle, dep, existing - wanted, {}) && |Kept(middle, existing - wanted, {})| <= f1
    requires Touches(middle, after, dep, {}, wanted - existing) && |Lacking(after, wanted - existing, {})| <= f2
    ensures |Unreconciled(after, dep, wanted)| <= f1 + f2
  {
    var kept, lacking := Kept(middle, existing - wanted, {}), Lacking(after, wanted - existing, {});
    forall n | n in Unreconciled(after, dep, wanted) ensures n in kept || n in lacking {
      if n in after {
        LeftOverIsKept(before, middle, after, dep, wanted, existing, n);
      } else {
        MissingIsLacking(before, middle, after, dep, wanted, existing, n);
      }
    }
    AtMostBoth(Unreconciled(after, dep, wanted), kept, lacking, f1, f2);
  }

  /** What a create, update or recreate with these names may do, whatever fails. */
  ghost predicate IsStep(before: State, after: State, dep: DeploymentId, volumes: Names) {
    || after == before
    || (after.rows == before.rows[dep := volumes] && PartlyReconciled(before.engine, after.engine, dep, volumes.Values))
  }

  ghost predicate IsDone(before: State, after: State, dep: DeploymentId, volumes: Names) {
    && after.rows == before.rows[dep := volumes]
    && after.engine == Reconciled(before.engine, dep, volumes.Values)
  }

  class Handler {
    const env: Environment

    var state: State

    constructor (env: Environment)
      ensures this.env == env && state == State(map[], map[])
    {
      this.env, state := env, State(map[], map[]);
    }

    /** By label, and those that are missing then by name. */
    method GetContainerVolumes(dep: DeploymentId, names: set<Name>) returns (existing: Option<set<Name>>)
      modifies env
      ensures existing.Some? ==> forall n ::
                  n in existing.value <==> n in state.engine && (state.engine[n] == Some(dep) || n in names)
      ensures env.Since(old(env.failures)) && (existing.None? ==> env.failures > old(env.failures))
    {
      var failed := env.Attempt();
      if failed {
        return None;
      }
      var volumes := set n | n in state.engine && state.engine[n] == Some(dep);
      var missing := names - volumes;
      assert forall n | n in names :: n in volumes || n in missing;
      if missing != {} {
        failed := env.Attempt();
        if failed {
          return None;
        }
        volumes := volumes + set n | n in missing && n in state.engine;
      }
      return Some(volumes);
    }

    /** A failure may come after the fact. */
    method RemoveVolume(name: Name) returns (ok: bool)
      modifies `state, env
      ensures state == old(state) || state == old(state).(engine := old(state.engine) - {name})
      ensures ok ==> name !in state.engine
      ensures env.Since(old(env.failures)) && env.failures == old(env.failures) + if ok then 0 else 1
    {
      var failed := env.Attempt();
      ok := !failed;
      var gone := *;
      if ok || gone {
        state := state.(engine := state.engine - {name});
      }
    }

    method CreateVolume(name: Name, dep: DeploymentId) returns (ok: bool)
      requires name !in state.engine
      modifies `state, env
      ensures state == old(state) || state == old(state).(engine := old(state.engine)[name := Some(dep)])
      ensures ok ==> name in state.engine
      ensures env.Since(old(env.failures)) && (!ok ==> env.failures > old(env.failures))
    {
      var failed := env.Attempt();
      ok := !failed;
      var done := *;
      if ok || done {
        state := state.(engine := state.engine[name := Some(dep)]);
      }
    }

    method RemoveAll(names: set<Name>, dep: DeploymentId) returns (ok: bool)
      modifies `state, env
      ensures state.rows == old(state).rows && Touches(old(state).engine, state.engine, dep, names, {})
      ensures ok ==> names !! state.engine.Keys
      ensures |Kept(state.engine, names, {})| <= env.failures - old(env.failures)
      ensures env.Since(old(env.failures)) && (!ok ==> env.failures > old(env.failures))
    {
      ok := true;
      var todo := names;
      assert Kept(state.engine, names, todo) == {};
      while todo != {}
        invariant todo <= names && env.Since(old(env.failures))
        invariant state.rows == old(state).rows && Touches(old(state).engine, state.engine, dep, names, {})
        invariant ok ==> forall n | n in names && n !in todo :: n !in state.engine
        invariant |Kept(state.engine, names, todo)| <= env.failures - old(env.failures)
        invariant !ok ==> env.failures > old(env.failures)
      {
        var n :| n in todo;
        ghost var before := state.engine;
        var removed := RemoveVolume(n);
        KeptOneMore(before, state.engine, names, todo, n, removed);
        todo := todo - {n};
        ok := ok && removed;
      }
    }

    method CreateAll(names: set<Name>, dep: DeploymentId) returns (ok: bool)
      requires names !! state.engine.Keys
      modifies `state, env
      ensures state.rows == old(state).rows && Touches(old(state).engine, state.engine, dep, {}, names)
      ensures ok ==> names <= state.engine.Keys
      ensures |Lacking(state.engine, names, {})| <= env.failures - old(env.failures)
      ensures env.Since(old(env.failures)) && (!ok ==> env.failures > old(env.failures))
    {
      ok := true;
      var todo := names;
      assert Lacking(state.engine, names, todo) == {};
      while todo != {}
        invariant todo <= names && env.Since(old(env.failures))
        invariant forall n | n in todo :: n !in state.engine
        invariant state.rows == old(state).rows && Touches(old(state).engine, state.engine, dep, {}, names)
        invariant ok ==> forall n | n in names && n !in todo :: n in state.engine
        invariant |Lacking(state.engine, names, todo)| <= env.failures - old(env.failures)
        invariant !ok ==> env.failures > old(env.failures)
      {
        var n :| n in todo;
        ghost var before := state.engine;
        var created := CreateVolume(n, dep);
        LackingOneMore(before, state.engine, names, todo, n, created);
        todo := todo - {n};
        ok := ok && created;
      }
    }

    method EnsureContainerVolumes(volumes: Names, dep: DeploymentId) returns (ok: bool)
      modifies `state, env
      ensures state.rows == old(state).rows
      ensures PartlyReconciled(old(state).engine, state.engine, dep, volumes.Values)
      ensures ok ==> state.engine == Reconciled(old(state).engine, dep, volumes.Values)
      ensures env.Since(old(env.failures)) && (!ok ==> env.failures > old(env.failures))
      // unless the volumes cannot be listed, no more is left to do than calls failed
      ensures state.engine == old(state).engine
              || |Unreconciled(state.engine, dep, volumes.Values)| <= env.failures - old(env.failures)
    {
      var wanted := volumes.Values;
      var existing := GetContainerVolumes(dep, wanted);
      if existing.None? {
        return false;
      }
      var removed := RemoveAll(existing.value - wanted, dep);
      ghost var middle := state.engine;
      ghost var f1 := env.failures - old(env.failures);
      var created := CreateAll(wanted - existing.value, dep);
      LeftToDo(old(state).engine, middle, state.engine, dep, wanted, existing.value, f1,
               env.failures - old(env.failures) - f1);
      ok := removed && created;
      Together(old(state).engine, middle, state.engine, dep, wanted, existing.value, removed, created);
    }

    /** The rows first, then the volumes; there are other steps before, between and after that. */
    method Write(dep: DeploymentId, volumes: Names) returns (ok: bool)
      modifies `state, env
      ensures IsStep(old(state), state, dep, volumes)
      ensures ok ==> IsDone(old(state), state, dep, volumes)
      ensures env.Since(old(env.failures)) && (!ok ==> env.failures > old(env.failures))
    {
      var failed := env.Attempt();
      if failed {
        return false;
      }
      state := state.(rows := state.rows[dep := volumes]);
      failed := env.Attempt();
      if failed {
        return false;
      }
      ok := EnsureContainerVolumes(volumes, dep);
      failed := env.Attempt();
      ok := ok && !failed;
    }

    /** New rows and new volumes. */
    method CreateDeployment(dep: DeploymentId, references: set<string>) returns (ok: bool)
      requires dep !in state.rows
      modifies `state, env
      ensures IsStep(old(state), state, dep, NewVolumes(references, dep))
      ensures ok ==> IsDone(old(state), state, dep, NewVolumes(references, dep))
      ensures env.Since(old(env.failures)) && (!ok ==> env.failures > old(env.failures))
    {
      ok := Write(dep, NewVolumes(references, dep));
    }

    /** The names that are there stay. */
    method UpdateDeployment(dep: DeploymentId, references: set<string>) returns (ok: bool)
      requires dep in state.rows
      modifies `state, env
      ensures IsStep(old(state), state, dep, UpdatedVolumes(references, old(state).rows[dep], dep))
      ensures ok ==> IsDone(old(state), state, dep, UpdatedVolumes(references, old(state).rows[dep], dep))
      ensures env.Since(old(env.failures)) && (!ok ==> env.failures > old(env.failures))
    {
      var volumes := UpdateVolumes(references, state.rows[dep], dep);
      ok := Write(dep, volumes);
    }

    /** The rows are not touched. */
    method RecreateDeployment(dep: DeploymentId) returns (ok: bool)
      requires dep in state.rows
      modifies `state, env
      ensures IsStep(old(state), state, dep, old(state).rows[dep])
      ensures ok ==> IsDone(old(state), state, dep, old(state).rows[dep])
      ensures env.Since(old(env.failures)) && (!ok ==> env.failures > old(env.failures))
    {
      assert state.rows[dep := state.rows[dep]] == state.rows;
      var failed := env.Attempt();
      if failed {
        return false;
      }
      ok := EnsureContainerVolumes(state.rows[dep], dep);
    }
  }

  // ----- Steps and runs -----

  datatype Action = Create(dep: DeploymentId, references: set<string>)
                  | Update(dep: DeploymentId, references: set<string>)
                  | Recreate(dep: DeploymentId)

  ghost predicate Does(before: State, after: State, action: Action) {
    match action
    case Create(dep, references) => dep !in before.rows && IsStep(before, after, dep, NewVolumes(references, dep))
    case Update(dep, references) =>
      dep in before.rows && IsStep(before, after, dep, UpdatedVolumes(references, before.rows[dep], dep))
    case Recreate(dep) => dep in before.rows && IsStep(before, after, dep, before.rows[dep])
  }

  ghost predicate IsRun(states: seq<State>, actions: seq<Action>) {
    && |states| == |actions| + 1
    && forall i | 0 <= i < |actions| :: Does(states[i], states[i + 1], actions[i])
  }

  /** The volume of this reference has this name, is in the engine, and is not labelled with another
      deployment. */
  ghost predicate Holds(s: State, dep: DeploymentId, reference: string, name: Name) {
    && dep in s.rows && reference in s.rows[dep] && s.rows[dep][reference] == name && name != Empty
    && name in s.engine && (s.engine[name] == Some(dep) || s.engine[name] == None)
  }

  lemma StepKeepsVolume(before: State, after: State, action: Action, dep: DeploymentId, reference: string, name: Name)
    requires Holds(before, dep, reference, name) && Does(before, after, action)
    requires action.Update? && action.dep == dep ==> reference in action.references
    ensures Holds(after, dep, reference, name)
  {
    if after != before && action.dep == dep {
      var volumes := after.rows[dep];
      assert reference in volumes && volumes[reference] == name;
      assert name in volumes.Values;
    }
  }

  /** Over any run, with any failures: a reference that stays in the module keeps its name, and its
      volume is never removed. */
  lemma {:induction false} RunKeepsVolume(states: seq<State>, actions: seq<Action>, dep: DeploymentId,
                                          reference: string, name: Name, i: nat)
    requires IsRun(states, actions) && Holds(states[0], dep, reference, name) && i < |states|
    requires forall a | a in actions && a.Update? && a.dep == dep :: reference in a.references
    ensures Holds(states[i], dep, reference, name)
  {
    if i > 0 {
      RunKeepsVolume(states, actions, dep, reference, name, i - 1);
      StepKeepsVolume(states[i - 1], states[i], actions[i - 1], dep, reference, name);
    }
  }

  /** An update without it removes it, if it is labelled and no other reference has the name. */
  lemma DroppedVolumeIsRemoved(before: State, after: State, dep: DeploymentId, references: set<string>,
                               reference: string, name: Name)
    requires Holds(before, dep, reference, name) && before.engine[name] == Some(dep) && reference !in references
    requires IsDone(before, after, dep, UpdatedVolumes(references, before.rows[dep], dep))
    ensures name in after.engine <==> exists r :: r in references && KeptName(before.rows[dep], dep, r) == name
  {
    var volumes := UpdatedVolumes(references, before.rows[dep], dep);
    if r :| r in references && KeptName(before.rows[dep], dep, r) == name {
      assert volumes[r] == name;
    }
    if name in volumes.Values {
      var r :| r in volumes && volumes[r] == name;
    }
  }
}
