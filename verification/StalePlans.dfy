/** Whether the pending change request is still one for the modules that are installed: an update-all
    may read them while an execution is under way and assign its plan after the execution forgot the
    pending one (pkg/service/module.go). */
module StalePlans {
  import opened Prelude
  import opened ModuleSelection
  import opened ChangePlan
  import opened PlanExecution
  import opened ChangeService
  import opened ChangeRuns

  /** While nothing is being carried out, what is pending is a plan for the modules of now. */
  ghost predicate IsFresh(world: World, s: State) {
    s.phase == Idle && s.request.Some? ==> MadeFor(s.view, world.reliable, s.request.value)
  }

  ghost predicate AllFresh(world: World, states: seq<State>) {
    forall i | 0 <= i < |states| :: IsFresh(world, states[i])
  }

  /** A plan is assigned while nothing is being carried out, and the modules have changed since they
      were read for it. */
  ghost predicate IsLate(s: State, event: Event) {
    s.phase == Idle && Assigns(s, event) && InstalledOf(s.updating.value.view) != InstalledOf(s.view)
  }

  ghost predicate NothingLate(states: seq<State>, events: seq<Event>)
    requires |states| > |events|
  {
    forall i | 0 <= i < |events| :: !IsLate(states[i], events[i])
  }

  /** What an update-all holds was planned for the modules it read. */
  ghost predicate HoldsPlan(world: World, s: State) {
    s.updating.Some? ==> MadeFor(s.updating.value.view, world.reliable, s.updating.value.request)
  }

  lemma SameSeen(view: View, view': View, seen: map<string, Installed>, reliable: bool)
    requires Seen(view, seen, reliable) && InstalledOf(view) == InstalledOf(view')
    ensures Seen(view', seen, reliable)
  {
    assert InstalledOf(view).Keys == view.Keys && InstalledOf(view').Keys == view'.Keys;
    forall id | id in seen ensures SeenAs(id, view'[id], seen[id]) {
      assert InstalledOf(view)[id] == InstalledOf(view')[id];
    }
  }

  /** Without external failures, the modules a plan was made for are those of now if and only if they
      have not changed. */
  lemma StillMadeFor(world: World, view: View, view': View, request: Request)
    requires MadeFor(view, world.reliable, request)
    ensures InstalledOf(view) == InstalledOf(view') ==> MadeFor(view', world.reliable, request)
    ensures world.reliable && MadeFor(view', world.reliable, request) ==> InstalledOf(view) == InstalledOf(view')
  {
    if InstalledOf(view) == InstalledOf(view') {
      SameSeen(view, view', request.seen, world.reliable);
    }
  }

  lemma StepKeepsFresh(world: World, before: State, event: Event, after: State)
    requires Takes(world, before, event, after) && HoldsPlan(world, before) && IsFresh(world, before)
    ensures HoldsPlan(world, after)
    ensures !IsLate(before, event) ==> IsFresh(world, after)
    ensures world.reliable && IsLate(before, event) ==> !IsFresh(world, after)
  {
    if event == UpdateAssign {
      StillMadeFor(world, before.updating.value.view, before.view, before.updating.value.request);
    }
  }

  lemma {:induction false} PlansAreHeld(world: World, states: seq<State>, events: seq<Event>, n: nat)
    requires IsRun(world, states, events) && n <= |events| && HoldsPlan(world, states[0])
    ensures HoldsPlan(world, states[n])
  {
    if n > 0 {
      PlansAreHeld(world, states, events, n - 1);
      assert Takes(world, states[n - 1], events[n - 1], states[n]);
    }
  }

  lemma {:induction false} FreshUpTo(world: World, states: seq<State>, events: seq<Event>, n: nat)
    requires IsRun(world, states, events) && n <= |events|
    requires HoldsPlan(world, states[0]) && IsFresh(world, states[0]) && NothingLate(states, events)
    ensures IsFresh(world, states[n])
  {
    if n > 0 {
      FreshUpTo(world, states, events, n - 1);
      PlansAreHeld(world, states, events, n - 1);
      assert !IsLate(states[n - 1], events[n - 1]);
      StepKeepsFresh(world, states[n - 1], events[n - 1], states[n]);
    }
  }

  /** In a run whose pending request is fresh at the start, it is fresh whenever nothing is being carried
      out, unless an update-all assigns late; and without external failures only then. */
  lemma FreshIffNothingLate(world: World, states: seq<State>, events: seq<Event>)
    requires IsRun(world, states, events) && HoldsPlan(world, states[0]) && IsFresh(world, states[0])
    ensures NothingLate(states, events) ==> AllFresh(world, states)
    ensures world.reliable && AllFresh(world, states) ==> NothingLate(states, events)
  {
    if NothingLate(states, events) {
      forall i | 0 <= i < |states| ensures IsFresh(world, states[i]) {
        FreshUpTo(world, states, events, i);
      }
    }
    if world.reliable && AllFresh(world, states) {
      forall i | 0 <= i < |events| ensures !IsLate(states[i], events[i]) {
        PlansAreHeld(world, states, events, i);
        StepKeepsFresh(world, states[i], events[i], states[i + 1]);
      }
    }
  }

  // ----- When an update-all is late -----

  /** The update-all that holds the lock before event `n` read at `j`. */
  ghost predicate ReadAt(states: seq<State>, events: seq<Event>, j: nat, n: nat)
    requires |states| > |events| >= n
  {
    && j < n && events[j].UpdateRead? && states[n].updating == Some(Update(events[j].request, states[j].view))
    && forall k | j < k < n :: events[k] != UpdateAssign
  }

  lemma {:induction false} HeldWasRead(world: World, states: seq<State>, events: seq<Event>, n: nat) returns (j: nat)
    requires IsRun(world, states, events) && n <= |events|
    requires states[0].updating.None? && states[n].updating.Some?
    ensures ReadAt(states, events, j, n)
    ensures states[j].phase == Idle ==> states[n].phase == Idle && states[n].view == states[j].view
  {
    assert Takes(world, states[n - 1], events[n - 1], states[n]);
    if events[n - 1].UpdateRead? {
      j := n - 1;
    } else {
      j := HeldWasRead(world, states, events, n - 1);
    }
  }

  lemma {:induction false} EndBetween(world: World, states: seq<State>, events: seq<Event>, j: nat, n: nat)
    returns (k: nat)
    requires IsRun(world, states, events) && j < n <= |events|
    requires states[j].phase != Idle && states[n].phase == Idle
    ensures j <= k < n && events[k] == End
  {
    assert Takes(world, states[n - 1], events[n - 1], states[n]);
    if states[n - 1].phase != Idle {
      k := n - 1;
    } else {
      k := EndBetween(world, states, events, j, n - 1);
    }
  }

  /** An update-all is late only if it read the modules while an execution was under way and assigns
      after its end. */
  lemma LateReadsDuringExecution(world: World, states: seq<State>, events: seq<Event>, n: nat) returns (j: nat, k: nat)
    requires IsRun(world, states, events) && states[0].updating.None?
    requires n < |events| && IsLate(states[n], events[n])
    ensures ReadAt(states, events, j, n) && states[j].phase != Idle
    ensures j <= k < n && events[k] == End
  {
    j := HeldWasRead(world, states, events, n);
    k := EndBetween(world, states, events, j, n);
  }

  // ----- An example -----

  lemma OnlyRemove(plan: Plan, id: string)
    requires plan == Plan([], [], [id])
    ensures ListOf(plan, 0) == [RemoveStep(id)] && ListOf(plan, 1) == [] && ListOf(plan, 2) == []
  {
  }

  /** The removal, with an update-all that read before it. */
  ghost function Beginning(removal: Request, id: string, update: Request, view: View): seq<State>
    requires removal.plan == Plan([], [], [id])
  {
    OnlyRemove(removal.plan, id);
    var s1 := Started(Pending(removal, view));
    var s2 := s1.(updating := Some(Update(update, view)));
    var s3 := ListRead(s2);
    [Pending(removal, view), s1, s2, s3, Attempted(s3, view - {id}, true)]
  }

  lemma BeginningIs(removal: Request, id: string, update: Request, view: View)
    requires removal.plan == Plan([], [], [id])
    ensures var states := Beginning(removal, id, update, view);
            && states[3].phase == Working(0, [RemoveStep(id)]) && states[4].phase == Working(0, [])
            && states[4].request == Some(removal) && states[4].updating == Some(Update(update, view))
            && states[4].view == view - {id}
  {
    OnlyRemove(removal.plan, id);
    assert [RemoveStep(id)][1..] == [];
  }

  lemma Begins(world: World, removal: Request, id: string, update: Request, view: View)
    requires removal.plan == Plan([], [], [id]) && RemoveStep(id).Possible(world, view)
    requires MadeFor(view, world.reliable, update) && update.removals == []
    ensures var states := Beginning(removal, id, update, view);
            && IsRun(world, states, [Start, UpdateRead(update), Read, Attempt(view - {id}, true)])
            && states[4].phase == Working(0, []) && states[4].request == Some(removal)
            && states[4].updating == Some(Update(update, view)) && states[4].view == view - {id}
  {
    BeginningIs(removal, id, update, view);
    OnlyRemove(removal.plan, id);
  }

  /** The rest of the execution, which has nothing more to do, and the assignment. */
  ghost function Rest(s: State): seq<State>
    requires s.phase == Working(0, []) && s.request.Some? && s.updating.Some? && s.request.value.plan.install == []
    requires s.request.value.plan.change == []
  {
    var s1 := ListDone(s);
    var s2 := ListRead(s1);
    var s3 := ListDone(s2);
    var s4 := ListRead(s3);
    var s5 := ListDone(s4);
    var s6 := s5.(phase := Idle, request := None);
    [s, s1, s2, s3, s4, s5, s6, Assigned(s6, s.updating.value.request).(updating := None)]
  }

  lemma Ends(world: World, s: State, id: string)
    requires s.phase == Working(0, []) && s.request.Some? && s.updating.Some?
    requires s.request.value.plan == Plan([], [], [id]) && !Empty(s.updating.value.request.plan)
    ensures var states := Rest(s);
            && IsRun(world, states, [Next, Read, Next, Read, Next, End, UpdateAssign])
            && states[7].phase == Idle && states[7].request == Some(s.updating.value.request)
            && states[7].view == s.view
  {
    OnlyRemove(s.request.value.plan, id);
  }

  /** An execution removes a module. An update-all that read the modules before the removal assigns its
      plan after the end: what is pending then was made for modules of which one is gone. */
  lemma LateUpdate(world: World, view: View, id: string, removal: Request, update: Request)
    returns (states: seq<State>, events: seq<Event>)
    requires removal.plan == Plan([], [], [id]) && RemoveStep(id).Possible(world, view) && id in view
    requires MadeFor(view, world.reliable, update) && update.removals == [] && !Empty(update.plan)
    ensures IsRun(world, states, events) && states[0] == Pending(removal, view)
    ensures var s := states[|events|];
            s.phase == Idle && s.request == Some(update) && s.view == view - {id} && !IsFresh(world, s)
  {
    var first := Beginning(removal, id, update, view);
    Begins(world, removal, id, update, view);
    Ends(world, first[4], id);
    var begin, end := [Start, UpdateRead(update), Read, Attempt(view - {id}, true)],
      [Next, Read, Next, Read, Next, End, UpdateAssign];
    RunsConcat(world, first, begin, Rest(first[4]), end);
    states, events := first + Rest(first[4])[1..], begin + end;
    assert id in update.seen;
  }
}
