/** The execution of a change request beside everything that may happen to the request meanwhile: the
    goroutine reads the pending request three times without the lock of the service
    (pkg/service/module.go, pkg/service/repository.go). */
module ChangeRuns {
  import opened Prelude
  import opened ChangePlan
  import opened PlanExecution
  import opened ChangeService

  // ----- States and actions -----

  /** `Reading(k)`: about to look up list `k` of whatever request is pending then; the lists are those
      of the removes, the installs and the changes. `Working(k, todo)`: ranging over the list that was
      found. `Ending`: the deferred clean-up is still to come, after a panic or not. */
  datatype Phase = Idle | Reading(list: nat) | Working(list: nat, todo: seq<Step>) | Ending(panicked: bool)

  /** An update-all that has read the installed modules and holds the lock of the service until its plan
      is assigned: what it plans, and the modules it read. */
  datatype Update = Update(request: Request, view: View)

  /** `attempted`, `trace` and `report` are about the execution under way. */
  datatype State = State(request: Option<Request>, updating: Option<Update>, phase: Phase, view: View,
                         attempted: seq<Step>, trace: Trace, report: Report)

  datatype Event = Start | Read | Attempt(after: View, ok: bool) | Next | End
                 | Create(request: Request) | Cancel | Refresh | UpdateRead(request: Request) | UpdateAssign

  const LISTS := 3

  ghost function ListOf(plan: Plan, k: nat): seq<Step> {
    if k == 0 then RemoveSteps(plan.remove)
    else if k == 1 then InstallSteps(plan.install)
    else ChangeSteps(plan.change)
  }

  predicate Empty(plan: Plan) {
    plan == Plan([], [], [])
  }

  ghost function Started(s: State): State {
    s.(phase := Reading(0), attempted := [], trace := Trace([s.view], []), report := Report([], []))
  }

  /** Looking up a list of a request that is gone is a nil dereference. */
  ghost function ListRead(s: State): State
    requires s.phase.Reading?
  {
    var k := s.phase.list;
    s.(phase := if s.request.None? then Ending(true) else Working(k, ListOf(s.request.value.plan, k)))
  }

  ghost function Attempted(s: State, view: View, ok: bool): State
    requires s.phase.Working? && s.phase.todo != []
  {
    var step := s.phase.todo[0];
    s.(phase := Working(s.phase.list, s.phase.todo[1..]), view := view, attempted := s.attempted + [step],
       trace := s.trace.Then(view, ok), report := Reported(s.report, step.Item(), ok))
  }

  ghost function ListDone(s: State): State
    requires s.phase.Working?
  {
    s.(phase := if s.phase.list + 1 < LISTS then Reading(s.phase.list + 1) else Ending(false))
  }

  /** A request that changes nothing leaves the pending one in place. */
  ghost function Assigned(s: State, request: Request): State {
    if Empty(request.plan) then s else s.(request := Some(request))
  }

  /** A new change request is refused while the module slot is taken. Cancelling, refreshing and
      updating all look at no slot of a modules change. The goroutine takes no lock, so all its steps may
      fall between the two of an update-all; everything else waits. */
  ghost predicate Takes(world: World, before: State, event: Event, after: State) {
    match event
    case Start => before.updating.None? && before.phase == Idle && before.request.Some? && after == Started(before)
    case Read => before.phase.Reading? && after == ListRead(before)
    case Attempt(view, ok) =>
      && before.phase.Working? && before.phase.todo != []
      && StepOutcome(world, before.phase.todo[0], before.view, view, ok)
      && after == Attempted(before, view, ok)
    case Next => before.phase.Working? && before.phase.todo == [] && after == ListDone(before)
    case End => before.phase.Ending? && after == before.(phase := Idle, request := None)
    case Create(request) =>
      && before.updating.None? && before.phase == Idle && MadeFor(before.view, world.reliable, request)
      && after == Assigned(before, request)
    case Cancel => before.updating.None? && after == before.(request := None)
    case Refresh => before.updating.None? && after == before.(request := None)
    case UpdateRead(request) =>
      && before.updating.None? && MadeFor(before.view, world.reliable, request) && request.removals == []
      && after == before.(updating := Some(Update(request, before.view)))
    case UpdateAssign =>
      before.updating.Some? && after == Assigned(before, before.updating.value.request).(updating := None)
  }

  ghost predicate IsRun(world: World, states: seq<State>, events: seq<Event>) {
    && |states| == |events| + 1
    && forall i | 0 <= i < |events| :: Takes(world, states[i], events[i], states[i + 1])
  }

  /** The part of a run that belongs to one execution of `plan`, from its start on. */
  ghost predicate IsExecution(world: World, states: seq<State>, events: seq<Event>, plan: Plan) {
    && IsRun(world, states, events) && events != [] && events[0] == Start
    && states[0].request.Some? && states[0].request.value.plan == plan
    && forall i | 0 <= i < |events| :: events[i] != End
  }

  // ----- Carrying out the whole plan -----

  /** The execution came to its end, and attempted the steps of the plan, in order, and no others. */
  ghost predicate CarriedOut(s: State, plan: Plan) {
    s.phase == Ending(false) && s.attempted == Steps(plan)
  }

  ghost predicate GoodRead(s: State, plan: Plan) {
    && s.phase.Reading? && s.request.Some?
    && ListOf(s.request.value.plan, s.phase.list) == ListOf(plan, s.phase.list)
  }

  /** The first lists of a plan. */
  ghost function FirstLists(plan: Plan, k: nat): seq<Step> {
    if k == 0 then [] else FirstLists(plan, k - 1) + ListOf(plan, k - 1)
  }

  lemma AllLists(plan: Plan)
    ensures FirstLists(plan, LISTS) == Steps(plan)
  {
    assert FirstLists(plan, 1) == ListOf(plan, 0);
    assert FirstLists(plan, 3) == FirstLists(plan, 2) + ListOf(plan, 2);
    assert FirstLists(plan, 2) == FirstLists(plan, 1) + ListOf(plan, 1);
  }

  /** Which list a step comes from. */
  function Kind(step: Step): nat {
    match step
    case RemoveStep(_) => 0
    case InstallStep(_) => 1
    case ChangeStep(_) => 2
  }

  ghost predicate Below(steps: seq<Step>, k: nat) {
    forall step | step in steps :: Kind(step) < k
  }

  ghost predicate Only(steps: seq<Step>, k: nat) {
    forall step | step in steps :: Kind(step) == k
  }

  lemma ListsAreBelow(plan: Plan, k: nat)
    requires k <= LISTS
    ensures Below(FirstLists(plan, k), k) && (k < LISTS ==> Only(ListOf(plan, k), k))
  {
    if k > 0 {
      ListsAreBelow(plan, k - 1);
    }
  }

  lemma WhereTheyMeet(a: seq<Step>, b: seq<Step>, c: seq<Step>, d: seq<Step>)
    requires a + b == c + d && |a| < |c|
    ensures b != [] && b[0] in b && c[|a|] in c && b[0] == c[|a|]
  {
    assert (a + b)[|a|] == b[0] && (c + d)[|a|] == c[|a|];
  }

  /** Steps tell their list, so equal sequences have equal parts. */
  lemma PartsByKind(a: seq<Step>, b: seq<Step>, c: seq<Step>, d: seq<Step>, k: nat)
    requires Below(a, k) && Below(c, k) && Only(b, k) && Only(d, k)
    ensures a + b == c + d <==> a == c && b == d
  {
    if a + b == c + d {
      if |a| < |c| {
        WhereTheyMeet(a, b, c, d);
      } else if |c| < |a| {
        WhereTheyMeet(c, d, a, b);
      }
      assert a == (a + b)[..|a|] && c == (c + d)[..|c|];
      assert b == (a + b)[|a|..] && d == (c + d)[|c|..];
    }
  }

  /** What an execution has attempted, and is about to attempt, belongs to the lists read so far. */
  ghost predicate InOrder(s: State) {
    match s.phase
    case Idle => true
    case Reading(k) => k < LISTS && Below(s.attempted, k)
    case Working(k, todo) => k < LISTS && Below(s.attempted, k + 1) && Only(todo, k)
    case Ending(_) => true
  }

  lemma StepKeepsOrder(world: World, before: State, event: Event, after: State)
    requires InOrder(before) && Takes(world, before, event, after)
    ensures InOrder(after)
  {
    if event.Read? && before.request.Some? {
      ListsAreBelow(before.request.value.plan, before.phase.list);
    }
  }

  /** So far exactly the steps of the plan were attempted, or are next in the list under way. */
  ghost predicate OnTrack(s: State, plan: Plan) {
    match s.phase
    case Idle => false
    case Reading(k) => s.attempted == FirstLists(plan, k)
    case Working(k, todo) => s.attempted + todo == FirstLists(plan, k + 1)
    case Ending(panicked) => !panicked && s.attempted == FirstLists(plan, LISTS)
  }

  lemma ReadStaysOnTrack(world: World, before: State, after: State, plan: Plan)
    requires InOrder(before) && Takes(world, before, Read, after)
    ensures OnTrack(after, plan) <==> OnTrack(before, plan) && GoodRead(before, plan)
  {
    var k := before.phase.list;
    ListsAreBelow(plan, k);
    if before.request.Some? {
      ListsAreBelow(before.request.value.plan, k);
      PartsByKind(before.attempted, ListOf(before.request.value.plan, k), FirstLists(plan, k), ListOf(plan, k), k);
    }
  }

  /** Only a read can lead astray, and nothing leads back. */
  lemma StepStaysOnTrack(world: World, before: State, event: Event, after: State, plan: Plan)
    requires InOrder(before) && Takes(world, before, event, after) && before.phase != Idle && event != End
    ensures OnTrack(after, plan) <==> OnTrack(before, plan) && (event == Read ==> GoodRead(before, plan))
  {
    if event == Read {
      ReadStaysOnTrack(world, before, after, plan);
    } else if event.Attempt? {
      var todo := before.phase.todo;
      assert before.attempted + [todo[0]] + todo[1..] == before.attempted + todo;
    } else if event == Next {
      assert before.attempted + [] == before.attempted;
    }
  }

  ghost predicate GoodReads(states: seq<State>, events: seq<Event>, plan: Plan, n: nat)
    requires |states| > |events| && n <= |events|
  {
    forall i | 0 <= i < n && events[i] == Read :: GoodRead(states[i], plan)
  }

  lemma {:induction false} OrderOfRun(world: World, states: seq<State>, events: seq<Event>, plan: Plan, n: nat)
    requires IsExecution(world, states, events, plan) && 0 < n <= |events|
    ensures InOrder(states[n]) && states[n].phase != Idle
  {
    if n == 1 {
      assert Takes(world, states[0], Start, states[1]);
    } else {
      OrderOfRun(world, states, events, plan, n - 1);
      assert events[n - 1] != End;
      StepKeepsOrder(world, states[n - 1], events[n - 1], states[n]);
    }
  }

  lemma {:induction false} TrackOfRun(world: World, states: seq<State>, events: seq<Event>, plan: Plan, n: nat)
    requires IsExecution(world, states, events, plan) && 0 < n <= |events|
    ensures OnTrack(states[n], plan) <==> GoodReads(states, events, plan, n)
  {
    if n == 1 {
      assert Takes(world, states[0], Start, states[1]);
    } else {
      TrackOfRun(world, states, events, plan, n - 1);
      OrderOfRun(world, states, events, plan, n - 1);
      StepStaysOnTrack(world, states[n - 1], events[n - 1], states[n], plan);
    }
  }

  /** The plan is carried out if and only if each of the lists is found as it was planned: a request is
      pending at every read, and has the list of the plan. */
  lemma CarriedOutIffReadsAreGood(world: World, states: seq<State>, events: seq<Event>, plan: Plan)
    requires IsExecution(world, states, events, plan) && states[|events|].phase.Ending?
    ensures CarriedOut(states[|events|], plan) <==> GoodReads(states, events, plan, |events|)
  {
    TrackOfRun(world, states, events, plan, |events|);
    AllLists(plan);
  }

  // ----- Interference -----

  /** There is a list still to be read, and which. */
  predicate ReadsMore(phase: Phase) {
    phase.Reading? || (phase.Working? && phase.list + 1 < LISTS)
  }

  function NextList(phase: Phase): nat
    requires ReadsMore(phase)
  {
    if phase.Reading? then phase.list else phase.list + 1
  }

  /** An update-all interferes when its plan is assigned. */
  ghost predicate Assigns(s: State, event: Event) {
    event == UpdateAssign && s.updating.Some? && !Empty(s.updating.value.request.plan)
  }

  ghost predicate Interferes(s: State, event: Event) {
    event == Cancel || event == Refresh || Assigns(s, event)
  }

  /** A cancel, a refresh or an update-all falls between the start and the last read. */
  ghost predicate Disturbed(states: seq<State>, events: seq<Event>)
    requires |states| > |events|
  {
    exists i :: 0 <= i < |events| && ReadsMore(states[i].phase) && Interferes(states[i], events[i])
  }

  /** Whoever updates all meanwhile plans something else for the list that is read next. */
  ghost predicate UpdatesDiffer(states: seq<State>, events: seq<Event>, plan: Plan)
    requires |states| > |events|
  {
    forall i | 0 <= i < |events| && ReadsMore(states[i].phase) && Assigns(states[i], events[i]) ::
      ListOf(states[i].updating.value.request.plan, NextList(states[i].phase)) !=
      ListOf(plan, NextList(states[i].phase))
  }

  /** The next read will go wrong. */
  ghost predicate BadNext(s: State, plan: Plan) {
    && ReadsMore(s.phase)
    && (s.request.Some? ==> ListOf(s.request.value.plan, NextList(s.phase)) != ListOf(plan, NextList(s.phase)))
  }

  lemma {:induction false} BadReadFollows(world: World, states: seq<State>, events: seq<Event>, plan: Plan, i: nat)
    requires IsExecution(world, states, events, plan) && states[|events|].phase.Ending?
    requires UpdatesDiffer(states, events, plan) && i <= |events| && BadNext(states[i], plan)
    ensures !GoodReads(states, events, plan, |events|)
    decreases |events| - i
  {
    assert Takes(world, states[i], events[i], states[i + 1]);
    if events[i] == Read {
      assert !GoodRead(states[i], plan);
    } else {
      BadReadFollows(world, states, events, plan, i + 1);
    }
  }

  lemma {:induction false} UndisturbedKeepsRequest(world: World, states: seq<State>, events: seq<Event>, plan: Plan,
                                                   n: nat)
    requires IsExecution(world, states, events, plan) && 0 < n <= |events|
    requires !Disturbed(states, events)
    ensures ReadsMore(states[n].phase) ==> states[n].request.Some? && states[n].request.value.plan == plan
  {
    if n == 1 {
      assert Takes(world, states[0], Start, states[1]);
    } else {
      UndisturbedKeepsRequest(world, states, events, plan, n - 1);
      OrderOfRun(world, states, events, plan, n - 1);
      assert Takes(world, states[n - 1], events[n - 1], states[n]);
      assert !(ReadsMore(states[n - 1].phase) && Interferes(states[n - 1], events[n - 1]));
    }
  }

  /** An execution carries out its plan if and only if no cancel, refresh or update-all falls between
      its start and its last read. */
  lemma CarriedOutIffUndisturbed(world: World, states: seq<State>, events: seq<Event>, plan: Plan)
    requires IsExecution(world, states, events, plan) && states[|events|].phase.Ending?
    requires UpdatesDiffer(states, events, plan)
    ensures CarriedOut(states[|events|], plan) <==> !Disturbed(states, events)
  {
    CarriedOutIffReadsAreGood(world, states, events, plan);
    if Disturbed(states, events) {
      var i :| 0 <= i < |events| && ReadsMore(states[i].phase) && Interferes(states[i], events[i]);
      assert Takes(world, states[i], events[i], states[i + 1]);
      BadReadFollows(world, states, events, plan, i + 1);
    } else {
      forall i | 0 <= i < |events| && events[i] == Read ensures GoodRead(states[i], plan) {
        assert Takes(world, states[i], events[i], states[i + 1]);
        UndisturbedKeepsRequest(world, states, events, plan, i);
      }
    }
  }

  // ----- What an undisturbed execution does to the modules -----

  ghost predicate Traced(world: World, first: View, s: State) {
    Progress(world, first, s.attempted, s.view, s.trace, s.report)
  }

  lemma TraceOneMore(world: World, first: View, before: State, event: Event, after: State)
    requires Traced(world, first, before) && Takes(world, before, event, after)
    requires before.phase != Idle && event != End
    ensures Traced(world, first, after)
  {
    if event.Attempt? {
      OneMoreStep(world, first, before.attempted, before.view, before.trace, before.report, before.phase.todo[0],
                  event.after, event.ok);
    }
  }

  lemma {:induction false} RunIsTraced(world: World, states: seq<State>, events: seq<Event>, plan: Plan, n: nat)
    requires IsExecution(world, states, events, plan) && 0 < n <= |events|
    ensures Traced(world, states[0].view, states[n])
  {
    if n == 1 {
      assert Takes(world, states[0], Start, states[1]);
    } else {
      RunIsTraced(world, states, events, plan, n - 1);
      OrderOfRun(world, states, events, plan, n - 1);
      TraceOneMore(world, states[0].view, states[n - 1], events[n - 1], states[n]);
    }
  }

  /** An execution that no cancel, refresh or update-all disturbs fulfils its request exactly as one
      that runs alone. */
  lemma UndisturbedExecutionFulfils(world: World, states: seq<State>, events: seq<Event>, request: Request)
    requires IsExecution(world, states, events, request.plan) && states[|events|].phase.Ending?
    requires !Disturbed(states, events) && MadeFor(states[0].view, world.reliable, request)
    ensures CarriedOut(states[|events|], request.plan)
    ensures Accounts(states[|events|].report, Steps(request.plan))
    ensures world.reliable ==>
              Fulfils(world, request, states[0].view, states[|events|].view, states[|events|].report)
  {
    var s := states[|events|];
    RunIsTraced(world, states, events, request.plan, |events|);
    forall i | 0 <= i < |events| && events[i] == Read ensures GoodRead(states[i], request.plan) {
      assert Takes(world, states[i], events[i], states[i + 1]);
      UndisturbedKeepsRequest(world, states, events, request.plan, i);
    }
    CarriedOutIffReadsAreGood(world, states, events, request.plan);
    ExecutionFulfils(world, request, states[0].view, s.view, s.trace, s.report);
  }

  // ----- Examples -----

  /** One run after another. */
  lemma RunsConcat(world: World, a: seq<State>, ea: seq<Event>, b: seq<State>, eb: seq<Event>)
    requires IsRun(world, a, ea) && IsRun(world, b, eb) && a[|ea|] == b[0]
    ensures IsRun(world, a + b[1..], ea + eb)
  {
    var states, events := a + b[1..], ea + eb;
    forall i | 0 <= i < |events| ensures Takes(world, states[i], events[i], states[i + 1]) {
      if i < |ea| {
        assert Takes(world, a[i], ea[i], a[i + 1]);
      } else {
        assert Takes(world, b[i - |ea|], eb[i - |ea|], b[i - |ea| + 1]);
      }
    }
  }

  ghost function Pending(request: Request, view: View): State {
    State(Some(request), None, Idle, view, [], Trace([view], []), Report([], []))
  }

  /** Up to the end of the removal. */
  lemma RemovesFirst(world: World, view: View, id: string, request: Request) returns (states: seq<State>)
    requires request.plan.remove == [id] && RemoveStep(id).Possible(world, view)
    ensures IsRun(world, states, [Start, Read, Attempt(view - {id}, true)]) && states[0] == Pending(request, view)
    ensures var s := states[3];
            && s.phase == Working(0, []) && s.view == view - {id} && s.attempted == [RemoveStep(id)]
            && s.updating.None?
  {
    var s0 := Pending(request, view);
    var s1 := Started(s0);
    var s2 := ListRead(s1);
    assert ListOf(request.plan, 0) == [RemoveStep(id)] && [RemoveStep(id)][1..] == [];
    states := [s0, s1, s2, Attempted(s2, view - {id}, true)];
  }

  /** A request that removes one module and installs others, cancelled after the removal: the goroutine
      panics at its next read, and nothing is installed. */
  lemma CancelledAfterRemoves(world: World, view: View, id: string, request: Request)
    returns (states: seq<State>, events: seq<Event>)
    requires request.plan.remove == [id] && request.plan.install != [] && RemoveStep(id).Possible(world, view)
    ensures IsExecution(world, states, events, request.plan)
    ensures states[0] == Pending(request, view) && Disturbed(states, events)
    ensures var s := states[|events|];
            s.phase == Ending(true) && s.view == view - {id} && s.attempted == [RemoveStep(id)]
  {
    var first := RemovesFirst(world, view, id, request);
    var s4 := ListDone(first[3]);
    var s5 := s4.(request := None);
    var rest := [first[3], s4, s5, ListRead(s5)];
    var begin, end := [Start, Read, Attempt(view - {id}, true)], [Next, Cancel, Read];
    RunsConcat(world, first, begin, rest, end);
    states, events := first + rest[1..], begin + end;
    assert ReadsMore(states[4].phase) && Interferes(states[4], events[4]);
  }

  ghost predicate OnlyChange(plan: Plan) {
    |plan.change| == 1 && plan.remove == [] && plan.install == []
  }

  lemma SamePlanLists(plan: Plan)
    requires OnlyChange(plan)
    ensures ListOf(plan, 0) == [] && ListOf(plan, 1) == [] && ListOf(plan, 2) == [ChangeStep(plan.change[0])]
    ensures Steps(plan) == [ChangeStep(plan.change[0])]
  {
  }

  /** A plan with a single change, carried out from its first read on. */
  ghost function ChangeStates(s: State, after: View): seq<State>
    requires s.phase == Reading(0) && s.request.Some? && OnlyChange(s.request.value.plan)
  {
    SamePlanLists(s.request.value.plan);
    var s2 := ListDone(ListRead(s));
    var s4 := ListDone(ListRead(s2));
    var s5 := ListRead(s4);
    var s6 := Attempted(s5, after, true);
    [s, ListRead(s), s2, ListRead(s2), s4, s5, s6, ListDone(s6)]
  }

  ghost function ChangeEvents(after: View): seq<Event> {
    [Read, Next, Read, Next, Read, Attempt(after, true), Next]
  }

  lemma ChangePhases(s: State, after: View)
    requires s.phase == Reading(0) && s.request.Some? && OnlyChange(s.request.value.plan) && s.attempted == []
    ensures var step, states := ChangeStep(s.request.value.plan.change[0]), ChangeStates(s, after);
            && states[1].phase == Working(0, []) && states[2].phase == Reading(1)
            && states[3].phase == Working(1, []) && states[4].phase == Reading(2)
            && states[5].phase == Working(2, [step]) && states[5].view == s.view && states[6].phase == Working(2, [])
            && states[7].phase == Ending(false) && states[7].attempted == [step]
  {
    SamePlanLists(s.request.value.plan);
    assert [ChangeStep(s.request.value.plan.change[0])][1..] == [];
  }

  lemma ChangeExecutes(world: World, s: State, after: View)
    requires s.phase == Reading(0) && s.request.Some? && OnlyChange(s.request.value.plan) && s.attempted == []
    requires StepOutcome(world, ChangeStep(s.request.value.plan.change[0]), s.view, after, true)
    ensures IsRun(world, ChangeStates(s, after), ChangeEvents(after))
  {
    ChangePhases(s, after);
    SamePlanLists(s.request.value.plan);
  }

  /** The update-all assigns before the first read. */
  ghost function UpdatedStates(request: Request, view: View): seq<State> {
    var s1 := Started(Pending(request, view));
    [Pending(request, view), s1, s1.(updating := Some(Update(request, view))), s1]
  }

  lemma UpdatesAtOnce(world: World, view: View, request: Request)
    requires OnlyChange(request.plan) && MadeFor(view, world.reliable, request) && request.removals == []
    ensures IsRun(world, UpdatedStates(request, view), [Start, UpdateRead(request), UpdateAssign])
  {
  }

  lemma PossibleStep(world: World, view: View, step: Step)
    requires step.Possible(world, view)
    ensures StepOutcome(world, step, view, step.Effect(world, view), true)
  {
  }

  lemma NoEnd(request: Request, after: View)
    ensures var events := [Start, UpdateRead(request), UpdateAssign] + ChangeEvents(after);
            && |events| == 10 && events[0] == Start && events[2] == UpdateAssign
            && forall i | 0 <= i < |events| :: events[i] != End
  {
  }

  lemma SamePlanRun(world: World, view: View, request: Request, after: View)
    returns (states: seq<State>, events: seq<Event>)
    requires OnlyChange(request.plan) && MadeFor(view, world.reliable, request) && request.removals == []
    requires StepOutcome(world, ChangeStep(request.plan.change[0]), view, after, true)
    ensures IsRun(world, states, events) && states[0] == Pending(request, view)
    ensures events == [Start, UpdateRead(request), UpdateAssign] + ChangeEvents(after)
    ensures states[2].phase == Reading(0) && states[2].updating == Some(Update(request, view))
    ensures states[10].phase == Ending(false) && states[10].attempted == [ChangeStep(request.plan.change[0])]
  {
    var first, begin := UpdatedStates(request, view), [Start, UpdateRead(request), UpdateAssign];
    var rest := ChangeStates(first[3], after);
    UpdatesAtOnce(world, view, request);
    ChangeExecutes(world, first[3], after);
    ChangePhases(first[3], after);
    RunsConcat(world, first, begin, rest, ChangeEvents(after));
    states, events := first + rest[1..], begin + ChangeEvents(after);
    assert states[10] == rest[1..][6];
  }

  lemma AssignInBetween(states: seq<State>, events: seq<Event>, i: nat)
    requires i < |events| < |states| && states[i].phase == Reading(0) && events[i] == UpdateAssign
    requires states[i].updating.Some? && !Empty(states[i].updating.value.request.plan)
    ensures Disturbed(states, events)
  {
    assert ReadsMore(states[i].phase) && Interferes(states[i], events[i]);
  }

  /** An update-all that plans the same as what is under way does no harm. */
  lemma SamePlanIsHarmless(world: World, view: View, request: Request)
    returns (states: seq<State>, events: seq<Event>)
    requires OnlyChange(request.plan) && MadeFor(view, world.reliable, request) && request.removals == []
    requires ChangeStep(request.plan.change[0]).Possible(world, view)
    ensures IsExecution(world, states, events, request.plan)
    ensures Disturbed(states, events) && CarriedOut(states[|events|], request.plan)
  {
    var step := ChangeStep(request.plan.change[0]);
    var after := step.Effect(world, view);
    PossibleStep(world, view, step);
    states, events := SamePlanRun(world, view, request, after);
    NoEnd(request, after);
    SamePlanLists(request.plan);
    AssignInBetween(states, events, 2);
  }
}
