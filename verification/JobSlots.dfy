/** Jobs and the slots that keep them apart
    (pkg/components/handler/jobs, and the guards in pkg/service). */
module JobSlots {
  import opened Prelude

  type JobId = nat

  const REPOSITORY_SLOT := 0

  const DEPLOYMENT_SLOT := 1

  const MODULE_SLOT := 2

  // ----- The handler -----

  class Job {
    const id: JobId
    const slot: Option<int>

    /** None is the zero time. */
    var end: Option<int>
    var cancelled: bool

    constructor (id: JobId, slot: Option<int>)
      ensures this.id == id && this.slot == slot && end == None && !cancelled
    {
      this.id, this.slot, end, cancelled := id, slot, None, false;
    }
  }

  /** The largest duration, in nanoseconds; differences of times do not exceed it. */
  const MAX_DURATION := 0x7fff_ffff_ffff_ffff

  /** The zero time is more than this ago. */
  function Since(now: int, end: Option<int>): int {
    if end.None? || now - end.value > MAX_DURATION then MAX_DURATION else now - end.value
  }

  class Handler {
    const env: Environment
    const maxJobAge: int

    var jobSlots: map<int, Job>
    var jobMap: map<JobId, Job>
    var nextId: JobId

    /** A slot holds a job that was made for it and has not ended. */
    ghost predicate Valid()
      reads this, jobSlots.Values
    {
      && maxJobAge <= MAX_DURATION
      && (forall s | s in jobSlots :: jobSlots[s].slot == Some(s) && jobSlots[s].end == None)
      && (forall id | id in jobMap :: jobMap[id].id == id && id < nextId)
      && (forall s | s in jobSlots :: jobSlots[s].id < nextId)
    }

    constructor (env: Environment, maxJobAge: int)
      requires maxJobAge <= MAX_DURATION
      ensures Valid() && this.env == env && jobSlots == map[] && jobMap == map[]
    {
      this.env, this.maxJobAge, jobSlots, jobMap, nextId := env, maxJobAge, map[], map[], 0;
    }

    method CreateJob() returns (job: Option<Job>)
      requires Valid()
      modifies this
      ensures Valid() && jobSlots == old(jobSlots)
      ensures job.None? ==> jobMap == old(jobMap)
      ensures job.Some? ==> fresh(job.value) && job.value.slot == None && job.value.id !in old(jobMap)
                            && jobMap == old(jobMap)[job.value.id := job.value]
      ensures env.reliable ==> job.Some?
    {
      var failed := env.Fails();
      if failed {
        return None;
      }
      var j := new Job(nextId, None);
      nextId := nextId + 1;
      jobMap := jobMap[j.id := j];
      return Some(j);
    }

    /** The slot is taken if and only if it was free. */
    method CreateSlotJob(slotNum: int) returns (job: Option<Job>)
      requires Valid()
      modifies this
      ensures Valid()
      ensures job.None? ==> jobMap == old(jobMap) && jobSlots == old(jobSlots)
      ensures job.Some? ==> fresh(job.value) && slotNum !in old(jobSlots) && job.value.id !in old(jobMap)
                            && jobSlots == old(jobSlots)[slotNum := job.value]
                            && jobMap == old(jobMap)[job.value.id := job.value]
      ensures env.reliable ==> (job.Some? <==> slotNum !in old(jobSlots))
    {
      if slotNum in jobSlots {
        return None;
      }
      var failed := env.Fails();
      if failed {
        return None;
      }
      var j := new Job(nextId, Some(slotNum));
      nextId := nextId + 1;
      jobSlots := jobSlots[slotNum := j];
      jobMap := jobMap[j.id := j];
      return Some(j);
    }

    method CurrentSlotJobs(slotNumFilter: seq<int>) returns (jobs: map<int, Job>)
      ensures jobs == map s | s in jobSlots && (slotNumFilter == [] || s in slotNumFilter) :: jobSlots[s]
    {
      if |slotNumFilter| == 0 {
        return jobSlots;
      }
      jobs := map[];
      for i := 0 to |slotNumFilter|
        invariant jobs == map s | s in jobSlots && s in slotNumFilter[..i] :: jobSlots[s]
      {
        assert slotNumFilter[..i + 1] == slotNumFilter[..i] + [slotNumFilter[i]];
        if slotNumFilter[i] in jobSlots {
          jobs := jobs[slotNumFilter[i] := jobSlots[slotNumFilter[i]]];
        }
      }
      assert slotNumFilter[..|slotNumFilter|] == slotNumFilter;
    }

    method SlotJobDone(slotNum: int)
      modifies `jobSlots
      ensures jobSlots == old(jobSlots) - {slotNum}
    {
      jobSlots := jobSlots - {slotNum};
    }

    /** The slot is freed by its number, so a job that is not in its slot any more frees that of the
        job that is: no other job loses its slot if and only if this one is in its slot or the slot
        is free. */
    method Done(job: Job, now: int)
      requires Valid()
      modifies `jobSlots, job
      ensures Valid() && job.end == Some(now) && job.cancelled
      ensures jobSlots == if job.slot.Some? then old(jobSlots) - {job.slot.value} else old(jobSlots)
      ensures (forall s | s in old(jobSlots) && old(jobSlots)[s] != job :: s in jobSlots) <==>
                (job.slot.Some? && job.slot.value in old(jobSlots) ==> old(jobSlots)[job.slot.value] == job)
    {
      job.end := Some(now);
      if job.slot.Some? {
        SlotJobDone(job.slot.value);
      }
      job.cancelled := true;
      assert forall s | s in jobSlots :: jobSlots[s] == job ==> job.slot == Some(s);
    }

    /** What stays is what has ended, and not too long ago. A job that has not ended is forgotten at
        once: it runs on in its slot, but is not found by its id. */
    method Cleanup(now: int) returns (oldJobs: seq<JobId>)
      requires Valid()
      modifies `jobMap
      ensures Valid()
      ensures jobMap == map id |
                id in old(jobMap) && old(jobMap)[id].end.Some? && now - old(jobMap)[id].end.value < maxJobAge ::
                old(jobMap)[id]
      ensures Elements(oldJobs) == old(jobMap).Keys - jobMap.Keys && |oldJobs| == |Elements(oldJobs)|
    {
      oldJobs := [];
      var tmp: map<JobId, Job> := map[];
      var todo := jobMap.Keys;
      while todo != {}
        invariant todo <= jobMap.Keys
        invariant forall id | id in jobMap :: id in todo || id in tmp || id in oldJobs
        invariant forall id | id in tmp ::
                    id in jobMap && id !in todo && tmp[id] == jobMap[id] && Since(now, jobMap[id].end) < maxJobAge
        invariant forall id | id in oldJobs :: id in jobMap && id !in todo && Since(now, jobMap[id].end) >= maxJobAge
        invariant |oldJobs| == |Elements(oldJobs)|
      {
        var id :| id in todo;
        todo := todo - {id};
        if Since(now, jobMap[id].end) < maxJobAge {
          tmp := tmp[id := jobMap[id]];
        } else {
          assert Elements(oldJobs + [id]) == Elements(oldJobs) + {id};
          oldJobs := oldJobs + [id];
        }
      }
      assert forall id :: id in oldJobs <==> id in jobMap && id !in tmp;
      jobMap := tmp;
    }
  }

  /** A job that is done a second time, after another one took its slot: that one runs on without a
      slot. */
  method DoneTwice(h: Handler, slotNum: int, now: int) returns (second: Option<Job>)
    requires h.Valid() && slotNum !in h.jobSlots
    modifies h
    ensures second.Some? ==> second.value.slot == Some(slotNum) && second.value.end == None && slotNum !in h.jobSlots
    ensures h.env.reliable ==> second.Some?
  {
    second := None;
    var first := h.CreateSlotJob(slotNum);
    if first.None? {
      return;
    }
    h.Done(first.value, now);
    second := h.CreateSlotJob(slotNum);
    if second.None? {
      return;
    }
    h.Done(first.value, now);
  }

  // ----- The service -----

  datatype Kind =
    | CreateDeployments
    | UpdateDeployments
    | RecreateDeployments
    | DeleteDeployments
    | ExecModulesChange
    | RefreshRepositories

  function SlotOf(kind: Kind): int {
    match kind
    case ExecModulesChange => MODULE_SLOT
    case RefreshRepositories => REPOSITORY_SLOT
    case _ => DEPLOYMENT_SLOT
  }

  /** The slots that have to be free. */
  function Guards(kind: Kind): seq<int> {
    match kind
    case DeleteDeployments => [DEPLOYMENT_SLOT]
    case RefreshRepositories => [REPOSITORY_SLOT]
    case ExecModulesChange => [MODULE_SLOT, REPOSITORY_SLOT, DEPLOYMENT_SLOT]
    case _ => [DEPLOYMENT_SLOT, MODULE_SLOT]
  }

  /** Which running jobs keep a job from starting: one in its own slot; for a modules change any; and a
      modules change keeps deployments from being created, updated and recreated, but not deleted. */
  lemma RefusedIff(running: Kind, wanted: Kind)
    ensures SlotOf(running) in Guards(wanted) <==>
            || SlotOf(running) == SlotOf(wanted)
            || wanted == ExecModulesChange
            || (running == ExecModulesChange && wanted in {CreateDeployments, UpdateDeployments, RecreateDeployments})
    ensures forall slot | slot in Guards(wanted) :: slot in {DEPLOYMENT_SLOT, MODULE_SLOT, REPOSITORY_SLOT}
  {
  }

  /** The check and the creation of a job, in one critical section of the service. */
  method Start(handler: Handler, kind: Kind) returns (job: Option<Job>)
    requires handler.Valid()
    modifies handler
    ensures handler.Valid()
    ensures job.Some? ==> (forall s | s in Guards(kind) :: s !in old(handler.jobSlots))
                          && handler.jobSlots == old(handler.jobSlots)[SlotOf(kind) := job.value]
    ensures job.None? ==> handler.jobSlots == old(handler.jobSlots)
    ensures handler.env.reliable ==> (job.Some? <==> forall s | s in Guards(kind) :: s !in old(handler.jobSlots))
  {
    assert SlotOf(kind) in Guards(kind) && Guards(kind) != [];
    var current := handler.CurrentSlotJobs(Guards(kind));
    if current.Keys != {} {
      ghost var s :| s in current;
      assert s in Guards(kind) && s in handler.jobSlots;
      return None;
    }
    assert forall s | s in Guards(kind) && s in handler.jobSlots :: s in current;
    job := handler.CreateSlotJob(SlotOf(kind));
  }

  // ----- Runs -----

  /** A job that was started and has not called Done yet. */
  datatype State = State(slots: map<int, JobId>, running: map<JobId, Kind>, holder: Option<Kind>, next: JobId)

  /** Releases need the lock of the jobs handler only, so they happen between the check of a service
      call that holds the service's lock and its creation of the job. */
  datatype Step = Check(kind: Kind) | Create | Finish(job: JobId)

  const INITIAL := State(map[], map[], None, 0)

  ghost predicate Takes(before: State, step: Step, after: State) {
    match step
    case Check(kind) =>
      && before.holder.None?
      && after == if forall s | s in Guards(kind) :: s !in before.slots then before.(holder := Some(kind)) else before
    case Create =>
      && before.holder.Some?
      && var kind := before.holder.value;
         after == if SlotOf(kind) in before.slots then before.(holder := None)
                  else State(before.slots[SlotOf(kind) := before.next], before.running[before.next := kind], None,
                             before.next + 1)
    case Finish(job) =>
      && job in before.running
      && after == before.(slots := before.slots - {SlotOf(before.running[job])}, running := before.running - {job})
  }

  ghost predicate IsRun(states: seq<State>, steps: seq<Step>) {
    && |states| == |steps| + 1 && states[0] == INITIAL
    && forall i | 0 <= i < |steps| :: Takes(states[i], steps[i], states[i + 1])
  }

  ghost predicate Reachable(s: State) {
    exists states, steps :: IsRun(states, steps) && states[|steps|] == s
  }

  /** Two kinds of jobs run at the same time if their slots differ and one of them does not look at
      the slot of the other. */
  predicate MayOverlap(a: Kind, b: Kind) {
    SlotOf(a) != SlotOf(b) && (SlotOf(a) !in Guards(b) || SlotOf(b) !in Guards(a))
  }

  /** Every running job owns its slot, nobody else does; what the holder of the lock has checked
      stays true; and whatever runs together may. */
  ghost predicate Inv(s: State) {
    && (forall j | j in s.running ::
          j < s.next && SlotOf(s.running[j]) in s.slots && s.slots[SlotOf(s.running[j])] == j)
    && (forall n | n in s.slots :: s.slots[n] in s.running && SlotOf(s.running[s.slots[n]]) == n)
    && (s.holder.Some? ==> forall n | n in Guards(s.holder.value) :: n !in s.slots)
    && (forall a, b | a in s.running && b in s.running && a != b :: MayOverlap(s.running[a], s.running[b]))
  }

  lemma CreateKeepsInv(before: State, after: State)
    requires Inv(before) && Takes(before, Create, after)
    ensures Inv(after)
  {
    var kind := before.holder.value;
    assert SlotOf(kind) in Guards(kind);
    forall j | j in before.running
      ensures MayOverlap(before.running[j], kind) && MayOverlap(kind, before.running[j])
    {
      assert SlotOf(before.running[j]) !in Guards(kind);
    }
  }

  lemma StepKeepsInv(before: State, step: Step, after: State)
    requires Inv(before) && Takes(before, step, after)
    ensures Inv(after)
  {
    if step.Create? {
      CreateKeepsInv(before, after);
    }
  }

  lemma {:induction false} RunKeepsInv(states: seq<State>, steps: seq<Step>, i: nat)
    requires IsRun(states, steps) && i < |states|
    ensures Inv(states[i])
  {
    if i > 0 {
      RunKeepsInv(states, steps, i - 1);
      StepKeepsInv(states[i - 1], steps[i - 1], states[i]);
    }
  }

  /** In every run a slot has at most one job that is not done, and that job has it to itself. */
  lemma SlotsAreExclusive(s: State, a: JobId, b: JobId)
    requires Reachable(s) && a in s.running && b in s.running && a != b
    ensures SlotOf(s.running[a]) != SlotOf(s.running[b])
    ensures SlotOf(s.running[a]) in s.slots && s.slots[SlotOf(s.running[a])] == a
    ensures MayOverlap(s.running[a], s.running[b])
  {
    var states, steps :| IsRun(states, steps) && states[|steps|] == s;
    RunKeepsInv(states, steps, |steps|);
  }

  /** A job that finishes frees its own slot and no other. */
  lemma FinishFreesOwnSlot(before: State, job: JobId, after: State, other: JobId)
    requires Reachable(before) && Takes(before, Finish(job), after) && other in before.running && other != job
    ensures SlotOf(before.running[job]) !in after.slots
    ensures SlotOf(before.running[other]) in after.slots && after.slots[SlotOf(before.running[other])] == other
  {
    var states, steps :| IsRun(states, steps) && states[|steps|] == before;
    RunKeepsInv(states, steps, |steps|);
  }

  ghost predicate RunTogether(a: Kind, b: Kind) {
    exists s, i, j ::
      Reachable(s) && i in s.running && j in s.running && i != j && s.running[i] == a && s.running[j] == b
  }

  lemma ReachableOneMore(s: State, step: Step, after: State)
    requires Reachable(s) && Takes(s, step, after)
    ensures Reachable(after)
  {
    var states, steps :| IsRun(states, steps) && states[|steps|] == s;
    assert IsRun(states + [after], steps + [step]);
  }

  lemma StartBoth(a: Kind, b: Kind)
    requires SlotOf(a) != SlotOf(b) && SlotOf(a) !in Guards(b)
    ensures RunTogether(a, b) && RunTogether(b, a)
  {
    var s1 := INITIAL.(holder := Some(a));
    var s2 := State(map[SlotOf(a) := 0], map[0 := a], None, 1);
    var s3 := s2.(holder := Some(b));
    var s4 := State(map[SlotOf(a) := 0, SlotOf(b) := 1], map[0 := a, 1 := b], None, 2);
    assert IsRun([INITIAL], []);
    ReachableOneMore(INITIAL, Check(a), s1);
    ReachableOneMore(s1, Create, s2);
    assert SlotOf(b) in Guards(b) && forall n | n in Guards(b) :: n !in s2.slots;
    ReachableOneMore(s2, Check(b), s3);
    ReachableOneMore(s3, Create, s4);
    assert 0 in s4.running && 1 in s4.running;
  }

  /** Exactly the pairs that may overlap do so in some run. */
  lemma OverlapIff(a: Kind, b: Kind)
    ensures RunTogether(a, b) <==> MayOverlap(a, b)
  {
    if RunTogether(a, b) {
      var s, i, j :|
        Reachable(s) && i in s.running && j in s.running && i != j && s.running[i] == a && s.running[j] == b;
      SlotsAreExclusive(s, i, j);
    }
    if MayOverlap(a, b) {
      if SlotOf(a) !in Guards(b) {
        StartBoth(a, b);
      } else {
        StartBoth(b, a);
      }
    }
  }

  /** A modules change never runs beside a create, an update or a recreate; beside a delete or a
      refresh it may, since these look at their own slot only. */
  lemma ModulesChangeOverlaps(kind: Kind)
    ensures RunTogether(ExecModulesChange, kind) <==> kind == DeleteDeployments || kind == RefreshRepositories
  {
    OverlapIff(ExecModulesChange, kind);
  }
}
