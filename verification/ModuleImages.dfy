/** Whether the installed modules keep their images when modules are added, updated and deleted
    (pkg/components/handler/modules/handler.go). */
module ModuleImages {
  import opened Modfiles
  import opened ModuleStore
  import opened Prelude

  datatype Operation = Add(id: string, source: string, channel: string, fSys: Dir)
                     | Update(id: string, source: string, channel: string, fSys: Dir)
                     | Delete(id: string)

  datatype State = State(view: View, images: set<string>)

  ghost function ImagesOf(status: Status): set<string> {
    if status.Intact? then Images(status.mod) else {}
  }

  /** Every installed module whose modfile is there has all its images. */
  ghost predicate AllImages(s: State) {
    forall id | id in s.view :: ImagesOf(s.view[id].status) <= s.images
  }

  /** Without external failures this decides whether an operation does anything. */
  ghost predicate Effective(s: State, op: Operation) {
    match op
    case Add(id, _, _, fSys) => id !in s.view && Offers(fSys, id)
    case Update(id, _, _, fSys) => id in s.view && s.view[id].status.Intact? && Offers(fSys, id)
    case Delete(id) => id in s.view && s.view[id].status != Broken
  }

  ghost function Given(op: Operation): set<string>
    requires op.Delete? || Offers(op.fSys, op.id)
  {
    if op.Delete? then {} else Images(op.fSys.modfile.value)
  }

  ghost function Previous(s: State, op: Operation): set<string> {
    if op.id in s.view then ImagesOf(s.view[op.id].status) else {}
  }

  ghost function After(s: State, op: Operation): State
    requires Effective(s, op)
  {
    var view := match op
      case Delete(id) => s.view - {id}
      case _ => s.view[op.id := Entry(op.source, op.channel, Intact(op.fSys.modfile.value))];
    State(view, s.images - Previous(s, op) + Given(op))
  }

  ghost function Next(s: State, op: Operation): State {
    if Effective(s, op) then After(s, op) else s
  }

  ghost function StateOf(store: Handler): State
    reads store
  {
    State(store.Modules(), store.images)
  }

  // ----- Steps that may fail -----

  ghost function WithEntry(view: View, op: Operation): View
    requires !op.Delete? && Offers(op.fSys, op.id)
  {
    view[op.id := Entry(op.source, op.channel, Intact(op.fSys.modfile.value))]
  }

  /** Nothing happened, but images may have been pulled. */
  ghost predicate LeftAsBefore(s: State, after: State) {
    after.view == s.view && s.images <= after.images
  }

  /** A delete that stopped half-way: images of the module may be gone, and its modfile as well. */
  ghost predicate HalfDeleted(s: State, id: string, removed: set<string>, after: State) {
    && id in s.view && s.images - removed <= after.images <= s.images
    && (after.view == s.view || Damaged(s.view, after.view, id))
  }

  /** What an operation may do, whatever fails. */
  ghost predicate Outcomes(s: State, op: Operation, after: State) {
    match op
    case Add(id, _, _, fSys) =>
      || LeftAsBefore(s, after)
      || (Effective(s, op) && after == After(s, op))
    case Update(id, _, _, fSys) =>
      || LeftAsBefore(s, after)
      || (&& Effective(s, op) && after.view == WithEntry(s.view, op)
          && s.images - (Previous(s, op) - Given(op)) <= after.images && Given(op) <= after.images)
    case Delete(id) =>
      || (id !in s.view && after == s)
      || (Effective(s, op) && after == After(s, op))
      || HalfDeleted(s, id, Previous(s, op), after)
  }

  method ApplyAdd(store: Handler, op: Operation) returns (r: Outcome)
    requires store.Valid() && op.Add?
    modifies store
    ensures store.Valid()
    ensures Outcomes(old(StateOf(store)), op, StateOf(store))
    ensures store.env.reliable ==> StateOf(store) == Next(old(StateOf(store)), op)
  {
    r := store.AddModule(op.id, op.source, op.channel, op.fSys);
  }

  /** How the entry of a module tells what the store knows of it. */
  ghost predicate EntryTells(s: State, id: string, installed: bool, current: Option<Mod>, hasDir: bool) {
    && (installed <==> id in s.view)
    && (installed ==>
          && OwnImages(current) == ImagesOf(s.view[id].status)
          && (current.Some? ==> s.view[id].status == Intact(current.value))
          && (current.None? ==> s.view[id].status == if hasDir then Broken else Gone))
  }

  lemma EntryOf(store: Handler, id: string)
    ensures EntryTells(StateOf(store), id, id in store.rows, store.Current(id),
                       id in store.rows && store.rows[id].dirName in store.disk)
  {
  }

  lemma UpdateIsStep(s: State, op: Operation, after: State, current: Option<Mod>, hasDir: bool, ok: bool,
                     reliable: bool)
    requires op.Update? && EntryTells(s, op.id, op.id in s.view, current, hasDir)
    requires !ok ==> LeftAsBefore(s, after) && (reliable ==> after == s)
    requires ok ==> op.id in s.view && current.Some? && Offers(op.fSys, op.id) && after.view == WithEntry(s.view, op)
    requires ok ==> (s.images - (Images(current.value) - Given(op)) <= after.images) && Given(op) <= after.images
    requires ok && reliable ==> after.images == s.images - Images(current.value) + Given(op)
    requires reliable ==> (ok <==> op.id in s.view && current.Some? && Offers(op.fSys, op.id))
    ensures Outcomes(s, op, after) && (reliable ==> after == Next(s, op))
  {
  }

  lemma DeleteIsStep(s: State, op: Operation, after: State, current: Option<Mod>, hasDir: bool, ok: bool,
                     reliable: bool)
    requires op.Delete? && EntryTells(s, op.id, op.id in s.view, current, hasDir)
    requires op.id !in s.view ==> after.images == s.images
    requires op.id in s.view ==> s.images - OwnImages(current) <= after.images <= s.images
    requires ok ==> after.view == s.view - {op.id}
    requires ok && op.id in s.view ==> after.images == s.images - OwnImages(current) && s.view[op.id].status != Broken
    requires !ok ==> after.view == s.view || Damaged(s.view, after.view, op.id)
    requires reliable ==> (ok <==> !(op.id in s.view && current.None? && hasDir))
    requires reliable && !ok ==> after == s
    ensures Outcomes(s, op, after) && (reliable ==> after == Next(s, op))
  {
    if op.id in s.view {
      assert Previous(s, op) == OwnImages(current);
      assert ok ==> after == After(s, op);
    } else {
      assert s.view - {op.id} == s.view;
    }
  }

  method ApplyUpdate(store: Handler, op: Operation) returns (r: Outcome)
    requires store.Valid() && op.Update?
    modifies store
    ensures store.Valid()
    ensures Outcomes(old(StateOf(store)), op, StateOf(store))
    ensures store.env.reliable ==> StateOf(store) == Next(old(StateOf(store)), op)
  {
    EntryOf(store, op.id);
    ghost var s, current := StateOf(store), store.Current(op.id);
    ghost var hasDir := op.id in store.rows && store.rows[op.id].dirName in store.disk;
    r := store.UpdateModule(op.id, op.source, op.channel, op.fSys);
    UpdateIsStep(s, op, StateOf(store), current, hasDir, r == Success, store.env.reliable);
  }

  method ApplyDelete(store: Handler, op: Operation) returns (r: Outcome)
    requires store.Valid() && op.Delete?
    modifies store
    ensures store.Valid()
    ensures Outcomes(old(StateOf(store)), op, StateOf(store))
    ensures store.env.reliable ==> StateOf(store) == Next(old(StateOf(store)), op)
  {
    EntryOf(store, op.id);
    ghost var s, current := StateOf(store), store.Current(op.id);
    ghost var hasDir := op.id in store.rows && store.rows[op.id].dirName in store.disk;
    r := store.DeleteModule(op.id);
    DeleteIsStep(s, op, StateOf(store), current, hasDir, r == Success, store.env.reliable);
  }

  /** The operations of the store are these steps. */
  method Apply(store: Handler, op: Operation) returns (r: Outcome)
    requires store.Valid()
    modifies store
    ensures store.Valid()
    ensures Outcomes(old(StateOf(store)), op, StateOf(store))
    ensures store.env.reliable ==> StateOf(store) == Next(old(StateOf(store)), op)
  {
    match op
    case Add(_, _, _, _) => r := ApplyAdd(store, op);
    case Update(_, _, _, _) => r := ApplyUpdate(store, op);
    case Delete(_) => r := ApplyDelete(store, op);
  }

  // ----- Without failures -----

  ghost predicate SharesRemoved(s: State, op: Operation, other: string)
    requires Effective(s, op) && other in s.view
  {
    ImagesOf(s.view[other].status) * (Previous(s, op) - Given(op)) != {}
  }

  /** The operation removes an image that another installed module uses. */
  ghost predicate TakesFromOthers(s: State, op: Operation) {
    && Effective(s, op)
    && exists other :: other in s.view && other != op.id && SharesRemoved(s, op, other)
  }

  lemma KeepsIff(needed: set<string>, images: set<string>, removed: set<string>, given: set<string>)
    requires needed <= images
    ensures needed <= images - removed + given <==> needed * (removed - given) == {}
  {
    if !(needed <= images - removed + given) {
      var i :| i in needed && i !in images - removed + given;
      assert i in needed * (removed - given);
    }
  }

  /** Without failures the modules keep their images if and only if the operation takes none that
      another one uses. */
  lemma StepKeepsImagesIff(s: State, op: Operation)
    requires AllImages(s)
    ensures AllImages(Next(s, op)) <==> !TakesFromOthers(s, op)
  {
    if Effective(s, op) {
      var next := After(s, op);
      forall other | other in s.view && other != op.id
        ensures other in next.view && next.view[other] == s.view[other]
        ensures ImagesOf(s.view[other].status) <= next.images <==> !SharesRemoved(s, op, other)
      {
        KeepsIff(ImagesOf(s.view[other].status), s.images, Previous(s, op), Given(op));
      }
    }
  }

  ghost function Run(s: State, ops: seq<Operation>): State {
    if ops == [] then s else Next(Run(s, ops[..|ops| - 1]), ops[|ops| - 1])
  }

  ghost predicate ImagesAllAlong(s: State, ops: seq<Operation>) {
    forall i | 0 <= i <= |ops| :: AllImages(Run(s, ops[..i]))
  }

  ghost predicate TakesAt(s: State, ops: seq<Operation>, i: nat)
    requires i < |ops|
  {
    TakesFromOthers(Run(s, ops[..i]), ops[i])
  }

  ghost predicate NothingTaken(s: State, ops: seq<Operation>) {
    forall i | 0 <= i < |ops| :: !TakesAt(s, ops, i)
  }

  lemma TakesInFront(s: State, ops: seq<Operation>, i: nat)
    requires i < |ops| - 1
    ensures TakesAt(s, ops[..|ops| - 1], i) <==> TakesAt(s, ops, i)
  {
    assert ops[..|ops| - 1][..i] == ops[..i];
  }

  lemma AllAlongOneMore(s: State, ops: seq<Operation>)
    requires ops != []
    ensures ImagesAllAlong(s, ops) <==> ImagesAllAlong(s, ops[..|ops| - 1]) && AllImages(Run(s, ops))
    ensures ImagesAllAlong(s, ops[..|ops| - 1]) ==> AllImages(Run(s, ops[..|ops| - 1]))
  {
    var n := |ops| - 1;
    var front := ops[..n];
    forall i | 0 <= i <= n ensures ops[..i] == front[..i] {}
    assert ops[..n + 1] == ops && front[..n] == front;
    if ImagesAllAlong(s, ops) {
      forall i | 0 <= i <= n ensures AllImages(Run(s, front[..i])) { assert AllImages(Run(s, ops[..i])); }
    }
  }

  lemma NothingTakenOneMore(s: State, ops: seq<Operation>)
    requires ops != []
    ensures NothingTaken(s, ops) <==>
            NothingTaken(s, ops[..|ops| - 1]) && !TakesAt(s, ops, |ops| - 1)
  {
    var front := ops[..|ops| - 1];
    if NothingTaken(s, ops) {
      forall i | 0 <= i < |front| ensures !TakesAt(s, front, i) { TakesInFront(s, ops, i); }
    }
    if NothingTaken(s, front) && !TakesAt(s, ops, |front|) {
      forall i | 0 <= i < |ops| ensures !TakesAt(s, ops, i) {
        if i < |front| {
          TakesInFront(s, ops, i);
        }
      }
    }
  }

  /** In a run without failures from a state in which all images are there, they are there all the time
      if and only if no operation takes one that another module uses at that time. */
  lemma {:induction false} RunKeepsImagesIff(s: State, ops: seq<Operation>)
    requires AllImages(s)
    ensures ImagesAllAlong(s, ops) <==> NothingTaken(s, ops)
  {
    if ops != [] {
      var front := ops[..|ops| - 1];
      RunKeepsImagesIff(s, front);
      AllAlongOneMore(s, ops);
      NothingTakenOneMore(s, ops);
      if AllImages(Run(s, front)) {
        StepKeepsImagesIff(Run(s, front), ops[|ops| - 1]);
      }
    }
  }

  // ----- Whatever fails -----

  /** What can be asked before the operation: an add is harmless, an update if it takes nothing from
      others, and a delete only if the module has no images. */
  ghost predicate IsHarmless(s: State, op: Operation) {
    match op
    case Add(_, _, _, _) => true
    case Update(_, _, _, _) => !TakesFromOthers(s, op)
    case Delete(_) => Previous(s, op) == {}
  }

  lemma HarmlessKeepsImages(s: State, op: Operation, after: State)
    requires AllImages(s) && IsHarmless(s, op) && Outcomes(s, op, after)
    ensures AllImages(after)
  {
    forall id | id in after.view ensures ImagesOf(after.view[id].status) <= after.images {
      if id != op.id && op.Update? && Effective(s, op) {
        assert !SharesRemoved(s, op, id);
        forall image | image in ImagesOf(s.view[id].status) ensures image in after.images {
          assert image !in ImagesOf(s.view[id].status) * (Previous(s, op) - Given(op));
        }
      }
    }
  }

  /** The outcome that does the damage: all images the operation may take are gone, and a delete stops
      there. */
  ghost function Worst(s: State, op: Operation): State {
    if op.Delete? then s.(images := s.images - Previous(s, op)) else Next(s, op)
  }

  lemma WorstMayHappen(s: State, op: Operation)
    ensures Outcomes(s, op, Worst(s, op))
  {
    if op.Delete? && op.id !in s.view {
      assert s.images - Previous(s, op) == s.images;
    }
  }

  lemma WorstDoesDamage(s: State, op: Operation)
    requires AllImages(s) && !IsHarmless(s, op)
    ensures !AllImages(Worst(s, op))
  {
    if op.Delete? {
      var image :| image in Previous(s, op);
      assert image in ImagesOf(s.view[op.id].status) && image !in Worst(s, op).images;
    } else {
      StepKeepsImagesIff(s, op);
    }
  }

  ghost predicate IsRun(states: seq<State>, ops: seq<Operation>) {
    && |states| == |ops| + 1
    && forall i | 0 <= i < |ops| :: Outcomes(states[i], ops[i], states[i + 1])
  }

  /** There are runs for these operations, all from this state. */
  ghost predicate StartsAt(s: State, ops: seq<Operation>, states: seq<State>) {
    IsRun(states, ops) && states[0] == s
  }

  ghost predicate ImagesIn(states: seq<State>) {
    forall i | 0 <= i < |states| :: AllImages(states[i])
  }

  ghost predicate HarmlessIn(states: seq<State>, ops: seq<Operation>)
    requires |states| > |ops|
  {
    forall i | 0 <= i < |ops| :: IsHarmless(states[i], ops[i])
  }

  lemma {:induction false} HarmlessRun(states: seq<State>, ops: seq<Operation>, n: nat)
    requires IsRun(states, ops) && n <= |ops| && AllImages(states[0]) && HarmlessIn(states, ops)
    ensures AllImages(states[n])
  {
    if n > 0 {
      HarmlessRun(states, ops, n - 1);
      HarmlessKeepsImages(states[n - 1], ops[n - 1], states[n]);
    }
  }

  /** From any state the rest of the operations can be run: each of them may fail at once. */
  ghost function Stopped(states: seq<State>, i: nat, s: State, n: nat): seq<State>
    requires i < |states| && i < n
  {
    states[..i + 1] + seq(n - i, _ => s)
  }

  lemma StoppedIsRun(states: seq<State>, ops: seq<Operation>, i: nat, s: State)
    requires IsRun(states, ops) && i < |ops| && Outcomes(states[i], ops[i], s)
    ensures IsRun(Stopped(states, i, s, |ops|), ops)
    ensures Stopped(states, i, s, |ops|)[0] == states[0] && Stopped(states, i, s, |ops|)[i + 1] == s
  {
    var stopped := Stopped(states, i, s, |ops|);
    forall k | 0 <= k < |ops| ensures Outcomes(stopped[k], ops[k], stopped[k + 1]) {
      if k < i {
        assert stopped[k] == states[k] && stopped[k + 1] == states[k + 1];
      } else if k == i {
        assert stopped[k] == states[i] && stopped[k + 1] == s;
      } else {
        assert stopped[k] == s && stopped[k + 1] == s;
      }
    }
  }

  /** Whatever fails in a run of these operations, every installed module keeps all its images, if and
      only if no run of them comes to an operation that is not harmless. */
  lemma RunKeepsImagesWhateverFails(s: State, ops: seq<Operation>)
    requires AllImages(s)
    ensures (forall states | StartsAt(s, ops, states) :: ImagesIn(states)) <==>
            (forall states | StartsAt(s, ops, states) :: HarmlessIn(states, ops))
  {
    forall states | StartsAt(s, ops, states) && HarmlessIn(states, ops) ensures ImagesIn(states) {
      forall i | 0 <= i < |states| ensures AllImages(states[i]) {
        HarmlessRun(states, ops, i);
      }
    }
    forall states, i | StartsAt(s, ops, states) && ImagesIn(states) && 0 <= i < |ops| && !IsHarmless(states[i], ops[i])
      ensures exists other :: StartsAt(s, ops, other) && !ImagesIn(other)
    {
      var worst := Worst(states[i], ops[i]);
      WorstMayHappen(states[i], ops[i]);
      WorstDoesDamage(states[i], ops[i]);
      StoppedIsRun(states, ops, i, worst);
      var other := Stopped(states, i, worst, |ops|);
      assert !AllImages(other[i + 1]);
      assert StartsAt(s, ops, other) && !ImagesIn(other);
    }
  }

  /** One operation keeps all images whatever fails if and only if it is harmless. */
  lemma KeepsImagesWhateverFailsIff(s: State, op: Operation)
    requires AllImages(s)
    ensures (forall after | Outcomes(s, op, after) :: AllImages(after)) <==> IsHarmless(s, op)
  {
    if IsHarmless(s, op) {
      forall after | Outcomes(s, op, after) ensures AllImages(after) {
        HarmlessKeepsImages(s, op, after);
      }
    } else {
      WorstMayHappen(s, op);
      WorstDoesDamage(s, op);
    }
  }

  // ----- Examples -----

  function OneService(id: string, service: string, image: string): Entry {
    Entry("s", "c", Intact(Mod(id, "1", {}, map[service := image])))
  }

  /** Two modules with the same image: deleting one takes the image from the other. */
  lemma SharedImageIsLost(a: string, b: string, service: string, image: string)
    requires a != b
    ensures var s := State(map[a := OneService(a, service, image), b := OneService(b, service, image)], {image});
            && AllImages(s) && !AllImages(Next(s, Delete(a)))
            && b in Next(s, Delete(a)).view && image !in Next(s, Delete(a)).images
  {
    var s := State(map[a := OneService(a, service, image), b := OneService(b, service, image)], {image});
    var services := map[service := image];
    assert services[service] == image && services.Values == {image};
    assert Effective(s, Delete(a));
    assert b in s.view - {a};
  }

  /** A delete that fails after the images went: the module is still installed, and lacks its own. */
  lemma FailedDeleteLosesImages(id: string, service: string, image: string)
    ensures var s := State(map[id := OneService(id, service, image)], {image});
            var after := s.(images := {});
            && AllImages(s) && Outcomes(s, Delete(id), after) && id in after.view && !AllImages(after)
  {
    var s := State(map[id := OneService(id, service, image)], {image});
    var services := map[service := image];
    assert services[service] == image && services.Values == {image};
    assert Previous(s, Delete(id)) == {image} && s.images - {image} == {};
    assert HalfDeleted(s, id, {image}, s.(images := {}));
    assert image in ImagesOf(s.view[id].status);
  }
}
