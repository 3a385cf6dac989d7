/** Whether the aliases that containers were given stay valid in runs of batches of creates, updates,
    recreates and deletes (pkg/components/handler/deployments). */
module AliasRuns {
  import opened Aliases

  // ----- Runs -----

  datatype Batch = Create(selected: map<string, Module>)
                 | Renew(renewals: map<string, Module>, writes: bool)
                 | Delete(modules: set<string>)

  /** Whatever fails in the batch. A recreate writes no rows of aliases. */
  ghost predicate Takes(before: State, batch: Batch, after: State) {
    && IdsBelow(before.deployments, before.engine, before.next)
    && IdsBelow(after.deployments, after.engine, after.next)
    && match batch
       case Create(selected) => Created(before, selected, after)
       case Renew(selected, writes) =>
         RenewedTo(before, selected, after) && (!writes ==> after.deployments == before.deployments)
       case Delete(modules) => DeletedFrom(before, modules, after)
  }

  ghost predicate IsRun(states: seq<State>, batches: seq<Batch>) {
    && |states| == |batches| + 1
    && forall i | 0 <= i < |batches| :: Takes(states[i], batches[i], states[i + 1])
  }

  // ----- Valid aliases -----

  /** A variable for a service that is stored has the alias that is stored. */
  ghost predicate IsValid(r: Resolved, deployments: Items) {
    Known(r.target, deployments) ==> r.alias == AliasOf(r.target, deployments)
  }

  ghost predicate AllValid(s: State) {
    forall key, v | key in s.engine && v in s.engine[key] :: IsValid(s.engine[key][v], s.deployments)
  }

  /** A container that was there before and still is. */
  ghost predicate Survives(before: State, after: State, key: Key) {
    key in before.engine && key in after.engine && after.engine[key] == before.engine[key]
  }

  // ----- What one batch does to them -----

  /** A container asks for a service of a module that was not deployed, and the create stores it. */
  ghost predicate AsksForCreated(before: State, after: State, key: Key, v: string) {
    && key in before.engine && v in before.engine[key]
    && before.engine[key][v].target.moduleId !in before.deployments
    && Known(before.engine[key][v].target, after.deployments)
  }

  /** The row of the module was replaced by the update. */
  ghost predicate IsUpdated(before: State, after: State, m: string) {
    m in before.deployments && m in after.deployments && after.deployments[m] != before.deployments[m]
  }

  /** No alias is stored, or an empty one. */
  ghost predicate LacksAlias(target: Target, deployments: Items) {
    Known(target, deployments) ==> AliasOf(target, deployments) == Unset
  }

  /** The update gives an alias to a service that had none, and a container that stays asks for the
      service by another one. */
  ghost predicate GivesAnother(before: State, selected: map<string, Module>, after: State, key: Key, v: string) {
    && Survives(before, after, key) && v in before.engine[key]
    && var r := before.engine[key][v];
       var m, service := r.target.moduleId, r.target.service;
       && m in selected && service in selected[m].services && LacksAlias(r.target, before.deployments)
       && IsUpdated(before, after, m) && r.alias != Generated(before.deployments[m].dep, service)
  }

  /** A container that was made anew asks for a service of the batch whose stored alias is empty, and
      the row of the module was not replaced: the generated alias it was given is saved nowhere. */
  ghost predicate SavesNowhere(before: State, selected: map<string, Module>, after: State, key: Key, v: string) {
    && key in after.engine && !Survives(before, after, key) && v in after.engine[key]
    && var target := after.engine[key][v].target;
       && target.moduleId in selected && Known(target, before.deployments)
       && LacksAlias(target, before.deployments) && !IsUpdated(before, after, target.moduleId)
  }

  lemma RenewalAt(before: State, selected: map<string, Module>, after: State, key: Key, v: string)
    requires RenewedTo(before, selected, after) && key in after.engine && v in after.engine[key]
    requires Survives(before, after, key) ==> IsValid(after.engine[key][v], before.deployments)
    ensures IsValid(after.engine[key][v], after.deployments) <==>
            !GivesAnother(before, selected, after, key, v) && !SavesNowhere(before, selected, after, key, v)
  {
    var r := after.engine[key][v];
    if r.target.moduleId in before.deployments {
      var m := r.target.moduleId;
      assert after.deployments[m] == before.deployments[m]
             || (m in selected && after.deployments[m] == RenewedItem(selected[m], before.deployments[m]));
    }
    if !Survives(before, after, key) {
      assert FromOld(r, selected.Keys, before.deployments);
    }
  }

  /** An update or recreate breaks exactly the containers that stay while a service they ask for by
      another alias gets one, and the new containers that got an alias for an empty one that stays
      empty. Nothing is assumed about the aliases that are stored. */
  lemma RenewBreaksIff(before: State, selected: map<string, Module>, writes: bool, after: State)
    requires Takes(before, Renew(selected, writes), after) && AllValid(before)
    ensures AllValid(after) <==>
            !exists key, v ::
              GivesAnother(before, selected, after, key, v) || SavesNowhere(before, selected, after, key, v)
  {
    forall key, v | key in after.engine && v in after.engine[key]
      ensures IsValid(after.engine[key][v], after.deployments) <==>
              !GivesAnother(before, selected, after, key, v) && !SavesNowhere(before, selected, after, key, v)
    {
      assert Survives(before, after, key) ==> IsValid(before.engine[key][v], before.deployments);
      RenewalAt(before, selected, after, key, v);
    }
  }

  lemma CreationAt(before: State, selected: map<string, Module>, after: State, key: Key, v: string)
    requires Takes(before, Create(selected), after) && key in after.engine && v in after.engine[key]
    requires key in before.engine ==> IsValid(after.engine[key][v], before.deployments)
    ensures IsValid(after.engine[key][v], after.deployments) <==> !AsksForCreated(before, after, key, v)
  {
    var r := after.engine[key][v];
    if key !in before.engine {
      assert StoredOrMissing(r, after.deployments, selected.Keys - before.deployments.Keys);
    } else if AsksForCreated(before, after, key, v) {
      var m := r.target.moduleId;
      assert Below(before.engine[key][v].alias, before.next) && IsNew(before, selected, m, after.deployments[m]);
    }
  }

  /** A create breaks exactly the containers that ask for a service it stores: the alias of a new
      deployment is one that nobody had before. */
  lemma CreateBreaksIff(before: State, selected: map<string, Module>, after: State)
    requires Takes(before, Create(selected), after) && AllValid(before)
    ensures AllValid(after) <==> !exists key, v :: AsksForCreated(before, after, key, v)
  {
    forall key, v | key in after.engine && v in after.engine[key]
      ensures IsValid(after.engine[key][v], after.deployments) <==> !AsksForCreated(before, after, key, v)
    {
      assert key in before.engine ==> IsValid(before.engine[key][v], before.deployments);
      CreationAt(before, selected, after, key, v);
    }
  }

  /** Deletes never break anything. */
  lemma DeletesNeverBreak(before: State, modules: set<string>, after: State)
    requires Takes(before, Delete(modules), after) && AllValid(before)
    ensures AllValid(after)
  {
    forall key, v | key in after.engine && v in after.engine[key]
      ensures IsValid(after.engine[key][v], after.deployments)
    {
      assert IsValid(before.engine[key][v], before.deployments);
    }
  }

  ghost predicate Breaks(before: State, batch: Batch, after: State) {
    match batch
    case Create(_) => exists key, v :: AsksForCreated(before, after, key, v)
    case Renew(selected, _) =>
      exists key, v ::
        GivesAnother(before, selected, after, key, v) || SavesNowhere(before, selected, after, key, v)
    case Delete(_) => false
  }

  lemma BatchKeepsValidIff(before: State, batch: Batch, after: State)
    requires Takes(before, batch, after) && AllValid(before)
    ensures AllValid(after) <==> !Breaks(before, batch, after)
  {
    match batch {
      case Create(selected) => CreateBreaksIff(before, selected, after);
      case Renew(selected, writes) => RenewBreaksIff(before, selected, writes, after);
      case Delete(modules) => DeletesNeverBreak(before, modules, after);
    }
  }

  // ----- Whole runs -----

  ghost predicate ValidAllAlong(states: seq<State>) {
    forall i | 0 <= i < |states| :: AllValid(states[i])
  }

  ghost predicate NothingBreaks(states: seq<State>, batches: seq<Batch>)
    requires |states| > |batches|
  {
    forall i | 0 <= i < |batches| :: !Breaks(states[i], batches[i], states[i + 1])
  }

  lemma ValidOneMore(states: seq<State>)
    requires |states| > 1
    ensures ValidAllAlong(states) <==> ValidAllAlong(states[..|states| - 1]) && AllValid(states[|states| - 1])
    ensures ValidAllAlong(states[..|states| - 1]) ==> AllValid(states[|states| - 2])
  {
    var front := states[..|states| - 1];
    forall i | 0 <= i < |front| ensures front[i] == states[i] {}
    if ValidAllAlong(states) {
      forall i | 0 <= i < |front| ensures AllValid(front[i]) { assert AllValid(states[i]); }
    }
    if ValidAllAlong(front) {
      assert AllValid(front[|front| - 1]);
    }
  }

  lemma BreaksOneMore(states: seq<State>, batches: seq<Batch>)
    requires |states| == |batches| + 1 && batches != []
    ensures var n := |batches| - 1;
            NothingBreaks(states, batches) <==>
            NothingBreaks(states[..n + 1], batches[..n]) && !Breaks(states[n], batches[n], states[n + 1])
  {
    var n := |batches| - 1;
    var front, less := states[..n + 1], batches[..n];
    forall i | 0 <= i < n ensures front[i] == states[i] && less[i] == batches[i] {}
    if NothingBreaks(states, batches) {
      forall i | 0 <= i < n ensures !Breaks(front[i], less[i], front[i + 1]) {
        assert !Breaks(states[i], batches[i], states[i + 1]);
      }
    }
  }

  /** In a run from a state with valid aliases, whatever they are, they stay valid if and only if no
      create stores a service that a container asks for in vain, and no update or recreate gives one an
      alias that its askers do not know or that is not saved. */
  lemma {:induction false} RunKeepsValidIff(states: seq<State>, batches: seq<Batch>)
    requires IsRun(states, batches) && AllValid(states[0])
    ensures ValidAllAlong(states) <==> NothingBreaks(states, batches)
  {
    if batches != [] {
      var n := |batches| - 1;
      var front := states[..n + 1];
      assert IsRun(front, batches[..n]);
      RunKeepsValidIff(front, batches[..n]);
      ValidOneMore(states);
      BreaksOneMore(states, batches);
      if AllValid(states[n]) {
        BatchKeepsValidIff(states[n], batches[n], states[n + 1]);
      }
    }
  }

  // ----- States whose aliases are all generated -----

  ghost predicate IsSound(r: Resolved, deployments: Items) {
    r.target.moduleId in deployments ==>
      r.alias == Generated(deployments[r.target.moduleId].dep, r.target.service)
  }

  /** All aliases are generated, and every variable for a service of a deployed module has the alias
      that this service has, or would get. */
  ghost predicate Sound(s: State) {
    && (forall m, r | m in s.deployments && r in s.deployments[m].aliases ::
          s.deployments[m].aliases[r] == Generated(s.deployments[m].dep, r))
    && (forall key, v | key in s.engine && v in s.engine[key] :: IsSound(s.engine[key][v], s.deployments))
  }

  /** Hence a variable never differs from what is stored. */
  lemma SoundMeansValid(s: State)
    requires Sound(s)
    ensures AllValid(s)
  {
    forall key, v | key in s.engine && v in s.engine[key] ensures IsValid(s.engine[key][v], s.deployments) {
      assert IsSound(s.engine[key][v], s.deployments);
    }
  }

  /** Updating and recreating any modules, with any failures, keeps that. */
  lemma RenewKeepsSound(before: State, selected: map<string, Module>, after: State)
    requires Sound(before) && RenewedTo(before, selected, after)
    ensures Sound(after)
  {
    forall key, v | key in after.engine && v in after.engine[key]
      ensures IsSound(after.engine[key][v], after.deployments)
    {
      if Survives(before, after, key) {
        assert IsSound(before.engine[key][v], before.deployments);
      } else {
        assert FromOld(after.engine[key][v], selected.Keys, before.deployments);
      }
    }
  }

  lemma DeleteKeepsSound(before: State, modules: set<string>, after: State)
    requires Sound(before) && DeletedFrom(before, modules, after)
    ensures Sound(after)
  {
    forall key, v | key in after.engine && v in after.engine[key]
      ensures IsSound(after.engine[key][v], after.deployments)
    {
      assert IsSound(before.engine[key][v], before.deployments);
    }
  }

  /** A container asks for a service of a module that is not deployed: its target is gone, or could
      not be stored in the batch the container was created in. */
  ghost predicate Dangles(engine: Engine, m: string) {
    exists key, v :: key in engine && v in engine[key] && engine[key][v].target.moduleId == m
  }

  ghost predicate StoresDangling(before: State, after: State) {
    exists m :: m in after.deployments && m !in before.deployments && Dangles(before.engine, m)
  }

  lemma DanglingIsUnsound(before: State, selected: map<string, Module>, after: State)
    requires Takes(before, Create(selected), after) && StoresDangling(before, after)
    ensures !Sound(after)
  {
    var m :| m in after.deployments && m !in before.deployments && Dangles(before.engine, m);
    var key, v :| key in before.engine && v in before.engine[key] && before.engine[key][v].target.moduleId == m;
    assert Below(before.engine[key][v].alias, before.next) && IsNew(before, selected, m, after.deployments[m]);
    assert !IsSound(after.engine[key][v], after.deployments);
  }

  /** Creating keeps it if and only if no container asked for a module that is now deployed: the new
      deployment has a new id, so the aliases it is asked for by are none of its own. */
  lemma CreateKeepsSoundIff(before: State, selected: map<string, Module>, after: State)
    requires Sound(before) && Takes(before, Create(selected), after)
    ensures Sound(after) <==> !StoresDangling(before, after)
  {
    if StoresDangling(before, after) {
      DanglingIsUnsound(before, selected, after);
    } else {
      forall key, v | key in after.engine && v in after.engine[key]
        ensures IsSound(after.engine[key][v], after.deployments)
      {
        if key in before.engine {
          assert Dangles(before.engine, after.engine[key][v].target.moduleId);
          assert IsSound(before.engine[key][v], before.deployments);
        } else {
          assert StoredOrMissing(after.engine[key][v], after.deployments, selected.Keys - before.deployments.Keys);
        }
      }
      forall m, r | m in after.deployments && r in after.deployments[m].aliases
        ensures after.deployments[m].aliases[r] == Generated(after.deployments[m].dep, r)
      {
        assert m !in before.deployments ==> IsNew(before, selected, m, after.deployments[m]);
      }
    }
  }

  lemma BatchKeepsSoundIff(before: State, batch: Batch, after: State)
    requires Sound(before) && Takes(before, batch, after)
    ensures Sound(after) <==> !(batch.Create? && StoresDangling(before, after))
  {
    match batch {
      case Create(selected) => CreateKeepsSoundIff(before, selected, after);
      case Renew(selected, _) => RenewKeepsSound(before, selected, after);
      case Delete(modules) => DeleteKeepsSound(before, modules, after);
    }
  }

  ghost predicate SoundAllAlong(states: seq<State>) {
    forall i | 0 <= i < |states| :: Sound(states[i])
  }

  ghost predicate NoCreateStoresDangling(states: seq<State>, batches: seq<Batch>)
    requires |states| > |batches|
  {
    forall i | 0 <= i < |batches| && batches[i].Create? :: !StoresDangling(states[i], states[i + 1])
  }

  lemma SoundOneMore(states: seq<State>)
    requires |states| > 1
    ensures SoundAllAlong(states) <==> SoundAllAlong(states[..|states| - 1]) && Sound(states[|states| - 1])
    ensures SoundAllAlong(states[..|states| - 1]) ==> Sound(states[|states| - 2])
  {
    var front := states[..|states| - 1];
    forall i | 0 <= i < |front| ensures front[i] == states[i] {}
    if SoundAllAlong(states) {
      forall i | 0 <= i < |front| ensures Sound(front[i]) { assert Sound(states[i]); }
    }
    if SoundAllAlong(front) {
      assert Sound(front[|front| - 1]);
    }
  }

  lemma DanglingOneMore(states: seq<State>, batches: seq<Batch>)
    requires |states| == |batches| + 1 && batches != []
    ensures var n := |batches| - 1;
            NoCreateStoresDangling(states, batches) <==>
            && NoCreateStoresDangling(states[..n + 1], batches[..n])
            && !(batches[n].Create? && StoresDangling(states[n], states[n + 1]))
  {
    var n := |batches| - 1;
    var front, less := states[..n + 1], batches[..n];
    forall i | 0 <= i < n ensures front[i] == states[i] && less[i] == batches[i] {}
    if NoCreateStoresDangling(states, batches) {
      forall i | 0 <= i < n && less[i].Create? ensures !StoresDangling(front[i], front[i + 1]) {
        assert batches[i].Create?;
      }
    }
  }

  /** In a run from such a state all states are like that if and only if no create stores a module that
      a container was asking for in vain. */
  lemma {:induction false} RunKeepsSoundIff(states: seq<State>, batches: seq<Batch>)
    requires IsRun(states, batches) && Sound(states[0])
    ensures SoundAllAlong(states) <==> NoCreateStoresDangling(states, batches)
  {
    if batches != [] {
      var n := |batches| - 1;
      var front := states[..n + 1];
      assert IsRun(front, batches[..n]);
      RunKeepsSoundIff(front, batches[..n]);
      SoundOneMore(states);
      DanglingOneMore(states, batches);
      if Sound(states[n]) {
        BatchKeepsSoundIff(states[n], batches[n], states[n + 1]);
      }
    }
  }

  // ----- Examples -----

  function OneAlias(id: DeploymentId, reference: string): Item {
    Item(id, map[reference := Generated(id, reference)])
  }

  function OneService(reference: string): Module {
    Module({}, map[reference := map[]])
  }

  function Asks(a: string, reference: string, variable: string): Vars {
    map[variable := Resolved(Target(a, reference), Generated(0, reference))]
  }

  /** Module `b` has a service that asks for one of module `a`. */
  function Asking(a: string, b: string, reference: string, variable: string): State {
    State(map[a := OneAlias(0, reference), b := OneAlias(1, reference)],
          map[Key(0, reference) := map[], Key(1, reference) := Asks(a, reference, variable)], 2)
  }

  function WithoutTarget(a: string, b: string, reference: string, variable: string): State {
    State(map[b := OneAlias(1, reference)], map[Key(1, reference) := Asks(a, reference, variable)], 2)
  }

  function WithNewTarget(a: string, b: string, reference: string, variable: string): State {
    State(map[a := OneAlias(2, reference), b := OneAlias(1, reference)],
          map[Key(1, reference) := Asks(a, reference, variable), Key(2, reference) := map[]], 3)
  }

  ghost predicate HasIds(s: State) {
    IdsBelow(s.deployments, s.engine, s.next)
  }

  lemma AskingHasIds(a: string, b: string, reference: string, variable: string)
    requires a != b
    ensures HasIds(Asking(a, b, reference, variable))
  {
  }

  lemma AskingIsSound(a: string, b: string, reference: string, variable: string)
    requires a != b
    ensures HasIds(Asking(a, b, reference, variable)) && Sound(Asking(a, b, reference, variable))
  {
    AskingHasIds(a, b, reference, variable);
  }

  lemma WithoutTargetHasIds(a: string, b: string, reference: string, variable: string)
    ensures HasIds(WithoutTarget(a, b, reference, variable))
  {
  }

  lemma WithNewTargetHasIds(a: string, b: string, reference: string, variable: string)
    requires a != b
    ensures HasIds(WithNewTarget(a, b, reference, variable))
  {
  }

  lemma TargetIsDeleted(a: string, b: string, reference: string, variable: string)
    requires a != b
    ensures DeletedFrom(Asking(a, b, reference, variable), {a}, WithoutTarget(a, b, reference, variable))
  {
    var s := Asking(a, b, reference, variable);
    assert a in s.deployments && s.deployments[a].dep == 0;
    assert OwnedByOneOf(s.deployments, {a}, 0);
  }

  lemma TargetIsCreated(a: string, b: string, reference: string, variable: string)
    requires a != b
    ensures Created(WithoutTarget(a, b, reference, variable), map[a := OneService(reference)],
                    WithNewTarget(a, b, reference, variable))
  {
    assert GeneratedItem(2, OneService(reference)).aliases == OneAlias(2, reference).aliases;
  }

  lemma NewTargetIsNotFound(a: string, b: string, reference: string, variable: string)
    requires a != b
    ensures !Sound(WithNewTarget(a, b, reference, variable)) && !AllValid(WithNewTarget(a, b, reference, variable))
  {
    var s := WithNewTarget(a, b, reference, variable);
    var r := s.engine[Key(1, reference)][variable];
    assert Known(r.target, s.deployments) && !IsValid(r, s.deployments) && !IsSound(r, s.deployments);
  }

  lemma RunOfTwo(s0: State, first: Batch, s1: State, second: Batch, s2: State)
    requires Takes(s0, first, s1) && Takes(s1, second, s2)
    ensures IsRun([s0, s1, s2], [first, second])
  {
  }

  /** Deleting the target and creating it again breaks the variable: the container of `b` looks for an
      alias that nobody has any more. */
  lemma TargetCreatedAgain(a: string, b: string, reference: string, variable: string)
    requires a != b
    ensures var s0 := Asking(a, b, reference, variable);
            var s1 := WithoutTarget(a, b, reference, variable);
            var s2 := WithNewTarget(a, b, reference, variable);
            && IsRun([s0, s1, s2], [Delete({a}), Create(map[a := OneService(reference)])])
            && Sound(s0) && !Sound(s2) && !AllValid(s2)
  {
    AskingIsSound(a, b, reference, variable);
    WithoutTargetHasIds(a, b, reference, variable);
    WithNewTargetHasIds(a, b, reference, variable);
    TargetIsDeleted(a, b, reference, variable);
    TargetIsCreated(a, b, reference, variable);
    NewTargetIsNotFound(a, b, reference, variable);
    RunOfTwo(Asking(a, b, reference, variable), Delete({a}), WithoutTarget(a, b, reference, variable),
             Create(map[a := OneService(reference)]), WithNewTarget(a, b, reference, variable));
  }

  /** `a` with these aliases, and a container of `b` that asks for a service of `a` by this one. */
  function AskedBy(a: string, b: string, aliases: map<string, Alias>, r: Resolved): State {
    State(map[a := Item(0, aliases), b := OneAlias(1, "r")], map[Key(1, "r") := map["v" := r]], 2)
  }

  ghost predicate Older(aliases: map<string, Alias>) {
    forall service | service in aliases :: Below(aliases[service], 2)
  }

  lemma AskedByIs(a: string, b: string, aliases: map<string, Alias>, r: Resolved)
    requires a != b
    ensures var s := AskedBy(a, b, aliases, r);
            && s.deployments.Keys == {a, b} && s.deployments[a] == Item(0, aliases)
            && s.deployments[b] == OneAlias(1, "r") && s.engine.Keys == {Key(1, "r")}
            && s.engine[Key(1, "r")] == map["v" := r]
    ensures Older(aliases) && Below(r.alias, 2) ==> HasIds(AskedBy(a, b, aliases, r))
  {
  }

  lemma ValidIff(a: string, b: string, aliases: map<string, Alias>, r: Resolved)
    requires a != b && r.target.moduleId == a
    ensures AllValid(AskedBy(a, b, aliases, r)) <==>
            (r.target.service in aliases ==> r.alias == aliases[r.target.service])
  {
    AskedByIs(a, b, aliases, r);
    var s := AskedBy(a, b, aliases, r);
    assert s.engine[Key(1, "r")]["v"] == r;
    assert IsValid(r, s.deployments) <==> (r.target.service in aliases ==> r.alias == aliases[r.target.service]);
  }

  lemma TakesUpdate(a: string, b: string, aliases: map<string, Alias>, aliases': map<string, Alias>, r: Resolved,
                    module_: Module)
    requires a != b && Older(aliases) && Older(aliases') && Below(r.alias, 2)
    requires RenewedItem(module_, Item(0, aliases)).aliases == aliases'
    ensures Takes(AskedBy(a, b, aliases, r), Renew(map[a := module_], true), AskedBy(a, b, aliases', r))
  {
    AskedByIs(a, b, aliases, r);
    AskedByIs(a, b, aliases', r);
  }

  lemma TakesRecreate(a: string, b: string, aliases: map<string, Alias>, r: Resolved, r': Resolved,
                      modules: map<string, Module>)
    requires a != b && Older(aliases) && Below(r.alias, 2) && Below(r'.alias, 2) && r'.target.moduleId == a
    requires a in modules && r'.alias == Kept(Item(0, aliases), r'.target.service)
    ensures Takes(AskedBy(a, b, aliases, r), Renew(modules, false), AskedBy(a, b, aliases, r'))
  {
    AskedByIs(a, b, aliases, r);
    AskedByIs(a, b, aliases, r');
    assert FromOld(r', modules.Keys, AskedBy(a, b, aliases, r).deployments);
  }

  /** `a` has a service without an alias, from earlier times. Recreating both modules gives the
      container of `b` a generated alias that is saved nowhere. */
  lemma RecreatedWithoutAlias(a: string, b: string, service: string)
    requires a != b
    ensures var modules := map[a := OneService(service), b := Module({a}, map["r" := map["v" := Target(a, service)]])];
            var s0 := AskedBy(a, b, map[service := Unset], Resolved(Target(a, service), Unset));
            var s1 := AskedBy(a, b, map[service := Unset], Resolved(Target(a, service), Generated(0, service)));
            IsRun([s0, s1], [Renew(modules, false)]) && AllValid(s0) && !AllValid(s1)
  {
    var modules := map[a := OneService(service), b := Module({a}, map["r" := map["v" := Target(a, service)]])];
    var r, r' := Resolved(Target(a, service), Unset), Resolved(Target(a, service), Generated(0, service));
    ValidIff(a, b, map[service := Unset], r);
    ValidIff(a, b, map[service := Unset], r');
    TakesRecreate(a, b, map[service := Unset], r, r', modules);
  }

  lemma TakesDrop(a: string, b: string, service: string, text: string, r: Resolved)
    requires a != b && Below(r.alias, 2)
    ensures Takes(AskedBy(a, b, map[service := Other(text)], r), Renew(map[a := Module({}, map[])], true),
                  AskedBy(a, b, map[], r))
    ensures Takes(AskedBy(a, b, map[], r), Renew(map[a := OneService(service)], true),
                  AskedBy(a, b, map[service := Generated(0, service)], r))
  {
    assert OneService(service).services.Keys == {service};
    TakesUpdate(a, b, map[service := Other(text)], map[], r, Module({}, map[]));
    TakesUpdate(a, b, map[], map[service := Generated(0, service)], r, OneService(service));
  }

  /** `a` has a service with an alias from earlier times. An update drops the service, another one brings
      it back with a generated alias, and the container of `b` still asks for the old one. */
  lemma DroppedAndBroughtBack(a: string, b: string, service: string, text: string)
    requires a != b
    ensures var r := Resolved(Target(a, service), Other(text));
            var s0, s1 := AskedBy(a, b, map[service := Other(text)], r), AskedBy(a, b, map[], r);
            var s2 := AskedBy(a, b, map[service := Generated(0, service)], r);
            && IsRun([s0, s1, s2],
                     [Renew(map[a := Module({}, map[])], true), Renew(map[a := OneService(service)], true)])
            && AllValid(s0) && AllValid(s1) && !AllValid(s2)
  {
    var r := Resolved(Target(a, service), Other(text));
    ValidIff(a, b, map[service := Other(text)], r);
    ValidIff(a, b, map[], r);
    ValidIff(a, b, map[service := Generated(0, service)], r);
    TakesDrop(a, b, service, text, r);
    RunOfTwo(AskedBy(a, b, map[service := Other(text)], r), Renew(map[a := Module({}, map[])], true),
             AskedBy(a, b, map[], r), Renew(map[a := OneService(service)], true),
             AskedBy(a, b, map[service := Generated(0, service)], r));
  }
}
