/** Deleting deployments together with what belongs to them: the auxiliary deployments and volumes
    first, and the deployment only if that left no error (pkg/service/deployment.go). */
module DeploymentDelete {
  import opened Prelude
  import opened FilterCompiler
  import opened SubSelects
  import opened AuxDelete
  import opened DeploymentRemoval

  const NO_FILTER := AuxFilter(map[], [], 0, 0, "")

  ghost predicate HasRows(rows: Rows, deploymentId: string) {
    exists id :: id in rows && rows[id].depId == deploymentId
  }

  /** The auxiliary deployments that are left when all those of the `gone` deployments could be
      removed: none at all if one of these deployments has none. */
  ghost function AuxRowsAfter(rows: Rows, gone: set<string>): Rows {
    if exists d :: d in gone && !HasRows(rows, d) then map[]
    else RowsNotIn(rows, gone)
  }

  ghost function RowsOf(rows: Rows, deploymentId: string): set<string> {
    set id | id in rows && rows[id].depId == deploymentId
  }

  /** Whatever the order. */
  lemma AuxRowsOneMore(rows: Rows, current: Rows, gone: set<string>, d: string)
    requires current == AuxRowsAfter(rows, gone) && d !in gone
    ensures RowsAfter(current, RowsOf(current, d)) == AuxRowsAfter(rows, gone + {d})
  {
    var more, mine := gone + {d}, RowsOf(current, d);
    if e :| e in gone && !HasRows(rows, e) {
      assert e in more;
      assert mine == {};
    } else if HasRows(rows, d) {
      var id :| id in rows && rows[id].depId == d;
      assert id in mine;
      assert forall e | e in more :: HasRows(rows, e);
      assert RowsAfter(current, mine) == map id | id in rows && rows[id].depId !in more :: rows[id];
    } else {
      assert d in more && !HasRows(rows, d);
      assert mine == {};
    }
  }

  /** Other deployments keep their auxiliary deployments if and only if every deleted one has some,
      or there are no others. */
  lemma OthersKeepTheirs(rows: Rows, gone: set<string>)
    ensures (forall id | id in rows && rows[id].depId !in gone :: id in AuxRowsAfter(rows, gone)) <==>
              (forall d | d in gone :: HasRows(rows, d)) || (forall id | id in rows :: rows[id].depId in gone)
  {
    if d :| d in gone && !HasRows(rows, d) {
      assert AuxRowsAfter(rows, gone) == map[];
    }
  }

  /** Deleting `d`, which has no auxiliary deployments, loses the one of another deployment. */
  lemma OthersLoseTheirs(other: AuxDeployment, d: string)
    requires other.depId != d
    ensures var rows := map[other.id := other];
            other.id !in AuxRowsAfter(rows, {d}) && rows[other.id].depId !in {d}
  {
    var rows := map[other.id := other];
    assert d in {d} && !HasRows(rows, d);
  }

  datatype AuxResult = AuxResult(results: seq<BatchResult>, volumeResults: seq<BatchResult>, ok: bool)

  predicate AllOk(results: seq<BatchResult>) {
    forall x | x in results :: x.ok
  }

  predicate Clean(r: AuxResult) {
    r.ok && AllOk(r.results) && AllOk(r.volumeResults)
  }

  datatype DeleteResult = DeleteResult(moduleId: string, id: string, ok: bool)

  // ----- What is lost outside the database -----

  datatype Snapshot = Snapshot(rows: Rows, volumes: Volumes, containers: map<string, string>,
                               engineVolumes: set<string>)

  ghost function ContainersOf(rows: Rows, scope: set<string>): set<string> {
    set id | id in rows && rows[id].depId in scope :: rows[id].container
  }

  ghost function VolumesOf(volumes: Volumes, scope: set<string>): set<string> {
    set key | key in volumes && key.depId in scope :: volumes[key]
  }

  /** Nothing but what belongs to these deployments, in the database and outside of it. */
  ghost predicate LostOnly(before: Snapshot, after: Snapshot, scope: set<string>) {
    && IsPart(after.rows, before.rows) && IsPart(after.volumes, before.volumes)
    && IsPart(after.containers, before.containers)
    && (forall key | key in before.volumes && key !in after.volumes :: key.depId in scope)
    && before.containers.Keys - after.containers.Keys <= ContainersOf(before.rows, scope)
    && after.engineVolumes <= before.engineVolumes
    && before.engineVolumes - after.engineVolumes <= VolumesOf(before.volumes, scope)
  }

  /** Nothing of these deployments is left in the container engine. */
  ghost predicate AllLost(before: Snapshot, after: Snapshot, scope: set<string>) {
    && ContainersOf(before.rows, scope) !! after.containers.Keys
    && VolumesOf(before.volumes, scope) !! after.engineVolumes
  }

  lemma LostOneMore(before: Snapshot, middle: Snapshot, after: Snapshot, done: set<string>, d: string)
    requires LostOnly(before, middle, done) && LostOnly(middle, after, {d})
    ensures LostOnly(before, after, done + {d})
  {
    forall name | name in ContainersOf(middle.rows, {d}) ensures name in ContainersOf(before.rows, done + {d}) {
      var id :| id in middle.rows && middle.rows[id].depId == d && middle.rows[id].container == name;
      assert id in before.rows && before.rows[id] == middle.rows[id];
    }
    forall name | name in VolumesOf(middle.volumes, {d}) ensures name in VolumesOf(before.volumes, done + {d}) {
      var key :| key in middle.volumes && key.depId == d && middle.volumes[key] == name;
      assert key in before.volumes && before.volumes[key] == name;
    }
    forall name | name in ContainersOf(before.rows, done) ensures name in ContainersOf(before.rows, done + {d}) {
      var id :| id in before.rows && before.rows[id].depId in done && before.rows[id].container == name;
      assert before.rows[id].depId in done + {d};
    }
    forall name | name in VolumesOf(before.volumes, done) ensures name in VolumesOf(before.volumes, done + {d}) {
      var key :| key in before.volumes && key.depId in done && before.volumes[key] == name;
      assert key.depId in done + {d};
    }
  }

  lemma AllLostOneMore(before: Snapshot, middle: Snapshot, after: Snapshot, done: set<string>, d: string)
    requires LostOnly(before, middle, done) && AllLost(before, middle, done) && d !in done
    requires LostOnly(middle, after, {d}) && AllLost(middle, after, {d})
    requires forall id | id in before.rows && before.rows[id].depId == d :: id in middle.rows
    ensures AllLost(before, after, done + {d})
  {
    forall name | name in ContainersOf(before.rows, done + {d}) ensures name !in after.containers {
      var id :| id in before.rows && before.rows[id].depId in done + {d} && before.rows[id].container == name;
      if before.rows[id].depId == d {
        assert name in ContainersOf(middle.rows, {d});
      } else {
        assert name in ContainersOf(before.rows, done);
      }
    }
    forall name | name in VolumesOf(before.volumes, done + {d}) ensures name !in after.engineVolumes {
      var key :| key in before.volumes && key.depId in done + {d} && before.volumes[key] == name;
      if key.depId == d {
        assert key in middle.volumes && middle.volumes[key] == name;
        assert name in VolumesOf(middle.volumes, {d});
      } else {
        assert name in VolumesOf(before.volumes, done);
      }
    }
  }

  ghost predicate AllHaveRows(rows: Rows, scope: set<string>) {
    forall d | d in scope :: HasRows(rows, d)
  }

  /** What is left after the auxiliary deployments and volumes of some deployments were deleted;
      `good` if nothing fails and every volume row has its volume. */
  ghost predicate AuxProgress(start: Snapshot, now: Snapshot, done: set<string>, good: bool) {
    && LostOnly(start, now, done)
    && (good ==>
          && now.rows == AuxRowsAfter(start.rows, done)
          && Materialised(now.volumes, now.engineVolumes)
          && (AllHaveRows(start.rows, done) ==> AllLost(start, now, done)))
  }

  /** The deployments to be deleted are those with a clean result. */
  ghost predicate Tallied(auxResults: map<string, AuxResult>, toDelete: seq<string>, done: set<string>) {
    && auxResults.Keys == done
    && forall id :: id in toDelete <==> id in auxResults && Clean(auxResults[id])
  }

  ghost predicate AllClean(auxResults: map<string, AuxResult>) {
    forall id | id in auxResults :: Clean(auxResults[id])
  }

  lemma TalliedOneMore(auxResults: map<string, AuxResult>, toDelete: seq<string>, done: set<string>, id: string,
                       r: AuxResult)
    requires Tallied(auxResults, toDelete, done) && id !in done
    ensures Tallied(auxResults[id := r], if Clean(r) then toDelete + [id] else toDelete, done + {id})
    ensures AllClean(auxResults) && Clean(r) ==> AllClean(auxResults[id := r])
  {
  }

  lemma TalliedAll(auxResults: map<string, AuxResult>, toDelete: seq<string>, done: set<string>)
    requires Tallied(auxResults, toDelete, done)
    ensures AllClean(auxResults) ==> Elements(toDelete) == done
  {
  }

  /** Those whose result is not clean. */
  ghost function Unclean(auxResults: map<string, AuxResult>): set<string> {
    set id | id in auxResults && !Clean(auxResults[id])
  }

  lemma UncleanOneMore(auxResults: map<string, AuxResult>, id: string, r: AuxResult)
    requires id !in auxResults
    ensures |Unclean(auxResults[id := r])| == |Unclean(auxResults)| + if Clean(r) then 0 else 1
  {
    assert Unclean(auxResults[id := r]) == Unclean(auxResults) + if Clean(r) then {} else {id};
  }

  /** The volumes of this deployment are in the engine, each under its own name. */
  ghost predicate OwnMaterialised(s: Snapshot, d: string) {
    && (forall key | key in s.volumes && key.depId == d :: s.volumes[key] in s.engineVolumes)
    && (forall a, b | a in s.volumes && b in s.volumes && a.depId == d && b.depId == d && s.volumes[a] ==
          s.volumes[b] ::
          a == b)
  }

  /** What happens to other deployments does not touch them. */
  lemma StaysMaterialised(start: Snapshot, now: Snapshot, done: set<string>, d: string)
    requires Materialised(start.volumes, start.engineVolumes) && LostOnly(start, now, done) && d !in done
    ensures OwnMaterialised(now, d)
  {
    forall key | key in now.volumes && key.depId == d ensures now.volumes[key] in now.engineVolumes {
      assert now.volumes[key] == start.volumes[key];
      forall other | other in start.volumes && other.depId in done ensures start.volumes[other] != start.volumes[key] {}
      assert now.volumes[key] !in VolumesOf(start.volumes, done);
    }
  }

  lemma FoundAre(volumes: Volumes, d: string, found: map<string, string>)
    requires d != "" && (found == map[] || IsFound(volumes, d, [], found))
    ensures found.Values <= VolumesOf(volumes, {d})
    ensures IsFound(volumes, d, [], found) ==>
              forall key | key in volumes && key.depId == d ::
                key.reference in found && found[key.reference] == volumes[key]
  {
    forall name | name in found.Values ensures name in VolumesOf(volumes, {d}) {
      var ref :| ref in found && found[ref] == name;
      var key :| key in volumes && key.reference == ref && Wanted(key, d, []) && found[ref] == volumes[key];
    }
    if IsFound(volumes, d, [], found) {
      forall key | key in volumes && key.depId == d
        ensures key.reference in found && found[key.reference] == volumes[key]
      {
        assert Wanted(key, d, []);
        var other :|
          && other in volumes && other.reference == key.reference && Wanted(other, d, [])
          && found[key.reference] == volumes[other];
        assert other == key;
      }
    }
  }

  lemma AllFoundExist(s: Snapshot, d: string, found: map<string, string>)
    requires d != "" && OwnMaterialised(s, d) && IsFound(s.volumes, d, [], found)
    ensures Injective(found) && Existing(found, s.engineVolumes) == found.Keys
  {
    FoundAre(s.volumes, d, found);
    forall ref | ref in found ensures VolumeKey(d, ref) in s.volumes && s.volumes[VolumeKey(d, ref)] == found[ref] {
      var key :| key in s.volumes && key.reference == ref && Wanted(key, d, []) && found[ref] == s.volumes[key];
      assert key == VolumeKey(d, ref);
    }
  }

  lemma AllAreOk(results: seq<BatchResult>, ids: set<string>)
    requires Reports(results, ids, ids)
    ensures AllOk(results)
  {
  }

  /** What is still there had no clean result, or could not be deleted. */
  lemma RemainingAre(scope: set<string>, auxResults: map<string, AuxResult>, toDelete: seq<string>,
                     deleteResults: map<string, bool>, remaining: set<string>, f1: nat, f2: nat)
    requires Tallied(auxResults, toDelete, scope) && deleteResults.Keys == Elements(toDelete)
    requires forall id | id in remaining :: id in scope && !(id in deleteResults && deleteResults[id])
    requires |Unclean(auxResults)| <= f1 && |Bad(deleteResults)| <= f2
    ensures |remaining| <= f1 + f2
  {
    forall id | id in remaining ensures id in Unclean(auxResults) + Bad(deleteResults) {
      if Clean(auxResults[id]) {
        assert id in toDelete;
      }
    }
    SubsetCardinality(remaining, Unclean(auxResults) + Bad(deleteResults));
  }

  ghost predicate AuxGone(before: Snapshot, after: Snapshot, d: string, good: bool) {
    && LostOnly(before, after, {d})
    && (good && Materialised(before.volumes, before.engineVolumes) ==>
          && after.rows == RowsAfter(before.rows, RowsOf(before.rows, d))
          && Materialised(after.volumes, after.engineVolumes)
          && AllLost(before, after, {d}))
  }

  /** All of it: what is left, the results, and which deployments are to be deleted. */
  ghost predicate AuxDone(start: Snapshot, now: Snapshot, done: set<string>, auxResults: map<string, AuxResult>,
                          toDelete: seq<string>, good: bool) {
    && AuxProgress(start, now, done, good)
    && Tallied(auxResults, toDelete, done)
    && (good ==> AllClean(auxResults))
  }

  ghost predicate AuxIsDone(start: Snapshot, now: Snapshot, done: set<string>, auxResults: map<string, AuxResult>,
                            toDelete: seq<string>, good: bool) {
    exists g :: g == good && AuxDone(start, now, done, auxResults, toDelete, g)
  }

  lemma RemainingAreFew(start: Snapshot, middle: Snapshot, scope: set<string>, auxResults: map<string, AuxResult>,
                        toDelete: seq<string>, good: bool, deleteResults: map<string, bool>, remaining: set<string>,
                        f1: nat, f2: nat)
    requires AuxIsDone(start, middle, scope, auxResults, toDelete, good) && deleteResults.Keys == Elements(toDelete)
    requires forall id | id in remaining :: id in scope && !(id in deleteResults && deleteResults[id])
    requires |Unclean(auxResults)| <= f1 && |Bad(deleteResults)| <= f2
    ensures |remaining| <= f1 + f2
  {
    RemainingAre(scope, auxResults, toDelete, deleteResults, remaining, f1, f2);
  }

  lemma AuxStart(start: Snapshot, good: bool)
    requires good ==> Materialised(start.volumes, start.engineVolumes)
    ensures AuxIsDone(start, start, {}, map[], [], good)
  {
    var none: map<string, AuxResult> := map[];
    assert none.Keys == {};
    assert AuxRowsAfter(start.rows, {}) == start.rows;
    assert AuxDone(start, start, {}, map[], [], good);
  }

  lemma AuxProgressOneMore(start: Snapshot, middle: Snapshot, after: Snapshot, done: set<string>, d: string, good: bool)
    requires AuxProgress(start, middle, done, good) && AuxGone(middle, after, d, good) && d !in done
    ensures AuxProgress(start, after, done + {d}, good)
  {
    LostOneMore(start, middle, after, done, d);
    if good {
      AuxRowsOneMore(start.rows, middle.rows, done, d);
      if AllHaveRows(start.rows, done + {d}) {
        assert forall e | e in done :: e in done + {d};
        assert AllHaveRows(start.rows, done);
        AllLostOneMore(start, middle, after, done, d);
      }
    }
  }

  lemma AuxDoneOneMore(start: Snapshot, middle: Snapshot, after: Snapshot, done: set<string>,
                       auxResults: map<string, AuxResult>, toDelete: seq<string>, d: string, r: AuxResult, good: bool)
    requires AuxIsDone(start, middle, done, auxResults, toDelete, good) && d !in done
    requires AuxGone(middle, after, d, good)
    requires good && Materialised(middle.volumes, middle.engineVolumes) ==> Clean(r)
    ensures AuxIsDone(start, after, done + {d}, auxResults[d := r], if Clean(r) then toDelete + [d] else toDelete, good)
  {
    AuxProgressOneMore(start, middle, after, done, d, good);
    TalliedOneMore(auxResults, toDelete, done, d, r);
    assert AuxDone(start, after, done + {d}, auxResults[d := r], if Clean(r) then toDelete + [d] else toDelete, good);
  }

  lemma OwnStayMaterialised(start: Snapshot, now: Snapshot, done: set<string>, auxResults: map<string, AuxResult>,
                            toDelete: seq<string>, good: bool, d: string)
    requires AuxIsDone(start, now, done, auxResults, toDelete, good) && d !in done
    requires Materialised(start.volumes, start.engineVolumes)
    ensures OwnMaterialised(now, d)
  {
    StaysMaterialised(start, now, done, d);
  }

  lemma NoFilterSelects(rows: Rows, labels: set<LabelRow>, containers: map<string, string>, d: string)
    requires d != ""
    ensures (map id | id in rows && Selected(d, NO_FILTER, "", labels, containers, rows[id]) :: rows[id]) ==
            map id | id in rows && rows[id].depId == d :: rows[id]
    ensures (set id | id in rows && Selected(d, NO_FILTER, "", labels, containers, rows[id])) == RowsOf(rows, d)
  {
  }

  lemma ContainersLost(before: Snapshot, after: Snapshot, d: string, selected: Rows, removed: set<string>)
    requires selected == map id | id in before.rows && before.rows[id].depId == d :: before.rows[id]
    requires OnlyRemoved(before.containers, after.containers, selected)
    requires IsPart(after.rows, before.rows) && after.volumes == before.volumes
    requires after.engineVolumes == before.engineVolumes
    requires forall id | id in removed :: id in before.rows && before.rows[id].container !in after.containers
    ensures LostOnly(before, after, {d})
    ensures RowsOf(before.rows, d) <= removed ==> ContainersOf(before.rows, {d}) !! after.containers.Keys
  {
    forall name ensures name in Names(selected) <==> name in ContainersOf(before.rows, {d}) {
      if name in Names(selected) {
        var id :| id in selected && selected[id].container == name;
        assert id in before.rows && before.rows[id].container == name;
      }
      if name in ContainersOf(before.rows, {d}) {
        var id :| id in before.rows && before.rows[id].depId in {d} && before.rows[id].container == name;
        assert id in selected && selected[id].container == name;
      }
    }
    if RowsOf(before.rows, d) <= removed {
      forall name | name in ContainersOf(before.rows, {d}) ensures name !in after.containers {
        var id :| id in before.rows && before.rows[id].depId == d && before.rows[id].container == name;
        assert id in RowsOf(before.rows, d);
      }
    }
  }

  lemma MaterialisedStays(before: Snapshot, after: Snapshot, d: string, found: map<string, string>,
                          removed: set<string>)
    requires d != "" && IsFound(before.volumes, d, [], found) && Materialised(before.volumes, before.engineVolumes)
    requires before.engineVolumes - after.engineVolumes <= found.Values && after.engineVolumes <= before.engineVolumes
    requires after.volumes == VolumesAfter(before.volumes, d, removed)
    requires Injective(found) ==> removed == Existing(found, before.engineVolumes)
    ensures removed == found.Keys && Materialised(after.volumes, after.engineVolumes)
  {
    FoundAre(before.volumes, d, found);
    forall a, b | a in found && b in found && found[a] == found[b] ensures a == b {
      assert VolumeKey(d, a) in before.volumes && VolumeKey(d, b) in before.volumes;
    }
    assert removed == found.Keys;
    forall key | key in after.volumes ensures after.volumes[key] in after.engineVolumes {
      assert after.volumes[key] !in found.Values;
    }
  }

  /** If all results are good, all are done. */
  lemma AllReported(results: seq<BatchResult>, ids: set<string>, done: set<string>)
    requires Reports(results, ids, done) && AllOk(results)
    ensures done == ids
  {
    forall id | id in ids ensures id in done {
      assert BatchResult(id, id in done) in results;
    }
  }

  lemma VolumesLost(before: Snapshot, after: Snapshot, d: string, found: map<string, string>, removed: set<string>,
                    results: seq<BatchResult>, ok: bool, reliable: bool)
    requires d != "" && after.rows == before.rows && after.containers == before.containers
    requires found == map[] || IsFound(before.volumes, d, [], found)
    requires after.engineVolumes <= before.engineVolumes && before.engineVolumes - after.engineVolumes <= found.Values
    requires forall ref | ref in removed :: ref in found && found[ref] !in after.engineVolumes
    requires ok ==> IsFound(before.volumes, d, [], found) && Reports(results, found.Keys, removed)
                    && after.volumes == VolumesAfter(before.volumes, d, removed)
    requires !ok ==> after.volumes == before.volumes
    requires reliable ==> ok
    requires reliable && Injective(found) ==> removed == Existing(found, before.engineVolumes)
    ensures LostOnly(before, after, {d})
    ensures ok && AllOk(results) ==> VolumesOf(before.volumes, {d}) !! after.engineVolumes
    ensures reliable && Materialised(before.volumes, before.engineVolumes) ==>
              AllOk(results) && Materialised(after.volumes, after.engineVolumes)
  {
    FoundAre(before.volumes, d, found);
    if ok && AllOk(results) {
      AllReported(results, found.Keys, removed);
      forall name | name in VolumesOf(before.volumes, {d}) ensures name !in after.engineVolumes {
        var key :| key in before.volumes && key.depId in {d} && before.volumes[key] == name;
      }
    }
    if reliable && Materialised(before.volumes, before.engineVolumes) {
      MaterialisedStays(before, after, d, found, removed);
    }
  }

  /** Every deployment that is gone had a clean result, and nothing it had is left. */
  ghost predicate OnlyClean(deployments: Deployments, left: Deployments, o: Outside, scope: set<string>,
                            auxResults: map<string, AuxResult>) {
    && (forall id | id in left :: id in deployments && left[id] == deployments[id])
    && (forall id | id in deployments && id !in left ::
          id in scope && id in auxResults && Clean(auxResults[id]) && Cleared(id, deployments[id], o))
  }

  /** Outside the database nothing is lost but what belongs to these deployments or to auxiliary
      deployments of theirs. */
  ghost predicate OutsideLostOnly(deployments: Deployments, before: Snapshot, outside: Outside, after: Outside,
                                  scope: set<string>) {
    && Shrunk(outside, after)
    && outside.containers.Keys - after.containers.Keys <=
         ContainersOf(before.rows, scope) + OwnContainers(deployments, scope)
    && outside.volumes - after.volumes <= VolumesOf(before.volumes, scope) + OwnVolumes(deployments, scope)
    && outside.secretMounts - after.secretMounts <= scope
    && (forall dir | dir in outside.dirs && dir !in after.dirs :: OwnDir(deployments, scope, dir))
    && outside.endpoints - after.endpoints <= scope
  }

  lemma NothingLost(deployments: Deployments, now: Snapshot, o: Outside, scope: set<string>,
                    auxResults: map<string, AuxResult>)
    ensures OnlyClean(deployments, deployments, o, scope, auxResults)
    ensures OutsideLostOnly(deployments, now, o, o, scope)
  {
  }

  ghost function Between(outside: Outside, middle: Snapshot): Outside {
    outside.(containers := middle.containers, volumes := middle.engineVolumes)
  }

  /** Both stages: the auxiliary deployments of all, then the deployments with a clean result. */
  ghost predicate BothStages(deployments: Deployments, left: Deployments, start: Snapshot, middle: Snapshot,
                             end: Snapshot, outside: Outside, after: Outside, scope: set<string>,
                             auxResults: map<string, AuxResult>, toDelete: seq<string>,
                             deleteResults: map<string, bool>, good: bool) {
    && AuxDone(start, middle, scope, auxResults, toDelete, good)
    && deleteResults.Keys <= Elements(toDelete)
    && outside.containers == start.containers && outside.volumes == start.engineVolumes
    && after.containers == end.containers && after.volumes == end.engineVolumes
    && Swept(deployments, left, Between(outside, middle), after, deleteResults, deleteResults.Keys)
    && (good ==>
          && AllDeleted(deleteResults, Elements(toDelete))
          && end.rows == RowsNotIn(middle.rows, Elements(toDelete)))
  }

  ghost predicate InOrder(deployments: Deployments, left: Deployments, start: Snapshot, end: Snapshot, outside: Outside,
                          after: Outside, scope: set<string>, auxResults: map<string, AuxResult>, toDelete: seq<string>,
                          deleteResults: map<string, bool>, good: bool) {
    exists middle ::
      BothStages(deployments, left, start, middle, end, outside, after, scope, auxResults, toDelete, deleteResults,
                 good)
  }

  lemma CleanAtLast(deployments: Deployments, left: Deployments, between: Outside, after: Outside, scope: set<string>,
                    auxResults: map<string, AuxResult>, toDelete: seq<string>, deleteResults: map<string, bool>)
    requires Swept(deployments, left, between, after, deleteResults, deleteResults.Keys)
    requires Tallied(auxResults, toDelete, scope) && deleteResults.Keys <= Elements(toDelete)
    ensures OnlyClean(deployments, left, after, scope, auxResults)
  {
    forall id | id in deployments && id !in left ensures id in toDelete {
      assert id in deleteResults;
    }
  }

  /** First the auxiliary deployments, then the deployments: together they lose what belongs to the
      deployments. */
  lemma LostAtLast(deployments: Deployments, start: Snapshot, middle: Snapshot, outside: Outside, between: Outside,
                   after: Outside, scope: set<string>, deleted: set<string>, good: bool)
    requires AuxProgress(start, middle, scope, good)
    requires outside ==
               Outside(start.containers, start.engineVolumes, outside.secretMounts, outside.dirs, outside.endpoints)
    requires between == outside.(containers := middle.containers, volumes := middle.engineVolumes)
    requires LostOnlyOwn(deployments, between, after, deleted) && deleted <= scope
    ensures OutsideLostOnly(deployments, start, outside, after, scope)
  {
    OwnMore(deployments, deployments, deleted, scope);
  }

  /** The deployments are gone. If each had auxiliary deployments, nothing of them is left in the
      engine; in any case `AuxRowsAfter` says which rows are left. */
  ghost predicate AllDone(before: Snapshot, after: Snapshot, deployments: Deployments, left: Deployments,
                          scope: set<string>) {
    && left.Keys == deployments.Keys - scope
    && after.rows == AuxRowsAfter(before.rows, scope)
    && (AllHaveRows(before.rows, scope) ==> AllLost(before, after, scope))
  }

  /** No auxiliary deployment of a deleted deployment is left for the cascade. */
  lemma NothingLeft(rows: Rows, current: Rows, gone: set<string>)
    ensures current == AuxRowsAfter(rows, gone) ==> RowsNotIn(current, gone) == current
  {
  }

  lemma AllDoneAtLast(start: Snapshot, middle: Snapshot, after: Snapshot, deployments: Deployments, left: Deployments,
                      scope: set<string>, toDelete: seq<string>, deleteResults: map<string, bool>, good: bool)
    requires scope <= deployments.Keys && AuxProgress(start, middle, scope, good)
    requires left == WithoutDeleted(deployments, deleteResults) && deleteResults.Keys <= Elements(toDelete)
    requires IsPart(after.containers, middle.containers) && after.engineVolumes <= middle.engineVolumes
    requires good ==>
               && Elements(toDelete) == scope && AllDeleted(deleteResults, scope)
               && after.rows == RowsNotIn(middle.rows, scope)
    ensures good ==> AllDone(start, after, deployments, left, scope)
  {
    if good {
      NothingLeft(start.rows, middle.rows, scope);
      assert forall id :: id in left <==> id in deployments && id !in scope;
    }
  }

  lemma Outcome(deployments: Deployments, left: Deployments, start: Snapshot, end: Snapshot, outside: Outside,
                after: Outside, scope: set<string>, auxResults: map<string, AuxResult>, toDelete: seq<string>,
                deleteResults: map<string, bool>, good: bool)
    requires InOrder(deployments, left, start, end, outside, after, scope, auxResults, toDelete, deleteResults, good)
    requires scope <= deployments.Keys
    ensures OnlyClean(deployments, left, after, scope, auxResults)
    ensures OutsideLostOnly(deployments, start, outside, after, scope)
    ensures good ==> AllDone(start, end, deployments, left, scope)
  {
    var middle :|
      BothStages(deployments, left, start, middle, end, outside, after, scope, auxResults, toDelete, deleteResults,
                 good);
    TalliedAll(auxResults, toDelete, scope);
    var between := Between(outside, middle);
    CleanAtLast(deployments, left, between, after, scope, auxResults, toDelete, deleteResults);
    LostAtLast(deployments, start, middle, outside, between, after, scope, deleteResults.Keys, good);
    AllDoneAtLast(start, middle, end, deployments, left, scope, toDelete, deleteResults, good);
  }

  function ResultOf(id: string, deployments: Deployments, deleteResults: map<string, bool>): DeleteResult
    requires id in deployments
  {
    DeleteResult(deployments[id].moduleId, id, id in deleteResults && deleteResults[id])
  }

  method Report(scope: set<string>, deployments: Deployments, deleteResults: map<string, bool>)
    returns (results: seq<DeleteResult>)
    requires scope <= deployments.Keys
    ensures |results| == |scope|
    ensures forall id | id in scope :: ResultOf(id, deployments, deleteResults) in results
    ensures forall r | r in results :: r.id in scope && r == ResultOf(r.id, deployments, deleteResults)
  {
    results := [];
    var todo := scope;
    while todo != {}
      invariant todo <= scope && |results| == |scope| - |todo|
      invariant forall id | id in scope && id !in todo :: ResultOf(id, deployments, deleteResults) in results
      invariant forall r | r in results :: r.id in scope && r == ResultOf(r.id, deployments, deleteResults)
    {
      var id :| id in todo;
      todo := todo - {id};
      results := results + [ResultOf(id, deployments, deleteResults)];
    }
  }

  /** One result for each deployment that was asked for: good if it is gone, bad if it is still there. */
  ghost predicate IsReport(results: seq<DeleteResult>, scope: set<string>, before: Deployments, after: Deployments) {
    && |results| == |scope|
    && (forall id | id in scope :: id in before && DeleteResult(before[id].moduleId, id, id !in after) in results)
    && (forall r | r in results :: r.id in scope)
  }

  lemma ReportIsTrue(scope: set<string>, before: Deployments, after: Deployments, deleteResults: map<string, bool>,
                     results: seq<DeleteResult>)
    requires scope <= before.Keys && after == WithoutDeleted(before, deleteResults) && |results| == |scope|
    requires forall id | id in scope :: ResultOf(id, before, deleteResults) in results
    requires forall r | r in results :: r.id in scope
    ensures IsReport(results, scope, before, after)
  {
    forall id | id in scope ensures DeleteResult(before[id].moduleId, id, id !in after) in results {
      assert id !in after <==> id in deleteResults && deleteResults[id];
      assert ResultOf(id, before, deleteResults) in results;
    }
  }

  class Service {
    const env: Environment
    const aux: AuxDelete.Handler
    const own: DeploymentRemoval.Handler

    ghost predicate Valid()
      reads own, aux
    {
      own.aux == aux && own.env == env && own.Valid()
    }

    constructor (own: DeploymentRemoval.Handler)
      requires own.Valid()
      ensures Valid() && this.own == own
    {
      this.env, this.aux, this.own := own.env, own.aux, own;
    }

    ghost function Scope(moduleIds: seq<string>): set<string>
      reads own
    {
      set id | id in own.deployments && (moduleIds == [] || own.deployments[id].moduleId in moduleIds)
    }

    ghost function Remaining(scope: set<string>): set<string>
      reads own
    {
      set id | id in scope && id in own.deployments
    }

    ghost function Now(): Snapshot
      reads aux
    {
      Snapshot(aux.rows, aux.volumes, aux.containers, aux.engineVolumes)
    }

    method DeleteAllContainers(deploymentId: string) returns (results: seq<BatchResult>, ok: bool)
      requires Valid() && deploymentId in own.deployments
      modifies aux`rows, aux`labels, aux`mounts, aux`containers, env
      ensures Valid()
      ensures LostOnly(old(Now()), Now(), {deploymentId})
      ensures ok && AllOk(results) ==> ContainersOf(old(aux.rows), {deploymentId}) !! aux.containers.Keys
      ensures env.Since(old(env.failures))
      ensures env.failures == old(env.failures) ==>
                && ok && AllOk(results)
                && aux.rows == RowsAfter(old(aux.rows), RowsOf(old(aux.rows), deploymentId))
    {
      ghost var before, selected := Now(), aux.SelectedRows(deploymentId, NO_FILTER, "");
      NoFilterSelects(aux.rows, aux.labels, aux.containers, deploymentId);
      ghost var own := aux.SelectedIds(deploymentId, NO_FILTER, "");
      assert own == RowsOf(aux.rows, deploymentId);
      ghost var removed;
      results, ok, removed := aux.DeleteDeployments(deploymentId, NO_FILTER, "", true);
      ContainersLost(before, Now(), deploymentId, selected, removed);
      if ok && AllOk(results) {
        AllReported(results, own, removed);
      }
      if env.failures == old(env.failures) {
        AllAreOk(results, own);
      }
    }

    method DeleteAllVolumes(deploymentId: string) returns (results: seq<BatchResult>, ok: bool)
      requires Valid() && deploymentId in own.deployments
      modifies aux`volumes, aux`mounts, aux`engineVolumes, env
      ensures Valid()
      ensures LostOnly(old(Now()), Now(), {deploymentId})
      ensures ok && AllOk(results) ==> VolumesOf(old(aux.volumes), {deploymentId}) !! aux.engineVolumes
      ensures env.reliable && old(Materialised(aux.volumes, aux.engineVolumes)) ==>
                ok && AllOk(results) && Materialised(aux.volumes, aux.engineVolumes)
      ensures env.Since(old(env.failures))
      ensures env.failures == old(env.failures) && OwnMaterialised(old(Now()), deploymentId) ==> ok && AllOk(results)
    {
      ghost var before := Now();
      ghost var found, removed;
      results, ok, found, removed := aux.DeleteVolumes(deploymentId, [], true);
      VolumesLost(before, Now(), deploymentId, found, removed, results, ok, env.reliable);
      if env.failures == old(env.failures) && OwnMaterialised(before, deploymentId) {
        AllFoundExist(before, deploymentId, found);
        AllAreOk(results, found.Keys);
      }
    }

    /** A clean result means that nothing of the deployment is left in the engine; whatever fails,
        nothing of another one is lost there. */
    method DeleteAuxDeployments(deploymentId: string) returns (r: AuxResult)
      requires Valid() && deploymentId in own.deployments
      modifies aux, env
      ensures Valid()
      ensures AuxGone(old(Now()), Now(), deploymentId, env.reliable)
      ensures Clean(r) ==> AllLost(old(Now()), Now(), {deploymentId})
      ensures env.reliable && old(Materialised(aux.volumes, aux.engineVolumes)) ==> Clean(r)
      ensures env.Since(old(env.failures))
      ensures env.failures == old(env.failures) && OwnMaterialised(old(Now()), deploymentId) ==> Clean(r)
    {
      ghost var before := Now();
      var results, ok := DeleteAllContainers(deploymentId);
      if !ok {
        return AuxResult(results, [], false);
      }
      ghost var middle := Now();
      var volumeResults, volumesOk := DeleteAllVolumes(deploymentId);
      LostOneMore(before, middle, Now(), {deploymentId}, deploymentId);
      assert {deploymentId} + {deploymentId} == {deploymentId};
      r := AuxResult(results, volumeResults, volumesOk);
      assert VolumesOf(middle.volumes, {deploymentId}) == VolumesOf(before.volumes, {deploymentId});
    }

    method DeleteNextAux(ghost start: Snapshot, ghost good: bool, ghost done: set<string>, id: string,
                         auxResults: map<string, AuxResult>, toDelete: seq<string>)
      returns (auxResults': map<string, AuxResult>, toDelete': seq<string>)
      requires Valid() && id in own.deployments && id !in done && (good ==> env.reliable)
      requires AuxIsDone(start, Now(), done, auxResults, toDelete, good) && auxResults.Keys == done
      modifies aux, env
      ensures Valid() && auxResults'.Keys == done + {id}
      ensures AuxIsDone(start, Now(), done + {id}, auxResults', toDelete', good)
      ensures env.Since(old(env.failures))
      ensures Materialised(start.volumes, start.engineVolumes) ==>
                |Unclean(auxResults')| <= |Unclean(auxResults)| + env.failures - old(env.failures)
    {
      if Materialised(start.volumes, start.engineVolumes) {
        OwnStayMaterialised(start, Now(), done, auxResults, toDelete, good, id);
      }
      var r := DeleteAuxDeployments(id);
      AuxDoneOneMore(start, old(Now()), Now(), done, auxResults, toDelete, id, r, good);
      UncleanOneMore(auxResults, id, r);
      auxResults' := auxResults[id := r];
      toDelete' := if Clean(r) then toDelete + [id] else toDelete;
    }

    /** First the auxiliary deployments of each, in any order. */
    method DeleteAllAux(scope: set<string>) returns (auxResults: map<string, AuxResult>, toDelete: seq<string>)
      requires Valid() && scope <= own.deployments.Keys
      modifies aux, env
      ensures Valid()
      ensures AuxIsDone(old(Now()), Now(), scope, auxResults, toDelete,
                        env.reliable && old(Materialised(aux.volumes, aux.engineVolumes)))
      ensures env.Since(old(env.failures))
      ensures old(Materialised(aux.volumes, aux.engineVolumes)) ==>
                |Unclean(auxResults)| <= env.failures - old(env.failures)
    {
      auxResults, toDelete := map[], [];
      assert Unclean(auxResults) == {};
      var todo := scope;
      ghost var start, good := Now(), env.reliable && Materialised(aux.volumes, aux.engineVolumes);
      AuxStart(start, good);
      assert scope - todo == {};
      while todo != {}
        invariant Valid() && todo <= scope && auxResults.Keys == scope - todo && env.Since(old(env.failures))
        invariant Materialised(start.volumes, start.engineVolumes) ==>
                    |Unclean(auxResults)| <= env.failures - old(env.failures)
        invariant AuxIsDone(start, Now(), scope - todo, auxResults, toDelete, good)
      {
        var id :| id in todo;
        DoneOneMore(scope, todo, id);
        auxResults, toDelete := DeleteNextAux(start, good, scope - todo, id, auxResults, toDelete);
        todo := todo - {id};
      }
      assert scope - todo == scope;
    }

    method DeleteInOrder(scope: set<string>)
      returns (auxResults: map<string, AuxResult>, deleteResults: map<string, bool>, ok: bool,
               ghost toDelete: seq<string>)
      requires Valid() && scope <= own.deployments.Keys
      modifies own, aux, env
      ensures Valid()
      ensures own.deployments == WithoutDeleted(old(own.deployments), deleteResults)
      ensures InOrder(old(own.deployments), own.deployments, old(Now()), Now(), old(own.Now()), own.Now(), scope,
                      auxResults, toDelete, deleteResults,
                      env.reliable && old(Materialised(aux.volumes, aux.engineVolumes)))
      ensures env.Since(old(env.failures)) && (!ok ==> env.failures > old(env.failures))
      ensures ok && old(Materialised(aux.volumes, aux.engineVolumes)) ==>
                |Remaining(scope)| <= env.failures - old(env.failures)
    {
      ghost var start, outside, good := Now(), own.Now(), env.reliable && Materialised(aux.volumes, aux.engineVolumes);
      var selected;
      auxResults, selected := DeleteAllAux(scope);
      toDelete := selected;
      ghost var middle := Now();
      ghost var f1 := env.failures - old(env.failures);
      deleteResults, ok := own.DeleteByIds(selected);
      if ok && Materialised(start.volumes, start.engineVolumes) {
        RemainingAreFew(start, middle, scope, auxResults, selected, good, deleteResults, Remaining(scope), f1,
                        env.failures - old(env.failures) - f1);
      }
      assert BothStages(old(own.deployments), own.deployments, start, middle, Now(), outside, own.Now(), scope,
                        auxResults, toDelete, deleteResults, good);
    }

    method DeleteBoth(scope: set<string>)
      returns (auxResults: map<string, AuxResult>, deleteResults: map<string, bool>, ok: bool)
      requires Valid() && scope <= own.deployments.Keys
      modifies own, aux, env
      ensures Valid()
      ensures own.deployments == WithoutDeleted(old(own.deployments), deleteResults)
      ensures OnlyClean(old(own.deployments), own.deployments, own.Now(), scope, auxResults)
      ensures OutsideLostOnly(old(own.deployments), old(Now()), old(own.Now()), own.Now(), scope)
      ensures env.Since(old(env.failures)) && (!ok ==> env.failures > old(env.failures))
      ensures ok && old(Materialised(aux.volumes, aux.engineVolumes)) ==>
                |Remaining(scope)| <= env.failures - old(env.failures)
      ensures env.reliable && old(Materialised(aux.volumes, aux.engineVolumes)) ==>
                ok && AllDone(old(Now()), Now(), old(own.deployments), own.deployments, scope)
    {
      ghost var start, outside, good := Now(), own.Now(), env.reliable && Materialised(aux.volumes, aux.engineVolumes);
      ghost var deployments := own.deployments;
      ghost var toDelete;
      auxResults, deleteResults, ok, toDelete := DeleteInOrder(scope);
      Outcome(deployments, own.deployments, start, Now(), outside, own.Now(), scope, auxResults, toDelete,
              deleteResults, good);
    }

    method DeleteScope(scope: set<string>)
      returns (results: seq<DeleteResult>, auxResults: map<string, AuxResult>, ok: bool)
      requires Valid() && scope <= own.deployments.Keys
      modifies own, aux, env
      ensures Valid()
      ensures IsReport(results, scope, old(own.deployments), own.deployments)
      ensures OnlyClean(old(own.deployments), own.deployments, own.Now(), scope, auxResults)
      ensures OutsideLostOnly(old(own.deployments), old(Now()), old(own.Now()), own.Now(), scope)
      ensures env.Since(old(env.failures)) && (!ok ==> env.failures > old(env.failures))
      ensures ok && old(Materialised(aux.volumes, aux.engineVolumes)) ==>
                |Remaining(scope)| <= env.failures - old(env.failures)
      ensures env.reliable && old(Materialised(aux.volumes, aux.engineVolumes)) ==>
                ok && AllDone(old(Now()), Now(), old(own.deployments), own.deployments, scope)
    {
      var deployments := own.deployments;
      var deleteResults;
      auxResults, deleteResults, ok := DeleteBoth(scope);
      results := Report(scope, deployments, deleteResults);
      ReportIsTrue(scope, deployments, own.deployments, deleteResults, results);
    }

    /** A deployment goes only if its auxiliary deployments and volumes went without any error, and
        then nothing it had is left outside the database. The job reports exactly which ones went, and
        whatever fails, nothing of any other deployment is lost. */
    method DeleteDeployments(moduleIds: seq<string>, allowAll: bool)
      returns (results: seq<DeleteResult>, auxResults: map<string, AuxResult>, ok: bool)
      requires Valid()
      modifies own, aux, env
      ensures Valid()
      ensures !allowAll && moduleIds == [] ==> unchanged(own) && unchanged(aux) && results == [] && ok
      ensures (ok || results != []) && (allowAll || moduleIds != []) ==>
                IsReport(results, old(Scope(moduleIds)), old(own.deployments), own.deployments)
      ensures OnlyClean(old(own.deployments), own.deployments, own.Now(), old(Scope(moduleIds)), auxResults)
      ensures OutsideLostOnly(old(own.deployments), old(Now()), old(own.Now()), own.Now(), old(Scope(moduleIds)))
      ensures env.Since(old(env.failures)) && (!ok ==> env.failures > old(env.failures))
      // no more deployments are still there than calls failed
      ensures ok && (allowAll || moduleIds != []) && old(Materialised(aux.volumes, aux.engineVolumes)) ==>
                |Remaining(old(Scope(moduleIds)))| <= env.failures - old(env.failures)
      ensures env.reliable && (allowAll || moduleIds != []) && old(Materialised(aux.volumes, aux.engineVolumes)) ==>
                ok && AllDone(old(Now()), Now(), old(own.deployments), own.deployments, old(Scope(moduleIds)))
    {
      results, auxResults, ok := [], map[], true;
      NothingLost(own.deployments, Now(), own.Now(), Scope(moduleIds), auxResults);
      if !allowAll && |moduleIds| == 0 {
        return;
      }
      var failed := env.Attempt();
      if failed {
        ok := false;
        return;
      }
      var scope := set id | id in own.deployments && (moduleIds == [] || own.deployments[id].moduleId in moduleIds);
      results, auxResults, ok := DeleteScope(scope);
    }
  }
}
