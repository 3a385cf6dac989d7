/** Deleting auxiliary deployments and their volumes
    (pkg/components/handler/aux_deployments/delete.go, volumes.go and
    pkg/components/handler/database/aux_deployments_delete.go). The database is told which rows to
    delete by a list of ids, and no id means no condition. */
module AuxDelete {
  import opened Prelude
  import opened SubSelects
  import opened FilterText
  import opened FilterCompiler

  type Rows = map<string, AuxDeployment>

  /** Volumes are unique in deployment and reference. */
  datatype VolumeKey = VolumeKey(depId: string, reference: string)

  datatype Mount = Mount(volume: VolumeKey, auxDepId: string, path: string)

  type Volumes = map<VolumeKey, string>

  // ----- The delete statements -----

  /** The rows a clause selects. */
  ghost function Affected(text: string, val: seq<Arg>, labels: set<LabelRow>, rows: Rows): set<string> {
    set id | id in rows && Selects(text, val, labels, AuxRow(rows[id]))
  }

  /** What is left of the rows after those with the `deleted` ids were to be deleted. */
  ghost function RowsAfter(rows: Rows, deleted: set<string>): Rows {
    map id | id in rows && deleted != {} && id !in deleted :: rows[id]
  }

  /** Exactly the deleted ones are gone, unless there are none: then all rows are gone, whatever
      deployment they belong to. */
  lemma NothingDeletedDeletesAll(rows: Rows, deleted: set<string>)
    ensures RowsAfter(rows, deleted) == rows - deleted <==> deleted != {} || rows == map[]
  {
    assert deleted == {} ==> rows - deleted == rows;
    if deleted != {} {
      assert RowsAfter(rows, deleted) == rows - deleted;
    }
  }

  predicate InScope(key: VolumeKey, deploymentId: string) {
    deploymentId != "" ==> key.depId == deploymentId
  }

  function VolumeRow(key: VolumeKey, name: string): (row: Row) {
    map[DepId := Text(key.depId), Ref := Text(key.reference), Name := Text(name)]
  }

  ghost function AffectedVolumes(text: string, val: seq<Arg>, volumes: Volumes): set<VolumeKey> {
    set key | key in volumes && Selects(text, val, {}, VolumeRow(key, volumes[key]))
  }

  ghost function VolumesAfter(volumes: Volumes, deploymentId: string, deleted: set<string>): Volumes {
    map key |
      key in volumes && !(InScope(key, deploymentId) && (deleted == {} || key.reference in deleted)) :: volumes[key]
  }

  /** The same for volumes, where the list is confined to one deployment. */
  lemma NoVolumeDeletedDeletesAll(volumes: Volumes, deploymentId: string, deleted: set<string>)
    ensures (forall key | key in volumes :: key in VolumesAfter(volumes, deploymentId, deleted) <==>
               !(InScope(key, deploymentId) && key.reference in deleted))
            <==> deleted != {} || forall key | key in volumes :: !InScope(key, deploymentId)
  {
    if deleted == {} {
      assert forall key | key in volumes :: key in VolumesAfter(volumes, deploymentId, deleted) <==>
               !InScope(key, deploymentId);
    }
  }

  lemma AffectedByIds(text: string, val: seq<Arg>, labels: set<LabelRow>, rows: Rows, ids: seq<string>,
                      affected: set<string>)
    requires forall ls, d :: Selects(text, val, ls, AuxRow(d)) <==> ids == [] || d.id in ids
    requires forall id | id in rows :: rows[id].id == id
    requires affected == set id | id in rows && (ids == [] || id in ids)
    ensures affected == Affected(text, val, labels, rows)
  {
    forall id | id in rows ensures id in affected <==> Selects(text, val, labels, AuxRow(rows[id])) {
    }
  }

  /** The table takes the statement with this clause. */
  ghost predicate FitsTable(text: string, val: seq<Arg>, columns: set<Col>) {
    exists t :: t == text && Accepted(t, val, columns)
  }

  lemma RowsWithout(rows: Rows, ids: seq<string>, affected: set<string>)
    requires affected == set id | id in rows && (ids == [] || id in ids)
    ensures rows - affected == RowsAfter(rows, Elements(ids))
  {
    EmptyElements(ids);
  }

  /** The clause for these ids, and the rows it selects. */
  method ClauseForIds(ids: seq<string>, ghost labels: set<LabelRow>, rows: Rows)
    returns (text: string, val: seq<Arg>, affected: set<string>)
    requires forall id | id in rows :: rows[id].id == id
    ensures FitsTable(text, val, AUX_COLUMNS)
    ensures affected == Affected(text, val, labels, rows)
    ensures affected == set id | id in rows && (ids == [] || id in ids)
  {
    text, val := GenAuxiliaryDeploymentsIdsFilter(ids);
    affected := set id | id in rows && (ids == [] || id in ids);
    AffectedByIds(text, val, labels, rows, ids, affected);
  }

  predicate Wanted(key: VolumeKey, deploymentId: string, references: seq<string>) {
    InScope(key, deploymentId) && (references == [] || key.reference in references)
  }

  lemma VolumeRowMeaning(deploymentId: string, references: seq<string>, key: VolumeKey, name: string)
    ensures TextIs(deploymentId, VolumeRow(key, name), DepId) && InList(references, VolumeRow(key, name), Ref) <==>
              Wanted(key, deploymentId, references)
  {
    var row := VolumeRow(key, name);
    assert row[DepId] == Text(key.depId) && row[Ref] == Text(key.reference);
  }

  lemma AffectedByReferences(text: string, val: seq<Arg>, volumes: Volumes, deploymentId: string,
                             references: seq<string>, affected: set<VolumeKey>)
    requires forall labels, row :: Selects(text, val, labels, row) <==>
               TextIs(deploymentId, row, DepId) && InList(references, row, Ref)
    requires affected == set key | key in volumes && Wanted(key, deploymentId, references)
    ensures affected == AffectedVolumes(text, val, volumes)
  {
    forall key | key in volumes
      ensures key in affected <==> Selects(text, val, {}, VolumeRow(key, volumes[key]))
    {
      VolumeRowMeaning(deploymentId, references, key, volumes[key]);
    }
  }

  lemma VolumesWithout(volumes: Volumes, deploymentId: string, references: seq<string>, affected: set<VolumeKey>)
    requires affected == set key | key in volumes && Wanted(key, deploymentId, references)
    ensures volumes - affected == VolumesAfter(volumes, deploymentId, Elements(references))
  {
    EmptyElements(references);
  }

  /** The clause for these references, and the rows it selects. */
  method ClauseForReferences(deploymentId: string, references: seq<string>, volumes: Volumes)
    returns (text: string, val: seq<Arg>, affected: set<VolumeKey>)
    ensures FitsTable(text, val, VOLUME_COLUMNS)
    ensures affected == AffectedVolumes(text, val, volumes)
    ensures affected == set key | key in volumes && Wanted(key, deploymentId, references)
  {
    text, val := GenAuxiliaryDeploymentVolumesFilter(deploymentId, references);
    affected := set key | key in volumes && Wanted(key, deploymentId, references);
    AffectedByReferences(text, val, volumes, deploymentId, references, affected);
  }

  // ----- The handler -----

  datatype BatchResult = BatchResult(id: string, ok: bool)

  /** One result for each of `ids`, good exactly for those in `done`. */
  ghost predicate Reports(results: seq<BatchResult>, ids: set<string>, done: set<string>) {
    && done <= ids
    && |results| == |ids|
    && (forall id :: id in ids <==> BatchResult(id, id in done) in results)
    && (forall r | r in results :: r.id in ids && r.ok == (r.id in done))
  }

  lemma ReportsOneMore(results: seq<BatchResult>, ids: set<string>, done: set<string>, id: string, ok: bool)
    requires Reports(results, ids, done) && id !in ids
    ensures Reports(results + [BatchResult(id, ok)], ids + {id}, if ok then done + {id} else done)
  {
    var more, after := results + [BatchResult(id, ok)], if ok then done + {id} else done;
    assert BatchResult(id, ok) in more;
    forall x ensures x in ids + {id} <==> BatchResult(x, x in after) in more {
      if x in ids {
        assert BatchResult(x, x in done) in results;
      }
    }
  }

  /** The filter together with a container state. */
  predicate FilterEmpty(filter: AuxFilter, state: string) {
    state == "" && filter == AuxFilter(map[], [], 0, 0, "")
  }

  predicate InState(state: string, containers: map<string, string>, d: AuxDeployment) {
    state != "" ==> d.container in containers && containers[d.container] == state
  }

  predicate Selected(deploymentId: string, filter: AuxFilter, state: string, labels: set<LabelRow>,
                     containers: map<string, string>, d: AuxDeployment) {
    AuxMatches(deploymentId, filter, labels, d) && InState(state, containers, d)
  }

  ghost function SelectedOf(deploymentId: string, filter: AuxFilter, state: string, labels: set<LabelRow>,
                            containers: map<string, string>, rows: Rows): Rows {
    map id | id in rows && Selected(deploymentId, filter, state, labels, containers, rows[id]) :: rows[id]
  }

  lemma SelectedInSteps(deploymentId: string, filter: AuxFilter, state: string, labels: set<LabelRow>,
                        containers: map<string, string>, rows: Rows, read: Rows)
    requires read == map id | id in rows && AuxMatches(deploymentId, filter, labels, rows[id]) :: rows[id]
    ensures (map id | id in read && InState(state, containers, read[id]) :: read[id]) ==
            SelectedOf(deploymentId, filter, state, labels, containers, rows)
  {
  }

  lemma EmptyFilterSelectsAll(deploymentId: string, filter: AuxFilter, state: string, labels: set<LabelRow>,
                              containers: map<string, string>, d: AuxDeployment)
    requires FilterEmpty(filter, state)
    ensures Selected(deploymentId, filter, state, labels, containers, d) <==>
              (deploymentId != "" ==> d.depId == deploymentId)
  {
  }

  /** Every volume row has its volume in the engine, and no two have the same. */
  ghost predicate Materialised(volumes: Volumes, engineVolumes: set<string>) {
    && (forall key | key in volumes :: volumes[key] in engineVolumes)
    && (forall a, b | a in volumes && b in volumes && volumes[a] == volumes[b] :: a == b)
  }

  ghost predicate Injective(found: map<string, string>) {
    forall a, b | a in found && b in found && found[a] == found[b] :: a == b
  }

  ghost function Existing(found: map<string, string>, engineVolumes: set<string>): set<string> {
    set ref | ref in found && found[ref] in engineVolumes
  }

  ghost predicate IsFound(volumes: Volumes, deploymentId: string, references: seq<string>, found: map<string, string>) {
    && (forall ref :: ref in found <==>
          exists key :: key in volumes && key.reference == ref && Wanted(key, deploymentId, references))
    && (forall ref | ref in found ::
          exists key ::
            && key in volumes && key.reference == ref && Wanted(key, deploymentId, references)
            && found[ref] == volumes[key])
  }

  /** A name of a volume that was dealt with. */
  ghost predicate NameOf(found: map<string, string>, todo: set<string>, name: string) {
    exists ref :: ref in found && ref !in todo && found[ref] == name
  }

  /** What should be gone and is still there. */
  ghost function StillThere(now: set<string>, found: map<string, string>, todo: set<string>): set<string> {
    set ref | ref in found && ref !in todo && found[ref] in now
  }

  ghost predicate EngineProgress(before: set<string>, now: set<string>, found: map<string, string>, todo: set<string>,
                                 deleted: set<string>, failures: nat) {
    && now <= before
    && (forall name | name in before && name !in now :: NameOf(found, todo, name))
    && (forall ref | ref in deleted :: ref in found && found[ref] !in now)
    && |StillThere(now, found, todo)| <= failures
    && (failures == 0 && Injective(found) ==> forall ref | ref in found && ref !in todo ::
          ref in deleted <==> found[ref] in before)
  }

  ghost predicate VolumeProgress(before: set<string>, now: set<string>, found: map<string, string>, todo: set<string>,
                                 results: seq<BatchResult>, deleted: seq<string>, failures: nat) {
    && todo <= found.Keys
    && Reports(results, found.Keys - todo, Elements(deleted))
    && EngineProgress(before, now, found, todo, Elements(deleted), failures)
  }

  lemma StillThereOneMore(now: set<string>, after: set<string>, found: map<string, string>, todo: set<string>,
                          ref: string)
    requires ref in todo && ref in found && after <= now
    ensures |StillThere(after, found, todo - {ref})| <=
            |StillThere(now, found, todo)| + if found[ref] in after then 1 else 0
  {
    var left, more := StillThere(now, found, todo), StillThere(after, found, todo - {ref});
    if found[ref] in after {
      assert more <= left + {ref};
      SubsetCardinality(more, left + {ref});
    } else {
      assert more <= left;
      SubsetCardinality(more, left);
    }
  }

  lemma EngineOneMore(before: set<string>, now: set<string>, after: set<string>, found: map<string, string>,
                      todo: set<string>, deleted: set<string>, failures: nat, ref: string, ok: bool, failed: bool)
    requires EngineProgress(before, now, found, todo, deleted, failures) && ref in todo && ref in found
    requires ref !in deleted
    requires after == now || after == now - {found[ref]}
    requires ok ==> found[ref] in now && found[ref] !in after
    requires !failed ==> (ok <==> found[ref] in now) && after == now - {found[ref]}
    ensures EngineProgress(before, after, found, todo - {ref}, if ok then deleted + {ref} else deleted,
                           if failed then failures + 1 else failures)
  {
    forall name | name in before && name !in after ensures NameOf(found, todo - {ref}, name) {
      if name !in now {
        assert NameOf(found, todo, name);
      }
    }
    if found[ref] in before && found[ref] !in now {
      assert NameOf(found, todo, found[ref]);
    }
    StillThereOneMore(now, after, found, todo, ref);
  }

  lemma OneMoreVolume(before: set<string>, now: set<string>, after: set<string>, found: map<string, string>,
                      todo: set<string>, results: seq<BatchResult>, deleted: seq<string>, failures: nat, ref: string,
                      ok: bool, failed: bool)
    requires VolumeProgress(before, now, found, todo, results, deleted, failures) && ref in todo
    requires after == now || after == now - {found[ref]}
    requires ok ==> found[ref] in now && found[ref] !in after
    requires !failed ==> (ok <==> found[ref] in now) && after == now - {found[ref]}
    ensures VolumeProgress(before, after, found, todo - {ref}, results + [BatchResult(ref, ok)],
                           if ok then deleted + [ref] else deleted, if failed then failures + 1 else failures)
  {
    assert ref !in Elements(deleted);
    EngineOneMore(before, now, after, found, todo, Elements(deleted), failures, ref, ok, failed);
    ReportsOneMore(results, found.Keys - todo, Elements(deleted), ref, ok);
    DoneOneMore(found.Keys, todo, ref);
    ElementsOneMore(deleted, ref);
  }

  lemma FinishVolumes(before: set<string>, now: set<string>, found: map<string, string>, results: seq<BatchResult>,
                      deleted: seq<string>, failures: nat)
    requires VolumeProgress(before, now, found, {}, results, deleted, failures)
    ensures Reports(results, found.Keys, Elements(deleted)) && now <= before && before - now <= found.Values
    ensures forall ref | ref in Elements(deleted) :: found[ref] !in now
    ensures |StillThere(now, found, {})| <= failures
    ensures failures == 0 ==> now == before - found.Values
    ensures failures == 0 && Injective(found) ==> Elements(deleted) == Existing(found, before)
  {
    assert found.Keys - {} == found.Keys;
    forall name | name in before && name !in now ensures name in found.Values {
      assert NameOf(found, {}, name);
    }
    assert forall ref | ref in deleted :: ref in Elements(deleted);
    if failures == 0 {
      assert StillThere(now, found, {}) == {};
      forall ref | ref in found ensures found[ref] !in now {
        assert ref !in StillThere(now, found, {});
      }
    }
  }

  datatype WithMounts = WithMounts(key: VolumeKey, mountedBy: seq<string>)

  datatype JoinRow = JoinRow(key: VolumeKey, mount: Option<Mount>)

  predicate IsMounted(key: VolumeKey, mounts: set<Mount>) {
    exists m :: m in mounts && m.volume == key
  }

  /** A left join: a volume that is not mounted has one row without a mount. */
  function JoinRows(volumes: Volumes, mounts: set<Mount>, deploymentId: string, references: seq<string>): set<JoinRow> {
    (set m | m in mounts && m.volume in volumes && Wanted(m.volume, deploymentId, references) ::
       JoinRow(m.volume, Some(m)))
    + (set key | key in volumes && Wanted(key, deploymentId, references) && !IsMounted(key, mounts) ::
         JoinRow(key, None))
  }

  ghost predicate HasKey(rows: set<JoinRow>, key: VolumeKey) {
    exists row :: row in rows && row.key == key
  }

  ghost predicate MountsRef(rows: set<JoinRow>, ref: string, auxDepId: string) {
    exists row :: row in rows && row.key.reference == ref && row.mount.Some? && row.mount.value.auxDepId == auxDepId
  }

  ghost predicate Collected(rows: set<JoinRow>, result: map<string, WithMounts>) {
    && (forall row | row in rows :: row.key.reference in result)
    && (forall ref | ref in result :: result[ref].key.reference == ref && HasKey(rows, result[ref].key))
    && (forall row | row in rows && row.mount.Some? :: row.mount.value.auxDepId in result[row.key.reference].mountedBy)
    && (forall ref, auxDepId | ref in result && auxDepId in result[ref].mountedBy :: MountsRef(rows, ref, auxDepId))
  }

  /** Within one deployment the entry of a reference is its volume with exactly those who mount it. */
  lemma CollectedIsExact(volumes: Volumes, mounts: set<Mount>, deploymentId: string, references: seq<string>,
                         result: map<string, WithMounts>)
    requires deploymentId != "" && (forall m | m in mounts :: m.volume in volumes)
    requires Collected(JoinRows(volumes, mounts, deploymentId, references), result)
    ensures forall ref :: ref in result <==>
              VolumeKey(deploymentId, ref) in volumes && (references == [] || ref in references)
    ensures forall ref | ref in result :: result[ref].key == VolumeKey(deploymentId, ref)
    ensures forall ref, auxDepId | ref in result :: auxDepId in result[ref].mountedBy <==>
              exists m :: m in mounts && m.volume == VolumeKey(deploymentId, ref) && m.auxDepId == auxDepId
  {
    var rows := JoinRows(volumes, mounts, deploymentId, references);
    forall ref
      ensures ref in result <==> VolumeKey(deploymentId, ref) in volumes && (references == [] || ref in references)
    {
      var key := VolumeKey(deploymentId, ref);
      if key in volumes && (references == [] || ref in references) {
        if m :| m in mounts && m.volume == key {
          assert JoinRow(key, Some(m)) in rows;
        } else {
          assert JoinRow(key, None) in rows;
        }
      }
      if ref in result {
        assert HasKey(rows, result[ref].key);
      }
    }
    forall ref, auxDepId | ref in result ensures auxDepId in result[ref].mountedBy <==>
              exists m :: m in mounts && m.volume == VolumeKey(deploymentId, ref) && m.auxDepId == auxDepId {
      if auxDepId in result[ref].mountedBy {
        assert MountsRef(rows, ref, auxDepId);
      }
      if m :| m in mounts && m.volume == VolumeKey(deploymentId, ref) && m.auxDepId == auxDepId {
        assert JoinRow(m.volume, Some(m)) in rows;
      }
    }
  }

  ghost predicate IsVolumeOf(volumes: Volumes, deploymentId: string, found: map<string, string>) {
    forall ref | ref in found ::
      VolumeKey(deploymentId, ref) in volumes && found[ref] == volumes[VolumeKey(deploymentId, ref)]
  }

  lemma UnusedFound(volumes: Volumes, mounts: set<Mount>, deploymentId: string, exclude: seq<string>,
                    found: map<string, WithMounts>, unused: map<string, string>, expected: set<string>)
    requires deploymentId != "" && (forall m | m in mounts :: m.volume in volumes)
    requires Collected(JoinRows(volumes, mounts, deploymentId, []), found)
    requires unused == map ref |
               ref in found && ref !in exclude && |found[ref].mountedBy| == 0 && found[ref].key in volumes ::
                         volumes[found[ref].key]
    requires expected == set key |
               key in volumes && key.depId == deploymentId && key.reference !in exclude && !IsMounted(key, mounts) ::
               key.reference
    ensures unused.Keys == expected
    ensures IsVolumeOf(volumes, deploymentId, unused)
  {
    CollectedIsExact(volumes, mounts, deploymentId, [], found);
    forall ref ensures ref in unused <==> ref in expected {
      var key := VolumeKey(deploymentId, ref);
      if ref in found {
        HasElement(found[ref].mountedBy);
        if IsMounted(key, mounts) {
          var m :| m in mounts && m.volume == key;
          assert m.auxDepId in found[ref].mountedBy;
        }
      }
      if ref in expected {
        assert key in volumes;
      }
    }
  }

  lemma UnusedExist(volumes: Volumes, deploymentId: string, unused: map<string, string>, engineVolumes: set<string>)
    requires IsVolumeOf(volumes, deploymentId, unused)
    ensures Materialised(volumes, engineVolumes) ==> Existing(unused, engineVolumes) == unused.Keys && Injective(unused)
  {
  }

  /** The engine lost nothing but volumes of the deployment with these references. */
  ghost predicate LostOnlyNamed(volumes: Volumes, deploymentId: string, references: set<string>, before: set<string>,
                                after: set<string>) {
    forall name | name in before && name !in after :: exists ref ::
      ref in references && VolumeKey(deploymentId, ref) in volumes && volumes[VolumeKey(deploymentId, ref)] == name
  }

  lemma UnusedLost(volumes: Volumes, deploymentId: string, unused: map<string, string>, before: set<string>,
                   after: set<string>)
    requires IsVolumeOf(volumes, deploymentId, unused) && before - after <= unused.Values
    ensures LostOnlyNamed(volumes, deploymentId, unused.Keys, before, after)
  {
    forall name | name in before && name !in after ensures exists ref ::
      ref in unused.Keys && VolumeKey(deploymentId, ref) in volumes && volumes[VolumeKey(deploymentId, ref)] == name
    {
      assert name in unused.Values;
      var ref :| ref in unused && unused[ref] == name;
      assert ref in unused.Keys;
    }
  }

  lemma CollectedOneMore(rows: set<JoinRow>, result: map<string, WithMounts>, row: JoinRow)
    requires Collected(rows, result)
    ensures var ref := row.key.reference;
            var volume := if ref in result then result[ref] else WithMounts(row.key, []);
            var mountedBy :=
              if row.mount.Some? then volume.mountedBy + [row.mount.value.auxDepId] else volume.mountedBy;
            Collected(rows + {row}, result[ref := volume.(mountedBy := mountedBy)])
  {
    var ref := row.key.reference;
    var volume := if ref in result then result[ref] else WithMounts(row.key, []);
    var mountedBy := if row.mount.Some? then volume.mountedBy + [row.mount.value.auxDepId] else volume.mountedBy;
    var more, after := rows + {row}, result[ref := volume.(mountedBy := mountedBy)];
    assert row in more;
    forall r | r in after ensures HasKey(more, after[r].key) {
      if r in result {
        assert HasKey(rows, result[r].key);
        var other :| other in rows && other.key == result[r].key;
        assert other in more;
      }
    }
    forall r, auxDepId | r in after && auxDepId in after[r].mountedBy ensures MountsRef(more, r, auxDepId) {
      if r in result && auxDepId in result[r].mountedBy {
        assert MountsRef(rows, r, auxDepId);
        var other :|
          other in rows && other.key.reference == r && other.mount.Some? && other.mount.value.auxDepId == auxDepId;
        assert other in more;
      }
    }
  }

  ghost function Names(rows: Rows): set<string> {
    set id | id in rows :: rows[id].container
  }

  /** The engine lost nothing but containers of these. */
  ghost predicate OnlyRemoved(before: map<string, string>, after: map<string, string>, rows: Rows) {
    && (forall name | name in after :: name in before && after[name] == before[name])
    && (forall name | name in before :: name in after || name in Names(rows))
  }

  /** The containers of these are gone, and no others. */
  ghost predicate Removed(before: map<string, string>, after: map<string, string>, rows: Rows, deleted: set<string>) {
    && OnlyRemoved(before, after, rows)
    && forall id | id in deleted :: id in rows && rows[id].container !in after
  }

  ghost predicate Progress(before: map<string, string>, now: map<string, string>, selected: Rows, todo: set<string>,
                           results: seq<BatchResult>, deleted: seq<string>, failures: nat) {
    && todo <= selected.Keys
    && Reports(results, selected.Keys - todo, Elements(deleted))
    && Removed(before, now, selected, Elements(deleted))
    && Elements(deleted) <= selected.Keys - todo
    && |selected.Keys - todo - Elements(deleted)| <= failures
  }

  lemma Start(before: map<string, string>, selected: Rows)
    ensures Progress(before, before, selected, selected.Keys, [], [], 0)
  {
    assert selected.Keys - selected.Keys == {};
    assert selected.Keys - selected.Keys - Elements<string>([]) == {};
  }

  lemma RemovedOneMore(before: map<string, string>, current: map<string, string>, after: map<string, string>,
                       rows: Rows, deleted: set<string>, id: string)
    requires Removed(before, current, rows, deleted) && id in rows
    requires after == current || after == current - {rows[id].container}
    ensures Removed(before, after, rows, deleted)
    ensures rows[id].container !in after ==> Removed(before, after, rows, deleted + {id})
  {
    assert rows[id].container in Names(rows);
  }

  lemma LeftOneMore(all: set<string>, todo: set<string>, deleted: set<string>, id: string, ok: bool)
    requires id in todo && todo <= all && deleted <= all - todo
    ensures var after := if ok then deleted + {id} else deleted;
            && after <= all - (todo - {id})
            && |all - (todo - {id}) - after| == |all - todo - deleted| + if ok then 0 else 1
  {
    var left := all - todo - deleted;
    assert all - (todo - {id}) - deleted == left + {id};
    assert all - (todo - {id}) - (deleted + {id}) == left;
  }

  lemma OneMore(before: map<string, string>, now: map<string, string>, after: map<string, string>, selected: Rows,
                todo: set<string>, results: seq<BatchResult>, deleted: seq<string>, failures: nat, id: string,
                ok: bool)
    requires Progress(before, now, selected, todo, results, deleted, failures) && id in todo
    requires after == now || after == now - {selected[id].container}
    requires ok ==> selected[id].container !in after
    ensures Progress(before, after, selected, todo - {id}, results + [BatchResult(id, ok)],
                     if ok then deleted + [id] else deleted, if ok then failures else failures + 1)
  {
    RemovedOneMore(before, now, after, selected, Elements(deleted), id);
    ReportsOneMore(results, selected.Keys - todo, Elements(deleted), id, ok);
    DoneOneMore(selected.Keys, todo, id);
    ElementsOneMore(deleted, id);
    LeftOneMore(selected.Keys, todo, Elements(deleted), id, ok);
  }

  lemma Finish(before: map<string, string>, now: map<string, string>, selected: Rows, results: seq<BatchResult>,
               deleted: seq<string>, failures: nat)
    requires Progress(before, now, selected, {}, results, deleted, failures)
    ensures Reports(results, selected.Keys, Elements(deleted)) && Removed(before, now, selected, Elements(deleted))
    ensures Elements(deleted) <= selected.Keys && |selected.Keys - Elements(deleted)| <= failures
  {
    assert selected.Keys - {} == selected.Keys;
  }

  lemma NoneLeft(all: set<string>, removed: set<string>)
    requires removed <= all && |all - removed| == 0
    ensures removed == all
  {
    assert all - removed == {};
    assert all == removed + (all - removed);
  }

  class Handler {
    const env: Environment

    var rows: Rows
    var labels: set<LabelRow>
    var volumes: Volumes
    var mounts: set<Mount>

    /** The engine: the state of each container, and the names of the volumes. */
    var containers: map<string, string>
    var engineVolumes: set<string>

    /** Primary and foreign keys. */
    ghost predicate Valid()
      reads this
    {
      && (forall id | id in rows :: rows[id].id == id)
      && (forall l | l in labels :: l.auxDepId in rows)
      && (forall m | m in mounts :: m.volume in volumes && m.auxDepId in rows)
    }

    constructor (env: Environment)
      ensures Valid() && this.env == env
    {
      this.env := env;
      rows, labels, volumes, mounts, containers, engineVolumes := map[], {}, map[], {}, map[], {};
    }

    /** `DELETE FROM aux_deployments` with a clause the table understands: exactly the rows that the
        clause selects go, with what refers to them. */
    method DeleteWhere(text: string, val: seq<Arg>, affected: set<string>) returns (ok: bool)
      requires Valid() && FitsTable(text, val, AUX_COLUMNS)
      requires affected == Affected(text, val, labels, rows)
      modifies `rows, `labels, `mounts, env
      ensures Valid()
      ensures rows == if ok then old(rows) - affected else old(rows)
      ensures env.Since(old(env.failures)) && (!ok ==> env.failures > old(env.failures))
    {
      var failed := env.Attempt();
      ok := !failed;
      if ok {
        rows := rows - affected;
        labels := set l | l in labels && l.auxDepId in rows;
        mounts := set m | m in mounts && m.auxDepId in rows;
      }
    }

    method DeleteRows(ids: seq<string>) returns (ok: bool)
      requires Valid()
      modifies `rows, `labels, `mounts, env
      ensures Valid()
      ensures rows == if ok then RowsAfter(old(rows), Elements(ids)) else old(rows)
      ensures env.Since(old(env.failures)) && (!ok ==> env.failures > old(env.failures))
    {
      var text, val, affected := ClauseForIds(ids, labels, rows);
      RowsWithout(rows, ids, affected);
      ok := DeleteWhere(text, val, affected);
    }

    /** The database deletes what refers to a deleted deployment. */
    method DeleteParent(deploymentId: string)
      requires Valid()
      modifies `rows, `labels, `volumes, `mounts
      ensures Valid()
      ensures rows == map id | id in old(rows) && old(rows)[id].depId != deploymentId :: old(rows)[id]
      ensures volumes == map key | key in old(volumes) && key.depId != deploymentId :: old(volumes)[key]
    {
      rows := map id | id in rows && rows[id].depId != deploymentId :: rows[id];
      volumes := map key | key in volumes && key.depId != deploymentId :: volumes[key];
      labels := set l | l in labels && l.auxDepId in rows;
      mounts := set m | m in mounts && m.auxDepId in rows && m.volume in volumes;
    }

    /** A container that is gone already counts as removed; a failure may come after the fact. */
    method RemoveContainer(name: string) returns (ok: bool)
      modifies `containers, env
      ensures containers == old(containers) || containers == old(containers) - {name}
      ensures ok ==> name !in containers
      ensures env.Since(old(env.failures)) && env.failures == old(env.failures) + if ok then 0 else 1
    {
      var failed := env.Attempt();
      ok := !failed;
      var gone := *;
      if ok || gone {
        containers := containers - {name};
      }
    }

    method Query(text: string, val: seq<Arg>, affected: set<string>) returns (found: Option<Rows>)
      requires FitsTable(text, val, AUX_COLUMNS)
      requires affected == Affected(text, val, labels, rows)
      modifies env
      ensures found.Some? ==> found.value == map id | id in rows && id in affected :: rows[id]
      ensures env.Since(old(env.failures)) && (found.None? ==> env.failures > old(env.failures))
    {
      var failed := env.Attempt();
      found := if failed then None else Some(map id | id in rows && id in affected :: rows[id]);
    }

    ghost function SelectedRows(deploymentId: string, filter: AuxFilter, state: string): Rows
      reads this
    {
      SelectedOf(deploymentId, filter, state, labels, containers, rows)
    }

    /** The rows the clause of the filter selects, and of those the ones whose container is in the
        wanted state. */
    method Select(deploymentId: string, filter: AuxFilter, state: string) returns (selected: Option<Rows>)
      modifies env
      ensures selected.Some? ==> selected.value == SelectedRows(deploymentId, filter, state)
      ensures selected.Some? ==> forall id ::
                  id in selected.value <==>
                    && id in rows && AuxMatches(deploymentId, filter, labels, rows[id])
                    && (state != "" ==> rows[id].container in containers && containers[rows[id].container] == state)
      ensures env.Since(old(env.failures)) && (selected.None? ==> env.failures > old(env.failures))
    {
      var text, val := GenAuxiliaryDeploymentsFilter(deploymentId, filter);
      var matching := set id | id in rows && AuxMatches(deploymentId, filter, labels, rows[id]);
      var read := Query(text, val, matching);
      if read.None? {
        return None;
      }
      SelectedInSteps(deploymentId, filter, state, labels, containers, rows, read.value);
      return Some(map id | id in read.value && InState(state, containers, read.value[id]) :: read.value[id]);
    }

    ghost function SelectedIds(deploymentId: string, filter: AuxFilter, state: string): set<string>
      reads this
    {
      set id | id in rows && Selected(deploymentId, filter, state, labels, containers, rows[id])
    }

    method RemoveOne(ghost before: map<string, string>, selected: Rows, ghost todo: set<string>,
                     results: seq<BatchResult>, deleted: seq<string>, id: string, ghost start: nat)
      returns (results': seq<BatchResult>, deleted': seq<string>)
      requires env.Since(start) && id in todo
      requires Progress(before, containers, selected, todo, results, deleted, env.failures - start)
      modifies `containers, env
      ensures env.Since(start)
      ensures Progress(before, containers, selected, todo - {id}, results', deleted', env.failures - start)
    {
      var ok := RemoveContainer(selected[id].container);
      OneMore(before, old(containers), containers, selected, todo, results, deleted, old(env.failures) - start, id, ok);
      deleted' := if ok then deleted + [id] else deleted;
      results' := results + [BatchResult(id, ok)];
    }

    /** Whatever fails, the others are removed all the same. */
    method RemoveContainers(selected: Rows) returns (results: seq<BatchResult>, deleted: seq<string>)
      modifies `containers, env
      ensures Reports(results, selected.Keys, Elements(deleted))
      ensures Removed(old(containers), containers, selected, Elements(deleted))
      ensures env.Since(old(env.failures)) && Elements(deleted) <= selected.Keys
      ensures |selected.Keys - Elements(deleted)| <= env.failures - old(env.failures)
    {
      results, deleted := [], [];
      var todo := selected.Keys;
      Start(containers, selected);
      while todo != {}
        invariant todo <= selected.Keys && env.Since(old(env.failures))
        invariant Progress(old(containers), containers, selected, todo, results, deleted,
                           env.failures - old(env.failures))
      {
        var id :| id in todo;
        results, deleted := RemoveOne(old(containers), selected, todo, results, deleted, id, old(env.failures));
        todo := todo - {id};
      }
      Finish(old(containers), containers, selected, results, deleted, env.failures - old(env.failures));
    }

    method DeleteSelected(selected: Rows) returns (results: seq<BatchResult>, ok: bool, ghost removed: set<string>)
      requires Valid() && selected.Keys <= rows.Keys && forall id | id in selected :: selected[id] == rows[id]
      modifies `rows, `labels, `mounts, `containers, env
      ensures Valid()
      ensures Reports(results, selected.Keys, removed) && removed <= selected.Keys
      ensures rows == if ok then RowsAfter(old(rows), removed) else old(rows)
      ensures Removed(old(containers), containers, selected, removed)
      ensures env.Since(old(env.failures)) && (!ok ==> env.failures > old(env.failures))
      ensures |selected.Keys - removed| <= env.failures - old(env.failures)
    {
      var deleted;
      results, deleted := RemoveContainers(selected);
      removed := Elements(deleted);
      ok := DeleteRows(deleted);
    }

    /** Containers first, then the rows of those that are gone. */
    method DeleteDeployments(deploymentId: string, filter: AuxFilter, state: string, allowAll: bool)
      returns (results: seq<BatchResult>, ok: bool, ghost removed: set<string>)
      requires Valid()
      modifies `rows, `labels, `mounts, `containers, env
      ensures Valid()
      ensures !allowAll && state == "" && filter == AuxFilter(map[], [], 0, 0, "") ==>
                unchanged(this) && results == [] && ok
      ensures ok && (allowAll || filter != AuxFilter(map[], [], 0, 0, "") || state != "") ==>
                && Reports(results, old(SelectedIds(deploymentId, filter, state)), removed)
                && rows == RowsAfter(old(rows), removed)
                && |old(SelectedIds(deploymentId, filter, state)) - removed| <= env.failures - old(env.failures)
      ensures env.Since(old(env.failures)) && (!ok ==> rows == old(rows) && env.failures > old(env.failures))
      ensures forall id | id in removed :: id in old(rows) && old(rows)[id].container !in containers
      ensures OnlyRemoved(old(containers), containers, old(SelectedRows(deploymentId, filter, state)))
      ensures (env.failures == old(env.failures)
               && (allowAll || filter != AuxFilter(map[], [], 0, 0, "") || state != "")) ==>
                ok && removed == old(SelectedIds(deploymentId, filter, state))
    {
      removed, results, ok := {}, [], true;
      if !allowAll && FilterEmpty(filter, state) {
        return;
      }
      var selected := Select(deploymentId, filter, state);
      if selected.None? {
        ok := false;
        return;
      }
      assert selected.value.Keys == SelectedIds(deploymentId, filter, state);
      results, ok, removed := DeleteSelected(selected.value);
      if env.failures == old(env.failures) {
        NoneLeft(selected.value.Keys, removed);
      }
    }

    // ----- Volumes -----

    /** A missing volume is an error here. */
    method RemoveVolume(name: string) returns (ok: bool)
      modifies `engineVolumes, env
      ensures engineVolumes == old(engineVolumes) || engineVolumes == old(engineVolumes) - {name}
      ensures ok ==> name in old(engineVolumes) && name !in engineVolumes
      ensures env.Since(old(env.failures)) && env.failures <= old(env.failures) + 1
      ensures env.failures == old(env.failures) ==>
                (ok <==> name in old(engineVolumes)) && engineVolumes == old(engineVolumes) - {name}
    {
      var failed := env.Attempt();
      ok := !failed && name in engineVolumes;
      var gone := *;
      if ok || (failed && gone) {
        engineVolumes := engineVolumes - {name};
      }
    }

    method DeleteVolumesWhere(text: string, val: seq<Arg>, affected: set<VolumeKey>) returns (ok: bool)
      requires Valid() && FitsTable(text, val, VOLUME_COLUMNS)
      requires affected == AffectedVolumes(text, val, volumes)
      modifies `volumes, `mounts, env
      ensures Valid()
      ensures volumes == if ok then old(volumes) - affected else old(volumes)
      ensures env.Since(old(env.failures)) && (!ok ==> env.failures > old(env.failures))
    {
      var failed := env.Attempt();
      ok := !failed;
      if ok {
        volumes := volumes - affected;
        mounts := set m | m in mounts && m.volume in volumes;
      }
    }

    method DeleteVolumeRows(deploymentId: string, references: seq<string>) returns (ok: bool)
      requires Valid()
      modifies `volumes, `mounts, env
      ensures Valid()
      ensures volumes ==
                if ok then VolumesAfter(old(volumes), deploymentId, Elements(references)) else old(volumes)
      ensures env.Since(old(env.failures)) && (!ok ==> env.failures > old(env.failures))
    {
      var text, val, affected := ClauseForReferences(deploymentId, references, volumes);
      VolumesWithout(volumes, deploymentId, references, affected);
      ok := DeleteVolumesWhere(text, val, affected);
    }

    /** By reference; without a deployment id, volumes of several deployments may share one, and one
        of them is found. */
    method ReadVolumes(deploymentId: string, references: seq<string>) returns (found: Option<map<string, string>>)
      modifies env
      ensures found.Some? ==> IsFound(volumes, deploymentId, references, found.value)
      ensures env.Since(old(env.failures)) && (found.None? ==> env.failures > old(env.failures))
    {
      var failed := env.Attempt();
      if failed {
        return None;
      }
      var result: map<string, string> := map[];
      var todo := volumes.Keys;
      while todo != {}
        invariant todo <= volumes.Keys
        invariant forall ref :: ref in result ==>
                    exists key ::
                      && key in volumes && key.reference == ref && Wanted(key, deploymentId, references)
                      && result[ref] == volumes[key]
        invariant forall key | key in volumes && key !in todo && Wanted(key, deploymentId, references) ::
                    key.reference in result
      {
        var key :| key in todo;
        todo := todo - {key};
        if Wanted(key, deploymentId, references) {
          result := result[key.reference := volumes[key]];
        }
      }
      return Some(result);
    }

    /** The rows of volumes joined to their mounts, in any order, collected by reference. */
    method ReadVolumesWithMounts(deploymentId: string, references: seq<string>)
      returns (found: Option<map<string, WithMounts>>)
      requires Valid()
      modifies env
      ensures found.Some? ==> Collected(JoinRows(volumes, mounts, deploymentId, references), found.value)
      ensures env.Since(old(env.failures)) && (found.None? ==> env.failures > old(env.failures))
    {
      var failed := env.Attempt();
      if failed {
        return None;
      }
      var rows := JoinRows(volumes, mounts, deploymentId, references);
      var result: map<string, WithMounts> := map[];
      var todo := rows;
      while todo != {}
        invariant todo <= rows
        invariant env.Since(old(env.failures))
        invariant Collected(rows - todo, result)
      {
        var row :| row in todo;
        CollectedOneMore(rows - todo, result, row);
        assert rows - (todo - {row}) == rows - todo + {row};
        todo := todo - {row};
        var ref := row.key.reference;
        var volume := if ref in result then result[ref] else WithMounts(row.key, []);
        if row.mount.Some? {
          volume := volume.(mountedBy := volume.mountedBy + [row.mount.value.auxDepId]);
        }
        result := result[ref := volume];
      }
      assert rows - todo == rows;
      return Some(result);
    }

    method RemoveOneVolume(ghost before: set<string>, found: map<string, string>, ghost todo: set<string>,
                           results: seq<BatchResult>, deleted: seq<string>, ref: string, ghost start: nat)
      returns (results': seq<BatchResult>, deleted': seq<string>)
      requires env.Since(start) && ref in todo
      requires VolumeProgress(before, engineVolumes, found, todo, results, deleted, env.failures - start)
      modifies `engineVolumes, env
      ensures env.Since(start)
      ensures VolumeProgress(before, engineVolumes, found, todo - {ref}, results', deleted', env.failures - start)
    {
      var ok := RemoveVolume(found[ref]);
      OneMoreVolume(before, old(engineVolumes), engineVolumes, found, todo, results, deleted,
                    old(env.failures) - start, ref, ok, env.failures > old(env.failures));
      deleted' := if ok then deleted + [ref] else deleted;
      results' := results + [BatchResult(ref, ok)];
    }

    method RemoveVolumes(found: map<string, string>) returns (results: seq<BatchResult>, deleted: seq<string>)
      modifies `engineVolumes, env
      ensures env.Since(old(env.failures))
      ensures VolumeProgress(old(engineVolumes), engineVolumes, found, {}, results, deleted,
                             env.failures - old(env.failures))
    {
      results, deleted := [], [];
      var todo := found.Keys;
      assert found.Keys - todo == {} && StillThere(engineVolumes, found, todo) == {};
      while todo != {}
        invariant todo <= found.Keys && env.Since(old(env.failures))
        invariant VolumeProgress(old(engineVolumes), engineVolumes, found, todo, results, deleted,
                                 env.failures - old(env.failures))
      {
        var ref :| ref in todo;
        results, deleted := RemoveOneVolume(old(engineVolumes), found, todo, results, deleted, ref, old(env.failures));
        todo := todo - {ref};
      }
    }

    /** The engine's volumes first, then the rows of those that are gone. */
    method DeleteFoundVolumes(deploymentId: string, found: map<string, string>)
      returns (results: seq<BatchResult>, ok: bool, ghost removed: set<string>)
      requires Valid()
      modifies `volumes, `mounts, `engineVolumes, env
      ensures Valid()
      ensures Reports(results, found.Keys, removed)
      ensures if ok then volumes == VolumesAfter(old(volumes), deploymentId, removed) else volumes == old(volumes)
      ensures engineVolumes <= old(engineVolumes) && old(engineVolumes) - engineVolumes <= found.Values
      ensures forall ref | ref in removed :: found[ref] !in engineVolumes
      ensures env.Since(old(env.failures)) && (!ok ==> env.failures > old(env.failures))
      ensures |StillThere(engineVolumes, found, {})| <= env.failures - old(env.failures)
      ensures env.failures == old(env.failures) ==> engineVolumes == old(engineVolumes) - found.Values
      ensures env.failures == old(env.failures) && Injective(found) ==>
                removed == Existing(found, old(engineVolumes))
    {
      var deleted;
      results, deleted := RemoveVolumes(found);
      removed := Elements(deleted);
      FinishVolumes(old(engineVolumes), engineVolumes, found, results, deleted, env.failures - old(env.failures));
      ok := DeleteVolumeRows(deploymentId, deleted);
    }

    method DeleteVolumes(deploymentId: string, references: seq<string>, allowAll: bool)
      returns (results: seq<BatchResult>, ok: bool, ghost found: map<string, string>, ghost removed: set<string>)
      requires Valid()
      modifies `volumes, `mounts, `engineVolumes, env
      ensures Valid()
      ensures !allowAll && references == [] ==> unchanged(this) && results == [] && ok
      ensures !ok ==> volumes == old(volumes)
      ensures ok && (allowAll || references != []) ==>
                && IsFound(old(volumes), deploymentId, references, found)
                && Reports(results, found.Keys, removed)
                && volumes == VolumesAfter(old(volumes), deploymentId, removed)
      ensures engineVolumes <= old(engineVolumes) && old(engineVolumes) - engineVolumes <= found.Values
      ensures found == map[] || IsFound(old(volumes), deploymentId, references, found)
      ensures forall ref | ref in removed :: ref in found && found[ref] !in engineVolumes
      ensures env.Since(old(env.failures)) && (!ok ==> env.failures > old(env.failures))
      ensures |StillThere(engineVolumes, found, {})| <= env.failures - old(env.failures)
      ensures env.failures == old(env.failures) && (allowAll || references != []) && Injective(found) ==>
                removed == Existing(found, old(engineVolumes)) && engineVolumes == old(engineVolumes) - found.Values
    {
      results, ok, found, removed := [], true, map[], {};
      if !allowAll && |references| == 0 {
        return;
      }
      var read := ReadVolumes(deploymentId, references);
      if read.None? {
        ok := false;
        return;
      }
      found := read.value;
      results, ok, removed := DeleteFoundVolumes(deploymentId, read.value);
    }

    /** What nobody mounts and is not excluded. */
    ghost function Unused(deploymentId: string, exclude: seq<string>): set<string>
      reads this
    {
      set key | key in volumes && key.depId == deploymentId && key.reference !in exclude && !IsMounted(key, mounts) ::
        key.reference
    }

    method DeleteUnusedVolumes(deploymentId: string, exclude: seq<string>)
      returns (results: seq<BatchResult>, ok: bool, ghost removed: set<string>)
      requires Valid()
      modifies `volumes, `mounts, `engineVolumes, env
      ensures Valid()
      ensures volumes == if ok then VolumesAfter(old(volumes), deploymentId, removed) else old(volumes)
      ensures ok && deploymentId != "" ==> Reports(results, old(Unused(deploymentId, exclude)), removed)
      ensures engineVolumes <= old(engineVolumes)
      ensures deploymentId != "" ==>
                LostOnlyNamed(old(volumes), deploymentId, old(Unused(deploymentId, exclude)), old(engineVolumes),
                              engineVolumes)
      ensures env.Since(old(env.failures)) && (!ok ==> env.failures > old(env.failures))
      ensures env.failures == old(env.failures) && deploymentId != "" && old(Materialised(volumes, engineVolumes)) ==>
                removed == old(Unused(deploymentId, exclude))
    {
      removed := {};
      var found := ReadVolumesWithMounts(deploymentId, []);
      if found.None? {
        return [], false, {};
      }
      var unused := map ref |
        ref in found.value && ref !in exclude && |found.value[ref].mountedBy| == 0 && found.value[ref].key in volumes ::
        volumes[found.value[ref].key];
      if deploymentId != "" {
        UnusedFound(volumes, mounts, deploymentId, exclude, found.value, unused, Unused(deploymentId, exclude));
        UnusedExist(volumes, deploymentId, unused, engineVolumes);
      }
      results, ok, removed := DeleteFoundVolumes(deploymentId, unused);
      if deploymentId != "" {
        UnusedLost(old(volumes), deploymentId, unused, old(engineVolumes), engineVolumes);
      }
    }
  }
}
