/** The user data of deployments across creates, updates and deletes: what is written is what a later
    recreate merges with (pkg/components/handler/deployments/create.go, update.go, recreate.go,
    pkg/components/handler/database/deployments_create.go, deployments_update.go, deployments_read.go). */
module StoredData {
  import opened Prelude
  import opened Slices
  import opened ConfigValues
  import opened ConfigRows
  import opened ConfigReading
  import opened SparseData

  // ----- Configs as a deployment left them -----

  ghost predicate IsFiled(config: UserConfig, id: string, idLength: nat) {
    && id == config.id == ConfigId(config.deploymentId, config.reference)
    && |config.deploymentId| == idLength
  }

  /** Configs are filed under the id that belongs to their place, and deployment ids have one length. */
  ghost predicate Filed(stored: Stored, idLength: nat) {
    forall id | id in stored :: IsFiled(stored[id], id, idLength)
  }

  ghost predicate IsMadeFor(config: UserConfig, deploymentId: string, ref: string) {
    config.deploymentId == deploymentId && config.reference == ref && config.id == ConfigId(deploymentId, ref)
  }

  /** Configs of one deployment by reference, as they are put together for it. */
  ghost predicate MadeFor(provided: UserConfigs, deploymentId: string) {
    forall ref | ref in provided :: IsMadeFor(provided[ref], deploymentId, ref)
  }

  /** The rows of a deployment are those of these configs. */
  ghost predicate StoredFor(stored: Stored, provided: UserConfigs, deploymentId: string) {
    && (forall ref | ref in provided :: provided[ref].id in stored && stored[provided[ref].id] == provided[ref])
    && (forall id | id in stored && stored[id].deploymentId == deploymentId ::
          stored[id].reference in provided && provided[stored[id].reference] == stored[id])
  }

  /** Ids of configs for this deployment are not in use elsewhere. */
  lemma IdIsFree(stored: Stored, idLength: nat, deploymentId: string, ref: string, id: string)
    requires Filed(stored, idLength) && |deploymentId| == idLength && id in stored
    requires id == ConfigId(deploymentId, ref)
    ensures stored[id].deploymentId == deploymentId && stored[id].reference == ref
  {
    assert IsFiled(stored[id], id, idLength);
    ConfigIdsAreInjective(deploymentId, ref, stored[id].deploymentId, stored[id].reference);
  }

  ghost predicate HasConfig(stored: Stored, config: UserConfig) {
    config.id in stored && stored[config.id] == config
  }

  /** The configs `listing[..n]` were added to what other deployments have. */
  ghost predicate AddedSoFar(others: Stored, provided: UserConfigs, keys: seq<string>, n: nat, stored: Stored)
    requires n <= |keys|
  {
    && (forall id | id in others :: id in stored && stored[id] == others[id])
    && (forall i | 0 <= i < n :: keys[i] in provided && HasConfig(stored, provided[keys[i]]))
    && (forall id | id in stored && id !in others ::
          && stored[id].id == id && stored[id].reference in keys[..n] && stored[id].reference in provided
          && stored[id] == provided[stored[id].reference])
  }

  ghost predicate AllWritable(provided: UserConfigs) {
    forall ref | ref in provided :: Writable(provided[ref].value)
  }

  /** The next config finds its id and its place free. */
  lemma NextFits(others: Stored, idLength: nat, provided: UserConfigs, deploymentId: string, keys: seq<string>, n: nat,
                 stored: Stored)
    requires Filed(others, idLength) && |deploymentId| == idLength && MadeFor(provided, deploymentId)
    requires Without(others, deploymentId) == others && NoDuplicates(keys) && n < |keys| && keys[n] in provided
    requires AddedSoFar(others, provided, keys, n, stored) && AllWritable(provided)
    ensures Fits(stored, provided[keys[n]])
  {
    var ref, config := keys[n], provided[keys[n]];
    assert IsMadeFor(config, deploymentId, ref);
    forall id | id in others ensures others[id].deploymentId != deploymentId {
      assert id in Without(others, deploymentId);
    }
    if config.id in others {
      IdIsFree(others, idLength, deploymentId, ref, config.id);
    }
    forall id | id in stored ensures id != config.id && !SamePlace(stored[id], config) {
      if id !in others {
        var other := stored[id].reference;
        assert IsMadeFor(provided[other], deploymentId, other);
        assert other in keys[..n];
        if id == config.id {
          ConfigIdsAreInjective(deploymentId, ref, deploymentId, other);
        }
      }
    }
  }

  lemma AddNext(others: Stored, idLength: nat, provided: UserConfigs, deploymentId: string, keys: seq<string>, n: nat,
                stored: Stored)
    requires Filed(others, idLength) && |deploymentId| == idLength && MadeFor(provided, deploymentId)
    requires n < |keys| && keys[n] in provided && AddedSoFar(others, provided, keys, n, stored)
    requires Fits(stored, provided[keys[n]])
    ensures AddedSoFar(others, provided, keys, n + 1, stored[provided[keys[n]].id := provided[keys[n]]])
  {
    assert IsMadeFor(provided[keys[n]], deploymentId, keys[n]);
  }

  /** Storing the configs of a deployment that has none succeeds if each of them has a column to go
      into; the ids never collide. */
  lemma {:induction false} ListingIsStorable(others: Stored, idLength: nat, provided: UserConfigs, deploymentId: string,
                                             keys: seq<string>, listing: seq<UserConfig>, n: nat)
    requires Filed(others, idLength) && |deploymentId| == idLength && MadeFor(provided, deploymentId)
    requires Without(others, deploymentId) == others && Lists(provided, keys, listing) && n <= |keys|
    requires AllWritable(provided)
    ensures Storable(others, listing[..n]) && AddedSoFar(others, provided, keys, n, Added(others, listing[..n]))
  {
    if n > 0 {
      ListingIsStorable(others, idLength, provided, deploymentId, keys, listing, n - 1);
      var before := Added(others, listing[..n - 1]);
      assert listing[..n][..n - 1] == listing[..n - 1];
      NextFits(others, idLength, provided, deploymentId, keys, n - 1, before);
      AddNext(others, idLength, provided, deploymentId, keys, n - 1, before);
    }
  }

  lemma {:induction false} StorableIsWritable(others: Stored, listing: seq<UserConfig>, i: nat)
    requires Storable(others, listing) && i < |listing|
    ensures Writable(listing[i].value)
  {
    if i < |listing| - 1 {
      StorableIsWritable(others, listing[..|listing| - 1], i);
    }
  }

  /** The exact condition, for the whole listing. */
  lemma StorableIffWritable(others: Stored, idLength: nat, provided: UserConfigs, deploymentId: string,
                            keys: seq<string>, listing: seq<UserConfig>)
    requires Filed(others, idLength) && |deploymentId| == idLength && MadeFor(provided, deploymentId)
    requires Without(others, deploymentId) == others && Lists(provided, keys, listing)
    ensures Storable(others, listing) <==> AllWritable(provided)
  {
    assert listing[..|keys|] == listing;
    if AllWritable(provided) {
      ListingIsStorable(others, idLength, provided, deploymentId, keys, listing, |keys|);
    } else {
      var ref :| ref in provided && !Writable(provided[ref].value);
      var i :| 0 <= i < |keys| && keys[i] == ref;
      if Storable(others, listing) {
        StorableIsWritable(others, listing, i);
      }
    }
  }

  lemma AddedIsStored(others: Stored, idLength: nat, provided: UserConfigs, deploymentId: string, keys: seq<string>,
                      after: Stored)
    requires Filed(others, idLength) && |deploymentId| == idLength && MadeFor(provided, deploymentId)
    requires Without(others, deploymentId) == others && AddedSoFar(others, provided, keys, |keys|, after)
    requires forall ref | ref in provided :: ref in keys
    ensures StoredFor(after, provided, deploymentId) && Without(after, deploymentId) == others
    ensures Filed(after, idLength)
  {
    forall id | id in after && id !in others
      ensures IsFiled(after[id], id, idLength) && after[id].deploymentId == deploymentId
    {
      assert IsMadeFor(provided[after[id].reference], deploymentId, after[id].reference);
    }
    forall id | id in others ensures others[id].deploymentId != deploymentId {
      assert id in Without(others, deploymentId);
    }
    forall ref | ref in provided ensures HasConfig(after, provided[ref]) {
      var i :| 0 <= i < |keys| && keys[i] == ref;
      assert HasConfig(after, provided[keys[i]]);
    }
    assert Without(after, deploymentId).Keys == others.Keys;
  }

  /** After the write the rows of the deployment are those of its configs, in whatever order they were
      listed, and the rows of the others are as before. */
  lemma WriteStores(others: Stored, idLength: nat, provided: UserConfigs, deploymentId: string, keys: seq<string>,
                    listing: seq<UserConfig>)
    requires Filed(others, idLength) && |deploymentId| == idLength && MadeFor(provided, deploymentId)
    requires Without(others, deploymentId) == others && Lists(provided, keys, listing) && Storable(others, listing)
    ensures StoredFor(Added(others, listing), provided, deploymentId)
    ensures Without(Added(others, listing), deploymentId) == others
    ensures Filed(Added(others, listing), idLength)
  {
    StorableIffWritable(others, idLength, provided, deploymentId, keys, listing);
    ListingIsStorable(others, idLength, provided, deploymentId, keys, listing, |keys|);
    assert listing[..|keys|] == listing && keys[..|keys|] == keys;
    AddedIsStored(others, idLength, provided, deploymentId, keys, Added(others, listing));
  }

  // ----- Files -----

  /** A row of `dep_files`, unique in deployment and reference. */
  datatype FileKey = FileKey(deploymentId: string, reference: string)

  type FileTable = map<FileKey, Data>

  ghost function FilesOf(files: FileTable, deploymentId: string): Files {
    map key | key in files && key.deploymentId == deploymentId :: key.reference := files[key]
  }

  function FilesWithout(files: FileTable, deploymentId: string): FileTable {
    map key | key in files && key.deploymentId != deploymentId :: files[key]
  }

  lemma OneMoreFile(files: FileTable, deploymentId: string, userFiles: Files, todo: set<string>, ref: string)
    requires FilesOf(files, deploymentId) == userFiles - todo && ref in todo && ref in userFiles
    ensures var after := files[FileKey(deploymentId, ref) := userFiles[ref]];
            && FilesOf(after, deploymentId) == userFiles - (todo - {ref})
            && FilesWithout(after, deploymentId) == FilesWithout(files, deploymentId)
  {
    assert FilesOf(files[FileKey(deploymentId, ref) := userFiles[ref]], deploymentId) ==
           (userFiles - todo)[ref := userFiles[ref]];
  }

  // ----- Both together -----

  datatype State = State(configs: Stored, files: FileTable)

  /** The rows of this deployment are those of these configs and files. */
  ghost predicate Keeps(s: State, deploymentId: string, configs: UserConfigs, files: Files) {
    StoredFor(s.configs, configs, deploymentId) && FilesOf(s.files, deploymentId) == files
  }

  lemma StillFiled(stored: Stored, idLength: nat, deploymentId: string)
    requires Filed(stored, idLength)
    ensures Filed(Without(stored, deploymentId), idLength)
  {
  }

  lemma ConfigsAreGone(stored: Stored, idLength: nat, deploymentId: string)
    requires Filed(stored, idLength)
    ensures var left := Without(stored, deploymentId);
            Filed(left, idLength) && StoredFor(left, map[], deploymentId) && Without(left, deploymentId) == left
  {
    StillFiled(stored, idLength, deploymentId);
  }

  lemma FilesAreGone(files: FileTable, deploymentId: string)
    ensures var left := FilesWithout(files, deploymentId);
            FilesOf(left, deploymentId) == map[] && FilesWithout(left, deploymentId) == left
  {
  }

  /** The rows of all other deployments are the same. */
  ghost predicate SameElsewhere(before: State, after: State, deploymentId: string) {
    && Without(after.configs, deploymentId) == Without(before.configs, deploymentId)
    && FilesWithout(after.files, deploymentId) == FilesWithout(before.files, deploymentId)
  }

  ghost function Deleted(s: State, deploymentId: string): State {
    State(Without(s.configs, deploymentId), FilesWithout(s.files, deploymentId))
  }

  lemma DeletedIsGone(s: State, idLength: nat, deploymentId: string)
    requires Filed(s.configs, idLength)
    ensures Filed(Deleted(s, deploymentId).configs, idLength)
    ensures Keeps(Deleted(s, deploymentId), deploymentId, map[], map[])
    ensures SameElsewhere(s, Deleted(s, deploymentId), deploymentId)
  {
    ConfigsAreGone(s.configs, idLength, deploymentId);
    FilesAreGone(s.files, deploymentId);
  }

  /** The tables, written in one transaction for both. */
  class Store {
    const env: Environment
    const idLength: nat
    const configs: Database
    var files: FileTable

    ghost predicate Valid()
      reads this, configs
    {
      configs.env == env && configs.Valid() && Filed(configs.stored, idLength)
    }

    ghost function Now(): State
      reads this, configs
    {
      State(configs.stored, files)
    }

    constructor (env: Environment, idLength: nat)
      ensures Valid() && this.env == env && this.idLength == idLength && Now() == State(map[], map[])
      ensures fresh(configs)
    {
      this.env, this.idLength, files := env, idLength, map[];
      configs := new Database(env);
    }

    method WriteConfigs(deploymentId: string, renews: bool, provided: UserConfigs) returns (ok: bool)
      requires Valid() && |deploymentId| == idLength && MadeFor(provided, deploymentId)
      requires !renews ==> StoredFor(configs.stored, map[], deploymentId)
      modifies configs
      ensures Valid()
      ensures !ok ==> configs.stored == old(configs.stored)
      ensures ok ==> StoredFor(configs.stored, provided, deploymentId)
      ensures ok ==> Without(configs.stored, deploymentId) == Without(old(configs.stored), deploymentId)
      ensures env.reliable ==> (ok <==> AllWritable(provided))
    {
      ghost var others := Without(configs.stored, deploymentId);
      var listing, keys := ListValues(provided);
      ConfigsAreGone(configs.stored, idLength, deploymentId);
      if renews {
        ok := configs.UpdateUserConfigs(deploymentId, listing);
      } else {
        assert others == configs.stored;
        ok := configs.CreateUserConfigs(listing);
      }
      StorableIffWritable(others, idLength, provided, deploymentId, keys, listing);
      if ok {
        WriteStores(others, idLength, provided, deploymentId, keys, listing);
      }
    }

    /** A create has nothing to delete. */
    method WriteFiles(deploymentId: string, userFiles: Files) returns (ok: bool)
      modifies this`files
      ensures ok ==> FilesOf(files, deploymentId) == userFiles
      ensures ok ==> FilesWithout(files, deploymentId) == FilesWithout(old(files), deploymentId)
      ensures env.reliable ==> ok
    {
      FilesAreGone(files, deploymentId);
      files := FilesWithout(files, deploymentId);
      var todo := userFiles.Keys;
      while todo != {}
        invariant todo <= userFiles.Keys
        invariant FilesOf(files, deploymentId) == userFiles - todo
        invariant FilesWithout(files, deploymentId) == FilesWithout(old(files), deploymentId)
      {
        var ref :| ref in todo;
        var failed := env.Fails();
        var key := FileKey(deploymentId, ref);
        if failed || key in files {
          assert env.reliable ==> ref in FilesOf(files, deploymentId);
          return false;
        }
        OneMoreFile(files, deploymentId, userFiles, todo, ref);
        files := files[key := userFiles[ref]];
        todo := todo - {ref};
      }
      assert userFiles - todo == userFiles;
      return true;
    }

    /** The part of CreateDeployment and UpdateDeployment that is about user configs and files; the id
        of a deployment to be created is new. */
    method WriteUserData(deploymentId: string, renews: bool, provided: UserConfigs, userFiles: Files)
      returns (ok: bool)
      requires Valid() && |deploymentId| == idLength && MadeFor(provided, deploymentId)
      requires !renews ==> Keeps(Now(), deploymentId, map[], map[])
      modifies this, configs
      ensures Valid()
      ensures !ok ==> Now() == old(Now())
      ensures ok ==> Keeps(Now(), deploymentId, provided, userFiles) && SameElsewhere(old(Now()), Now(), deploymentId)
      ensures env.reliable ==> (ok <==> AllWritable(provided))
    {
      var configs0, values0, files0 := configs.configs, configs.values, files;
      ghost var stored0 := configs.stored;
      ok := WriteConfigs(deploymentId, renews, provided);
      if ok {
        ok := WriteFiles(deploymentId, userFiles);
        if !ok {
          configs.configs, configs.values, configs.stored, files := configs0, values0, stored0, files0;
        }
      }
    }

    /** Deleting a deployment takes its rows along. */
    method DeleteDeployment(deploymentId: string) returns (ok: bool)
      requires Valid()
      modifies this, configs
      ensures Valid()
      ensures Now() == if ok then Deleted(old(Now()), deploymentId) else old(Now())
      ensures env.reliable ==> ok
    {
      StillFiled(configs.stored, idLength, deploymentId);
      ok := configs.DeleteUserConfigs(deploymentId);
      if ok {
        files := FilesWithout(files, deploymentId);
      }
    }
  }

  // ----- Reading files back -----

  datatype FileRow = FileRow(deploymentId: string, reference: string, data: Data)

  type FileResult = map<string, Files>

  predicate Selects(deploymentIds: seq<string>, deploymentId: string) {
    deploymentIds == [] || deploymentId in deploymentIds
  }

  ghost predicate IsRowOf(files: FileTable, row: FileRow) {
    var key := FileKey(row.deploymentId, row.reference);
    key in files && files[key] == row.data
  }

  /** What the query returns: the rows of the selected deployments, in any order. */
  ghost predicate IsFileQuery(files: FileTable, deploymentIds: seq<string>, rows: seq<FileRow>) {
    && (forall row | row in rows :: IsRowOf(files, row) && Selects(deploymentIds, row.deploymentId))
    && (forall key | key in files && Selects(deploymentIds, key.deploymentId) ::
          FileRow(key.deploymentId, key.reference, files[key]) in rows)
  }

  /** The nested maps have what these rows say, and nothing else. */
  ghost predicate FilesRead(files: FileTable, rows: seq<FileRow>, r: FileResult) {
    && (forall row | row in rows :: row.deploymentId in r && row.reference in r[row.deploymentId])
    && (forall d, ref | d in r && ref in r[d] ::
          FileKey(d, ref) in files && r[d][ref] == files[FileKey(d, ref)] && FileRow(d, ref, r[d][ref]) in rows)
  }

  function PutFile(r: FileResult, row: FileRow): FileResult {
    var current := if row.deploymentId in r then r[row.deploymentId] else map[];
    r[row.deploymentId := current[row.reference := row.data]]
  }

  lemma ReadOneMoreFile(files: FileTable, rows: seq<FileRow>, row: FileRow, r: FileResult)
    requires FilesRead(files, rows, r) && IsRowOf(files, row)
    ensures FilesRead(files, rows + [row], PutFile(r, row))
  {
  }

  /** What the database returns for a deployment: nothing at all if it has no files. */
  function FilesFor(r: FileResult, deploymentId: string): Files {
    if deploymentId in r then r[deploymentId] else map[]
  }

  lemma AllFilesRead(files: FileTable, deploymentIds: seq<string>, rows: seq<FileRow>, r: FileResult)
    requires IsFileQuery(files, deploymentIds, rows) && FilesRead(files, rows, r)
    ensures forall d | Selects(deploymentIds, d) :: FilesFor(r, d) == FilesOf(files, d)
  {
    forall d | Selects(deploymentIds, d) ensures FilesFor(r, d) == FilesOf(files, d) {
      forall ref | ref in FilesOf(files, d) ensures ref in FilesFor(r, d) {
        assert FileRow(d, ref, files[FileKey(d, ref)]) in rows;
      }
      forall ref | ref in FilesFor(r, d) ensures ref in FilesOf(files, d) {
        assert FileKey(d, ref) in files;
      }
    }
  }

  method ReadDeploymentsFiles(rows: seq<FileRow>, ghost files: FileTable, ghost deploymentIds: seq<string>)
    returns (r: FileResult)
    requires IsFileQuery(files, deploymentIds, rows)
    ensures forall d | Selects(deploymentIds, d) :: FilesFor(r, d) == FilesOf(files, d)
  {
    r := map[];
    for i := 0 to |rows|
      invariant FilesRead(files, rows[..i], r)
    {
      assert rows[..i + 1] == rows[..i] + [rows[i]];
      ReadOneMoreFile(files, rows[..i], rows[i], r);
      r := PutFile(r, rows[i]);
    }
    assert rows[..|rows|] == rows;
    AllFilesRead(files, deploymentIds, rows, r);
  }

  // ----- Recreating -----

  function ConfigsFor(r: Result, deploymentId: string): UserConfigs {
    if deploymentId in r then r[deploymentId] else map[]
  }

  ghost predicate AllCanonical(values: Values) {
    forall ref | ref in values :: Canonical(values[ref])
  }

  lemma ConfigComesBack(stored: Stored, deploymentIds: seq<string>, r: Result, deploymentId: string, config: UserConfig)
    requires ReadsBack(stored, deploymentIds, r) && Selects(deploymentIds, deploymentId)
    requires IsMadeFor(config, deploymentId, config.reference) && HasConfig(stored, config) && Canonical(config.value)
    ensures config.reference in ConfigsFor(r, deploymentId) && ConfigsFor(r, deploymentId)[config.reference] == config
  {
    assert SelectedConfig(stored, deploymentIds, config.id);
  }

  lemma NothingElseComesBack(stored: Stored, deploymentIds: seq<string>, r: Result, deploymentId: string,
                             provided: UserConfigs, ref: string)
    requires ReadsBack(stored, deploymentIds, r) && StoredFor(stored, provided, deploymentId)
    requires ref in ConfigsFor(r, deploymentId)
    ensures ref in provided
  {
    var id :| SelectedConfig(stored, deploymentIds, id) && stored[id].deploymentId == deploymentId
              && stored[id].reference == ref;
  }

  /** What is read for a deployment is what was written for it. */
  lemma ConfigsComeBack(stored: Stored, deploymentIds: seq<string>, r: Result, deploymentId: string,
                        provided: UserConfigs)
    requires ReadsBack(stored, deploymentIds, r) && Selects(deploymentIds, deploymentId)
    requires StoredFor(stored, provided, deploymentId) && MadeFor(provided, deploymentId)
    requires forall ref | ref in provided :: Canonical(provided[ref].value)
    ensures ConfigsFor(r, deploymentId) == provided
  {
    var found := ConfigsFor(r, deploymentId);
    forall ref | ref in provided ensures ref in found && found[ref] == provided[ref] {
      assert IsMadeFor(provided[ref], deploymentId, ref);
      ConfigComesBack(stored, deploymentIds, r, deploymentId, provided[ref]);
    }
    forall ref | ref in found ensures ref in provided {
      NothingElseComesBack(stored, deploymentIds, r, deploymentId, provided, ref);
    }
  }

  // ----- Runs -----

  datatype Operation = Write(deploymentId: string, configs: UserConfigs, files: Files) | Delete(deploymentId: string)

  ghost predicate TakesEffect(before: State, op: Operation, after: State) {
    && SameElsewhere(before, after, op.deploymentId)
    && match op
       case Write(d, configs, files) => Keeps(after, d, configs, files)
       case Delete(d) => Keeps(after, d, map[], map[])
  }

  /** A create or update, or a delete, that is carried out or fails. */
  datatype Attempt = Attempt(op: Operation, ok: bool)

  ghost predicate Takes(before: State, attempt: Attempt, after: State) {
    if attempt.ok then TakesEffect(before, attempt.op, after) else after == before
  }

  ghost predicate IsRun(states: seq<State>, attempts: seq<Attempt>) {
    |states| == |attempts| + 1 && forall i | 0 <= i < |attempts| :: Takes(states[i], attempts[i], states[i + 1])
  }

  /** The last operation on the deployment that was carried out; later ones may have failed. */
  ghost predicate IsLast(attempts: seq<Attempt>, k: nat, op: Operation) {
    && k < |attempts| && attempts[k] == Attempt(op, true)
    && forall i | k < i < |attempts| && attempts[i].ok :: attempts[i].op.deploymentId != op.deploymentId
  }

  lemma FilesStay(before: FileTable, after: FileTable, other: string, deploymentId: string)
    requires FilesWithout(after, other) == FilesWithout(before, other) && other != deploymentId
    ensures FilesOf(after, deploymentId) == FilesOf(before, deploymentId)
  {
    forall key: FileKey | key.deploymentId == deploymentId
      ensures key in after <==> key in before
      ensures key in after ==> after[key] == before[key]
    {
      assert key in FilesWithout(after, other) <==> key in FilesWithout(before, other);
    }
    assert FilesOf(after, deploymentId).Keys == FilesOf(before, deploymentId).Keys;
  }

  lemma ConfigsStay(before: Stored, after: Stored, other: string, deploymentId: string, id: string)
    requires Without(after, other) == Without(before, other) && other != deploymentId
    requires (id in before && before[id].deploymentId == deploymentId)
             || (id in after && after[id].deploymentId == deploymentId)
    ensures id in before && id in after && after[id] == before[id]
  {
    assert id in Without(before, other) <==> id in Without(after, other);
  }

  lemma OthersKeepTheirRows(before: State, op: Operation, after: State, deploymentId: string, configs: UserConfigs,
                            files: Files)
    requires TakesEffect(before, op, after) && op.deploymentId != deploymentId
    requires Keeps(before, deploymentId, configs, files) && MadeFor(configs, deploymentId)
    ensures Keeps(after, deploymentId, configs, files)
  {
    forall id | (id in before.configs && before.configs[id].deploymentId == deploymentId)
                || (id in after.configs && after.configs[id].deploymentId == deploymentId)
      ensures id in before.configs && id in after.configs && after.configs[id] == before.configs[id]
    {
      ConfigsStay(before.configs, after.configs, op.deploymentId, deploymentId, id);
    }
    forall ref | ref in configs ensures configs[ref].id in after.configs {
      assert IsMadeFor(configs[ref], deploymentId, ref);
    }
    FilesStay(before.files, after.files, op.deploymentId, deploymentId);
  }

  /** A deployment keeps what was written for it last, whatever is attempted on it without success and
      whatever happens to others. */
  lemma {:induction false} RunKeepsRows(states: seq<State>, attempts: seq<Attempt>, k: nat, deploymentId: string,
                                        configs: UserConfigs, files: Files, n: nat)
    requires IsRun(states, attempts) && IsLast(attempts, k, Write(deploymentId, configs, files))
    requires k < n <= |attempts| && MadeFor(configs, deploymentId)
    ensures Keeps(states[n], deploymentId, configs, files)
  {
    assert Takes(states[n - 1], attempts[n - 1], states[n]);
    if n > k + 1 {
      RunKeepsRows(states, attempts, k, deploymentId, configs, files, n - 1);
      if attempts[n - 1].ok {
        OthersKeepTheirRows(states[n - 1], attempts[n - 1].op, states[n], deploymentId, configs, files);
      }
    }
  }

  /** Whatever was attempted since a deployment was created or updated last, recreating it merges to the
      same configs and files. */
  lemma RecreateMergesTheSame(states: seq<State>, attempts: seq<Attempt>, k: nat, deploymentId: string,
                              declared: set<string>, defaults: Values, inputs: Values, globals: Values,
                              declaredFiles: set<string>, defaultFiles: Files, fileInputs: Files,
                              deploymentIds: seq<string>, r: Result, files: FileResult)
    requires IsRun(states, attempts)
    requires IsLast(attempts, k, Write(deploymentId, Provided(declared, defaults, inputs, deploymentId),
                                       ProvidedFiles(declaredFiles, defaultFiles, fileInputs)))
    requires AllCanonical(defaults) && AllCanonical(inputs)
    requires Selects(deploymentIds, deploymentId) && ReadsBack(states[|attempts|].configs, deploymentIds, r)
    requires forall d | Selects(deploymentIds, d) :: FilesFor(files, d) == FilesOf(states[|attempts|].files, d)
    ensures Merged(defaults, ConfigsFor(r, deploymentId), globals) == Effective(declared, defaults, inputs, globals)
    ensures defaultFiles + FilesFor(files, deploymentId) ==
            defaultFiles
            + (map ref | ref in declaredFiles && ref in fileInputs && fileInputs[ref] != [] :: fileInputs[ref])
  {
    var provided := Provided(declared, defaults, inputs, deploymentId);
    RunKeepsRows(states, attempts, k, deploymentId, provided, ProvidedFiles(declaredFiles, defaultFiles, fileInputs),
                 |attempts|);
    ConfigsComeBack(states[|attempts|].configs, deploymentIds, r, deploymentId, provided);
    SparseCanonicalConfigs(declared, defaults, inputs, globals, deploymentId);
    SparseFilesLoseNothing(declaredFiles, defaultFiles, fileInputs);
  }
}
