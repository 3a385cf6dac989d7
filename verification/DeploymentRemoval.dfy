/** Removing a deployment with what it has outside the database: containers, secret mounts,
    directories, volumes and endpoints, and the row at last
    (pkg/components/handler/deployments/delete.go). */
module DeploymentRemoval {
  import opened Prelude
  import AuxDelete

  type Rows = AuxDelete.Rows

  /** A deployment with the rows that refer to it: names of containers by service, and of volumes by
      reference. */
  datatype Deployment = Deployment(moduleId: string, dirName: string, filesDirName: string,
                                   containers: map<string, string>, volumes: map<string, string>)

  type Deployments = map<string, Deployment>

  /** The containers with their states, the names of the volumes and the directories, and the ids of
      the deployments that have secret mounts or endpoints. */
  datatype Outside = Outside(containers: map<string, string>, volumes: set<string>, secretMounts: set<string>,
                             dirs: set<string>, endpoints: set<string>)

  // ----- What is lost -----

  /** Nothing of the deployment is left. */
  ghost predicate Cleared(id: string, d: Deployment, o: Outside) {
    && d.containers.Values !! o.containers.Keys
    && d.volumes.Values !! o.volumes
    && id !in o.secretMounts && id !in o.endpoints
    && d.dirName !in o.dirs && d.filesDirName !in o.dirs
  }

  ghost predicate IsPart<K(!new), V(!new)>(part: map<K, V>, whole: map<K, V>) {
    forall k | k in part :: k in whole && part[k] == whole[k]
  }

  ghost predicate Shrunk(before: Outside, after: Outside) {
    && IsPart(after.containers, before.containers) && after.volumes <= before.volumes
    && after.secretMounts <= before.secretMounts && after.dirs <= before.dirs && after.endpoints <= before.endpoints
  }

  ghost function OwnContainers(deployments: Deployments, ids: set<string>): set<string> {
    set id, service | id in deployments && id in ids && service in deployments[id].containers ::
      deployments[id].containers[service]
  }

  ghost function OwnVolumes(deployments: Deployments, ids: set<string>): set<string> {
    set id, reference | id in deployments && id in ids && reference in deployments[id].volumes ::
      deployments[id].volumes[reference]
  }

  ghost predicate OwnDir(deployments: Deployments, ids: set<string>, dir: string) {
    exists id ::
      id in deployments && id in ids && (dir == deployments[id].dirName || dir == deployments[id].filesDirName)
  }

  /** Nothing is lost but what these deployments have. */
  ghost predicate LostOnlyOwn(deployments: Deployments, before: Outside, after: Outside, ids: set<string>) {
    && Shrunk(before, after)
    && before.containers.Keys - after.containers.Keys <= OwnContainers(deployments, ids)
    && before.volumes - after.volumes <= OwnVolumes(deployments, ids)
    && before.secretMounts - after.secretMounts <= ids
    && (forall dir | dir in before.dirs && dir !in after.dirs :: OwnDir(deployments, ids, dir))
    && before.endpoints - after.endpoints <= ids
  }

  lemma OwnMore(deployments: Deployments, part: Deployments, few: set<string>, many: set<string>)
    requires few <= many && IsPart(part, deployments)
    ensures OwnContainers(part, few) <= OwnContainers(deployments, many)
    ensures OwnVolumes(part, few) <= OwnVolumes(deployments, many)
    ensures forall dir | OwnDir(part, few, dir) :: OwnDir(deployments, many, dir)
  {
    forall name | name in OwnContainers(part, few) ensures name in OwnContainers(deployments, many) {
      var id, service :|
        id in part && id in few && service in part[id].containers && part[id].containers[service] == name;
      assert deployments[id] == part[id];
    }
    forall name | name in OwnVolumes(part, few) ensures name in OwnVolumes(deployments, many) {
      var id, reference :|
        id in part && id in few && reference in part[id].volumes && part[id].volumes[reference] == name;
      assert deployments[id] == part[id];
    }
    forall dir | OwnDir(part, few, dir) ensures OwnDir(deployments, many, dir) {
      var id :| id in part && id in few && (dir == part[id].dirName || dir == part[id].filesDirName);
      assert deployments[id] == part[id];
    }
  }

  lemma LostOwnCompose(deployments: Deployments, part: Deployments, before: Outside, middle: Outside, after: Outside,
                       done: set<string>, ids: set<string>)
    requires LostOnlyOwn(deployments, before, middle, done) && LostOnlyOwn(part, middle, after, ids)
    requires IsPart(part, deployments)
    ensures LostOnlyOwn(deployments, before, after, done + ids)
  {
    OwnMore(deployments, deployments, done, done + ids);
    OwnMore(deployments, part, ids, done + ids);
  }

  // ----- Deleting several -----

  ghost predicate AllDeleted(results: map<string, bool>, ids: set<string>) {
    forall id | id in ids :: id in results && results[id]
  }

  ghost function WithoutDeleted(deployments: Deployments, results: map<string, bool>): Deployments {
    map id | id in deployments && !(id in results && results[id]) :: deployments[id]
  }

  ghost function RowsNotIn(rows: Rows, gone: set<string>): Rows {
    map id | id in rows && rows[id].depId !in gone :: rows[id]
  }

  lemma RowsOneMore(rows: Rows, current: Rows, after: Rows, gone: set<string>, d: string)
    ensures current == RowsNotIn(rows, gone) && after == RowsNotIn(current, {d}) ==>
              after == RowsNotIn(rows, gone + {d})
  {
  }

  /** What is left when these deployments were to be deleted: the rows of the others, and nothing of
      those that could be deleted. */
  ghost predicate Swept(deployments: Deployments, left: Deployments, before: Outside, after: Outside,
                        results: map<string, bool>, done: set<string>) {
    && results.Keys == done
    && left == WithoutDeleted(deployments, results)
    && LostOnlyOwn(deployments, before, after, done)
    && forall id | id in results && results[id] :: id in deployments && Cleared(id, deployments[id], after)
  }

  lemma NothingSwept(deployments: Deployments, o: Outside)
    ensures Swept(deployments, deployments, o, o, map[], {})
  {
    var none: map<string, bool> := map[];
    assert none.Keys == {} && WithoutDeleted(deployments, none) == deployments;
  }

  lemma SweptOneMore(deployments: Deployments, current: Deployments, left: Deployments, before: Outside,
                     middle: Outside, after: Outside, results: map<string, bool>, done: set<string>, id: string,
                     ok: bool)
    requires Swept(deployments, current, before, middle, results, done) && id !in done && id in current
    requires LostOnlyOwn(current, middle, after, {id}) && (ok ==> Cleared(id, current[id], after))
    requires left == if ok then current - {id} else current
    ensures Swept(deployments, left, before, after, results[id := ok], done + {id})
  {
    LostOwnCompose(deployments, current, before, middle, after, done, {id});
    assert left == WithoutDeleted(deployments, results[id := ok]);
    forall other | other in results && results[other] ensures Cleared(other, deployments[other], after) {
      assert Cleared(other, deployments[other], middle);
    }
  }

  lemma AllGone(results: map<string, bool>)
    requires |Bad(results)| == 0
    ensures AllDeleted(results, results.Keys)
  {
    forall id | id in results ensures results[id] {
      assert id !in Bad(results);
    }
  }

  /** The names that were dealt with so far. */
  ghost function Done(names: map<string, string>, todo: set<string>): set<string> {
    set k | k in names && k !in todo :: names[k]
  }

  lemma DoneLeft(names: map<string, string>, todo: set<string>, k: string, before: set<string>, after: set<string>)
    requires k in todo && k in names && after <= before
    ensures |Done(names, todo - {k}) * after| <=
            |Done(names, todo) * before| + if names[k] in after then 1 else 0
  {
    var less, more := Done(names, todo) * before, Done(names, todo - {k}) * after;
    if names[k] in after {
      assert more <= less + {names[k]};
      SubsetCardinality(more, less + {names[k]});
    } else {
      assert more <= less;
      SubsetCardinality(more, less);
    }
  }

  lemma AllAreDone(names: map<string, string>)
    ensures Done(names, {}) == names.Values && Done(names, names.Keys) == {}
  {
    forall name | name in names.Values ensures name in Done(names, {}) {
      var k :| k in names && names[k] == name;
    }
  }

  // ----- The handler -----

  class Handler {
    const env: Environment
    const aux: AuxDelete.Handler

    var deployments: Deployments
    var secretMounts: set<string>
    var dirs: set<string>
    var endpoints: set<string>

    /** Containers and volumes are in the engine that the auxiliary deployments use, too. */
    ghost predicate Valid()
      reads this, aux
    {
      && aux.Valid() && aux.env == env
      && (forall id | id in aux.rows :: aux.rows[id].depId in deployments)
      && (forall key | key in aux.volumes :: key.depId in deployments)
      && "" !in deployments
    }

    constructor (env: Environment, aux: AuxDelete.Handler)
      requires aux.Valid() && aux.env == env && aux.rows == map[] && aux.volumes == map[]
      ensures Valid() && this.env == env && this.aux == aux
    {
      this.env, this.aux, deployments, secretMounts, dirs, endpoints := env, aux, map[], {}, {}, {};
    }

    ghost function Now(): Outside
      reads this, aux
    {
      Outside(aux.containers, aux.engineVolumes, secretMounts, dirs, endpoints)
    }

    /** Goes on after a failure, and reports it. */
    method RemoveContainers(containers: map<string, string>) returns (ok: bool)
      requires aux.env == env
      modifies aux`containers, env
      ensures IsPart(aux.containers, old(aux.containers))
      ensures old(aux.containers).Keys - aux.containers.Keys <= containers.Values
      ensures ok ==> containers.Values !! aux.containers.Keys
      ensures |containers.Values * aux.containers.Keys| <= env.failures - old(env.failures)
      ensures env.Since(old(env.failures)) && (!ok ==> env.failures > old(env.failures))
    {
      ok := true;
      var todo := containers.Keys;
      AllAreDone(containers);
      assert Done(containers, todo) * aux.containers.Keys == {};
      while todo != {}
        invariant todo <= containers.Keys && env.Since(old(env.failures))
        invariant !ok ==> env.failures > old(env.failures)
        invariant |Done(containers, todo) * aux.containers.Keys| <= env.failures - old(env.failures)
        invariant IsPart(aux.containers, old(aux.containers))
        invariant old(aux.containers).Keys - aux.containers.Keys <= containers.Values
        invariant ok ==> forall service | service in containers && service !in todo ::
                    containers[service] !in aux.containers
      {
        var service :| service in todo;
        ghost var before := aux.containers.Keys;
        var removed := aux.RemoveContainer(containers[service]);
        DoneLeft(containers, todo, service, before, aux.containers.Keys);
        todo := todo - {service};
        ok := ok && removed;
      }
    }

    /** A volume that is not there counts as removed. */
    method RemoveVolume(name: string) returns (ok: bool)
      modifies aux`engineVolumes, env
      ensures aux.engineVolumes == old(aux.engineVolumes) || aux.engineVolumes == old(aux.engineVolumes) - {name}
      ensures ok ==> name !in aux.engineVolumes
      ensures env.Since(old(env.failures)) && (!ok ==> env.failures > old(env.failures))
    {
      var failed := env.Attempt();
      ok := !failed;
      var gone := *;
      if ok || gone {
        aux.engineVolumes := aux.engineVolumes - {name};
      }
    }

    method RemoveVolumes(volumes: map<string, string>) returns (ok: bool)
      modifies aux`engineVolumes, env
      ensures aux.engineVolumes <= old(aux.engineVolumes)
      ensures old(aux.engineVolumes) - aux.engineVolumes <= volumes.Values
      ensures ok ==> volumes.Values !! aux.engineVolumes
      ensures |volumes.Values * aux.engineVolumes| <= env.failures - old(env.failures)
      ensures env.Since(old(env.failures)) && (!ok ==> env.failures > old(env.failures))
    {
      ok := true;
      var todo := volumes.Keys;
      AllAreDone(volumes);
      assert Done(volumes, todo) * aux.engineVolumes == {};
      while todo != {}
        invariant todo <= volumes.Keys && env.Since(old(env.failures))
        invariant !ok ==> env.failures > old(env.failures)
        invariant |Done(volumes, todo) * aux.engineVolumes| <= env.failures - old(env.failures)
        invariant aux.engineVolumes <= old(aux.engineVolumes)
        invariant old(aux.engineVolumes) - aux.engineVolumes <= volumes.Values
        invariant ok ==> forall reference | reference in volumes && reference !in todo ::
                    volumes[reference] !in aux.engineVolumes
      {
        var reference :| reference in todo;
        ghost var before := aux.engineVolumes;
        var removed := RemoveVolume(volumes[reference]);
        DoneLeft(volumes, todo, reference, before, aux.engineVolumes);
        todo := todo - {reference};
        ok := ok && removed;
      }
    }

    method RemoveSecretMounts(id: string) returns (ok: bool)
      modifies `secretMounts, env
      ensures secretMounts == old(secretMounts) || secretMounts == old(secretMounts) - {id}
      ensures ok ==> id !in secretMounts
      ensures env.Since(old(env.failures)) && (!ok ==> env.failures > old(env.failures))
    {
      var failed := env.Attempt();
      ok := !failed;
      var gone := *;
      if ok || gone {
        secretMounts := secretMounts - {id};
      }
    }

    method RemoveDir(dir: string) returns (ok: bool)
      modifies `dirs, env
      ensures dirs == old(dirs) || dirs == old(dirs) - {dir}
      ensures ok ==> dir !in dirs
      ensures env.Since(old(env.failures)) && (!ok ==> env.failures > old(env.failures))
    {
      var failed := env.Attempt();
      ok := !failed;
      var gone := *;
      if ok || gone {
        dirs := dirs - {dir};
      }
    }

    method RemoveEndpoints(id: string) returns (ok: bool)
      modifies `endpoints, env
      ensures endpoints == old(endpoints) || endpoints == old(endpoints) - {id}
      ensures ok ==> id !in endpoints
      ensures env.Since(old(env.failures)) && (!ok ==> env.failures > old(env.failures))
    {
      var failed := env.Attempt();
      ok := !failed;
      var gone := *;
      if ok || gone {
        endpoints := endpoints - {id};
      }
    }

    /** Each step only after the one before succeeded. */
    method RemoveEnvironment(id: string, d: Deployment) returns (ok: bool)
      requires aux.env == env
      modifies aux`containers, `secretMounts, `dirs, env
      ensures IsPart(aux.containers, old(aux.containers))
      ensures old(aux.containers).Keys - aux.containers.Keys <= d.containers.Values
      ensures secretMounts <= old(secretMounts) <= secretMounts + {id}
      ensures dirs <= old(dirs) <= dirs + {d.dirName, d.filesDirName}
      ensures ok ==>
                && d.containers.Values !! aux.containers.Keys && id !in secretMounts
                && d.dirName !in dirs && d.filesDirName !in dirs
      ensures env.Since(old(env.failures)) && (!ok ==> env.failures > old(env.failures))
    {
      ok := RemoveContainers(d.containers);
      if !ok {
        return;
      }
      ok := RemoveSecretMounts(id);
      if !ok {
        return;
      }
      ok := RemoveDir(d.dirName);
      if !ok {
        return;
      }
      ok := RemoveDir(d.filesDirName);
    }

    method RemoveOutside(id: string, d: Deployment) returns (ok: bool)
      requires aux.env == env && id in deployments && deployments[id] == d
      modifies aux`containers, aux`engineVolumes, `secretMounts, `dirs, `endpoints, env
      ensures LostOnlyOwn(deployments, old(Now()), Now(), {id})
      ensures ok ==> Cleared(id, d, Now())
      ensures env.Since(old(env.failures)) && (!ok ==> env.failures > old(env.failures))
    {
      assert d.containers.Values <= OwnContainers(deployments, {id}) by {
        forall name | name in d.containers.Values ensures name in OwnContainers(deployments, {id}) {
          var service :| service in d.containers && d.containers[service] == name;
        }
      }
      assert d.volumes.Values <= OwnVolumes(deployments, {id}) by {
        forall name | name in d.volumes.Values ensures name in OwnVolumes(deployments, {id}) {
          var reference :| reference in d.volumes && d.volumes[reference] == name;
        }
      }
      assert OwnDir(deployments, {id}, d.dirName) && OwnDir(deployments, {id}, d.filesDirName);
      ok := RemoveEnvironment(id, d);
      if !ok {
        return;
      }
      ok := RemoveVolumes(d.volumes);
      if !ok {
        return;
      }
      ok := RemoveEndpoints(id);
    }

    method RemoveRow(id: string) returns (ok: bool)
      requires Valid() && id in deployments
      modifies `deployments, aux`rows, aux`labels, aux`volumes, aux`mounts, env
      ensures Valid()
      ensures deployments == if ok then old(deployments) - {id} else old(deployments)
      ensures aux.rows == if ok then RowsNotIn(old(aux.rows), {id}) else old(aux.rows)
      ensures env.Since(old(env.failures)) && (!ok ==> env.failures > old(env.failures))
    {
      var failed := env.Attempt();
      ok := !failed;
      if ok {
        deployments := deployments - {id};
        aux.DeleteParent(id);
      }
    }

    /** The row goes, and with it all rows that refer to it, only if nothing else is left. */
    method DeleteDeployment(id: string) returns (ok: bool)
      requires Valid() && id in deployments
      modifies this, aux, env
      ensures Valid()
      ensures deployments == if ok then old(deployments) - {id} else old(deployments)
      ensures aux.rows == if ok then RowsNotIn(old(aux.rows), {id}) else old(aux.rows)
      ensures LostOnlyOwn(old(deployments), old(Now()), Now(), {id})
      ensures ok ==> Cleared(id, old(deployments)[id], Now())
      ensures env.Since(old(env.failures)) && (!ok ==> env.failures > old(env.failures))
    {
      ok := RemoveOutside(id, deployments[id]);
      if !ok {
        return;
      }
      ok := RemoveRow(id);
    }

    method DeleteNext(ghost first: Deployments, ghost before: Outside, results: map<string, bool>,
                      ghost done: set<string>, id: string)
      returns (results': map<string, bool>)
      requires Valid() && id in deployments && id !in done && results.Keys == done
      requires Swept(first, deployments, before, Now(), results, done)
      modifies this, aux, env
      ensures Valid() && results'.Keys == done + {id} && deployments.Keys >= old(deployments).Keys - {id}
      ensures Swept(first, deployments, before, Now(), results', done + {id})
      ensures env.Since(old(env.failures)) && |Bad(results')| <= |Bad(results)| + env.failures - old(env.failures)
      ensures env.failures == old(env.failures) ==> aux.rows == RowsNotIn(old(aux.rows), {id})
    {
      ghost var current, middle := deployments, Now();
      var ok := DeleteDeployment(id);
      SweptOneMore(first, current, deployments, before, middle, Now(), results, done, id, ok);
      BadOneMore(results, id, ok);
      results' := results[id := ok];
    }

    /** Whatever fails for one of them, the others are deleted all the same. */
    method DeleteEach(ids: set<string>) returns (results: map<string, bool>)
      requires Valid() && ids <= deployments.Keys
      modifies this, aux, env
      ensures Valid()
      ensures results.Keys == ids
      ensures Swept(old(deployments), deployments, old(Now()), Now(), results, ids)
      ensures env.Since(old(env.failures)) && |Bad(results)| <= env.failures - old(env.failures)
      ensures env.failures == old(env.failures) ==> aux.rows == RowsNotIn(old(aux.rows), ids)
    {
      results := map[];
      var todo := ids;
      NothingSwept(deployments, Now());
      assert ids - todo == {} && RowsNotIn(aux.rows, {}) == aux.rows && Bad(results) == {};
      while todo != {}
        invariant Valid() && todo <= ids && todo <= deployments.Keys && results.Keys == ids - todo
        invariant Swept(old(deployments), deployments, old(Now()), Now(), results, ids - todo)
        invariant env.Since(old(env.failures)) && |Bad(results)| <= env.failures - old(env.failures)
        invariant env.failures == old(env.failures) ==> aux.rows == RowsNotIn(old(aux.rows), ids - todo)
      {
        var id :| id in todo;
        ghost var rows := aux.rows;
        DoneOneMore(ids, todo, id);
        results := DeleteNext(old(deployments), old(Now()), results, ids - todo, id);
        RowsOneMore(old(aux.rows), rows, aux.rows, ids - todo, id);
        todo := todo - {id};
      }
      assert ids - todo == ids;
    }

    /** The deployments with these ids; an empty list deletes nothing here. Whatever fails: nothing of
        another deployment is lost, and a deployment whose row is gone has nothing left. */
    method DeleteByIds(ids: seq<string>) returns (results: map<string, bool>, ok: bool)
      requires Valid() && forall id | id in ids :: id in deployments
      modifies this, aux, env
      ensures Valid()
      ensures results.Keys == if ok then Elements(ids) else {}
      ensures Swept(old(deployments), deployments, old(Now()), Now(), results, results.Keys)
      ensures env.Since(old(env.failures)) && (!ok ==> env.failures > old(env.failures))
      ensures |Bad(results)| <= env.failures - old(env.failures)
      ensures env.failures == old(env.failures) ==>
                ok && AllDeleted(results, Elements(ids)) && aux.rows == RowsNotIn(old(aux.rows), Elements(ids))
    {
      results, ok := map[], true;
      assert Bad(results) == {};
      NothingSwept(deployments, Now());
      if |ids| == 0 {
        assert RowsNotIn(aux.rows, Elements(ids)) == aux.rows;
        return;
      }
      var failed := env.Attempt();
      if failed {
        ok := false;
        return;
      }
      results := DeleteEach(set id | id in ids);
      if env.failures == old(env.failures) {
        AllGone(results);
      }
    }
  }
}
