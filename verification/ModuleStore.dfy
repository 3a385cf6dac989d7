/** The store of installed modules: database rows, module directories, the modfile cache and
    container images, with rollback (pkg/components/handler/modules/handler.go). */
module ModuleStore {
  import opened Modfiles
  import opened Prelude

  /** A directory as far as the store looks into it: its modfile, if there is a readable one. */
  datatype Dir = Dir(modfile: Option<Mod>)

  datatype Row = Row(dirName: nat, source: string, channel: string)

  datatype RowResult = Found(row: Row) | NotFound | DatabaseError

  datatype ModfileResult = Read(mod: Mod) | NoDirectory | Unreadable

  datatype Outcome = Success | AlreadyExists | Missing | BadModule | ExternalFailure

  /** A module as it is returned: row data and, if it could be read, the modfile. */
  datatype Module = Module(source: string, channel: string, mod: Option<Mod>)

  function Select(rows: map<string, Row>, ids: seq<string>): map<string, Row> {
    if ids == [] then rows else map id | id in ids && id in rows :: rows[id]
  }

  ghost predicate HasModfile(disk: map<nat, Dir>, dirName: nat) {
    dirName in disk && disk[dirName].modfile.Some?
  }

  ghost function Modfile(disk: map<nat, Dir>, dirName: nat): Mod
    requires HasModfile(disk, dirName)
  {
    disk[dirName].modfile.value
  }

  /** Whenever the directory of a row still has its modfile, that is the modfile of this very
      module, and a cached modfile is equal to it. */
  ghost predicate Consistent(rows: map<string, Row>, disk: map<nat, Dir>, cache: map<string, Mod>, nextDirName: nat) {
    && (forall id | id in rows :: rows[id].dirName < nextDirName)
    && (forall d | d in disk :: d < nextDirName)
    && (forall id, id' | id in rows && id' in rows && id != id' :: rows[id].dirName != rows[id'].dirName)
    && (forall id | id in cache :: id in rows && cache[id].id == id)
    && (forall id | id in rows && HasModfile(disk, rows[id].dirName) ::
          && Modfile(disk, rows[id].dirName).id == id
          && (id in cache ==> cache[id] == Modfile(disk, rows[id].dirName)))
  }

  /** The directory holds a modfile of this module. */
  ghost predicate Offers(fSys: Dir, id: string) {
    fSys.modfile.Some? && fSys.modfile.value.id == id
  }

  /** The modfile the store works with for an installed module. */
  ghost function CurrentMod(rows: map<string, Row>, disk: map<nat, Dir>, cache: map<string, Mod>,
                            id: string): Option<Mod> {
    if id !in rows then None
    else if id in cache then Some(cache[id])
    else if HasModfile(disk, rows[id].dirName) then Some(Modfile(disk, rows[id].dirName)) else None
  }

  /** What the store knows of a module: its modfile, that its directory is gone, or that its
      directory has no readable modfile. */
  datatype Status = Intact(mod: Mod) | Gone | Broken

  datatype Entry = Entry(source: string, channel: string, status: Status)

  /** By module id. */
  type View = map<string, Entry>

  ghost function StatusOf(rows: map<string, Row>, disk: map<nat, Dir>, cache: map<string, Mod>, id: string): Status
    requires id in rows
  {
    match CurrentMod(rows, disk, cache, id)
    case Some(mod) => Intact(mod)
    case None => if rows[id].dirName in disk then Broken else Gone
  }

  ghost function ViewOf(rows: map<string, Row>, disk: map<nat, Dir>, cache: map<string, Mod>): View {
    map id | id in rows :: Entry(rows[id].source, rows[id].channel, StatusOf(rows, disk, cache, id))
  }

  /** At most this module has lost its modfile. */
  ghost predicate Damaged(before: View, after: View, id: string) {
    && id in before && id in after && after == before[id := before[id].(status := after[id].status)]
    && (after[id].status.Intact? ==> after[id].status == before[id].status)
  }

  /** Directories that no row names do not show. */
  lemma OtherDirectoriesDoNotShow(rows: map<string, Row>, before: map<nat, Dir>, after: map<nat, Dir>,
                                  cache: map<string, Mod>)
    requires forall id | id in rows ::
               (rows[id].dirName in after <==> rows[id].dirName in before)
               && (rows[id].dirName in after ==> after[rows[id].dirName] == before[rows[id].dirName])
    ensures ViewOf(rows, after, cache) == ViewOf(rows, before, cache)
  {
  }

  ghost predicate SameExcept(before: map<nat, Dir>, after: map<nat, Dir>, dirName: nat) {
    forall d | d != dirName :: (d in after <==> d in before) && (d in after ==> after[d] == before[d])
  }

  /** A directory that changes shows at its own module only. */
  lemma DamageShows(rows: map<string, Row>, before: map<nat, Dir>, after: map<nat, Dir>, cache: map<string, Mod>,
                    id: string)
    requires id in rows && SameExcept(before, after, rows[id].dirName)
    requires forall other | other in rows && other != id :: rows[other].dirName != rows[id].dirName
    requires HasModfile(after, rows[id].dirName) ==>
               rows[id].dirName in before && after[rows[id].dirName] == before[rows[id].dirName]
    ensures Damaged(ViewOf(rows, before, cache), ViewOf(rows, after, cache), id)
  {
    forall other | other in rows && other != id
      ensures StatusOf(rows, after, cache, other) == StatusOf(rows, before, cache, other)
    {
      assert rows[other].dirName != rows[id].dirName;
    }
  }

  lemma RemovalShows(rows: map<string, Row>, before: map<nat, Dir>, after: map<nat, Dir>, cache: map<string, Mod>,
                     id: string)
    requires id in rows && SameExcept(before, after, rows[id].dirName)
    requires forall other | other in rows && other != id :: rows[other].dirName != rows[id].dirName
    ensures ViewOf(rows - {id}, after, cache - {id}) == ViewOf(rows, before, cache) - {id}
  {
  }

  /** A new version of a module shows at its own id only. */
  lemma NewVersionShows(rows: map<string, Row>, before: map<nat, Dir>, after: map<nat, Dir>, cache: map<string, Mod>,
                        id: string, row: Row, mod: Mod)
    requires forall other | other in rows && other != id ::
               (rows[other].dirName in after <==> rows[other].dirName in before)
               && (rows[other].dirName in after ==> after[rows[other].dirName] == before[rows[other].dirName])
    ensures ViewOf(rows[id := row], after, cache[id := mod]) ==
            ViewOf(rows, before, cache)[id := Entry(row.source, row.channel, Intact(mod))]
  {
  }

  /** The cache only grew, and without changing what any module is. */
  ghost predicate Filled(rows: map<string, Row>, disk: map<nat, Dir>, before: map<string, Mod>, after: map<string, Mod>)
  {
    && before.Keys <= after.Keys
    && forall id | id in rows :: CurrentMod(rows, disk, after, id) == CurrentMod(rows, disk, before, id)
  }

  lemma FillingDoesNotShow(rows: map<string, Row>, disk: map<nat, Dir>, before: map<string, Mod>,
                           after: map<string, Mod>)
    requires Filled(rows, disk, before, after)
    ensures ViewOf(rows, disk, after) == ViewOf(rows, disk, before)
  {
  }

  /** What is returned for a module; without failures its modfile is there whenever the store
      has one. */
  ghost predicate Describes(current: Option<Mod>, row: Row, module_: Module, reliable: bool) {
    && module_.source == row.source && module_.channel == row.channel
    && (module_.mod.Some? || reliable ==> module_.mod == current)
  }

  ghost predicate DescribesAll(rows: map<string, Row>, disk: map<nat, Dir>, cache: map<string, Mod>,
                               modules: map<string, Module>, reliable: bool)
  {
    forall id | id in modules ::
      id in rows && Describes(CurrentMod(rows, disk, cache, id), rows[id], modules[id], reliable)
  }

  lemma OneMoreDescribed(rows: map<string, Row>, disk: map<nat, Dir>, start: map<string, Mod>, before: map<string, Mod>,
                         after: map<string, Mod>, modules: map<string, Module>, id: string, module_: Module,
                         reliable: bool)
    requires id in rows && Filled(rows, disk, start, before) && Filled(rows, disk, before, after)
    requires DescribesAll(rows, disk, start, modules, reliable)
    requires Describes(CurrentMod(rows, disk, before, id), rows[id], module_, reliable)
    ensures Filled(rows, disk, start, after) && DescribesAll(rows, disk, start, modules[id := module_], reliable)
  {
  }

  ghost function OwnImages(current: Option<Mod>): set<string> {
    match current case None => {} case Some(mod) => Images(mod)
  }

  lemma RetiredImages(before: set<string>, retired: set<string>, wanted: set<string>, after: set<string>, all: bool)
    requires before + wanted - (retired - wanted) <= after <= before + wanted
    requires all ==> after == before + wanted - (retired - wanted)
    ensures wanted <= after && before - (retired - wanted) <= after
    ensures all ==> after == (before - retired) + wanted
  {
  }

  ghost predicate Keeps(before: map<nat, Dir>, after: map<nat, Dir>) {
    forall d | d in before :: d in after && after[d] == before[d]
  }

  /** The calls to the outside that a store operation makes. */
  datatype Call = ReadingRow | ReadingRows | ReadingModfile | NamingDir | Copying | RemovingDir
                | CheckingImage | PullingImage | RemovingImage(image: string) | WritingRow | DeletingRow

  /** No removal of an image failed. */
  ghost predicate AllRemoved(failed: set<Call>) {
    forall image :: RemovingImage(image) !in failed
  }

  ghost function ImagesIn(fSys: Dir): set<string> {
    if fSys.modfile.Some? then Images(fSys.modfile.value) else {}
  }

  lemma NothingToDelete(rows: map<string, Row>, disk: map<nat, Dir>, cache: map<string, Mod>, id: string)
    requires id !in rows && id !in cache
    ensures rows - {id} == rows && cache - {id} == cache
    ensures ViewOf(rows, disk, cache) - {id} == ViewOf(rows, disk, cache)
  {
  }

  class Handler {
    const env: Environment
    var rows: map<string, Row>
    var disk: map<nat, Dir>
    var cache: map<string, Mod>
    var images: set<string>

    /** Directory names are UUIDs: every name that was ever handed out is below this one. */
    var nextDirName: nat

    /** The calls that failed since the last public operation began. */
    ghost var failed: set<Call>

    ghost predicate Valid()
      reads this
    {
      Consistent(rows, disk, cache, nextDirName)
    }

    constructor (env: Environment)
      ensures Valid() && rows == map[] && disk == map[] && cache == map[] && images == {}
      ensures this.env == env
    {
      this.env := env;
      rows, disk, cache, images, nextDirName := map[], map[], map[], {}, 0;
      failed := {};
    }

    ghost function Current(id: string): Option<Mod>
      reads this
    {
      CurrentMod(rows, disk, cache, id)
    }

    ghost function Modules(): View
      reads this
    {
      ViewOf(rows, disk, cache)
    }

    // ----- Calls to the outside -----

    method Fails(call: Call) returns (failing: bool)
      modifies this`failed
      ensures failed == if failing then old(failed) + {call} else old(failed)
      ensures env.reliable ==> !failing
    {
      failing := env.Fails();
      if failing {
        failed := failed + {call};
      }
    }

    method ReadRow(id: string) returns (r: RowResult)
      modifies this`failed
      ensures r.Found? ==> id in rows && r.row == rows[id]
      ensures r.NotFound? ==> id !in rows
      ensures old(failed) <= failed && (env.reliable ==> failed == old(failed))
      ensures ReadingRow !in failed ==> !r.DatabaseError?
    {
      var failing := Fails(ReadingRow);
      r := if failing then DatabaseError else if id in rows then Found(rows[id]) else NotFound;
    }

    method ReadModfile(dirName: nat) returns (r: ModfileResult)
      modifies this`failed
      ensures r.Read? ==> HasModfile(disk, dirName) && r.mod == Modfile(disk, dirName)
      ensures r.NoDirectory? ==> dirName !in disk
      ensures old(failed) <= failed && (env.reliable ==> failed == old(failed))
      ensures (env.reliable || ReadingModfile !in failed) && r.Unreadable? ==>
                dirName in disk && !HasModfile(disk, dirName)
    {
      var failing := Fails(ReadingModfile);
      if dirName !in disk {
        r := NoDirectory;
      } else if failing || disk[dirName].modfile.None? {
        r := Unreadable;
      } else {
        r := Read(disk[dirName].modfile.value);
      }
    }

    /** A copy that fails can leave anything behind in its destination, and nowhere else. */
    method CopyAll(source: Dir, dirName: nat) returns (ok: bool)
      requires Valid() && dirName < nextDirName && forall other | other in rows :: rows[other].dirName != dirName
      modifies this`disk, this`failed
      ensures Valid()
      ensures SameExcept(old(disk), disk, dirName)
      ensures ok ==> disk == old(disk)[dirName := source]
      ensures old(failed) <= failed && (env.reliable ==> failed == old(failed))
      ensures Copying !in failed ==> ok
    {
      var failing := Fails(Copying);
      if failing {
        var partial: Dir := *;
        if * {
          disk := disk[dirName := partial];
        }
        return false;
      }
      disk := disk[dirName := source];
      return true;
    }

    /** A removal that fails may have removed the modfile already. */
    method RemoveAll(dirName: nat) returns (ok: bool)
      requires Valid()
      modifies this`disk, this`failed
      ensures Valid()
      ensures SameExcept(old(disk), disk, dirName)
      ensures ok ==> disk == old(disk) - {dirName}
      ensures dirName in disk ==> dirName in old(disk)
      ensures HasModfile(disk, dirName) ==> disk[dirName] == old(disk)[dirName]
      ensures old(failed) <= failed && (env.reliable ==> failed == old(failed))
      ensures RemovingDir !in failed ==> ok
    {
      var failing := Fails(RemovingDir);
      if failing {
        if * {
          if dirName in disk {
            disk := disk[dirName := Dir(None)];
          }
        }
        return false;
      }
      disk := disk - {dirName};
      return true;
    }

    method PullImages(wanted: set<string>) returns (newImages: set<string>, ok: bool)
      modifies this`images, this`failed
      ensures newImages <= wanted && newImages !! old(images)
      // one image that cannot be pulled does not keep the others from being pulled
      ensures CheckingImage !in failed ==> newImages == wanted - old(images)
      ensures old(images) <= images <= old(images) + newImages
      ensures ok ==> images == old(images) + wanted
      ensures old(failed) <= failed && (env.reliable ==> failed == old(failed))
      ensures {CheckingImage, PullingImage} !! failed ==> ok
    {
      newImages, ok := {}, true;
      var todo := wanted;
      while todo != {}
        invariant todo <= wanted && newImages <= wanted - todo && newImages !! old(images)
        invariant newImages == (wanted - todo) - old(images)
        invariant old(images) <= images <= old(images) + newImages
        invariant ok ==> wanted - todo <= images
        invariant old(failed) <= failed && (env.reliable ==> failed == old(failed))
        invariant PullingImage !in failed ==> ok
      {
        var image :| image in todo;
        todo := todo - {image};
        var failing := Fails(CheckingImage);
        if failing {
          return newImages, false;
        }
        if image in images {
          continue;
        }
        failing := Fails(PullingImage);
        var arrived: bool := *;
        if !failing || arrived {
          images := images + {image};
        }
        ok := ok && !failing;
        newImages := newImages + {image};
      }
    }

    method RemoveImages(unwanted: set<string>) returns (ok: bool)
      requires Valid()
      modifies this`images, this`failed
      ensures Valid()
      ensures old(images) - unwanted <= images <= old(images)
      ensures ok ==> images == old(images) - unwanted
      ensures old(failed) <= failed && (env.reliable ==> failed == old(failed))
      ensures AllRemoved(failed) ==> ok
      // one that cannot be removed does not keep the others from being removed
      ensures forall image | image in unwanted && image in images :: RemovingImage(image) in failed
    {
      ok := true;
      var todo := unwanted;
      while todo != {}
        invariant Valid() && todo <= unwanted
        invariant old(images) - (unwanted - todo) <= images <= old(images)
        invariant ok ==> images == old(images) - (unwanted - todo)
        invariant old(failed) <= failed && (env.reliable ==> failed == old(failed))
        invariant AllRemoved(failed) ==> ok
        invariant forall image | image in unwanted && image !in todo && image in images ::
                    RemovingImage(image) in failed
      {
        var image :| image in todo;
        todo := todo - {image};
        var failing := Fails(RemovingImage(image));
        if failing {
          ok := false;
        } else {
          images := images - {image};
        }
      }
    }

    /** Images of the old module version go, unless the new one uses them as well. */
    method RemoveOldImages(oldImages: set<string>, newImages: set<string>)
      modifies this`images, this`failed
      ensures old(images) - (oldImages - newImages) <= images <= old(images)
      ensures old(failed) <= failed && (env.reliable ==> failed == old(failed))
      ensures forall image | image in oldImages && image !in newImages && image in images ::
                RemovingImage(image) in failed
      ensures AllRemoved(failed) ==> images == old(images) - (oldImages - newImages)
    {
      var todo := oldImages;
      while todo != {}
        invariant todo <= oldImages
        invariant old(images) - ((oldImages - todo) - newImages) <= images <= old(images)
        invariant old(failed) <= failed && (env.reliable ==> failed == old(failed))
        invariant forall image | image in oldImages && image !in todo && image !in newImages && image in images ::
                    RemovingImage(image) in failed
        invariant AllRemoved(failed) ==> images == old(images) - ((oldImages - todo) - newImages)
      {
        var image :| image in todo;
        todo := todo - {image};
        if image !in newImages {
          var failing := Fails(RemovingImage(image));
          if !failing {
            images := images - {image};
          }
        }
      }
    }

    method NewDirName() returns (dirName: Option<nat>)
      requires Valid()
      modifies this`nextDirName, this`failed
      ensures Valid()
      ensures old(nextDirName) <= nextDirName
      ensures dirName.Some? ==> old(nextDirName) <= dirName.value < nextDirName
      ensures dirName.Some? ==> dirName.value !in disk && forall id | id in rows :: rows[id].dirName != dirName.value
      ensures old(failed) <= failed && (env.reliable ==> failed == old(failed))
      ensures NamingDir !in failed ==> dirName.Some?
    {
      var failing := Fails(NamingDir);
      if failing {
        return None;
      }
      dirName := Some(nextDirName);
      nextDirName := nextDirName + 1;
    }

    // ----- Public operations -----

    method CopyAndCheck(id: string, fSys: Dir, dst: nat) returns (r: Outcome, mod: Mod)
      requires Valid() && dst !in disk && dst < nextDirName
      requires forall other | other in rows :: rows[other].dirName != dst
      modifies this`disk, this`failed
      ensures Valid()
      ensures r != AlreadyExists && SameExcept(old(disk), disk, dst)
      ensures r == Success ==> disk == old(disk)[dst := fSys] && Offers(fSys, id) && mod == fSys.modfile.value
      ensures old(failed) <= failed && (env.reliable ==> failed == old(failed))
      ensures r != Success && {Copying, RemovingDir} !! failed ==> disk == old(disk)
      ensures failed == {} ==> (r == Success <==> Offers(fSys, id))
    {
      mod := Mod("", "", {}, map[]);
      var copied := CopyAll(fSys, dst);
      if !copied {
        return ExternalFailure, mod;
      }
      var modfile := ReadModfile(dst);
      if !modfile.Read? || modfile.mod.id != id {
        var _ := RemoveAll(dst);
        return BadModule, mod;
      }
      return Success, modfile.mod;
    }

    /** Copy, read back, check the id, pull the images.
        A failed copy leaves its destination behind, a failed pull the images pulled so far. */
    method Stage(id: string, fSys: Dir, dst: nat) returns (r: Outcome, mod: Mod, newImages: set<string>)
      requires Valid() && dst !in disk && dst < nextDirName
      requires forall other | other in rows :: rows[other].dirName != dst
      modifies this`disk, this`images, this`failed
      ensures Valid()
      ensures r != AlreadyExists
      ensures SameExcept(old(disk), disk, dst)
      ensures newImages !! old(images) && old(images) <= images
      ensures r == Success ==> disk == old(disk)[dst := fSys] && Offers(fSys, id) && mod == fSys.modfile.value
      ensures r == Success ==> images == old(images) + Images(mod) && newImages <= Images(mod)
      ensures old(failed) <= failed && (env.reliable ==> failed == old(failed))
      ensures images <= old(images) + ImagesIn(fSys)
      ensures r != Success && {Copying, RemovingDir} !! failed ==> disk == old(disk)
      ensures r != Success && {CheckingImage, PullingImage} !! failed ==> images == old(images)
      ensures images <= old(images) + newImages
      ensures failed == {} ==> (r == Success <==> Offers(fSys, id))
    {
      newImages := {};
      r, mod := CopyAndCheck(id, fSys, dst);
      if r != Success {
        return;
      }
      var pulled;
      newImages, pulled := PullImages(Images(mod));
      if !pulled {
        var _ := RemoveAll(dst);
        r := ExternalFailure;
      }
    }

    method Rollback(dst: nat, newImages: set<string>)
      requires Valid() && dst < nextDirName && forall other | other in rows :: rows[other].dirName != dst
      modifies this`disk, this`images, this`failed
      ensures SameExcept(old(disk), disk, dst)
      ensures Valid()
      ensures old(images) - newImages <= images <= old(images)
      ensures old(failed) <= failed && (env.reliable ==> failed == old(failed))
      ensures RemovingDir !in failed ==> disk == old(disk) - {dst}
      ensures AllRemoved(failed) ==> images == old(images) - newImages
    {
      var _ := RemoveImages(newImages);
      var _ := RemoveAll(dst);
    }

    /** Everything before the row is written, and the clean-up if that fails. */
    method Prepare(id: string, fSys: Dir) returns (r: Outcome, dst: nat, mod: Mod)
      requires Valid()
      modifies this`disk, this`images, this`nextDirName, this`failed
      ensures Valid()
      ensures r != AlreadyExists
      ensures old(nextDirName) <= dst && SameExcept(old(disk), disk, dst)
      ensures old(images) <= images
      ensures old(failed) <= failed && (env.reliable ==> failed == old(failed))
      ensures images <= old(images) + ImagesIn(fSys)
      ensures r != Success && {Copying, RemovingDir} !! failed ==> disk == old(disk)
      ensures r != Success && {CheckingImage, PullingImage} !! failed && AllRemoved(failed) ==> images == old(images)
      ensures r == Success ==> Offers(fSys, id) && mod == fSys.modfile.value
      ensures r == Success ==>
                dst < nextDirName && disk == old(disk)[dst := fSys] && images == old(images) + Images(mod)
      ensures failed == {} ==> (r == Success <==> Offers(fSys, id))
    {
      mod := Mod("", "", {}, map[]);
      var dirName := NewDirName();
      if dirName.None? {
        return ExternalFailure, nextDirName, mod;
      }
      dst := dirName.value;
      var newImages;
      r, mod, newImages := Stage(id, fSys, dst);
      if r != Success {
        return;
      }
      var failing := Fails(WritingRow);
      if failing {
        Rollback(dst, newImages);
        r := ExternalFailure;
      }
    }

    method Commit(id: string, row: Row, mod: Mod)
      requires Valid() && mod.id == id && HasModfile(disk, row.dirName) && Modfile(disk, row.dirName) == mod
      requires forall other | other in rows :: rows[other].dirName != row.dirName
      modifies this`rows, this`cache
      ensures Valid()
      ensures rows == old(rows)[id := row] && cache == old(cache)[id := mod]
    {
      rows := rows[id := row];
      cache := cache[id := mod];
    }

    /** The part that adding and updating share: a new directory, the images, the row. */
    method Install(id: string, source: string, channel: string, fSys: Dir) returns (r: Outcome)
      requires Valid()
      modifies this
      ensures Valid()
      ensures r != AlreadyExists
      ensures r != Success ==> rows == old(rows) && cache == old(cache)
      ensures Keeps(old(disk), disk)
      ensures old(images) <= images
      ensures old(failed) <= failed && (env.reliable ==> failed == old(failed))
      ensures images <= old(images) + ImagesIn(fSys)
      ensures r != Success && {Copying, RemovingDir} !! failed ==> disk == old(disk)
      ensures r != Success && {CheckingImage, PullingImage} !! failed && AllRemoved(failed) ==> images == old(images)
      ensures r == Success ==> Offers(fSys, id)
      ensures r == Success ==> id in rows && rows == old(rows)[id := Row(rows[id].dirName, source, channel)]
      ensures r == Success ==> forall other | other in old(rows) :: old(rows)[other].dirName != rows[id].dirName
      ensures r == Success ==> rows[id].dirName !in old(disk) && disk == old(disk)[rows[id].dirName := fSys]
      ensures r == Success ==> cache == old(cache)[id := fSys.modfile.value]
      ensures r == Success ==> images == old(images) + Images(fSys.modfile.value)
      ensures failed == {} ==> (r == Success <==> Offers(fSys, id))
      ensures Modules() == if r == Success then old(Modules())[id := Entry(source, channel, Intact(fSys.modfile.value))]
                           else old(Modules())
      ensures forall d | d in disk && d !in old(disk) :: d >= old(nextDirName)
    {
      var dst, mod;
      r, dst, mod := Prepare(id, fSys);
      if r == Success {
        NewVersionShows(rows, old(disk), disk, cache, id, Row(dst, source, channel), mod);
        Commit(id, Row(dst, source, channel), mod);
      } else {
        OtherDirectoriesDoNotShow(rows, old(disk), disk, cache);
      }
    }

    method AddModule(id: string, source: string, channel: string, fSys: Dir) returns (r: Outcome)
      requires Valid()
      modifies this
      ensures Valid()
      ensures env.reliable ==> failed == {}
      // failure: rows, cache and every existing directory are as before, no image is lost
      ensures r != Success ==> rows == old(rows) && cache == old(cache)
      ensures Keeps(old(disk), disk)
      ensures old(images) <= images
      ensures images <= old(images) + ImagesIn(fSys)
      ensures r != Success && {Copying, RemovingDir} !! failed ==> disk == old(disk)
      ensures r != Success && {CheckingImage, PullingImage} !! failed && AllRemoved(failed) ==> images == old(images)
      // success
      ensures r == Success ==> id !in old(rows) && Offers(fSys, id)
      ensures r == Success ==> id in rows && rows == old(rows)[id := Row(rows[id].dirName, source, channel)]
      ensures r == Success ==> rows[id].dirName !in old(disk) && disk == old(disk)[rows[id].dirName := fSys]
      ensures r == Success ==> cache == old(cache)[id := fSys.modfile.value]
      ensures r == Success ==> images == old(images) + Images(fSys.modfile.value)
      ensures failed == {} ==> (r == Success <==> id !in old(rows) && Offers(fSys, id))
      ensures r == AlreadyExists ==> id in old(rows)
      ensures Modules() == if r == Success then old(Modules())[id := Entry(source, channel, Intact(fSys.modfile.value))]
                           else old(Modules())
    {
      failed := {};
      var row := ReadRow(id);
      if row.DatabaseError? {
        return ExternalFailure;
      } else if row.Found? {
        return AlreadyExists;
      }
      r := Install(id, source, channel, fSys);
    }

    /** Clears away the previous version of an updated module; failures are only logged. */
    method Retire(dirName: nat, oldImages: set<string>, newImages: set<string>)
      requires Valid() && forall other | other in rows :: rows[other].dirName != dirName
      modifies this`disk, this`images, this`failed
      ensures Valid()
      ensures SameExcept(old(disk), disk, dirName)
      ensures old(failed) <= failed && (env.reliable ==> failed == old(failed))
      ensures RemovingDir !in failed ==> dirName !in disk
      ensures old(images) - (oldImages - newImages) <= images <= old(images)
      ensures AllRemoved(failed) ==> images == old(images) - (oldImages - newImages)
    {
      var _ := RemoveAll(dirName);
      RemoveOldImages(oldImages, newImages);
    }

    /** The new version first, then the old one goes. */
    method Replace(id: string, source: string, channel: string, fSys: Dir, oldMod: Mod) returns (r: Outcome)
      requires Valid() && id in rows
      modifies this
      ensures Valid()
      ensures r != AlreadyExists
      ensures r != Success ==> rows == old(rows) && cache == old(cache)
      ensures r != Success ==> Keeps(old(disk), disk)
      ensures r != Success ==> old(images) <= images <= old(images) + ImagesIn(fSys)
      ensures old(failed) <= failed && (env.reliable ==> failed == old(failed))
      ensures r != Success && {Copying, RemovingDir} !! failed ==> disk == old(disk)
      ensures r != Success && {CheckingImage, PullingImage} !! failed && AllRemoved(failed) ==> images == old(images)
      ensures r == Success ==> Offers(fSys, id)
      ensures r == Success ==> id in rows && rows == old(rows)[id := Row(rows[id].dirName, source, channel)]
      ensures r == Success ==> cache == old(cache)[id := fSys.modfile.value]
      ensures r == Success ==>
                rows[id].dirName !in old(disk) && rows[id].dirName in disk && disk[rows[id].dirName] == fSys
      ensures r == Success ==> Keeps(old(disk) - {old(rows)[id].dirName}, disk)
      ensures r == Success && RemovingDir !in failed ==> old(rows)[id].dirName !in disk
      ensures r == Success ==> Images(fSys.modfile.value) <= images
      ensures r == Success ==>
                (old(images) - (Images(oldMod) - Images(fSys.modfile.value))
                 <= images <= old(images) + Images(fSys.modfile.value))
      ensures r == Success && AllRemoved(failed) ==>
                images == (old(images) - Images(oldMod)) + Images(fSys.modfile.value)
      ensures failed == {} ==> (r == Success <==> Offers(fSys, id))
      ensures Modules() == if r == Success then old(Modules())[id := Entry(source, channel, Intact(fSys.modfile.value))]
                           else old(Modules())
    {
      var oldDir := rows[id].dirName;
      r := Install(id, source, channel, fSys);
      if r == Success {
        ghost var installed := disk;
        Retire(oldDir, Images(oldMod), Images(fSys.modfile.value));
        RetiredImages(old(images), Images(oldMod), Images(fSys.modfile.value), images, AllRemoved(failed));
        OtherDirectoriesDoNotShow(rows, installed, disk, cache);
      }
    }

    method InstalledMod(id: string) returns (mod: Option<Mod>)
      requires id in rows
      modifies this`failed
      ensures mod.Some? ==> mod == Current(id)
      ensures old(failed) <= failed && (env.reliable ==> failed == old(failed))
      ensures ReadingModfile !in failed ==> mod == Current(id)
      ensures env.reliable ==> mod == Current(id)
    {
      if id in cache {
        return Some(cache[id]);
      }
      var modfile := ReadModfile(rows[id].dirName);
      return if modfile.Read? then Some(modfile.mod) else None;
    }

    method UpdateModule(id: string, source: string, channel: string, fSys: Dir) returns (r: Outcome)
      requires Valid()
      modifies this
      ensures Valid()
      ensures env.reliable ==> failed == {}
      ensures r != Success ==> rows == old(rows) && cache == old(cache)
      ensures r != Success ==> Keeps(old(disk), disk)
      ensures r != Success ==> old(images) <= images <= old(images) + ImagesIn(fSys)
      ensures r != Success && {Copying, RemovingDir} !! failed ==> disk == old(disk)
      ensures r != Success && {CheckingImage, PullingImage} !! failed && AllRemoved(failed) ==> images == old(images)
      ensures r == Success ==> id in old(rows) && old(Current(id)).Some? && Offers(fSys, id)
      ensures r == Success ==> id in rows && rows == old(rows)[id := Row(rows[id].dirName, source, channel)]
      ensures r == Success ==> cache == old(cache)[id := fSys.modfile.value]
      ensures r == Success ==>
                rows[id].dirName !in old(disk) && rows[id].dirName in disk && disk[rows[id].dirName] == fSys
      ensures r == Success ==> forall d | d in old(disk) && d != old(rows)[id].dirName ::
                  d in disk && disk[d] == old(disk)[d]
      ensures r == Success && RemovingDir !in failed ==> old(rows)[id].dirName !in disk
      ensures r == Success ==> Images(fSys.modfile.value) <= images
      ensures r == Success ==>
                (old(images) - (Images(old(Current(id)).value) - Images(fSys.modfile.value))
                 <= images <= old(images) + Images(fSys.modfile.value))
      ensures r == Success && AllRemoved(failed) ==>
                images == (old(images) - Images(old(Current(id)).value)) + Images(fSys.modfile.value)
      ensures failed == {} ==>
                (r == Success <==> id in old(rows) && old(Current(id)).Some? && Offers(fSys, id))
      ensures Modules() == if r == Success then old(Modules())[id := Entry(source, channel, Intact(fSys.modfile.value))]
                           else old(Modules())
    {
      failed := {};
      var row := ReadRow(id);
      if row.DatabaseError? {
        return ExternalFailure;
      } else if row.NotFound? {
        return Missing;
      }
      var oldMod := InstalledMod(id);
      if oldMod.None? {
        return BadModule;
      }
      r := Replace(id, source, channel, fSys, oldMod.value);
    }

    method Forget(id: string)
      requires Valid()
      modifies this`rows, this`cache
      ensures Valid()
      ensures rows == old(rows) - {id} && cache == old(cache) - {id}
    {
      rows := rows - {id};
      cache := cache - {id};
    }

    /** Images, directory, row and cache entry, in this order. */
    method Withdraw(id: string, unwanted: set<string>) returns (ok: bool)
      requires Valid() && id in rows
      modifies this
      ensures Valid()
      ensures ok ==> rows == old(rows) - {id} && cache == old(cache) - {id}
      ensures !ok ==> rows == old(rows) && cache == old(cache)
      ensures !ok && {RemovingDir, DeletingRow} !! failed ==> disk == old(disk)
      ensures SameExcept(old(disk), disk, old(rows)[id].dirName)
      ensures ok ==> old(rows)[id].dirName !in disk
      ensures old(images) - unwanted <= images <= old(images)
      ensures ok ==> images == old(images) - unwanted
      ensures old(failed) <= failed && (env.reliable ==> failed == old(failed))
      ensures {RemovingDir, DeletingRow} !! failed && AllRemoved(failed) ==> ok
      ensures ok ==> Modules() == old(Modules()) - {id}
      ensures !ok ==> Modules() == old(Modules()) || Damaged(old(Modules()), Modules(), id)
    {
      ok := RemoveImages(unwanted);
      if !ok {
        return;
      }
      ok := RemoveAll(rows[id].dirName);
      DamageShows(rows, old(disk), disk, cache, id);
      RemovalShows(rows, old(disk), disk, cache, id);
      if !ok {
        return;
      }
      var failing := Fails(DeletingRow);
      if failing {
        return false;
      }
      Forget(id);
    }

    /** A module whose directory is gone has no known images; any other unreadable one is an error. */
    method ImagesToRemove(id: string) returns (unwanted: Option<set<string>>)
      requires id in rows
      modifies this`failed
      ensures unwanted.Some? ==> unwanted.value == OwnImages(Current(id)) && Modules()[id].status != Broken
      ensures old(failed) <= failed && (env.reliable ==> failed == old(failed))
      ensures ReadingModfile !in failed ==> (unwanted.None? <==> Current(id).None? && rows[id].dirName in disk)
    {
      if id in cache {
        return Some(Images(cache[id]));
      }
      var modfile := ReadModfile(rows[id].dirName);
      match modfile {
        case Read(mod) => return Some(Images(mod));
        case NoDirectory => return Some({});
        case Unreadable => return None;
      }
    }

    method DeleteInstalled(id: string) returns (r: Outcome)
      requires Valid() && id in rows
      modifies this
      ensures Valid()
      ensures old(failed) <= failed && (env.reliable ==> failed == old(failed))
      ensures r == Success ==> rows == old(rows) - {id} && cache == old(cache) - {id}
      ensures r != Success ==> rows == old(rows) && cache == old(cache)
      ensures SameExcept(old(disk), disk, old(rows)[id].dirName)
      ensures r == Success ==> old(rows)[id].dirName !in disk
      ensures r != Success && {RemovingDir, DeletingRow} !! failed ==> disk == old(disk)
      ensures old(images) - OwnImages(old(Current(id))) <= images <= old(images)
      ensures r == Success ==> images == old(images) - OwnImages(old(Current(id)))
      ensures failed == {} ==> (r != Success <==> old(Current(id)).None? && old(rows)[id].dirName in old(disk))
      ensures failed == {} && r != Success ==> disk == old(disk) && images == old(images)
      ensures r == Success ==> Modules() == old(Modules()) - {id} && old(Modules())[id].status != Broken
      ensures r != Success ==> Modules() == old(Modules()) || Damaged(old(Modules()), Modules(), id)
    {
      var unwanted := ImagesToRemove(id);
      if unwanted.None? {
        return BadModule;
      }
      var ok := Withdraw(id, unwanted.value);
      return if ok then Success else ExternalFailure;
    }

    method DeleteModule(id: string) returns (r: Outcome)
      requires Valid()
      modifies this
      ensures Valid()
      ensures env.reliable ==> failed == {}
      ensures r == Success ==> rows == old(rows) - {id} && cache == old(cache) - {id}
      ensures r != Success ==> rows == old(rows) && cache == old(cache)
      // only the directory of the module itself is touched
      ensures id !in old(rows) ==> disk == old(disk) && images == old(images)
      ensures id in old(rows) ==> SameExcept(old(disk), disk, old(rows)[id].dirName)
      ensures id in old(rows) && r == Success ==> old(rows)[id].dirName !in disk
      // the directory is not touched before all images are gone
      ensures r != Success && {RemovingDir, DeletingRow} !! failed ==> disk == old(disk)
      // only the images of the module itself are removed, and all of them on success
      ensures id in old(rows) ==> old(images) - OwnImages(old(Current(id))) <= images <= old(images)
      ensures id in old(rows) && r == Success ==> images == old(images) - OwnImages(old(Current(id)))
      // the one state that cannot be deleted: not cached, and a directory without a modfile
      ensures failed == {} ==>
                (r != Success <==> id in old(rows) && old(Current(id)).None? && old(rows)[id].dirName in old(disk))
      ensures failed == {} && r != Success ==> disk == old(disk) && images == old(images)
      ensures r == Success ==> Modules() == old(Modules()) - {id}
      ensures r == Success && id in old(rows) ==> old(Modules())[id].status != Broken
      // a failure that comes late may have taken the modfile of the module itself
      ensures r != Success ==> Modules() == old(Modules()) || Damaged(old(Modules()), Modules(), id)
    {
      failed := {};
      var row := ReadRow(id);
      assert Modules() == old(Modules()) && Current(id) == old(Current(id));
      if row.NotFound? {
        NothingToDelete(rows, disk, cache, id);
        return Success;
      } else if row.DatabaseError? {
        return ExternalFailure;
      }
      r := DeleteInstalled(id);
    }

    method GetModule(id: string) returns (module_: Module)
      requires Valid() && id in rows
      modifies this`cache, this`failed
      ensures Valid()
      ensures Describes(CurrentMod(rows, disk, old(cache), id), rows[id], module_, ReadingModfile !in failed)
      ensures old(failed) <= failed && (env.reliable ==> failed == old(failed))
      ensures Filled(rows, disk, old(cache), cache)
    {
      var mod := InstalledMod(id);
      if mod.Some? && id !in cache {
        cache := cache[id := mod.value];
      }
      module_ := Module(rows[id].source, rows[id].channel, mod);
    }

    method Describe(selected: map<string, Row>) returns (result: map<string, Module>)
      requires Valid() && forall id | id in selected :: id in rows
      modifies this`cache, this`failed
      ensures Valid()
      ensures Filled(rows, disk, old(cache), cache)
      ensures result.Keys == selected.Keys && DescribesAll(rows, disk, old(cache), result, ReadingModfile !in failed)
      ensures old(failed) <= failed && (env.reliable ==> failed == old(failed))
    {
      result := map[];
      var todo := selected.Keys;
      while todo != {}
        invariant Valid() && todo <= selected.Keys
        invariant Filled(rows, disk, old(cache), cache)
        invariant result.Keys == selected.Keys - todo
        invariant old(failed) <= failed && (env.reliable ==> failed == old(failed))
        invariant DescribesAll(rows, disk, old(cache), result, ReadingModfile !in failed)
      {
        var id :| id in todo;
        todo := todo - {id};
        ghost var before := cache;
        var module_ := GetModule(id);
        OneMoreDescribed(rows, disk, old(cache), before, cache, result, id, module_, ReadingModfile !in failed);
        result := result[id := module_];
      }
    }

    /** Reading fills the cache and changes nothing else. */
    method GetModules(ids: seq<string>) returns (modules: Option<map<string, Module>>)
      requires Valid()
      modifies this`cache, this`failed
      ensures Valid()
      ensures Filled(rows, disk, old(cache), cache)
      ensures modules.Some? ==> modules.value.Keys == Select(rows, ids).Keys
      ensures modules.Some? ==> forall id :: id in modules.value <==> id in rows && (ids == [] || id in ids)
      ensures modules.Some? ==> DescribesAll(rows, disk, old(cache), modules.value, ReadingModfile !in failed)
      ensures (modules.None? ==> ReadingRows in failed) && (env.reliable ==> failed == {})
      ensures Modules() == old(Modules())
    {
      failed := {};
      var failing := Fails(ReadingRows);
      if failing {
        return None;
      }
      var result := Describe(Select(rows, ids));
      FillingDoesNotShow(rows, disk, old(cache), cache);
      return Some(result);
    }
  }
}
