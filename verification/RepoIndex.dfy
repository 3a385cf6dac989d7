/** The index of all module variants of all repositories
    (pkg/components/handler/repositories/handler.go). */
module RepoIndex {
  import opened NestedMaps
  import opened Prelude

  // ----- Repositories -----

  datatype Modfile = Modfile(id: string, name: string, desc: string, version: string)

  /** The file systems of a channel by reference, each with its modfile if that can be read. `files`
      is None if the file systems cannot be read. */
  datatype Channel = Channel(name: string, files: Option<map<string, Option<Modfile>>>)

  /** `invalid` if directories of a host directory are not valid modules: they are left out, but a
      refresh refuses them. `latest` is what the source has for the channels by now, if that is not what
      there is already; nothing for a channel that has no directory any more. */
  datatype Repository = Repository(repoType: string, priority: int, channels: seq<Channel>, invalid: bool,
                                   latest: Option<seq<Option<map<string, Option<Modfile>>>>>)

  /** By source. */
  type Repositories = map<string, Repository>

  datatype Entry = Entry(id: string, source: string, channel: string, name: string, desc: string, version: string,
                         repoType: string, reference: string)

  type Index = Nested<Entry>

  function EntryOf(source: string, repo: Repository, channel: string, reference: string, modfile: Modfile): Entry {
    Entry(modfile.id, source, channel, modfile.name, modfile.desc, modfile.version, repo.repoType, reference)
  }

  function PlaceOf(e: Entry): Place {
    Place(e.id, e.source, e.channel)
  }

  ghost predicate Gives(repo: Repository, c: Channel, e: Entry) {
    && c.name == e.channel && c.files.Some? && e.reference in c.files.value && c.files.value[e.reference].Some?
    && var modfile := c.files.value[e.reference].value;
       && e.id == modfile.id && e.name == modfile.name && e.desc == modfile.desc && e.version == modfile.version
       && e.repoType == repo.repoType
  }

  /** An accepted repository has a channel with a file system that gives this entry. */
  ghost predicate Provides(repositories: Repositories, e: Entry) {
    && e.source in repositories
    && exists c :: c in repositories[e.source].channels && Gives(repositories[e.source], c, e)
  }

  /** The index has an entry for exactly the places that some file system gives one for, and each is
      one of those. */
  ghost predicate IsIndex(index: Index, given: iset<Entry>) {
    && NoneEmpty(index)
    && (forall p | Has(index, p) :: Get(index, p) in given && PlaceOf(Get(index, p)) == p)
    && (forall e | e in given :: Has(index, PlaceOf(e)))
  }

  lemma IndexOneMore(index: Index, given: iset<Entry>, e: Entry)
    requires IsIndex(index, given)
    ensures IsIndex(Put(index, PlaceOf(e), e), given + iset{e})
  {
    var more := Put(index, PlaceOf(e), e);
    PutLeavesNoneEmpty(index, PlaceOf(e), e);
    forall p ensures Has(more, p) <==> p == PlaceOf(e) || Has(index, p) {
      PutChangesOnePlace(index, PlaceOf(e), e, p);
    }
    forall p | Has(more, p) ensures Get(more, p) in given + iset{e} && PlaceOf(Get(more, p)) == p {
      PutChangesOnePlace(index, PlaceOf(e), e, p);
    }
  }

  ghost function GivenBy(source: string, repo: Repository, c: Channel, references: set<string>): iset<Entry> {
    iset e: Entry | e.source == source && Gives(repo, c, e) && e.reference in references
  }

  ghost function GivenByRepository(source: string, repo: Repository, count: nat): iset<Entry>
    requires count <= |repo.channels|
  {
    iset e: Entry | e.source == source && exists i :: 0 <= i < count && Gives(repo, repo.channels[i], e)
  }

  ghost function GivenByAll(repositories: Repositories, sources: set<string>): iset<Entry> {
    iset e: Entry | e.source in sources && Provides(repositories, e)
  }

  /** An entry for exactly the places that an accepted repository gives one for. */
  lemma IndexHasPlaces(index: Index, repositories: Repositories)
    requires IsIndex(index, GivenByAll(repositories, repositories.Keys))
    ensures forall p :: Has(index, p) <==>
                        exists e :: Provides(repositories, e) && p == Place(e.id, e.source, e.channel)
  {
    forall p | Has(index, p) ensures exists e :: Provides(repositories, e) && p == Place(e.id, e.source, e.channel) {
      var e := Get(index, p);
      assert e in GivenByAll(repositories, repositories.Keys) && PlaceOf(e) == p;
    }
    forall e | Provides(repositories, e) ensures Has(index, Place(e.id, e.source, e.channel)) {
      assert e in GivenByAll(repositories, repositories.Keys) && Has(index, PlaceOf(e));
    }
  }

  // ----- Building it -----

  function BadFiles(files: map<string, Option<Modfile>>, references: set<string>): set<string> {
    set r | r in references && r in files && files[r].None?
  }

  function ChannelErrorCount(c: Channel): nat {
    if c.files.None? then 1 else |BadFiles(c.files.value, c.files.value.Keys)|
  }

  /** Channels and file systems that cannot be read. */
  function ErrorCount(channels: seq<Channel>): nat {
    if channels == [] then 0
    else ErrorCount(channels[..|channels| - 1]) + ChannelErrorCount(channels[|channels| - 1])
  }

  /** The channels by number, and the file systems in them by reference, that cannot be read. */
  ghost function Unreadable(channels: seq<Channel>): set<(nat, Option<string>)> {
    (set i: nat | i < |channels| && channels[i].files.None? :: (i, None))
    + (set i: nat, r | i < |channels| && channels[i].files.Some? && r in channels[i].files.value
                       && channels[i].files.value[r].None? :: (i, Some(r)))
  }

  ghost function UnreadableIn(channels: seq<Channel>, i: nat): set<(nat, Option<string>)>
    requires i < |channels|
  {
    if channels[i].files.None? then {(i, None)}
    else set r | r in channels[i].files.value && channels[i].files.value[r].None? :: (i, Some(r))
  }

  lemma {:induction false} PairsCount(bad: set<string>, pairs: set<(nat, Option<string>)>, i: nat)
    requires pairs == set r | r in bad :: (i, Some(r))
    ensures |pairs| == |bad|
  {
    if bad == {} {
      assert pairs == {};
    } else {
      var r :| r in bad;
      assert (i, Some(r)) in pairs;
      PairsCount(bad - {r}, pairs - {(i, Some(r))}, i);
    }
  }

  lemma ChannelCountIs(channels: seq<Channel>, i: nat)
    requires i < |channels|
    ensures ChannelErrorCount(channels[i]) == |UnreadableIn(channels, i)|
  {
    if channels[i].files.Some? {
      var files := channels[i].files.value;
      PairsCount(BadFiles(files, files.Keys), UnreadableIn(channels, i), i);
    }
  }

  lemma UnreadableOneMore(channels: seq<Channel>)
    requires channels != []
    ensures var n := |channels| - 1;
            && Unreadable(channels) == Unreadable(channels[..n]) + UnreadableIn(channels, n)
            && Unreadable(channels[..n]) !! UnreadableIn(channels, n)
  {
  }

  /** The error count of a repository is the number of what cannot be read. */
  lemma {:induction false} ErrorCountIs(channels: seq<Channel>)
    ensures ErrorCount(channels) == |Unreadable(channels)|
  {
    if channels == [] {
      assert Unreadable(channels) == {};
    } else {
      var n := |channels| - 1;
      ErrorCountIs(channels[..n]);
      ChannelCountIs(channels, n);
      UnreadableOneMore(channels);
    }
  }

  ghost function ErrorsOf(repositories: Repositories, sources: set<string>): map<string, nat> {
    map source | source in sources && source in repositories && ErrorCount(repositories[source].channels) > 0 ::
      ErrorCount(repositories[source].channels)
  }

  lemma NothingGiven(repositories: Repositories)
    ensures IsIndex(map[], GivenByAll(repositories, {})) && ErrorsOf(repositories, {}) == map[]
  {
  }

  lemma OneMoreSource(repositories: Repositories, sources: set<string>, source: string)
    requires source in repositories && source !in sources
    ensures var repo := repositories[source];
            GivenByAll(repositories, sources + {source}) ==
            GivenByAll(repositories, sources) + GivenByRepository(source, repo, |repo.channels|)
  {
    var repo := repositories[source];
    forall e: Entry | e.source == source
      ensures e in GivenByAll(repositories, sources + {source}) <==>
                e in GivenByRepository(source, repo, |repo.channels|)
    {
    }
  }

  ghost function GivenByChannel(source: string, repo: Repository, c: Channel): iset<Entry> {
    iset e: Entry | e.source == source && Gives(repo, c, e)
  }

  lemma ErrorsOneMore(repositories: Repositories, sources: set<string>, source: string)
    requires source in repositories && source !in sources
    ensures var count := ErrorCount(repositories[source].channels);
            ErrorsOf(repositories, sources + {source}) ==
            if count > 0 then ErrorsOf(repositories, sources)[source := count] else ErrorsOf(repositories, sources)
  {
  }

  lemma OneMoreChannel(given: iset<Entry>, source: string, repo: Repository, i: nat)
    requires i < |repo.channels|
    ensures given + GivenByRepository(source, repo, i + 1) ==
            given + GivenByRepository(source, repo, i) + GivenByChannel(source, repo, repo.channels[i])
  {
  }

  lemma OneMoreFile(given: iset<Entry>, source: string, repo: Repository, c: Channel, done: set<string>, r: string)
    requires c.files.Some? && r in c.files.value && r !in done
    ensures given + GivenBy(source, repo, c, done + {r}) ==
            given + GivenBy(source, repo, c, done) +
            if c.files.value[r].Some? then iset{EntryOf(source, repo, c.name, r, c.files.value[r].value)} else iset{}
  {
    if c.files.value[r].Some? {
      assert Gives(repo, c, EntryOf(source, repo, c.name, r, c.files.value[r].value));
    }
  }

  lemma BadOneMore(files: map<string, Option<Modfile>>, done: set<string>, r: string)
    requires r in files && r !in done
    ensures |BadFiles(files, done + {r})| == |BadFiles(files, done)| + if files[r].None? then 1 else 0
  {
    assert BadFiles(files, done + {r}) == BadFiles(files, done) + if files[r].None? then {r} else {};
  }

  /** The index with the file systems of one channel so far. */
  ghost predicate FilesAdded(index: Index, given: iset<Entry>, source: string, repo: Repository, c: Channel,
                             done: set<string>) {
    IsIndex(index, given + GivenBy(source, repo, c, done))
  }

  lemma NoFileAdded(index: Index, given: iset<Entry>, source: string, repo: Repository, c: Channel)
    requires IsIndex(index, given)
    ensures FilesAdded(index, given, source, repo, c, {})
  {
    assert given + GivenBy(source, repo, c, {}) == given;
  }

  lemma FileAdded(index: Index, given: iset<Entry>, source: string, repo: Repository, c: Channel, done: set<string>,
                  r: string)
    requires FilesAdded(index, given, source, repo, c, done) && c.files.Some? && r in c.files.value && r !in done
    ensures c.files.value[r].None? ==> FilesAdded(index, given, source, repo, c, done + {r})
    ensures c.files.value[r].Some? ==> var e := EntryOf(source, repo, c.name, r, c.files.value[r].value);
              FilesAdded(Put(index, PlaceOf(e), e), given, source, repo, c, done + {r})
  {
    OneMoreFile(given, source, repo, c, done, r);
    if c.files.value[r].Some? {
      IndexOneMore(index, given + GivenBy(source, repo, c, done),
                   EntryOf(source, repo, c.name, r, c.files.value[r].value));
    } else {
      assert given + GivenBy(source, repo, c, done) + iset{} == given + GivenBy(source, repo, c, done);
    }
  }

  method AddFiles(index: Index, ghost given: iset<Entry>, source: string, repo: Repository, c: Channel)
    returns (more: Index, errors: nat)
    requires IsIndex(index, given) && c.files.Some?
    ensures FilesAdded(more, given, source, repo, c, c.files.value.Keys)
    ensures errors == ChannelErrorCount(c)
  {
    more, errors := index, 0;
    var files := c.files.value;
    var todo := files.Keys;
    NoFileAdded(index, given, source, repo, c);
    assert files.Keys - todo == {};
    while todo != {}
      invariant todo <= files.Keys
      invariant FilesAdded(more, given, source, repo, c, files.Keys - todo)
      invariant errors == |BadFiles(files, files.Keys - todo)|
    {
      var r :| r in todo;
      BadOneMore(files, files.Keys - todo, r);
      FileAdded(more, given, source, repo, c, files.Keys - todo, r);
      DoneOneMore(files.Keys, todo, r);
      todo := todo - {r};
      if files[r].None? {
        errors := errors + 1;
      } else {
        var e := EntryOf(source, repo, c.name, r, files[r].value);
        more := Put(more, PlaceOf(e), e);
      }
    }
    assert files.Keys - todo == files.Keys;
  }

  method AddChannel(index: Index, ghost given: iset<Entry>, source: string, repo: Repository, c: Channel)
    returns (more: Index, errors: nat)
    requires IsIndex(index, given)
    ensures IsIndex(more, given + GivenByChannel(source, repo, c))
    ensures errors == ChannelErrorCount(c)
  {
    if c.files.None? {
      assert given + GivenByChannel(source, repo, c) == given;
      return index, 1;
    }
    more, errors := AddFiles(index, given, source, repo, c);
    assert GivenByChannel(source, repo, c) == GivenBy(source, repo, c, c.files.value.Keys);
  }

  method AddRepository(index: Index, ghost given: iset<Entry>, source: string, repo: Repository)
    returns (more: Index, errors: nat)
    requires IsIndex(index, given)
    ensures IsIndex(more, given + GivenByRepository(source, repo, |repo.channels|))
    ensures errors == ErrorCount(repo.channels)
  {
    more, errors := index, 0;
    assert given + GivenByRepository(source, repo, 0) == given;
    for i := 0 to |repo.channels|
      invariant IsIndex(more, given + GivenByRepository(source, repo, i))
      invariant errors == ErrorCount(repo.channels[..i])
    {
      assert repo.channels[..i + 1][..i] == repo.channels[..i];
      var found;
      more, found := AddChannel(more, given + GivenByRepository(source, repo, i), source, repo, repo.channels[i]);
      OneMoreChannel(given, source, repo, i);
      errors := errors + found;
    }
    assert repo.channels[..|repo.channels|] == repo.channels;
  }
}
