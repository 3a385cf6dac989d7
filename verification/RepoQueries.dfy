/** What is asked of the index of module variants (pkg/components/handler/repositories/handler.go,
    pkg/service/repository.go). */
module RepoQueries {
  import opened NestedMaps
  import opened Prelude
  import opened RepoIndex
  import opened Slices

  // ----- Filters -----

  datatype SourceFilter = SourceFilter(name: string, channels: seq<string>)

  type FilterMap = map<string, set<string>>

  /** Filters of the same source are merged, and no channel means every channel. */
  predicate FilterSources(source: string, channel: string, filter: FilterMap) {
    source in filter && (filter[source] != {} ==> channel in filter[source])
  }

  /** A filter of this source names this channel. */
  ghost predicate Named(filters: seq<SourceFilter>, source: string, channel: string) {
    exists f :: f in filters && f.name == source && channel in f.channels
  }

  ghost predicate HasSource(filters: seq<SourceFilter>, source: string) {
    exists f :: f in filters && f.name == source
  }

  ghost predicate IsFilterMap(filters: seq<SourceFilter>, m: FilterMap) {
    && (forall source :: source in m <==> HasSource(filters, source))
    && (forall source, channel | source in m :: channel in m[source] <==> Named(filters, source, channel))
  }

  lemma FilterOneMore(filters: seq<SourceFilter>, f: SourceFilter, m: FilterMap)
    requires IsFilterMap(filters, m)
    ensures IsFilterMap(filters + [f], m[f.name := (if f.name in m then m[f.name] else {}) + Elements(f.channels)])
  {
    var more := filters + [f];
    assert f in more && forall g :: g in more <==> g in filters || g == f;
    forall source ensures HasSource(more, source) <==> HasSource(filters, source) || source == f.name {
    }
    forall source, channel
      ensures Named(more, source, channel) <==>
                Named(filters, source, channel) || (source == f.name && channel in f.channels)
    {
    }
    assert forall channel | Named(filters, f.name, channel) :: HasSource(filters, f.name);
  }

  method NewSourceFilterMap(filters: seq<SourceFilter>) returns (m: FilterMap)
    ensures IsFilterMap(filters, m)
  {
    m := map[];
    for i := 0 to |filters|
      invariant IsFilterMap(filters[..i], m)
    {
      var f := filters[i];
      FilterOneMore(filters[..i], f, m);
      assert filters[..i + 1] == filters[..i] + [f];
      var channels := if f.name in m then m[f.name] else {};
      for j := 0 to |f.channels|
        invariant channels == (if f.name in m then m[f.name] else {}) + Elements(f.channels[..j])
      {
        assert Elements(f.channels[..j + 1]) == Elements(f.channels[..j]) + {f.channels[j]} by {
          assert f.channels[..j + 1] == f.channels[..j] + [f.channels[j]];
        }
        channels := channels + {f.channels[j]};
      }
      assert f.channels[..|f.channels|] == f.channels;
      m := m[f.name := channels];
    }
    assert filters[..|filters|] == filters;
  }

  /** What the list of filters amounts to: a source is let through as a whole if all its filters
      are without channels, otherwise only the channels they name. */
  ghost predicate Lets(filters: seq<SourceFilter>, source: string, channel: string) {
    && HasSource(filters, source)
    && ((forall f | f in filters && f.name == source :: f.channels == []) || Named(filters, source, channel))
  }

  lemma FilterMeaning(filters: seq<SourceFilter>, m: FilterMap, source: string, channel: string)
    requires IsFilterMap(filters, m)
    ensures FilterSources(source, channel, m) <==> Lets(filters, source, channel)
  {
    if source in m && m[source] != {} {
      var c :| c in m[source];
      assert Named(filters, source, c);
    }
    if source in m && m[source] == {} {
      forall f | f in filters && f.name == source ensures f.channels == [] {
        HasElement(f.channels);
        assert forall c | c in f.channels :: Named(filters, source, c);
      }
    }
  }

  /** What one would expect: one of the filters lets the channel through. */
  ghost predicate OneLets(filters: seq<SourceFilter>, source: string, channel: string) {
    exists f :: f in filters && f.name == source && (f.channels == [] || channel in f.channels)
  }

  /** The merged filter lets nothing else through, and it lets the same through unless a source is
      listed both with and without channels: then the one without is lost. */
  lemma MergedFilterIsStricter(filters: seq<SourceFilter>, source: string, channel: string)
    ensures Lets(filters, source, channel) ==> OneLets(filters, source, channel)
    ensures OneLets(filters, source, channel) && !Lets(filters, source, channel) <==>
              && !Named(filters, source, channel)
              && (exists f :: f in filters && f.name == source && f.channels == [])
              && (exists f :: f in filters && f.name == source && f.channels != [])
  {
    if f :| f in filters && f.name == source {
      assert HasSource(filters, source);
    }
  }

  /** A source that is listed as a whole and once more for one channel: every other channel of it is
      dropped. */
  lemma WholeSourceIsLost(source: string, named: string, channel: string)
    requires channel != named
    ensures var filters := [SourceFilter(source, []), SourceFilter(source, [named])];
            OneLets(filters, source, channel) && !Lets(filters, source, channel)
  {
    var filters := [SourceFilter(source, []), SourceFilter(source, [named])];
    assert filters[0] in filters && filters[1] in filters;
    assert !Named(filters, source, channel);
  }

  ghost predicate Passes(ids: seq<string>, filters: seq<SourceFilter>, p: Place) {
    && (ids == [] || p.id in ids)
    && (filters == [] || Lets(filters, p.source, p.channel))
  }

  // ----- Queries -----

  ghost predicate WellPlaced(index: Index) {
    forall p | Has(index, p) :: PlaceOf(Get(index, p)) == p
  }

  ghost predicate EntryIn(index: Index, e: Entry) {
    Has(index, PlaceOf(e)) && Get(index, PlaceOf(e)) == e
  }

  /** Exactly the entries that pass, each once. */
  ghost predicate Lists(index: Index, ids: seq<string>, filters: seq<SourceFilter>, variants: seq<Entry>) {
    && NoDuplicates(variants)
    && forall e :: e in variants <==> EntryIn(index, e) && Passes(ids, filters, PlaceOf(e))
  }

  /** As far as the loops over ids, sources and channels have come. */
  ghost predicate ListsSome(index: Index, ids: seq<string>, filters: seq<SourceFilter>, done: iset<Place>,
                            variants: seq<Entry>) {
    && NoDuplicates(variants)
    && forall e :: e in variants <==> PlaceOf(e) in done && EntryIn(index, e) && Passes(ids, filters, PlaceOf(e))
  }

  lemma ListsOneMore(index: Index, ids: seq<string>, filters: seq<SourceFilter>, done: iset<Place>,
                     variants: seq<Entry>, p: Place)
    requires WellPlaced(index) && ListsSome(index, ids, filters, done, variants) && p !in done && Has(index, p)
    ensures ListsSome(index, ids, filters, done + iset{p},
                      if Passes(ids, filters, p) then variants + [Get(index, p)] else variants)
  {
    var e := Get(index, p);
    assert PlaceOf(e) == p && e !in variants;
  }

  lemma NothingThere(index: Index, ids: seq<string>, filters: seq<SourceFilter>, done: iset<Place>, more: iset<Place>,
                     variants: seq<Entry>)
    requires ListsSome(index, ids, filters, done, variants)
    requires forall p | p in more && p !in done && Has(index, p) :: !Passes(ids, filters, p)
    requires forall p | p in done :: p in more
    ensures ListsSome(index, ids, filters, more, variants)
  {
  }

  ghost function OfId(id: string): iset<Place> {
    iset p: Place | p.id == id
  }

  ghost function OfSource(id: string, source: string): iset<Place> {
    iset p: Place | p.id == id && p.source == source
  }

  ghost function IdsDone(todo: set<string>): iset<Place> {
    iset p: Place | p.id !in todo
  }

  ghost function SourcesDone(id: string, todo: set<string>): iset<Place> {
    iset p: Place | p.id == id && p.source !in todo
  }

  ghost function ChannelsDone(id: string, source: string, todo: set<string>): iset<Place> {
    iset p: Place | p.id == id && p.source == source && p.channel !in todo
  }

  method ListChannels(index: Index, ids: seq<string>, filters: seq<SourceFilter>, filterMap: FilterMap, id: string,
                      source: string, ghost done: iset<Place>, variants: seq<Entry>)
    returns (variants': seq<Entry>)
    requires WellPlaced(index) && IsFilterMap(filters, filterMap) && id in index && source in index[id]
    requires ids == [] || id in ids
    requires ListsSome(index, ids, filters, done, variants) && forall p | p in done ::
                !(p.id == id && p.source == source)
    ensures ListsSome(index, ids, filters, done + OfSource(id, source), variants')
  {
    variants' := variants;
    var todo := index[id][source].Keys;
    NothingThere(index, ids, filters, done, done + ChannelsDone(id, source, todo), variants);
    while todo != {}
      invariant todo <= index[id][source].Keys
      invariant ListsSome(index, ids, filters, done + ChannelsDone(id, source, todo), variants')
    {
      var channel :| channel in todo;
      ghost var before := done + ChannelsDone(id, source, todo);
      var p := Place(id, source, channel);
      ListsOneMore(index, ids, filters, before, variants', p);
      assert before + iset{p} == done + ChannelsDone(id, source, todo - {channel});
      todo := todo - {channel};
      FilterMeaning(filters, filterMap, source, channel);
      if |filters| > 0 && !FilterSources(source, channel, filterMap) {
        continue;
      }
      variants' := variants' + [index[id][source][channel]];
    }
    assert done + ChannelsDone(id, source, todo) ==
           done + OfSource(id, source);
  }

  method ListSources(index: Index, ids: seq<string>, filters: seq<SourceFilter>, filterMap: FilterMap, id: string,
                     ghost done: iset<Place>, variants: seq<Entry>)
    returns (variants': seq<Entry>)
    requires WellPlaced(index) && IsFilterMap(filters, filterMap) && id in index && (ids == [] || id in ids)
    requires ListsSome(index, ids, filters, done, variants) && forall p | p in done :: p.id != id
    ensures ListsSome(index, ids, filters, done + OfId(id), variants')
  {
    variants' := variants;
    var todo := index[id].Keys;
    NothingThere(index, ids, filters, done, done + SourcesDone(id, todo), variants);
    while todo != {}
      invariant todo <= index[id].Keys
      invariant ListsSome(index, ids, filters, done + SourcesDone(id, todo), variants')
    {
      var source :| source in todo;
      ghost var before := done + SourcesDone(id, todo);
      variants' := ListChannels(index, ids, filters, filterMap, id, source, before, variants');
      assert before + OfSource(id, source) == done + SourcesDone(id, todo - {source});
      todo := todo - {source};
    }
    assert done + SourcesDone(id, todo) == done + OfId(id);
  }

  method GetModules(index: Index, ids: seq<string>, filters: seq<SourceFilter>) returns (variants: seq<Entry>)
    requires WellPlaced(index)
    ensures Lists(index, ids, filters, variants)
    ensures forall e :: e in variants <==>
                        && EntryIn(index, e) && (ids == [] || e.id in ids)
                        && (filters == [] || Lets(filters, e.source, e.channel))
  {
    var filterMap := NewSourceFilterMap(filters);
    variants := [];
    var todo := index.Keys;
    NothingThere(index, ids, filters, iset{}, IdsDone(todo), []);
    while todo != {}
      invariant todo <= index.Keys
      invariant ListsSome(index, ids, filters, IdsDone(todo), variants)
    {
      var id :| id in todo;
      ghost var done := IdsDone(todo);
      ghost var more := IdsDone(todo - {id});
      todo := todo - {id};
      if |ids| > 0 && id !in ids {
        NothingThere(index, ids, filters, done, more, variants);
        continue;
      }
      variants := ListSources(index, ids, filters, filterMap, id, done, variants);
      assert done + OfId(id) == more;
    }
    assert forall e :: EntryIn(index, e) ==> PlaceOf(e) in IdsDone(todo);
  }

  lemma {:induction false} CountOnce(s: seq<Entry>, e: Entry)
    requires NoDuplicates(s)
    ensures multiset(s)[e] == if e in s then 1 else 0
  {
    if s != [] {
      assert s == [s[0]] + s[1..];
      CountOnce(s[1..], e);
    }
  }

  /** Asking with filters is asking for everything and dropping what does not pass. */
  lemma FilteredIsFlatFiltered(index: Index, ids: seq<string>, filters: seq<SourceFilter>, filtered: seq<Entry>,
                               flat: seq<Entry>)
    requires Lists(index, ids, filters, filtered) && Lists(index, [], [], flat)
    ensures Elements(filtered) == set e | e in flat && Passes(ids, filters, PlaceOf(e))
    ensures multiset(filtered) <= multiset(flat)
  {
    forall e ensures multiset(filtered)[e] <= multiset(flat)[e] {
      CountOnce(filtered, e);
      CountOnce(flat, e);
    }
  }

  // ----- The tree of the service -----

  datatype Abbreviated = Abbreviated(name: string, desc: string, version: string)

  function Abbreviate(e: Entry): Abbreviated {
    Abbreviated(e.name, e.desc, e.version)
  }

  ghost predicate HasEntry(list: seq<Entry>, p: Place, a: Abbreviated) {
    exists e :: e in list && PlaceOf(e) == p && Abbreviate(e) == a
  }

  /** The tree keeps name, description and version of an entry. */
  lemma AbbreviateKeeps(e: Entry)
    ensures var a := Abbreviate(e);
            a.name == e.name && a.desc == e.desc && a.version == e.version
  {
  }

  /** The places of the list, each with what one of its elements there says. */
  ghost predicate IsTreeOf(list: seq<Entry>, tree: Nested<Abbreviated>) {
    && NoneEmpty(tree)
    && (forall e | e in list :: Has(tree, PlaceOf(e)))
    && (forall p | Has(tree, p) :: HasEntry(list, p, Get(tree, p)))
  }

  lemma TreeOneMore(list: seq<Entry>, tree: Nested<Abbreviated>, e: Entry)
    requires IsTreeOf(list, tree)
    ensures IsTreeOf(list + [e], Put(tree, PlaceOf(e), Abbreviate(e)))
  {
    var more, after := list + [e], Put(tree, PlaceOf(e), Abbreviate(e));
    PutLeavesNoneEmpty(tree, PlaceOf(e), Abbreviate(e));
    forall p
      ensures Has(after, p) <==> p == PlaceOf(e) || Has(tree, p)
      ensures Has(after, p) ==>
                Get(after, p) == if p == PlaceOf(e) || !Has(tree, p) then Abbreviate(e) else Get(tree, p)
    {
      PutChangesOnePlace(tree, PlaceOf(e), Abbreviate(e), p);
    }
    assert e in more && forall x | x in list :: x in more;
    forall p | Has(after, p) ensures HasEntry(more, p, Get(after, p)) {
      if p == PlaceOf(e) {
        assert Get(after, p) == Abbreviate(e);
      } else {
        assert HasEntry(list, p, Get(tree, p));
      }
    }
  }

  method BuildRepoModsTree(repoMods: seq<Entry>) returns (tree: Nested<Abbreviated>)
    ensures IsTreeOf(repoMods, tree)
  {
    tree := map[];
    for i := 0 to |repoMods|
      invariant IsTreeOf(repoMods[..i], tree)
    {
      assert repoMods[..i + 1] == repoMods[..i] + [repoMods[i]];
      TreeOneMore(repoMods[..i], tree, repoMods[i]);
      tree := Put(tree, PlaceOf(repoMods[i]), Abbreviate(repoMods[i]));
    }
    assert repoMods[..|repoMods|] == repoMods;
  }

  ghost function AbbreviatedIndex(index: Index): Nested<Abbreviated> {
    map id | id in index :: map source | source in index[id] ::
      map channel | channel in index[id][source] :: Abbreviate(index[id][source][channel])
  }

  lemma AbbreviatedEntries(index: Index)
    requires NoneEmpty(index)
    ensures NoneEmpty(AbbreviatedIndex(index))
    ensures forall p :: Has(AbbreviatedIndex(index), p) <==> Has(index, p)
    ensures forall p | Has(index, p) :: Get(AbbreviatedIndex(index), p) == Abbreviate(Get(index, p))
  {
    var expected := AbbreviatedIndex(index);
    forall id | id in expected ensures expected[id] != map[] {
      var source :| source in index[id];
      assert source in expected[id];
    }
    forall id, source | id in expected && source in expected[id] ensures expected[id][source] != map[] {
      var channel :| channel in index[id][source];
      assert channel in expected[id][source];
    }
  }

  /** The flat list loses nothing: the tree that is built from it is the index again. */
  lemma TreeIsIndex(index: Index, flat: seq<Entry>, tree: Nested<Abbreviated>)
    requires NoneEmpty(index) && WellPlaced(index) && Lists(index, [], [], flat)
    requires IsTreeOf(flat, tree)
    ensures tree == AbbreviatedIndex(index)
  {
    AbbreviatedEntries(index);
    forall p ensures Has(tree, p) <==> Has(index, p) {
      if Has(index, p) {
        assert EntryIn(index, Get(index, p));
      }
      if Has(tree, p) {
        assert HasEntry(flat, p, Get(tree, p));
      }
    }
    forall p | Has(tree, p) ensures Get(tree, p) == Abbreviate(Get(index, p)) {
      assert HasEntry(flat, p, Get(tree, p));
      var e :| e in flat && PlaceOf(e) == p && Abbreviate(e) == Get(tree, p);
      assert EntryIn(index, e);
    }
    SameEntries(tree, AbbreviatedIndex(index));
  }

  // ----- Single modules -----

  datatype Variant = Found(entry: Entry) | NoModule | NoSource | NoChannel

  function GetModuleVariant(index: Index, p: Place): Variant {
    if p.id !in index then NoModule
    else if p.source !in index[p.id] then NoSource
    else if p.channel !in index[p.id][p.source] then NoChannel
    else Found(index[p.id][p.source][p.channel])
  }

  /** Asking for one module finds exactly what the list of all has at that place. */
  lemma VariantIsListed(index: Index, flat: seq<Entry>, p: Place, e: Entry)
    requires WellPlaced(index) && Lists(index, [], [], flat)
    ensures GetModuleVariant(index, p) == Found(e) <==> e in flat && PlaceOf(e) == p
  {
    if GetModuleVariant(index, p) == Found(e) {
      assert Has(index, p) && Get(index, p) == e && EntryIn(index, e);
    }
  }
}
