/** Maps from id, source and channel, as the index of module variants and the tree of the service
    have them (pkg/components/handler/repositories/handler.go, pkg/service/repository.go). */
module NestedMaps {
  /** By id, source and channel. */
  type Nested<T> = map<string, map<string, map<string, T>>>

  datatype Place = Place(id: string, source: string, channel: string)

  predicate Has<T>(n: Nested<T>, p: Place) {
    p.id in n && p.source in n[p.id] && p.channel in n[p.id][p.source]
  }

  function Get<T>(n: Nested<T>, p: Place): T
    requires Has(n, p)
  {
    n[p.id][p.source][p.channel]
  }

  function Put<T>(n: Nested<T>, p: Place, v: T): Nested<T> {
    var sources := if p.id in n then n[p.id] else map[];
    var channels := if p.source in sources then sources[p.source] else map[];
    n[p.id := sources[p.source := channels[p.channel := v]]]
  }

  ghost predicate NoneEmpty<T(!new)>(n: Nested<T>) {
    && (forall id | id in n :: n[id] != map[])
    && (forall id, source | id in n && source in n[id] :: n[id][source] != map[])
  }

  lemma PutChangesOnePlace<T>(n: Nested<T>, p: Place, v: T, q: Place)
    ensures Has(Put(n, p, v), q) <==> q == p || Has(n, q)
    ensures Has(Put(n, p, v), q) ==> Get(Put(n, p, v), q) == if q == p then v else if Has(n, q) then Get(n, q) else v
  {
  }

  lemma PutLeavesNoneEmpty<T(!new)>(n: Nested<T>, p: Place, v: T)
    requires NoneEmpty(n)
    ensures NoneEmpty(Put(n, p, v))
  {
    var more := Put(n, p, v);
    assert p.channel in more[p.id][p.source];
  }

  lemma SomePlace<T(!new)>(n: Nested<T>, id: string)
    requires NoneEmpty(n) && id in n
    ensures exists p: Place :: p.id == id && Has(n, p)
  {
    var source :| source in n[id];
    var channel :| channel in n[id][source];
    assert Has(n, Place(id, source, channel));
  }

  lemma SomeChannel<T(!new)>(n: Nested<T>, id: string, source: string)
    requires NoneEmpty(n) && id in n && source in n[id]
    ensures exists p: Place :: p.id == id && p.source == source && Has(n, p)
  {
    var channel :| channel in n[id][source];
    assert Has(n, Place(id, source, channel));
  }

  ghost predicate SameAt<T(!new)>(a: Nested<T>, b: Nested<T>) {
    forall p :: (Has(a, p) <==> Has(b, p)) && (Has(a, p) ==> Get(a, p) == Get(b, p))
  }

  lemma SameChannels<T(!new)>(a: Nested<T>, b: Nested<T>, id: string, source: string)
    requires SameAt(a, b) && id in a && id in b && source in a[id] && source in b[id]
    ensures a[id][source] == b[id][source]
  {
    forall channel ensures channel in a[id][source] <==> channel in b[id][source] {
      assert Has(a, Place(id, source, channel)) <==> Has(b, Place(id, source, channel));
    }
    forall channel | channel in a[id][source] ensures a[id][source][channel] == b[id][source][channel] {
      assert Get(a, Place(id, source, channel)) == Get(b, Place(id, source, channel));
    }
  }

  lemma SameSources<T(!new)>(a: Nested<T>, b: Nested<T>, id: string)
    requires NoneEmpty(a) && NoneEmpty(b) && SameAt(a, b) && id in a && id in b
    ensures a[id] == b[id]
  {
    forall source ensures source in a[id] <==> source in b[id] {
      if source in a[id] {
        SomeChannel(a, id, source);
      }
      if source in b[id] {
        SomeChannel(b, id, source);
      }
    }
    forall source | source in a[id] ensures a[id][source] == b[id][source] {
      SameChannels(a, b, id, source);
    }
  }

  /** Nested maps with the same entries are the same, if there is nothing empty in them. */
  lemma SameEntries<T(!new)>(a: Nested<T>, b: Nested<T>)
    requires NoneEmpty(a) && NoneEmpty(b) && SameAt(a, b)
    ensures a == b
  {
    forall id ensures id in a <==> id in b {
      if id in a {
        SomePlace(a, id);
      }
      if id in b {
        SomePlace(b, id);
      }
    }
    forall id | id in a ensures a[id] == b[id] {
      SameSources(a, b, id);
    }
  }
}
