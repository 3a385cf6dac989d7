/** Slices without duplicates, and the values of a map as a slice
    (pkg/components/helper/slices/slices.go, and the uses of slices.Collect). */
module Slices {
  import opened Prelude

  ghost predicate NoDuplicates<T>(s: seq<T>) {
    forall i, j | 0 <= i < j < |s| :: s[i] != s[j]
  }

  /** `s` without the elements that occur earlier in `s`. */
  ghost function Unique<T>(s: seq<T>): seq<T> {
    if s == [] then []
    else
      var rest, last := Unique(s[..|s| - 1]), s[|s| - 1];
      if last in rest then rest else rest + [last]
  }

  /** All of them, one after the other: as a Go map may be ranged over. */
  ghost predicate IsOrderOf<T>(all: set<T>, order: seq<T>) {
    NoDuplicates(order) && Elements(order) == all
  }

  lemma OrderOneMore<T>(order: seq<T>, x: T)
    requires NoDuplicates(order) && x !in Elements(order)
    ensures NoDuplicates(order + [x]) && Elements(order + [x]) == Elements(order) + {x}
  {
    forall i | 0 <= i < |order| ensures order[i] != x {
      assert order[i] in Elements(order);
    }
  }

  lemma {:induction false} AnyOrder<T>(all: set<T>) returns (order: seq<T>)
    ensures IsOrderOf(all, order)
  {
    if all == {} {
      order := [];
    } else {
      var x :| x in all;
      var rest := AnyOrder(all - {x});
      OrderOneMore(rest, x);
      order := rest + [x];
    }
  }

  /** An order that starts like this. */
  lemma OrderFrom<T>(all: set<T>, first: seq<T>) returns (order: seq<T>)
    requires NoDuplicates(first) && Elements(first) <= all
    ensures IsOrderOf(all, order) && first <= order
  {
    var rest := AnyOrder(all - Elements(first));
    order := first + rest;
    assert Elements(order) == Elements(first) + Elements(rest);
    forall i, j | 0 <= i < |first| && 0 <= j < |rest| ensures first[i] != rest[j] {
      assert first[i] in Elements(first) && rest[j] in Elements(rest);
    }
  }

  ghost predicate FirstIndex<T>(s: seq<T>, x: T, i: nat) {
    i < |s| && s[i] == x && forall j | 0 <= j < i :: s[j] != x
  }

  /** Nothing is lost, nothing is added, nothing occurs twice. */
  lemma {:induction false} UniqueElements<T>(s: seq<T>)
    ensures NoDuplicates(Unique(s)) && Elements(Unique(s)) == Elements(s)
    ensures |Unique(s)| <= |s| && (s != [] ==> Unique(s) != [])
  {
    if s != [] {
      var front, last := s[..|s| - 1], s[|s| - 1];
      UniqueElements(front);
      assert s == front + [last];
      assert Elements(s) == Elements(front) + {last};
      assert Elements(Unique(front) + [last]) == Elements(Unique(front)) + {last};
      assert last in Unique(front) <==> last in Elements(front);
    }
  }

  lemma UniqueOneMore<T>(s: seq<T>, x: T)
    ensures Unique(s + [x]) == if x in s then Unique(s) else Unique(s) + [x]
  {
    UniqueElements(s);
    assert (s + [x])[..|s|] == s;
    assert x in s <==> x in Elements(Unique(s));
  }

  /** The order of first occurrences is kept. */
  lemma {:induction false} UniqueOrder<T>(s: seq<T>, a: nat, b: nat, i: nat, j: nat)
    requires a < b < |Unique(s)| && FirstIndex(s, Unique(s)[a], i) && FirstIndex(s, Unique(s)[b], j)
    ensures i < j
  {
    var front, last := s[..|s| - 1], s[|s| - 1];
    UniqueElements(front);
    UniqueElements(s);
    assert Unique(s)[a] in Elements(front) by { assert a < |Unique(front)| && Unique(front)[a] in Unique(front); }
    assert i < |front| by {
      var k :| 0 <= k < |front| && front[k] == Unique(s)[a];
      assert s[k] == Unique(s)[a];
    }
    if j < |front| {
      assert front[j] == Unique(s)[b] && front[j] in Elements(front) && front[j] in Elements(Unique(front));
      assert b < |Unique(front)|;
      assert FirstIndex(front, Unique(front)[a], i) && FirstIndex(front, Unique(front)[b], j);
      UniqueOrder(front, a, b, i, j);
    }
  }

  method RemoveDuplicates<T(==)>(s: seq<T>) returns (unique: seq<T>)
    ensures unique == Unique(s)
  {
    if |s| < 2 {
      return s;
    }
    var seen: set<T> := {};
    unique := [];
    for i := 0 to |s|
      invariant unique == Unique(s[..i])
      invariant seen == Elements(s[..i])
    {
      assert s[..i + 1] == s[..i] + [s[i]];
      UniqueOneMore(s[..i], s[i]);
      if s[i] !in seen {
        unique := unique + [s[i]];
      }
      seen := seen + {s[i]};
    }
    assert s[..|s|] == s;
  }

  /** `keys` names each key of `from` once, and `values` holds what `from` has for them. */
  ghost predicate Lists<T(!new)>(from: map<string, T>, keys: seq<string>, values: seq<T>) {
    && NoDuplicates(keys) && |values| == |keys|
    && (forall i | 0 <= i < |keys| :: keys[i] in from && values[i] == from[keys[i]])
    && (forall key | key in from :: key in keys)
  }

  lemma ListsOneMore<T(!new)>(from: map<string, T>, keys: seq<string>, values: seq<T>, key: string, value: T)
    requires Lists(from, keys, values) && key !in from
    ensures Lists(from[key := value], keys + [key], values + [value])
  {
    forall k | k in from[key := value] ensures k in keys + [key] {}
  }

  /** The values of a map, in any order. */
  method ListValues<T(!new)>(from: map<string, T>) returns (values: seq<T>, ghost keys: seq<string>)
    ensures Lists(from, keys, values)
  {
    values, keys := [], [];
    var todo := from.Keys;
    ghost var visited: map<string, T> := map[];
    while todo != {}
      invariant todo <= from.Keys && visited == map key | key in from && key !in todo :: from[key]
      invariant Lists(visited, keys, values)
    {
      var key :| key in todo;
      ListsOneMore(visited, keys, values, key, from[key]);
      values, keys, visited := values + [from[key]], keys + [key], visited[key := from[key]];
      todo := todo - {key};
    }
    assert visited == from;
  }
}
