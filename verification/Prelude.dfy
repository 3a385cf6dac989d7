/** Types shared by the models of the single components. */
module Prelude {
  datatype Option<+T> = None | Some(value: T)

  ghost function Elements<T>(s: seq<T>): set<T> {
    set x | x in s
  }

  lemma ElementsOneMore<T>(s: seq<T>, x: T)
    ensures Elements(s + [x]) == Elements(s) + {x}
  {
  }

  lemma HasElement<T>(s: seq<T>)
    ensures s != [] ==> exists x :: x in s
  {
    if s != [] {
      assert s[0] in s;
    }
  }

  lemma EmptyElements<T>(s: seq<T>)
    ensures Elements(s) == {} <==> s == []
  {
    if s != [] {
      assert s[0] in Elements(s);
    }
  }

  /** Taking one more element off what is left to do. */
  lemma DoneOneMore<T>(all: set<T>, todo: set<T>, x: T)
    requires x in todo && x in all
    ensures all - (todo - {x}) == all - todo + {x}
  {
  }

  lemma {:induction false} SubsetCardinality<T>(small: set<T>, large: set<T>)
    requires small <= large
    ensures |small| <= |large|
  {
    if small != {} {
      var x :| x in small;
      SubsetCardinality(small - {x}, large - {x});
    }
  }

  lemma SubsetSmaller<T>(small: set<T>, large: set<T>, extra: T)
    requires small <= large && extra in large && extra !in small
    ensures |small| < |large|
  {
    assert small <= large - {extra};
    SubsetCardinality(small, large - {extra});
  }

  lemma SameSizeSubset<T>(small: set<T>, large: set<T>)
    requires small <= large && |small| == |large|
    ensures small == large
  {
    if small != large {
      var extra :| extra in large && extra !in small;
      SubsetSmaller(small, large, extra);
    }
  }

  /** The members of a batch with a bad result. */
  ghost function Bad(results: map<string, bool>): set<string> {
    set id | id in results && !results[id]
  }

  lemma BadOneMore(results: map<string, bool>, id: string, ok: bool)
    requires id !in results
    ensures |Bad(results[id := ok])| == |Bad(results)| + if ok then 0 else 1
  {
    assert Bad(results[id := ok]) == Bad(results) + if ok then {} else {id};
  }

  /** Whatever is outside the manager: the database server, the container engine, the file
      system. Every call into it may fail. `reliable` is the assumption that none does; only
      clauses that say what happens "without failures" use it. Where a batch goes on after a failure,
      the calls that failed are counted: no more than these may show in what it leaves. */
  class Environment {
    const reliable: bool

    ghost var failures: nat

    constructor (reliable: bool)
      ensures this.reliable == reliable
    {
      this.reliable := reliable;
    }

    /** No call can have failed since then, if none ever does. */
    ghost predicate Since(before: nat)
      reads this
    {
      before <= failures && (reliable ==> failures == before)
    }

    method Fails() returns (failed: bool)
      ensures reliable ==> !failed
    {
      failed := *;
      failed := failed && !reliable;
    }

    /** The same, counted. */
    method Attempt() returns (failed: bool)
      modifies this
      ensures reliable ==> !failed
      ensures failures == old(failures) + if failed then 1 else 0
    {
      failed := Fails();
      if failed {
        failures := failures + 1;
      }
    }
  }
}
