/** Sequence helpers shared by the SQL semantics, the rewrite rules and the search. */
module Lists {

  function Filter<T(!new)>(keep: T -> bool, s: seq<T>): (r: seq<T>)
    ensures |r| <= |s|
    ensures forall x :: x in r <==> x in s && keep(x)
  {
    if s == [] then []
    else (if keep(s[0]) then [s[0]] else []) + Filter(keep, s[1..])
  }

  function Map<T, U>(f: T -> U, s: seq<T>): (r: seq<U>)
    ensures |r| == |s|
    ensures forall i :: 0 <= i < |s| ==> r[i] == f(s[i])
  {
    seq(|s|, i requires 0 <= i < |s| => f(s[i]))
  }

  function FlatMap<T, U>(f: T -> seq<U>, s: seq<T>): seq<U> {
    if s == [] then [] else f(s[0]) + FlatMap(f, s[1..])
  }

  lemma MapSource<T, U(!new)>(f: T -> U, s: seq<T>, y: U) returns (x: T)
    requires y in Map(f, s)
    ensures x in s && f(x) == y
  {
    var i :| 0 <= i < |Map(f, s)| && Map(f, s)[i] == y;
    x := s[i];
  }

  predicate NoDuplicates<T(==)>(s: seq<T>) {
    forall i, j :: 0 <= i < j < |s| ==> s[i] != s[j]
  }

  /** The first occurrence of every element, in order. */
  function Dedup<T(==, !new)>(s: seq<T>): (r: seq<T>)
    ensures |r| <= |s|
    decreases |s|
  {
    if s == [] then [] else [s[0]] + Dedup(Filter(Differs(s[0]), s[1..]))
  }

  function Differs<T(==)>(x: T): T -> bool {
    y => y != x
  }

  lemma {:induction false} FilterSame<T(!new)>(f: T -> bool, g: T -> bool, s: seq<T>)
    requires forall x :: x in s ==> f(x) == g(x)
    ensures Filter(f, s) == Filter(g, s)
  {
    if s != [] {
      FilterSame(f, g, s[1..]);
    }
  }

  lemma {:induction false} FilterAll<T(!new)>(f: T -> bool, s: seq<T>)
    requires forall x :: x in s ==> f(x)
    ensures Filter(f, s) == s
  {
    if s != [] {
      FilterAll(f, s[1..]);
    }
  }

  lemma {:induction false} FilterNone<T(!new)>(f: T -> bool, s: seq<T>)
    requires forall x :: x in s ==> !f(x)
    ensures Filter(f, s) == []
  {
    if s != [] {
      FilterNone(f, s[1..]);
    }
  }

  lemma {:induction false} FilterAppend<T(!new)>(f: T -> bool, s: seq<T>, t: seq<T>)
    ensures Filter(f, s + t) == Filter(f, s) + Filter(f, t)
  {
    if s == [] {
      assert s + t == t;
    } else {
      assert (s + t)[1..] == s[1..] + t;
      FilterAppend(f, s[1..], t);
    }
  }

  lemma {:induction false} FilterBoth<T(!new)>(f: T -> bool, g: T -> bool, both: T -> bool, s: seq<T>)
    requires forall x :: x in s ==> both(x) == (f(x) && g(x))
    ensures Filter(f, Filter(g, s)) == Filter(both, s)
  {
    if s != [] {
      FilterBoth(f, g, both, s[1..]);
      FilterAppend(f, if g(s[0]) then [s[0]] else [], Filter(g, s[1..]));
    }
  }

  lemma InCons<T>(x: T, y: T, s: seq<T>)
    ensures x in [y] + s <==> x == y || x in s
  {
    if x in s {
      var i :| 0 <= i < |s| && s[i] == x;
      assert ([y] + s)[i + 1] == x;
    }
    assert ([y] + s)[0] == y;
  }

  lemma BagStep<T>(x: T, s: seq<T>)
    ensures multiset([x] + s) == multiset{x} + multiset(s)
  {
  }

  lemma {:induction false} FilterCount<T(!new)>(f: T -> bool, s: seq<T>, x: T)
    ensures multiset(Filter(f, s))[x] == if f(x) then multiset(s)[x] else 0
  {
    if s != [] {
      FilterCount(f, s[1..], x);
      assert s == [s[0]] + s[1..];
    }
  }

  /** A list is what passes a test and what does not. */
  lemma FilterSplits<T(!new)>(f: T -> bool, g: T -> bool, s: seq<T>)
    requires forall x :: x in s ==> g(x) == !f(x)
    ensures multiset(Filter(f, s)) + multiset(Filter(g, s)) == multiset(s)
  {
    forall x ensures multiset(Filter(f, s))[x] + multiset(Filter(g, s))[x] == multiset(s)[x] {
      FilterCount(f, s, x);
      FilterCount(g, s, x);
      assert x in s <==> x in multiset(s);
    }
  }

  lemma {:induction false} FilterMap<T(!new), U(!new)>(f: U -> bool, h: T -> U, fh: T -> bool, s: seq<T>)
    requires forall x :: x in s ==> fh(x) == f(h(x))
    ensures Filter(f, Map(h, s)) == Map(h, Filter(fh, s))
  {
    if s != [] {
      assert Map(h, s)[1..] == Map(h, s[1..]);
      FilterMap(f, h, fh, s[1..]);
    }
  }

  lemma {:induction false} FlatMapAppend<T(!new), U(!new)>(f: T -> seq<U>, s: seq<T>, t: seq<T>)
    ensures FlatMap(f, s + t) == FlatMap(f, s) + FlatMap(f, t)
  {
    if s == [] {
      assert s + t == t;
    } else {
      assert (s + t)[1..] == s[1..] + t;
      FlatMapAppend(f, s[1..], t);
    }
  }

  lemma {:induction false} FlatMapSame<T(!new), U(!new)>(f: T -> seq<U>, g: T -> seq<U>, s: seq<T>)
    requires forall x :: x in s ==> f(x) == g(x)
    ensures FlatMap(f, s) == FlatMap(g, s)
  {
    if s != [] {
      FlatMapSame(f, g, s[1..]);
    }
  }

  /** Filtering after expanding is expanding with the filter inside. */
  lemma {:induction false} FilterFlatMap<T(!new), U(!new)>(keep: U -> bool, f: T -> seq<U>, g: T -> seq<U>, s: seq<T>)
    requires forall x :: x in s ==> g(x) == Filter(keep, f(x))
    ensures Filter(keep, FlatMap(f, s)) == FlatMap(g, s)
  {
    if s != [] {
      FilterAppend(keep, f(s[0]), FlatMap(f, s[1..]));
      FilterFlatMap(keep, f, g, s[1..]);
    }
  }

  /** Dropping inputs that expand to nothing changes nothing. */
  lemma {:induction false} FlatMapFilter<T(!new), U(!new)>(f: T -> seq<U>, g: T -> seq<U>, keep: T -> bool, s: seq<T>)
    requires forall x :: x in s ==> f(x) == if keep(x) then g(x) else []
    ensures FlatMap(f, s) == FlatMap(g, Filter(keep, s))
  {
    if s != [] {
      FlatMapFilter(f, g, keep, s[1..]);
      FlatMapAppend(g, if keep(s[0]) then [s[0]] else [], Filter(keep, s[1..]));
    }
  }

  lemma {:induction false} FlatMapSingle<T(!new), U(!new)>(f: T -> seq<U>, h: T -> U, s: seq<T>)
    requires forall x :: x in s ==> f(x) == [h(x)]
    ensures FlatMap(f, s) == Map(h, s)
  {
    if s != [] {
      assert Map(h, s)[1..] == Map(h, s[1..]);
      FlatMapSingle(f, h, s[1..]);
    }
  }

  lemma {:induction false} MapFlatMap<T(!new), U(!new), V(!new)>(h: U -> V, f: T -> seq<U>, g: T -> seq<V>, s: seq<T>)
    requires forall x :: x in s ==> g(x) == Map(h, f(x))
    ensures Map(h, FlatMap(f, s)) == FlatMap(g, s)
  {
    if s != [] {
      MapFlatMap(h, f, g, s[1..]);
    }
  }

  lemma InFlatMap<T(!new), U(!new)>(f: T -> seq<U>, s: seq<T>, y: U)
    ensures y in FlatMap(f, s) <==> exists x :: x in s && y in f(x)
  {
  }

  lemma {:induction false} DedupNoDuplicates<T(!new)>(s: seq<T>)
    requires NoDuplicates(s)
    ensures Dedup(s) == s
  {
    if s != [] {
      forall y | y in s[1..] ensures y != s[0] {
      }
      FilterAll(Differs(s[0]), s[1..]);
      DedupNoDuplicates(s[1..]);
    }
  }

  lemma {:induction false} DedupMembers<T(!new)>(s: seq<T>, x: T)
    ensures x in Dedup(s) <==> x in s
    decreases |s|
  {
    if s != [] {
      DedupMembers(Filter(Differs(s[0]), s[1..]), x);
      assert s == [s[0]] + s[1..];
    }
  }

  lemma {:induction false} DedupDistinct<T(!new)>(s: seq<T>)
    ensures NoDuplicates(Dedup(s))
    decreases |s|
  {
    if s != [] {
      var rest := Dedup(Filter(Differs(s[0]), s[1..]));
      DedupDistinct(Filter(Differs(s[0]), s[1..]));
      forall j | 0 <= j < |rest| ensures rest[j] != s[0] {
        DedupMembers(Filter(Differs(s[0]), s[1..]), rest[j]);
      }
    }
  }

  lemma {:induction false} FilterStrict<T(!new)>(f: T -> bool, s: seq<T>)
    requires exists x :: x in s && !f(x)
    ensures |Filter(f, s)| < |s|
  {
    if f(s[0]) {
      var x :| x in s && !f(x);
      assert x in s[1..];
      FilterStrict(f, s[1..]);
    }
  }

  /** Removing duplicates keeps the bag exactly when there was nothing to remove. */
  lemma {:induction false} DedupKeepsBag<T(!new)>(s: seq<T>)
    ensures multiset(Dedup(s)) == multiset(s) <==> NoDuplicates(s)
    ensures !NoDuplicates(s) ==> |Dedup(s)| < |s|
  {
    if NoDuplicates(s) {
      DedupNoDuplicates(s);
    } else {
      DedupShorter(s);
      assert |multiset(Dedup(s))| == |Dedup(s)| && |multiset(s)| == |s|;
    }
  }

  lemma {:induction false} DedupShorter<T(!new)>(s: seq<T>)
    requires !NoDuplicates(s)
    ensures |Dedup(s)| < |s|
    decreases |s|
  {
    if s[0] in s[1..] {
      FilterStrict(Differs(s[0]), s[1..]);
    } else {
      FilterAll(Differs(s[0]), s[1..]);
      assert !NoDuplicates(s[1..]) by {
        var i, j :| 0 <= i < j < |s| && s[i] == s[j];
        assert s[j] == s[1..][j - 1];
        assert s[1..][i - 1] == s[1..][j - 1];
      }
      DedupShorter(s[1..]);
    }
  }

  lemma {:induction false} DedupFilter<T(!new)>(f: T -> bool, s: seq<T>)
    ensures Dedup(Filter(f, s)) == Filter(f, Dedup(s))
    decreases |s|
  {
    if s != [] {
      var rest := Filter(Differs(s[0]), s[1..]);
      var both := (y: T) => f(y) && y != s[0];
      DedupFilter(f, rest);
      FilterAppend(f, [s[0]], Dedup(rest));
      FilterBoth(f, Differs(s[0]), both, s[1..]);
      FilterBoth(Differs(s[0]), f, both, s[1..]);
      assert Filter(f, [s[0]]) == if f(s[0]) then [s[0]] else [];
      if f(s[0]) {
        assert Filter(f, s) == [s[0]] + Filter(f, s[1..]);
      } else {
        assert Filter(f, s) == Filter(f, s[1..]);
        FilterSame(f, both, s[1..]) by {
        }
      }
    }
  }
}
