/** The list helpers of array.go: Filter, Map, ForEach, Unique, Find and Every.
    Go slices are sequences; a nil result slice is the empty sequence. */
module Arrays {
  import opened Types

  /** `sub` is obtained from `s` by deleting elements, keeping the rest in
      their original relative order. */
  ghost predicate IsSubsequence<T>(sub: seq<T>, s: seq<T>)
    decreases |s|
  {
    || |sub| == 0
    || (&& |s| > 0
        && ((sub[0] == s[0] && IsSubsequence(sub[1..], s[1..])) || IsSubsequence(sub, s[1..])))
  }

  /** No element occurs twice. */
  ghost predicate NoDuplicates<T>(s: seq<T>)
  {
    forall i, j :: 0 <= i < j < |s| ==> s[i] != s[j]
  }

  /** The position of the first occurrence of `x` in `s`. */
  function FirstIndex<T(==)>(s: seq<T>, x: T): (i: nat)
    requires x in s
    ensures i < |s| && s[i] == x
    ensures forall k :: 0 <= k < i ==> s[k] != x
    decreases |s|
  {
    if s[0] == x then 0 else 1 + FirstIndex(s[1..], x)
  }

  // ---------------------------------------------------------------- Filter

  /** The elements on which `fn` holds, in their original relative order. */
  function Filter<T>(list: seq<T>, fn: PredicateFunc<T>): (r: seq<T>)
    ensures |r| <= |list|
    ensures forall i :: 0 <= i < |r| ==> fn(r[i])
    decreases |list|
  {
    if |list| == 0 then []
    else
      var rest := Filter(list[1..], fn);
      if fn(list[0]) then [list[0]] + rest else rest
  }

  /** Filter keeps every occurrence of a value `fn` accepts and no occurrence
      of any other value. */
  lemma {:induction false} FilterCount<T>(list: seq<T>, fn: PredicateFunc<T>, x: T)
    ensures multiset(Filter(list, fn))[x] == if fn(x) then multiset(list)[x] else 0
    decreases |list|
  {
    if |list| > 0 {
      var rest := Filter(list[1..], fn);
      FilterCount(list[1..], fn, x);
      assert list == [list[0]] + list[1..];
      assert multiset(list) == multiset{list[0]} + multiset(list[1..]);
      if fn(list[0]) {
        assert multiset(Filter(list, fn)) == multiset{list[0]} + multiset(rest);
      }
    }
  }

  /** What Filter keeps is a subsequence of its input: the relative order of
      the kept elements is preserved. */
  lemma {:induction false} FilterSubsequence<T>(list: seq<T>, fn: PredicateFunc<T>)
    ensures IsSubsequence(Filter(list, fn), list)
    decreases |list|
  {
    if |list| > 0 {
      FilterSubsequence(list[1..], fn);
      var rest := Filter(list[1..], fn);
      if fn(list[0]) {
        assert ([list[0]] + rest)[1..] == rest;
      }
    }
  }

  // ---------------------------------------------------------------- Map

  /** One result per input element, at the same position. */
  function Map<T, K>(list: seq<T>, fn: MapperFunc<T, K>): (r: seq<K>)
    ensures |r| == |list|
    ensures forall i :: 0 <= i < |list| ==> r[i] == fn(list[i])
    decreases |list|
  {
    if |list| == 0 then [] else [fn(list[0])] + Map(list[1..], fn)
  }

  /** Mapping twice is mapping once with the composed function. */
  lemma MapFusion<T, K, L>(list: seq<T>, f: MapperFunc<T, K>, g: MapperFunc<K, L>)
    ensures Map(Map(list, f), g) == Map(list, x => g(f(x)))
  {}

  // ---------------------------------------------------------------- ForEach

  /** The callback of the source returns nothing; its effect is modelled as a
      transformer of an explicit world state `w`, so ForEach is the left fold
      of the callback over the list. */
  function ForEach<S, T>(list: seq<T>, fn: (S, T) -> S, w: S): S
    decreases |list|
  {
    if |list| == 0 then w else ForEach(list[1..], fn, fn(w, list[0]))
  }

  /** Iterating over a concatenation iterates over the first part, then the second. */
  lemma {:induction false} ForEachConcat<S, T>(a: seq<T>, b: seq<T>, fn: (S, T) -> S, w: S)
    ensures ForEach(a + b, fn, w) == ForEach(b, fn, ForEach(a, fn, w))
    decreases |a|
  {
    if |a| > 0 {
      assert (a + b)[0] == a[0];
      assert (a + b)[1..] == a[1..] + b;
      ForEachConcat(a[1..], b, fn, fn(w, a[0]));
    } else {
      assert a + b == b;
    }
  }

  /** A callback that records its argument sees every element exactly once,
      in index order. */
  lemma {:induction false} ForEachVisitsInOrder<T>(list: seq<T>, log: seq<T>)
    ensures ForEach(list, (l: seq<T>, x: T) => l + [x], log) == log + list
    decreases |list|
  {
    if |list| > 0 {
      ForEachVisitsInOrder(list[1..], log + [list[0]]);
      assert log + [list[0]] + list[1..] == log + list;
    }
  }

  // ---------------------------------------------------------------- Unique

  /** The loop of Unique with its cache: elements already in `cache` are
      skipped, the others are appended and added to the cache. The result is
      duplicate-free and holds exactly the list's uncached elements. */
  function UniqueFrom<T(==)>(list: seq<T>, cache: set<T>): (r: seq<T>)
    ensures NoDuplicates(r)
    ensures forall i :: 0 <= i < |r| ==> r[i] in list && r[i] !in cache
    ensures forall i :: 0 <= i < |list| && list[i] !in cache ==> list[i] in r
    decreases |list|
  {
    if |list| == 0 then []
    else
      var x := list[0];
      assert forall i :: 1 <= i < |list| ==> list[i] == list[1..][i - 1];
      if x in cache then UniqueFrom(list[1..], cache)
      else
        var rest := UniqueFrom(list[1..], cache + {x});
        var r := [x] + rest;
        assert forall i :: 1 <= i < |r| ==> r[i] == rest[i - 1];
        r
  }

  /** Elements of `r` appear in the order of their first occurrence in `list`. */
  ghost predicate InFirstOccurrenceOrder<T>(r: seq<T>, list: seq<T>)
  {
    forall i, j :: 0 <= i < j < |r| && r[i] in list && r[j] in list ==>
      FirstIndex(list, r[i]) < FirstIndex(list, r[j])
  }

  /** Elements of the tail, other than the head, keep their relative first
      occurrence order in the whole list. */
  lemma OrderInTail<T>(list: seq<T>, rest: seq<T>)
    requires |list| > 0
    requires forall i :: 0 <= i < |rest| ==> rest[i] in list[1..] && rest[i] != list[0]
    requires InFirstOccurrenceOrder(rest, list[1..])
    ensures InFirstOccurrenceOrder(rest, list)
  {}

  /** Putting the head in front of such tail elements keeps the order: the
      head occurs first. */
  lemma OrderWithHead<T>(list: seq<T>, rest: seq<T>)
    requires |list| > 0
    requires forall i :: 0 <= i < |rest| ==> rest[i] in list[1..] && rest[i] != list[0]
    requires InFirstOccurrenceOrder(rest, list)
    ensures InFirstOccurrenceOrder([list[0]] + rest, list)
  {}

  /** The loop keeps each element at its first occurrence. */
  lemma {:induction false} UniqueFromOrder<T>(list: seq<T>, cache: set<T>)
    ensures InFirstOccurrenceOrder(UniqueFrom(list, cache), list)
    decreases |list|
  {
    if |list| > 0 {
      var x := list[0];
      var cache' := if x in cache then cache else cache + {x};
      var rest := UniqueFrom(list[1..], cache');
      UniqueFromOrder(list[1..], cache');
      OrderInTail(list, rest);
      if x !in cache {
        OrderWithHead(list, rest);
      }
    }
  }

  /** The distinct elements of the list, each kept at its first occurrence:
      no duplicates, exactly the input's elements, ordered by first occurrence. */
  function Unique<T(==)>(list: seq<T>): (r: seq<T>)
    ensures NoDuplicates(r)
    ensures forall i :: 0 <= i < |r| ==> r[i] in list
    ensures forall i :: 0 <= i < |list| ==> list[i] in r
    ensures InFirstOccurrenceOrder(r, list)
  {
    UniqueFromOrder(list, {});
    UniqueFrom(list, {})
  }

  /** A duplicate-free list none of whose elements is cached passes through
      the loop unchanged. */
  lemma {:induction false} UniqueFromKeepsFresh<T>(list: seq<T>, cache: set<T>)
    requires NoDuplicates(list)
    requires forall i :: 0 <= i < |list| ==> list[i] !in cache
    ensures UniqueFrom(list, cache) == list
    decreases |list|
  {
    if |list| > 0 {
      var x := list[0];
      assert forall i :: 0 <= i < |list[1..]| ==> list[1..][i] == list[i + 1];
      UniqueFromKeepsFresh(list[1..], cache + {x});
    }
  }

  /** A list that is already duplicate-free comes back unchanged. */
  lemma UniqueOfDistinct<T>(list: seq<T>)
    requires NoDuplicates(list)
    ensures Unique(list) == list
  {
    UniqueFromKeepsFresh(list, {});
  }

  /** Unique is idempotent. */
  lemma UniqueIdempotent<T>(list: seq<T>)
    ensures Unique(Unique(list)) == Unique(list)
  {
    UniqueOfDistinct(Unique(list));
  }

  // ---------------------------------------------------------------- Find

  /** The first element satisfying `fn` together with `true`, or the zero
      value of the element type (a parameter here) together with `false`. */
  function Find<T>(list: seq<T>, fn: PredicateFunc<T>, zero: T): (r: (T, bool))
    ensures r.1 <==> exists i :: 0 <= i < |list| && fn(list[i])
    ensures r.1 ==> exists i :: 0 <= i < |list| && list[i] == r.0 && fn(list[i]) && forall j :: 0 <= j < i ==> !fn(list[j])
    ensures !r.1 ==> r.0 == zero
    decreases |list|
  {
    if |list| == 0 then (zero, false)
    else if fn(list[0]) then (list[0], true)
    else
      var r := Find(list[1..], fn, zero);
      assert forall i :: 1 <= i < |list| ==> list[i] == list[1..][i - 1];
      assert r.1 ==> exists i :: 1 <= i < |list| && list[i] == r.0 && fn(list[i]) && forall j :: 0 <= j < i ==> !fn(list[j]);
      r
  }

  // ---------------------------------------------------------------- Every

  /** True exactly when every element satisfies `fn` (so true on the empty list). */
  function Every<T>(list: seq<T>, fn: PredicateFunc<T>): (r: bool)
    ensures r <==> forall i :: 0 <= i < |list| ==> fn(list[i])
    decreases |list|
  {
    if |list| == 0 then true
    else if !fn(list[0]) then false
    else
      assert forall i :: 1 <= i < |list| ==> list[i] == list[1..][i - 1];
      Every(list[1..], fn)
  }

  // ---------------------------------------------------------------- cross-checks

  /** Every holds exactly when Filter keeps the whole list. */
  lemma {:induction false} EveryIffFilterKeepsAll<T>(list: seq<T>, fn: PredicateFunc<T>)
    ensures Every(list, fn) <==> Filter(list, fn) == list
    decreases |list|
  {
    if |list| > 0 {
      EveryIffFilterKeepsAll(list[1..], fn);
      if Filter(list, fn) == list {
        assert forall i :: 0 <= i < |list| ==> fn(list[i]) by {
          forall i | 0 <= i < |list| ensures fn(list[i]) {
            assert list[i] == Filter(list, fn)[i];
          }
        }
      }
      if Every(list, fn) {
        assert Every(list[1..], fn);
        assert Filter(list, fn) == [list[0]] + Filter(list[1..], fn);
        assert list == [list[0]] + list[1..];
      }
    }
  }

  /** Find returns the head of what Filter keeps, and fails exactly when
      Filter keeps nothing. */
  lemma {:induction false} FindIsFirstOfFilter<T>(list: seq<T>, fn: PredicateFunc<T>, zero: T)
    ensures var f := Filter(list, fn);
            Find(list, fn, zero) == if |f| == 0 then (zero, false) else (f[0], true)
    decreases |list|
  {
    if |list| > 0 && !fn(list[0]) {
      FindIsFirstOfFilter(list[1..], fn, zero);
    }
  }
}
