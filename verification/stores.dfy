/** Feature stores and the list operations the evaluator performs on them: finding the first
    element that satisfies a test, removing the first store of a given name, and sorting by
    `order`. */
module Stores {
  import opened Wrappers
  import opened Flags

  /** A named set of flag definitions. Stores with a lower `order` are consulted first. */
  datatype Store = Store(order: real, name: string, flags: map<string, FlagValue>)

  /** The index of the first element of `xs` that satisfies `p`, if any. */
  function FirstIndex<T>(xs: seq<T>, p: T -> bool): (r: Option<nat>)
    ensures r.Some? ==> r.value < |xs| && p(xs[r.value])
    ensures r.Some? ==> forall j :: 0 <= j < r.value ==> !p(xs[j])
    ensures r.None? ==> forall j :: 0 <= j < |xs| ==> !p(xs[j])
  {
    if |xs| == 0 then None
    else if p(xs[0]) then Some(0)
    else
      match FirstIndex(xs[1..], p)
      case None => None
      case Some(i) => Some(i + 1)
  }

  /** Non-decreasing by `order`. */
  predicate Sorted(xs: seq<Store>) {
    forall i, j :: 0 <= i < j < |xs| ==> xs[i].order <= xs[j].order
  }

  /** No store of `xs` is called `n`. */
  predicate NameFree(xs: seq<Store>, n: string) {
    forall i :: 0 <= i < |xs| ==> xs[i].name != n
  }

  /** No two stores of `xs` share a name. */
  predicate UniqueNames(xs: seq<Store>) {
    forall i, j :: 0 <= i < j < |xs| ==> xs[i].name != xs[j].name
  }

  /** The names the stores of `xs` bear. */
  function Names(xs: seq<Store>): set<string> {
    set x | x in xs :: x.name
  }

  /** Putting a store no later than the head of a sorted list in front keeps it sorted. */
  lemma SortedCons(a: Store, xs: seq<Store>)
    requires Sorted(xs)
    requires |xs| == 0 || a.order <= xs[0].order
    ensures Sorted([a] + xs)
  {
  }

  /** Putting a store with a fresh name in front of a list of distinct names keeps them
      distinct. */
  lemma UniqueCons(a: Store, xs: seq<Store>)
    requires UniqueNames(xs) && NameFree(xs, a.name)
    ensures UniqueNames([a] + xs)
  {
  }

  /** A list whose stores all come from a list free of `n` is itself free of `n`. */
  lemma NameFreeOfPermutation(ys: seq<Store>, xs: seq<Store>, n: string)
    requires multiset(ys) <= multiset(xs)
    requires NameFree(xs, n)
    ensures NameFree(ys, n)
  {
    forall i | 0 <= i < |ys|
      ensures ys[i].name != n
    {
      assert ys[i] in multiset(ys);
      assert ys[i] in xs;
    }
  }

  /** The recursive step of `Insert`: `xs[0]` goes in front of `s` inserted into the rest. */
  lemma InsertStep(s: Store, xs: seq<Store>, rest: seq<Store>)
    requires Sorted(xs) && |xs| > 0 && xs[0].order < s.order
    requires Sorted(rest) && multiset(rest) == multiset(xs[1..]) + multiset{s}
    requires |rest| > 0 && (rest[0] == s || (|xs[1..]| > 0 && rest[0] == xs[1..][0]))
    requires UniqueNames(xs[1..]) && NameFree(xs[1..], s.name) ==> UniqueNames(rest)
    ensures Sorted([xs[0]] + rest)
    ensures multiset([xs[0]] + rest) == multiset(xs) + multiset{s}
    ensures UniqueNames(xs) && NameFree(xs, s.name) ==> UniqueNames([xs[0]] + rest)
  {
    assert xs == [xs[0]] + xs[1..];
    SortedCons(xs[0], rest);
    if UniqueNames(xs) && NameFree(xs, s.name) {
      assert NameFree(xs[1..] + [s], xs[0].name);
      assert multiset(rest) == multiset(xs[1..] + [s]);
      NameFreeOfPermutation(rest, xs[1..] + [s], xs[0].name);
      UniqueCons(xs[0], rest);
    }
  }

  /** A list bears name `n` exactly when it is not free of `n`. */
  lemma NamesIffNotFree(xs: seq<Store>, n: string)
    ensures n in Names(xs) <==> !NameFree(xs, n)
  {
    if !NameFree(xs, n) {
      var i :| 0 <= i < |xs| && xs[i].name == n;
      assert xs[i] in xs;
    }
  }

  /** Inserts `s` into the sorted `xs`, before the first store whose order is not below it. */
  function Insert(s: Store, xs: seq<Store>): (r: seq<Store>)
    requires Sorted(xs)
    ensures Sorted(r)
    ensures multiset(r) == multiset(xs) + multiset{s}
    ensures |r| > 0 && (r[0] == s || (|xs| > 0 && r[0] == xs[0]))
    ensures UniqueNames(xs) && NameFree(xs, s.name) ==> UniqueNames(r)
  {
    if |xs| == 0 || s.order <= xs[0].order then
      SortedCons(s, xs);
      assert UniqueNames(xs) && NameFree(xs, s.name) ==> UniqueNames([s] + xs) by {
        if UniqueNames(xs) && NameFree(xs, s.name) { UniqueCons(s, xs); }
      }
      [s] + xs
    else
      var rest := Insert(s, xs[1..]);
      InsertStep(s, xs, rest);
      [xs[0]] + rest
  }

  /** The recursive step of `SortByOrder`: inserting the head into the sorted tail. */
  lemma SortStep(xs: seq<Store>, rest: seq<Store>)
    requires |xs| > 0
    requires Sorted(rest) && multiset(rest) == multiset(xs[1..])
    requires UniqueNames(xs[1..]) ==> UniqueNames(rest)
    ensures multiset(Insert(xs[0], rest)) == multiset(xs)
    ensures UniqueNames(xs) ==> UniqueNames(Insert(xs[0], rest))
  {
    assert xs == [xs[0]] + xs[1..];
    if UniqueNames(xs) {
      NameFreeOfPermutation(rest, xs[1..], xs[0].name);
    }
  }

  /** Sorts `xs` by `order` (insertion sort). */
  function SortByOrder(xs: seq<Store>): (r: seq<Store>)
    ensures Sorted(r)
    ensures multiset(r) == multiset(xs)
    ensures UniqueNames(xs) ==> UniqueNames(r)
  {
    if |xs| == 0 then []
    else
      var rest := SortByOrder(xs[1..]);
      SortStep(xs, rest);
      Insert(xs[0], rest)
  }

  /** The index of the first store of `xs` called `n`, if any. */
  function FirstNamed(xs: seq<Store>, n: string): (r: Option<nat>)
    ensures r.None? <==> NameFree(xs, n)
    ensures r.Some? ==> r.value < |xs| && xs[r.value].name == n && NameFree(xs[..r.value], n)
  {
    FirstIndex(xs, (x: Store) => x.name == n)
  }

  /** `xs` without its element at index `i`. */
  function Without<T>(xs: seq<T>, i: nat): (r: seq<T>)
    requires i < |xs|
    ensures |r| == |xs| - 1
    ensures forall j :: 0 <= j < i ==> r[j] == xs[j]
    ensures forall j :: i <= j < |r| ==> r[j] == xs[j + 1]
    ensures multiset(r) + multiset{xs[i]} == multiset(xs)
  {
    assert xs == xs[..i] + [xs[i]] + xs[i + 1..];
    xs[..i] + xs[i + 1..]
  }

  /** Removes the first store of `xs` called `n`, if there is one. */
  function RemoveFirstNamed(xs: seq<Store>, n: string): (r: seq<Store>)
    ensures NameFree(xs, n) ==> r == xs
    ensures !NameFree(xs, n) ==> r == Without(xs, FirstNamed(xs, n).value)
    ensures |r| == if NameFree(xs, n) then |xs| else |xs| - 1
    ensures multiset(r) <= multiset(xs)
  {
    match FirstNamed(xs, n)
    case None => xs
    case Some(i) => Without(xs, i)
  }

  /** With distinct names, removing the store called `n` leaves no store of that name, and the
      names stay distinct. */
  lemma RemoveFirstNamedUnique(xs: seq<Store>, n: string)
    requires UniqueNames(xs)
    ensures NameFree(RemoveFirstNamed(xs, n), n)
    ensures UniqueNames(RemoveFirstNamed(xs, n))
  {
    if !NameFree(xs, n) {
      var i := FirstNamed(xs, n).value;
      var r := Without(xs, i);
      forall j | 0 <= j < |r|
        ensures r[j].name != n
      {
        if j >= i { assert r[j] == xs[j + 1]; }
      }
      forall a, b | 0 <= a < b < |r|
        ensures r[a].name != r[b].name
      {
        var a' := if a < i then a else a + 1;
        var b' := if b < i then b else b + 1;
        assert r[a] == xs[a'] && r[b] == xs[b'];
      }
    }
  }

  /** Removing the first store called `n` removes no other name. */
  lemma RemoveFirstNamedNames(xs: seq<Store>, n: string)
    ensures Names(RemoveFirstNamed(xs, n)) + {n} == Names(xs) + {n}
  {
    var r := RemoveFirstNamed(xs, n);
    if !NameFree(xs, n) {
      var i := FirstNamed(xs, n).value;
      forall x | x in xs
        ensures x.name in Names(r) + {n}
      {
        var j :| 0 <= j < |xs| && xs[j] == x;
        if j < i {
          assert r[j] == x;
        } else if j > i {
          assert r[j - 1] == x;
        }
      }
      forall x | x in r
        ensures x.name in Names(xs)
      {
        assert x in multiset(r);
      }
    }
  }

  /** In a sorted list, a store whose order is strictly below every other store's is first. */
  lemma SortedLeastIsFirst(xs: seq<Store>, s: Store)
    requires Sorted(xs) && s in xs
    requires forall j :: 0 <= j < |xs| && xs[j] != s ==> s.order < xs[j].order
    ensures xs[0] == s
  {
  }

  /** Lists holding the same stores bear the same names. */
  lemma SameStoresSameNames(xs: seq<Store>, ys: seq<Store>)
    requires multiset(xs) == multiset(ys)
    ensures Names(xs) == Names(ys)
  {
    forall x | x in xs
      ensures x in ys
    {
      assert x in multiset(xs);
    }
    forall x | x in ys
      ensures x in xs
    {
      assert x in multiset(ys);
    }
  }

  /** With the other stores free of `s.name`, `s` is the only store of that name. */
  lemma OnlyBearer(stores: seq<Store>, kept: seq<Store>, s: Store)
    requires multiset(stores) == multiset(kept + [s])
    requires NameFree(kept, s.name)
    ensures s in stores
    ensures forall i :: 0 <= i < |stores| && stores[i].name == s.name ==> stores[i] == s
  {
    assert s in multiset(stores);
    forall i | 0 <= i < |stores| && stores[i].name == s.name
      ensures stores[i] == s
    {
      assert stores[i] in multiset(kept + [s]);
      assert stores[i] in kept + [s];
    }
  }

  /** Adds `s` to `xs`, replacing the first store of the same name, and sorts by order. */
  function Upsert(xs: seq<Store>, s: Store): (r: seq<Store>)
    ensures Sorted(r)
    ensures multiset(r) == multiset(RemoveFirstNamed(xs, s.name)) + multiset{s}
    ensures |r| == if NameFree(xs, s.name) then |xs| + 1 else |xs|
    ensures Names(r) == Names(xs) + {s.name}
    ensures UniqueNames(xs) ==> UniqueNames(r)
    ensures UniqueNames(xs) ==>
      s in r && forall i :: 0 <= i < |r| && r[i].name == s.name ==> r[i] == s
  {
    var kept := RemoveFirstNamed(xs, s.name);
    var r := SortByOrder(kept + [s]);
    UpsertSize(xs, s, kept, r);
    UpsertNames(xs, s, kept, r);
    UpsertUnique(xs, s, kept, r);
    r
  }

  /** The count `Upsert` promises: one more store, unless one was replaced. */
  lemma UpsertSize(xs: seq<Store>, s: Store, kept: seq<Store>, r: seq<Store>)
    requires kept == RemoveFirstNamed(xs, s.name)
    requires multiset(r) == multiset(kept + [s])
    ensures |r| == if NameFree(xs, s.name) then |xs| + 1 else |xs|
  {
    assert |r| == |multiset(r)| == |kept + [s]|;
  }

  /** The names `Upsert` promises: the old ones and the new store's. */
  lemma UpsertNames(xs: seq<Store>, s: Store, kept: seq<Store>, r: seq<Store>)
    requires kept == RemoveFirstNamed(xs, s.name)
    requires multiset(r) == multiset(kept + [s])
    ensures Names(r) == Names(xs) + {s.name}
  {
    RemoveFirstNamedNames(xs, s.name);
    SameStoresSameNames(r, kept + [s]);
    assert Names(kept + [s]) == Names(kept) + {s.name};
  }

  /** The uniqueness `Upsert` promises: names stay distinct and the new store is the only
      bearer of its name. */
  lemma UpsertUnique(xs: seq<Store>, s: Store, kept: seq<Store>, r: seq<Store>)
    requires kept == RemoveFirstNamed(xs, s.name)
    requires multiset(r) == multiset(kept + [s])
    requires UniqueNames(kept + [s]) ==> UniqueNames(r)
    ensures UniqueNames(xs) ==> UniqueNames(r)
    ensures UniqueNames(xs) ==>
      s in r && forall i :: 0 <= i < |r| && r[i].name == s.name ==> r[i] == s
  {
    if UniqueNames(xs) {
      RemoveFirstNamedUnique(xs, s.name);
      assert UniqueNames(kept + [s]);
      OnlyBearer(r, kept, s);
    }
  }

  /** A store whose order is below every existing store's is put first. */
  lemma UpsertLeastIsFirst(xs: seq<Store>, s: Store)
    requires forall i :: 0 <= i < |xs| ==> s.order < xs[i].order
    ensures |Upsert(xs, s)| > 0 && Upsert(xs, s)[0] == s
  {
    var r := Upsert(xs, s);
    var kept := RemoveFirstNamed(xs, s.name);
    forall j | 0 <= j < |r| && r[j] != s
      ensures s.order < r[j].order
    {
      assert r[j] in multiset(r);
      assert r[j] in multiset(kept);
      assert r[j] in multiset(xs);
    }
    assert s in multiset(r);
    SortedLeastIsFirst(r, s);
  }
}
