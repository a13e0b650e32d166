/**
 The contract of Go's sort package. StableSort stands for sort.SliceStable; the
 lemma StableSortIsUnique shows that nothing depends on the algorithm chosen here.
 UnstableSort stands for sort.Slice, whose callers may rely on less.
 */
module Sorting {
  import opened Prelude

  /* less is a strict weak order: what Go's sort package asks of it. */
  ghost predicate StrictWeakOrder<T(!new)>(less: (T, T) -> bool)
  {
    && (forall x :: !less(x, x))
    && (forall x, y, z :: less(x, y) && less(y, z) ==> less(x, z))
    && (forall x, y, z :: !less(x, y) && !less(y, z) ==> !less(x, z))
  }

  predicate Equivalent<T>(less: (T, T) -> bool, x: T, y: T)
  {
    !less(x, y) && !less(y, x)
  }

  ghost predicate Sorted<T>(less: (T, T) -> bool, xs: seq<T>)
  {
    forall i, j :: 0 <= i < j < |xs| ==> !less(xs[j], xs[i])
  }

  function Class<T>(less: (T, T) -> bool, x: T, xs: seq<T>): seq<T>
  {
    Filter(y => Equivalent(less, x, y), xs)
  }

  /* ys lists the elements of each equivalence class in the order xs lists them. */
  ghost predicate SameClasses<T(!new)>(less: (T, T) -> bool, xs: seq<T>, ys: seq<T>)
  {
    forall x :: Class(less, x, xs) == Class(less, x, ys)
  }

  function Insert<T>(less: (T, T) -> bool, x: T, xs: seq<T>): seq<T>
  {
    if xs == [] || !less(xs[0], x) then [x] + xs else [xs[0]] + Insert(less, x, xs[1..])
  }

  function StableSort<T>(less: (T, T) -> bool, xs: seq<T>): seq<T>
  {
    if xs == [] then [] else Insert(less, xs[0], StableSort(less, xs[1..]))
  }

  lemma {:induction false} InsertPermutes<T>(less: (T, T) -> bool, x: T, xs: seq<T>)
    ensures multiset(Insert(less, x, xs)) == multiset(xs) + multiset{x}
  {
    if xs != [] && less(xs[0], x) {
      InsertPermutes(less, x, xs[1..]);
      assert xs == [xs[0]] + xs[1..];
    }
  }

  lemma {:induction false} InsertSorts<T(!new)>(less: (T, T) -> bool, x: T, xs: seq<T>)
    requires StrictWeakOrder(less) && Sorted(less, xs)
    ensures Sorted(less, Insert(less, x, xs))
  {
    if xs == [] {
    } else if !less(xs[0], x) {
      var ys := [x] + xs;
      forall j | 0 < j < |ys| ensures !less(ys[j], x) {
        if j > 1 {
          assert !less(ys[j], ys[1]) && !less(ys[1], x);
        }
      }
    } else {
      InsertSorts(less, x, xs[1..]);
      InsertPermutes(less, x, xs[1..]);
      var tail := Insert(less, x, xs[1..]);
      forall j | 0 <= j < |tail| ensures !less(tail[j], xs[0]) {
        assert tail[j] in multiset(tail);
        if tail[j] != x {
          assert tail[j] in xs[1..];
        }
      }
    }
  }

  lemma ClassCons<T>(less: (T, T) -> bool, z: T, x: T, xs: seq<T>)
    ensures Class(less, z, [x] + xs) == (if Equivalent(less, z, x) then [x] else []) + Class(less, z, xs)
  {
    assert ([x] + xs)[1..] == xs;
  }

  lemma {:induction false} InsertKeepsClasses<T(!new)>(less: (T, T) -> bool, x: T, xs: seq<T>, z: T)
    requires StrictWeakOrder(less)
    ensures Class(less, z, Insert(less, x, xs)) == Class(less, z, [x] + xs)
  {
    if xs != [] && less(xs[0], x) {
      InsertKeepsClasses(less, x, xs[1..], z);
      assert !(Equivalent(less, z, x) && Equivalent(less, z, xs[0]));
      ClassCons(less, z, xs[0], Insert(less, x, xs[1..]));
      ClassCons(less, z, x, xs[1..]);
      ClassCons(less, z, x, xs);
    }
  }

  /* StableSort permutes, sorts, and keeps the order inside every class. */
  lemma SameClassesCons<T(!new)>(less: (T, T) -> bool, x: T, xs: seq<T>, ys: seq<T>)
    requires StrictWeakOrder(less) && SameClasses(less, xs, ys)
    ensures SameClasses(less, [x] + xs, Insert(less, x, ys))
  {
    forall z ensures Class(less, z, [x] + xs) == Class(less, z, Insert(less, x, ys)) {
      InsertKeepsClasses(less, x, ys, z);
      ClassCons(less, z, x, xs);
      ClassCons(less, z, x, ys);
    }
  }

  lemma {:induction false} StableSortCorrect<T(!new)>(less: (T, T) -> bool, xs: seq<T>)
    requires StrictWeakOrder(less)
    ensures multiset(StableSort(less, xs)) == multiset(xs)
    ensures |StableSort(less, xs)| == |xs|
    ensures Sorted(less, StableSort(less, xs))
    ensures SameClasses(less, xs, StableSort(less, xs))
  {
    if xs != [] {
      var tail := StableSort(less, xs[1..]);
      StableSortCorrect(less, xs[1..]);
      InsertPermutes(less, xs[0], tail);
      InsertSorts(less, xs[0], tail);
      assert xs == [xs[0]] + xs[1..];
      SameClassesCons(less, xs[0], xs[1..], tail);
    }
    assert |multiset(StableSort(less, xs))| == |multiset(xs)|;
  }

  lemma SortedHead<T(!new)>(less: (T, T) -> bool, xs: seq<T>, x: T)
    requires StrictWeakOrder(less) && Sorted(less, xs) && x in xs
    ensures !less(x, xs[0])
  {
    var k :| 0 <= k < |xs| && xs[k] == x;
  }

  lemma HeadClass<T(!new)>(less: (T, T) -> bool, xs: seq<T>)
    requires StrictWeakOrder(less)
    ensures xs == [] || Class(less, xs[0], xs) != []
  {
  }

  /* A sorted sequence with given classes is unique, so every stable sort agrees. */
  lemma {:induction false} SortedClassesUnique<T(!new)>(less: (T, T) -> bool, ys: seq<T>, zs: seq<T>)
    requires StrictWeakOrder(less) && Sorted(less, ys) && Sorted(less, zs)
    requires SameClasses(less, ys, zs)
    ensures ys == zs
    decreases |ys|
  {
    if ys == [] {
      assert forall z :: Class(less, z, zs) == [];
      HeadClass(less, zs);
      return;
    }
    var y := ys[0];
    assert Class(less, y, ys) == Class(less, y, zs);
    assert y in Class(less, y, ys);
    FilterMembers(w => Equivalent(less, y, w), zs);
    assert y in zs;
    var z := zs[0];
    assert Class(less, z, ys) == Class(less, z, zs);
    assert z in Class(less, z, zs);
    FilterMembers(w => Equivalent(less, z, w), ys);
    SortedHead(less, ys, z);
    SortedHead(less, zs, y);
    assert Equivalent(less, y, z);
    assert Class(less, y, ys)[0] == y && Class(less, y, zs)[0] == z;
    forall x ensures Class(less, x, ys[1..]) == Class(less, x, zs[1..]) {
      assert Class(less, x, ys) == Class(less, x, zs);
      if Equivalent(less, x, y) {
        assert Class(less, x, ys)[1..] == Class(less, x, ys[1..]);
        assert Class(less, x, zs)[1..] == Class(less, x, zs[1..]);
      }
    }
    SortedClassesUnique(less, ys[1..], zs[1..]);
    assert ys == [y] + ys[1..] && zs == [z] + zs[1..];
  }

  lemma StableSortIsUnique<T(!new)>(less: (T, T) -> bool, xs: seq<T>, ys: seq<T>)
    requires StrictWeakOrder(less) && Sorted(less, ys) && SameClasses(less, xs, ys)
    ensures ys == StableSort(less, xs)
  {
    StableSortCorrect(less, xs);
    var zs := StableSort(less, xs);
    forall x ensures Class(less, x, ys) == Class(less, x, zs) {
      assert Class(less, x, xs) == Class(less, x, ys);
      assert Class(less, x, xs) == Class(less, x, zs);
    }
    SortedClassesUnique(less, ys, zs);
  }

  lemma InsertAgrees<T>(less: (T, T) -> bool, less': (T, T) -> bool, x: T, xs: seq<T>)
    requires forall y :: y in xs ==> less(y, x) == less'(y, x)
    ensures Insert(less, x, xs) == Insert(less', x, xs)
  {
  }

  /* Orders that agree on the elements sort them alike. */
  lemma {:induction false} StableSortAgrees<T(!new)>(less: (T, T) -> bool, less': (T, T) -> bool, xs: seq<T>)
    requires forall x, y :: x in xs && y in xs ==> less(x, y) == less'(x, y)
    ensures StableSort(less, xs) == StableSort(less', xs)
    ensures multiset(StableSort(less, xs)) == multiset(xs)
  {
    if xs != [] {
      var tail := xs[1..];
      assert xs == [xs[0]] + tail;
      StableSortAgrees(less, less', tail);
      PermutedMembers(StableSort(less, tail), tail);
      InsertAgrees(less, less', xs[0], StableSort(less, tail));
      InsertPermutes(less, xs[0], StableSort(less, tail));
    }
  }

  lemma TailMultiset<T>(xs: seq<T>)
    requires xs != []
    ensures multiset(xs[1..]) == multiset(xs) - multiset{xs[0]}
  {
    assert xs == [xs[0]] + xs[1..];
  }

  /* With no two different elements tied, a sorted permutation is unique: even sort.Slice has one answer. */
  lemma {:induction false} SortedPermutationUnique<T(!new)>(less: (T, T) -> bool, ys: seq<T>, zs: seq<T>)
    requires StrictWeakOrder(less) && Sorted(less, ys) && Sorted(less, zs)
    requires multiset(ys) == multiset(zs)
    requires forall x, y :: x in ys && y in ys && Equivalent(less, x, y) ==> x == y
    ensures ys == zs
    decreases |ys|
  {
    if ys == [] {
      assert |multiset(zs)| == |zs|;
      return;
    }
    PermutedMembers(ys, zs);
    assert ys[0] in zs;
    assert zs[0] in ys;
    SortedHead(less, ys, zs[0]);
    SortedHead(less, zs, ys[0]);
    assert ys[0] == zs[0];
    TailMultiset(ys);
    TailMultiset(zs);
    SortedPermutationUnique(less, ys[1..], zs[1..]);
    assert ys == [ys[0]] + ys[1..] && zs == [zs[0]] + zs[1..];
  }

  /* sort.Slice: a sorted permutation, with no promise about ties. */
  method UnstableSort<T(!new)>(less: (T, T) -> bool, xs: seq<T>) returns (ys: seq<T>)
    requires StrictWeakOrder(less)
    ensures multiset(ys) == multiset(xs) && Sorted(less, ys)
  {
    StableSortCorrect(less, xs);
    ys := StableSort(less, xs);
  }
}
