/** Values and sequence facts shared by every module. */
module Prelude {

  datatype Option<+T> = None | Some(value: T)

  datatype Result<+T, +E> = Ok(value: T) | Err(error: E)

  newtype Byte = b: int | 0 <= b < 256

  type Bytes = seq<Byte>

  /* Go's `<` on strings: lexicographic, a proper prefix being smaller. */
  predicate StringLess(a: string, b: string)
  {
    b != "" && (a == "" || a[0] < b[0] || (a[0] == b[0] && StringLess(a[1..], b[1..])))
  }

  /* a comes before b at position k: it ends there, or has the lesser character. */
  predicate LessAt(a: string, b: string, k: nat)
  {
    k <= |a| && k < |b| && a[..k] == b[..k] && (k == |a| || a[k] < b[k])
  }

  /* One string is less than another exactly when it is at the first position where they differ. */
  lemma {:induction false} StringLessIsLexicographic(a: string, b: string)
    ensures StringLess(a, b) <==> exists k: nat :: LessAt(a, b, k)
  {
    if b != "" && (a == "" || a[0] < b[0]) {
      assert LessAt(a, b, 0);
    } else if b != "" && a[0] == b[0] {
      StringLessIsLexicographic(a[1..], b[1..]);
      if k: nat :| LessAt(a[1..], b[1..], k) {
        assert a[..k + 1] == [a[0]] + a[1..][..k] && b[..k + 1] == [b[0]] + b[1..][..k];
        assert LessAt(a, b, k + 1);
      }
      if k: nat :| LessAt(a, b, k) {
        assert k > 0;
        assert a[1..][..k - 1] == a[..k][1..] && b[1..][..k - 1] == b[..k][1..];
        assert LessAt(a[1..], b[1..], k - 1);
      }
    } else {
      forall k: nat ensures !LessAt(a, b, k) {
        if 0 < k <= |a| && k < |b| {
          assert a[..k][0] == a[0] && b[..k][0] == b[0];
        }
      }
    }
  }

  lemma {:induction false} StringLessTrichotomy(a: string, b: string)
    ensures !(StringLess(a, b) && StringLess(b, a))
    ensures a == b <==> !StringLess(a, b) && !StringLess(b, a)
  {
    if a != "" && b != "" && a[0] == b[0] {
      StringLessTrichotomy(a[1..], b[1..]);
      assert a == [a[0]] + a[1..] && b == [b[0]] + b[1..];
    }
  }

  lemma {:induction false} StringLessTransitive(a: string, b: string, c: string)
    requires StringLess(a, b) && StringLess(b, c)
    ensures StringLess(a, c)
  {
    if a != "" && a[0] == b[0] && b[0] == c[0] {
      StringLessTransitive(a[1..], b[1..], c[1..]);
    }
  }

  function Map<T, U>(f: T -> U, xs: seq<T>): (ys: seq<U>)
    ensures |ys| == |xs|
    ensures forall i :: 0 <= i < |xs| ==> ys[i] == f(xs[i])
  {
    seq(|xs|, i requires 0 <= i < |xs| => f(xs[i]))
  }

  /* The elements of xs that satisfy keep, in order. */
  function Filter<T>(keep: T -> bool, xs: seq<T>): seq<T>
  {
    if xs == [] then []
    else if keep(xs[0]) then [xs[0]] + Filter(keep, xs[1..])
    else Filter(keep, xs[1..])
  }

  lemma {:induction false} FilterMembers<T>(keep: T -> bool, xs: seq<T>)
    ensures |Filter(keep, xs)| <= |xs|
    ensures forall y :: y in Filter(keep, xs) <==> y in xs && keep(y)
  {
    if xs != [] {
      FilterMembers(keep, xs[1..]);
      assert xs == [xs[0]] + xs[1..];
    }
  }

  lemma FilterSingle<T>(keep: T -> bool, x: T)
    ensures Filter(keep, [x]) == if keep(x) then [x] else []
  {
    assert |[x][1..]| == 0;
  }

  lemma {:induction false} FilterAppend<T>(keep: T -> bool, xs: seq<T>, ys: seq<T>)
    ensures Filter(keep, xs + ys) == Filter(keep, xs) + Filter(keep, ys)
  {
    if xs == [] {
      assert xs + ys == ys;
    } else {
      assert (xs + ys)[1..] == xs[1..] + ys;
      FilterAppend(keep, xs[1..], ys);
    }
  }

  lemma FilterSnoc<T>(keep: T -> bool, xs: seq<T>, y: T)
    ensures Filter(keep, xs + [y]) == Filter(keep, xs) + (if keep(y) then [y] else [])
  {
    FilterAppend(keep, xs, [y]);
  }

  /* Filtering keeps the multiplicity of every element that passes. */
  lemma {:induction false} FilterMultiplicity<T>(keep: T -> bool, xs: seq<T>, x: T)
    ensures multiset(Filter(keep, xs))[x] == if keep(x) then multiset(xs)[x] else 0
  {
    if xs != [] {
      FilterMultiplicity(keep, xs[1..], x);
      assert multiset(xs) == multiset([xs[0]] + xs[1..]) by {
        assert xs == [xs[0]] + xs[1..];
      }
    }
  }

  lemma TakeOut<T>(xs: seq<T>, ys: seq<T>) returns (k: nat)
    requires xs != [] && multiset(xs) == multiset(ys)
    ensures k < |ys| && ys[k] == xs[0]
    ensures ys == ys[..k] + [xs[0]] + ys[k + 1..]
    ensures multiset(xs[1..]) == multiset(ys[..k] + ys[k + 1..])
  {
    assert xs[0] in multiset(xs);
    k :| 0 <= k < |ys| && ys[k] == xs[0];
    Without(ys, k);
    Without(xs, 0);
    assert xs[..0] + xs[1..] == xs[1..];
  }

  lemma Without<T>(xs: seq<T>, k: nat)
    requires k < |xs|
    ensures xs == xs[..k] + [xs[k]] + xs[k + 1..]
    ensures multiset(xs[..k] + xs[k + 1..]) == multiset(xs) - multiset{xs[k]}
  {
    assert xs == xs[..k] + [xs[k]] + xs[k + 1..];
  }

  lemma {:induction false} FilterPermuted<T>(keep: T -> bool, xs: seq<T>, ys: seq<T>)
    requires multiset(xs) == multiset(ys)
    ensures multiset(Filter(keep, xs)) == multiset(Filter(keep, ys))
    ensures |Filter(keep, xs)| == |Filter(keep, ys)|
    decreases |xs|
  {
    if xs == [] {
      assert |multiset(ys)| == |ys|;
    } else {
      var k := TakeOut(xs, ys);
      FilterPermuted(keep, xs[1..], ys[..k] + ys[k + 1..]);
      FilterAppend(keep, ys[..k], [xs[0]] + ys[k + 1..]);
      FilterAppend(keep, ys[..k], ys[k + 1..]);
      assert ys == ys[..k] + ([xs[0]] + ys[k + 1..]);
      assert Filter(keep, [xs[0]] + ys[k + 1..]) ==
             (if keep(xs[0]) then [xs[0]] else []) + Filter(keep, ys[k + 1..]);
    }
  }

  lemma {:induction false} FilterSame<T>(keep: T -> bool, keep': T -> bool, xs: seq<T>)
    requires forall x :: x in xs ==> keep(x) == keep'(x)
    ensures Filter(keep, xs) == Filter(keep', xs)
  {
    if xs != [] {
      FilterSame(keep, keep', xs[1..]);
    }
  }

  lemma {:induction false} FilterNone<T>(keep: T -> bool, xs: seq<T>)
    ensures Filter(keep, xs) == [] <==> forall x :: x in xs ==> !keep(x)
  {
    if xs != [] {
      FilterNone(keep, xs[1..]);
      assert forall x :: x in xs <==> x == xs[0] || x in xs[1..];
    }
  }

  lemma {:induction false} FilterAll<T>(keep: T -> bool, xs: seq<T>)
    requires forall x :: x in xs ==> keep(x)
    ensures Filter(keep, xs) == xs
  {
    if xs != [] {
      FilterAll(keep, xs[1..]);
    }
  }

  lemma PermutedMembers<T>(xs: seq<T>, ys: seq<T>)
    requires multiset(xs) == multiset(ys)
    ensures forall x :: x in xs <==> x in ys
  {
    forall x ensures x in xs <==> x in ys {
      assert x in xs <==> x in multiset(xs);
      assert x in ys <==> x in multiset(ys);
    }
  }

  lemma MapAppend<T, U>(f: T -> U, xs: seq<T>, ys: seq<T>)
    ensures Map(f, xs + ys) == Map(f, xs) + Map(f, ys)
  {
  }

  lemma {:induction false} MapPermuted<T, U>(f: T -> U, xs: seq<T>, ys: seq<T>)
    requires multiset(xs) == multiset(ys)
    ensures multiset(Map(f, xs)) == multiset(Map(f, ys))
    decreases |xs|
  {
    if xs == [] {
      assert |multiset(ys)| == |ys|;
    } else {
      var k := TakeOut(xs, ys);
      var rest := ys[..k] + ys[k + 1..];
      MapPermuted(f, xs[1..], rest);
      assert multiset(Map(f, ys)) == multiset{f(ys[k])} + multiset(Map(f, rest)) by {
        MapAround(f, ys, k);
      }
      assert multiset(Map(f, xs)) == multiset{f(xs[0])} + multiset(Map(f, xs[1..])) by {
        MapCons(f, xs);
      }
    }
  }

  lemma MapCons<T, U>(f: T -> U, xs: seq<T>)
    requires xs != []
    ensures multiset(Map(f, xs)) == multiset{f(xs[0])} + multiset(Map(f, xs[1..]))
  {
    assert Map(f, xs) == [f(xs[0])] + Map(f, xs[1..]);
  }

  lemma MapAround<T, U>(f: T -> U, ys: seq<T>, k: nat)
    requires k < |ys|
    ensures multiset(Map(f, ys)) == multiset{f(ys[k])} + multiset(Map(f, ys[..k] + ys[k + 1..]))
  {
    assert ys == ys[..k] + [ys[k]] + ys[k + 1..];
    MapAppend(f, ys[..k], ys[k + 1..]);
    MapAppend(f, ys[..k], [ys[k]]);
    MapAppend(f, ys[..k] + [ys[k]], ys[k + 1..]);
    assert Map(f, [ys[k]]) == [f(ys[k])];
  }

  /* No two positions of xs carry the same key. */
  ghost predicate DistinctBy<T, K>(key: T -> K, xs: seq<T>)
  {
    forall i, j :: 0 <= i < j < |xs| ==> key(xs[i]) != key(xs[j])
  }

  lemma DistinctByCons<T, K>(key: T -> K, x: T, xs: seq<T>)
    ensures DistinctBy(key, [x] + xs) <==> DistinctBy(key, xs) && forall y :: y in xs ==> key(y) != key(x)
  {
    var all := [x] + xs;
    if DistinctBy(key, all) {
      forall i, j | 0 <= i < j < |xs| ensures key(xs[i]) != key(xs[j]) {
        assert all[i + 1] == xs[i] && all[j + 1] == xs[j];
      }
      forall y | y in xs ensures key(y) != key(x) {
        var j :| 0 <= j < |xs| && xs[j] == y;
        assert all[j + 1] == y && all[0] == x;
      }
    }
  }

  lemma DistinctBySnoc<T, K>(key: T -> K, xs: seq<T>, x: T)
    ensures DistinctBy(key, xs + [x]) <==> DistinctBy(key, xs) && forall y :: y in xs ==> key(y) != key(x)
  {
    var all := xs + [x];
    if DistinctBy(key, all) {
      forall i, j | 0 <= i < j < |xs| ensures key(xs[i]) != key(xs[j]) {
        assert all[i] == xs[i] && all[j] == xs[j];
      }
      forall y | y in xs ensures key(y) != key(x) {
        var j :| 0 <= j < |xs| && xs[j] == y;
        assert all[j] == y && all[|xs|] == x;
      }
    }
  }

  /* In a sequence without repetitions, the only element that passes is kept once. */
  lemma {:induction false} FilterOnce<T>(keep: T -> bool, xs: seq<T>, x: T)
    requires x in xs && keep(x) && forall y :: y in xs && keep(y) ==> y == x
    requires DistinctBy((y: T) => y, xs)
    ensures Filter(keep, xs) == [x]
  {
    var head, tail := xs[0], xs[1..];
    assert xs == [head] + tail;
    DistinctByCons((y: T) => y, head, tail);
    assert head in xs && forall y :: y in xs <==> y == head || y in tail;
    if head == x {
      FilterNone(keep, tail);
    } else {
      FilterOnce(keep, tail, x);
    }
  }

  /* How many elements of xs carry key k. */
  function KeyCount<T, K(==)>(key: T -> K, k: K, xs: seq<T>): nat
  {
    |Filter(x => key(x) == k, xs)|
  }

  lemma {:induction false} DistinctByCount<T, K>(key: T -> K, xs: seq<T>)
    ensures DistinctBy(key, xs) <==> forall k :: KeyCount(key, k, xs) <= 1
  {
    if xs == [] {
      return;
    }
    var x, tail := xs[0], xs[1..];
    DistinctByCount(key, tail);
    FilterNone(y => key(y) == key(x), tail);
    assert KeyCount(key, key(x), xs) == 1 + KeyCount(key, key(x), tail);
    forall k ensures KeyCount(key, k, xs) == (if k == key(x) then 1 else 0) + KeyCount(key, k, tail) {
    }
    assert forall y :: y in tail ==> exists j :: 0 < j < |xs| && y == xs[j];
    if DistinctBy(key, xs) {
      assert forall y :: y in tail ==> key(y) != key(x);
    } else if i, j :| 0 <= i < j < |xs| && key(xs[i]) == key(xs[j]) {
      if i == 0 {
        assert xs[j] in tail;
      } else {
        assert tail[i - 1] == xs[i] && tail[j - 1] == xs[j];
        assert !DistinctBy(key, tail);
      }
    }
  }

  lemma DistinctByPermuted<T, K>(key: T -> K, xs: seq<T>, ys: seq<T>)
    requires multiset(xs) == multiset(ys)
    ensures DistinctBy(key, xs) <==> DistinctBy(key, ys)
  {
    DistinctByCount(key, xs);
    DistinctByCount(key, ys);
    forall k ensures KeyCount(key, k, xs) == KeyCount(key, k, ys) {
      FilterPermuted(x => key(x) == k, xs, ys);
    }
  }
}
