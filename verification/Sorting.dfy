/** `ORDER BY` and `sort.Slice`: insertion sort by a comparison, and what makes
    its result the only one possible.

    Neither promises an algorithm, so callers may use only what is proved here:
    the result is sorted, has the elements it was given, and under an order
    that tells any two of them apart no other list is sorted with them. */
module Sorting {

  ghost predicate TotalPreorder<T(!new)>(le: (T, T) -> bool) {
    && (forall x, y :: le(x, y) || le(y, x))
    && (forall x, y, z :: le(x, y) && le(y, z) ==> le(x, z))
  }

  ghost predicate Sorted<T>(xs: seq<T>, le: (T, T) -> bool) {
    forall i, j :: 0 <= i < j < |xs| ==> le(xs[i], xs[j])
  }

  ghost predicate Distinct<T>(xs: seq<T>) {
    forall i, j :: 0 <= i < j < |xs| ==> xs[i] != xs[j]
  }

  function Insert<T>(x: T, xs: seq<T>, le: (T, T) -> bool): seq<T> {
    if xs == [] || le(x, xs[0]) then [x] + xs else [xs[0]] + Insert(x, xs[1..], le)
  }

  function Sort<T>(xs: seq<T>, le: (T, T) -> bool): seq<T> {
    if xs == [] then [] else Insert(xs[0], Sort(xs[1..], le), le)
  }

  lemma {:induction false} InsertKeeps<T>(x: T, xs: seq<T>, le: (T, T) -> bool)
    ensures multiset(Insert(x, xs, le)) == multiset{x} + multiset(xs)
    decreases |xs|
  {
    if xs != [] && !le(x, xs[0]) {
      InsertKeeps(x, xs[1..], le);
      assert xs == [xs[0]] + xs[1..];
    }
  }

  lemma {:induction false} InsertSorts<T(!new)>(x: T, xs: seq<T>, le: (T, T) -> bool)
    requires TotalPreorder(le) && Sorted(xs, le)
    ensures Sorted(Insert(x, xs, le), le)
    decreases |xs|
  {
    var r := Insert(x, xs, le);
    if xs == [] || le(x, xs[0]) {
      assert forall j :: 0 <= j < |xs| ==> le(x, xs[j]);
    } else {
      InsertSorts(x, xs[1..], le);
      InsertKeeps(x, xs[1..], le);
      forall j | 0 < j < |r| ensures le(r[0], r[j]) {
        assert r[j] in multiset(Insert(x, xs[1..], le));
      }
    }
  }

  /** Sorting keeps exactly the elements and puts them in order. */
  lemma {:induction false} SortSorts<T(!new)>(xs: seq<T>, le: (T, T) -> bool)
    requires TotalPreorder(le)
    ensures multiset(Sort(xs, le)) == multiset(xs)
    ensures Sorted(Sort(xs, le), le)
  {
    if xs != [] {
      SortSorts(xs[1..], le);
      InsertKeeps(xs[0], Sort(xs[1..], le), le);
      InsertSorts(xs[0], Sort(xs[1..], le), le);
      assert xs == [xs[0]] + xs[1..];
    }
  }

  lemma SameElements<T>(xs: seq<T>, ys: seq<T>)
    requires multiset(xs) == multiset(ys)
    ensures |xs| == |ys|
    ensures forall x :: x in xs <==> x in ys
  {
    assert |xs| == |multiset(xs)| && |ys| == |multiset(ys)|;
    forall x ensures x in xs <==> x in ys {
      assert x in xs <==> x in multiset(xs);
    }
  }

  /** The order never ties two different elements of `xs`. */
  ghost predicate NoTies<T>(xs: seq<T>, le: (T, T) -> bool) {
    forall x, y :: x in xs && y in xs && le(x, y) && le(y, x) ==> x == y
  }

  lemma SmallestFirst<T>(xs: seq<T>, le: (T, T) -> bool, x: T)
    requires Sorted(xs, le) && x in xs
    ensures x == xs[0] || le(xs[0], x)
  {
  }

  /** Where the order never ties two different elements, no other arrangement of
      the same elements is in order. */
  lemma {:induction false} SortedIsUnique<T>(xs: seq<T>, ys: seq<T>, le: (T, T) -> bool)
    requires Sorted(xs, le) && Sorted(ys, le) && multiset(xs) == multiset(ys) && NoTies(xs, le)
    ensures xs == ys
  {
    SameElements(xs, ys);
    if xs != [] {
      var x := xs[0];
      assert x in ys && ys[0] in xs;
      SmallestFirst(xs, le, ys[0]);
      SmallestFirst(ys, le, x);
      SameTails(x, xs[1..], ys[1..]);
      assert xs == [x] + xs[1..] && ys == [x] + ys[1..];
      SortedIsUnique(xs[1..], ys[1..], le);
    }
  }

  lemma SameTails<T>(x: T, xs: seq<T>, ys: seq<T>)
    ensures multiset([x] + xs) == multiset([x] + ys) ==> multiset(xs) == multiset(ys)
  {
    assert multiset(xs) == multiset([x] + xs) - multiset{x};
    assert multiset(ys) == multiset([x] + ys) - multiset{x};
  }

  lemma {:induction false} DistinctCount<T>(xs: seq<T>, x: T)
    requires Distinct(xs)
    ensures multiset(xs)[x] <= 1
  {
    if xs != [] {
      DistinctCount(xs[1..], x);
      assert xs == [xs[0]] + xs[1..];
      assert multiset(xs) == multiset{xs[0]} + multiset(xs[1..]);
      if xs[0] == x {
        assert x !in xs[1..];
      }
    }
  }

  lemma RepeatCount<T>(ys: seq<T>, i: int, j: int)
    requires 0 <= i < j < |ys| && ys[i] == ys[j]
    ensures multiset(ys)[ys[i]] >= 2
  {
    assert ys == ys[..j] + ys[j..];
    assert multiset(ys) == multiset(ys[..j]) + multiset(ys[j..]);
    assert ys[..j][i] == ys[i] && ys[j..][0] == ys[j];
    assert ys[i] in multiset(ys[..j]) && ys[j] in multiset(ys[j..]);
  }

  /** An arrangement of distinct elements repeats none. */
  lemma DistinctArrangement<T>(xs: seq<T>, ys: seq<T>)
    requires Distinct(xs) && multiset(xs) == multiset(ys)
    ensures Distinct(ys)
  {
    forall i, j | 0 <= i < j < |ys| ensures ys[i] != ys[j] {
      DistinctCount(xs, ys[i]);
      if ys[i] == ys[j] {
        RepeatCount(ys, i, j);
        assert false;
      }
    }
  }

  /** What a limit cuts off comes after all that it keeps. */
  lemma BeyondTheCut<T>(xs: seq<T>, le: (T, T) -> bool, n: nat, a: T)
    requires Sorted(xs, le) && n <= |xs| && a in xs && a !in xs[..n]
    ensures forall b :: b in xs[..n] ==> le(b, a)
  {
    assert xs == xs[..n] + xs[n..];
    var j :| 0 <= j < |xs[n..]| && xs[n..][j] == a;
    assert xs[n + j] == a;
  }
}
