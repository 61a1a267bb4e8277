/** The pandas row operations the pipeline uses, on frames seen as sequences of
    rows: boolean-mask selection (`df[mask]`) and `drop_duplicates()` /
    `Series.unique()`, which keep the first occurrence of each row in order. */
module Frames {

  /** `df[mask]`: the rows for which `keep` holds, in their order. */
  function Filter<T(!new)>(s: seq<T>, keep: T -> bool): (r: seq<T>)
    ensures |r| <= |s|
    ensures forall k :: 0 <= k < |r| ==> keep(r[k])
    ensures forall x :: x in r <==> x in s && keep(x)
  {
    if s == [] then []
    else
      var init := Filter(s[..|s| - 1], keep);
      assert s == s[..|s| - 1] + [s[|s| - 1]];
      if keep(s[|s| - 1]) then init + [s[|s| - 1]] else init
  }

  /** Selection works piecewise: selecting from two frames appended is appending the selections. */
  lemma {:induction false} FilterConcat<T(!new)>(a: seq<T>, b: seq<T>, keep: T -> bool)
    ensures Filter(a + b, keep) == Filter(a, keep) + Filter(b, keep)
    decreases |b|
  {
    if b != [] {
      var b' := b[..|b| - 1];
      assert (a + b)[..|a + b| - 1] == a + b';
      assert (a + b)[|a + b| - 1] == b[|b| - 1];
      FilterConcat(a, b', keep);
    } else {
      assert a + b == a;
    }
  }

  /** Selecting from a frame without duplicates gives a frame without duplicates. */
  lemma {:induction false} FilterDistinct<T(!new)>(s: seq<T>, keep: T -> bool)
    requires Distinct(s)
    ensures Distinct(Filter(s, keep))
    decreases |s|
  {
    if s != [] {
      var init := s[..|s| - 1];
      assert Distinct(init);
      FilterDistinct(init, keep);
      assert s[|s| - 1] !in init;
    }
  }

  /** No row appears twice. */
  predicate Distinct<T(==,!new)>(s: seq<T>)
  {
    forall i, j :: 0 <= i < j < |s| ==> s[i] != s[j]
  }

  /** `drop_duplicates()`: each distinct row once, at the place of its first occurrence. */
  function DropDuplicates<T(==,!new)>(s: seq<T>): (r: seq<T>)
    ensures |r| <= |s|
    ensures forall x :: x in r <==> x in s
    ensures Distinct(r)
  {
    if s == [] then []
    else
      var init := s[..|s| - 1];
      var last := s[|s| - 1];
      var kept := DropDuplicates(init);
      assert s == init + [last];
      if last in init then kept else kept + [last]
  }

  /** Index of the first occurrence of `x` in `s`. */
  function FirstIndex<T(==,!new)>(s: seq<T>, x: T): (i: nat)
    requires x in s
    ensures i < |s| && s[i] == x && x !in s[..i]
  {
    if s[0] == x then 0
    else
      var i := FirstIndex(s[1..], x);
      assert s[1..][..i] == s[1..i + 1];
      i + 1
  }

  /** The first occurrence is the only index with nothing equal before it. */
  lemma FirstIndexUnique<T(!new)>(s: seq<T>, x: T, i: nat)
    requires i < |s| && s[i] == x && x !in s[..i]
    ensures FirstIndex(s, x) == i
  {
    var f := FirstIndex(s, x);
    assert forall j :: 0 <= j < i ==> s[..i][j] == s[j];
    assert forall j :: 0 <= j < f ==> s[..f][j] == s[j];
  }

  /** The kept rows are in the order of their first occurrences; with the set and
      `Distinct` facts of the contract this pins the result down. */
  lemma {:induction false} DropDuplicatesOrder<T(!new)>(s: seq<T>)
    ensures forall i, j :: 0 <= i < j < |DropDuplicates(s)| ==>
      FirstIndex(s, DropDuplicates(s)[i]) < FirstIndex(s, DropDuplicates(s)[j])
    decreases |s|
  {
    if s != [] {
      var init := s[..|s| - 1];
      var last := s[|s| - 1];
      var kept := DropDuplicates(init);
      var r := DropDuplicates(s);
      DropDuplicatesOrder(init);
      assert s == init + [last];
      forall x | x in init
        ensures FirstIndex(s, x) == FirstIndex(init, x)
      {
        var f := FirstIndex(init, x);
        assert s[..f] == init[..f];
        FirstIndexUnique(s, x, f);
      }
      if last !in init {
        assert s[..|s| - 1] == init;
        FirstIndexUnique(s, last, |s| - 1);
        forall i, j | 0 <= i < j < |r|
          ensures FirstIndex(s, r[i]) < FirstIndex(s, r[j])
        {
          if j < |kept| {
            assert r[i] == kept[i] && r[j] == kept[j];
          } else {
            assert r[i] == kept[i] && r[j] == last;
          }
        }
      }
    }
  }

  /** The first occurrence in two frames appended: in the first one if it is there,
      otherwise in the second one, shifted. */
  lemma FirstIndexConcat<T(!new)>(a: seq<T>, b: seq<T>, x: T)
    requires x in a + b
    ensures x in a ==> FirstIndex(a + b, x) == FirstIndex(a, x)
    ensures x !in a ==> x in b && FirstIndex(a + b, x) == |a| + FirstIndex(b, x)
  {
    if x in a {
      var f := FirstIndex(a, x);
      assert (a + b)[..f] == a[..f];
      FirstIndexUnique(a + b, x, f);
    } else {
      var f := FirstIndex(b, x);
      var c := a + b;
      assert c[..|a| + f] == a + b[..f];
      FirstIndexUnique(c, x, |a| + f);
    }
  }

  /** Selection keeps the relative order of the rows it keeps. */
  lemma {:induction false} FilterOrder<T(!new)>(s: seq<T>, keep: T -> bool, x: T, y: T)
    requires x in Filter(s, keep) && y in Filter(s, keep)
    ensures FirstIndex(Filter(s, keep), x) < FirstIndex(Filter(s, keep), y) <==> FirstIndex(s, x) < FirstIndex(s, y)
    decreases |s|
  {
    var init := s[..|s| - 1];
    var last := s[|s| - 1];
    var r0 := Filter(init, keep);
    assert s == init + [last];
    FirstIndexConcat(init, [last], x);
    FirstIndexConcat(init, [last], y);
    if keep(last) {
      assert Filter(s, keep) == r0 + [last];
      FirstIndexConcat(r0, [last], x);
      FirstIndexConcat(r0, [last], y);
    }
    if x in init && y in init {
      FilterOrder(init, keep, x, y);
    }
  }

  /** Selection keeps every copy of a kept row and no copy of another. */
  lemma {:induction false} FilterCount<T(!new)>(s: seq<T>, keep: T -> bool, x: T)
    ensures multiset(Filter(s, keep))[x] == if keep(x) then multiset(s)[x] else 0
    decreases |s|
  {
    if s != [] {
      var init := s[..|s| - 1];
      var last := s[|s| - 1];
      assert s == init + [last];
      FilterCount(init, keep, x);
      if keep(last) {
        assert Filter(s, keep) == Filter(init, keep) + [last];
      }
    }
  }

  /** A frame without duplicates is left as it is. */
  lemma {:induction false} DropDuplicatesOfDistinct<T(!new)>(s: seq<T>)
    requires Distinct(s)
    ensures DropDuplicates(s) == s
    decreases |s|
  {
    if s != [] {
      var init := s[..|s| - 1];
      assert Distinct(init);
      DropDuplicatesOfDistinct(init);
      assert s[|s| - 1] !in init;
      assert s == init + [s[|s| - 1]];
    }
  }

  /** `drop_duplicates()` is idempotent. */
  lemma DropDuplicatesIdempotent<T(!new)>(s: seq<T>)
    ensures DropDuplicates(DropDuplicates(s)) == DropDuplicates(s)
  {
    DropDuplicatesOfDistinct(DropDuplicates(s));
  }
}
