/**
 * The relational operators the store's queries are built from, on sequences
 * of rows: WHERE (Filter), ORDER BY (SortBy) and OFFSET/LIMIT (Page).
 */
module Seqs {

  /** WHERE: the rows that satisfy `p`, in table order. */
  function Filter<T(!new)>(s: seq<T>, p: T -> bool): (r: seq<T>)
    ensures |r| <= |s|
    ensures forall x :: x in r <==> x in s && p(x)
  {
    if s == [] then []
    else (if p(s[0]) then [s[0]] else []) + Filter(s[1..], p)
  }

  lemma {:induction false} FilterAppend<T(!new)>(a: seq<T>, b: seq<T>, p: T -> bool)
    ensures Filter(a + b, p) == Filter(a, p) + Filter(b, p)
  {
    if a == [] {
      assert a + b == b;
    } else {
      assert (a + b)[0] == a[0];
      assert (a + b)[1..] == a[1..] + b;
      FilterAppend(a[1..], b, p);
    }
  }

  /** WHERE over two parts, given what it selects from each. */
  lemma FilterConcat<T(!new)>(a: seq<T>, b: seq<T>, p: T -> bool, fromA: seq<T>, fromB: seq<T>)
    requires Filter(a, p) == fromA && Filter(b, p) == fromB
    ensures Filter(a + b, p) == fromA + fromB
  {
    FilterAppend(a, b, p);
  }

  /** A filter that every row passes keeps the table as it is. */
  lemma {:induction false} FilterKeepsAll<T(!new)>(s: seq<T>, p: T -> bool)
    requires forall x :: x in s ==> p(x)
    ensures Filter(s, p) == s
  {
    if s != [] {
      assert s[0] in s;
      assert forall x :: x in s[1..] ==> x in s;
      FilterKeepsAll(s[1..], p);
      assert [s[0]] + s[1..] == s;
    }
  }

  /** A filter that no row passes selects nothing. */
  lemma {:induction false} FilterKeepsNone<T(!new)>(s: seq<T>, p: T -> bool)
    requires forall x :: x in s ==> !p(x)
    ensures Filter(s, p) == []
  {
    if s != [] {
      assert s[0] in s;
      assert forall x :: x in s[1..] ==> x in s;
      FilterKeepsNone(s[1..], p);
    }
  }

  /** Row-by-row equal predicates select the same rows. */
  lemma {:induction false} FilterSamePredicate<T(!new)>(s: seq<T>, p: T -> bool, q: T -> bool)
    requires forall x :: x in s ==> p(x) == q(x)
    ensures Filter(s, p) == Filter(s, q)
  {
    if s != [] {
      assert s[0] in s;
      assert forall x :: x in s[1..] ==> x in s;
      FilterSamePredicate(s[1..], p, q);
    }
  }

  /** When no two rows both pass `p`, at most one row is selected. */
  lemma {:induction false} FilterAtMostOne<T(!new)>(s: seq<T>, p: T -> bool)
    requires forall i, j :: 0 <= i < j < |s| && p(s[i]) ==> !p(s[j])
    ensures |Filter(s, p)| <= 1
  {
    if s != [] {
      var rest := s[1..];
      assert forall i :: 0 <= i < |rest| ==> rest[i] == s[i + 1];
      FilterAtMostOne(rest, p);
      if p(s[0]) {
        forall x | x in rest ensures !p(x) {
          var k :| 0 <= k < |rest| && rest[k] == x;
          assert s[k + 1] == x;
        }
        FilterKeepsNone(rest, p);
      }
    }
  }

  /** A filter applied after a weaker one selects what it selects alone. */
  lemma {:induction false} FilterNarrowing<T(!new)>(s: seq<T>, weaker: T -> bool, p: T -> bool)
    requires forall x :: x in s && p(x) ==> weaker(x)
    ensures Filter(Filter(s, weaker), p) == Filter(s, p)
  {
    if s != [] {
      assert s[0] in s;
      assert forall x :: x in s[1..] ==> x in s;
      FilterNarrowing(s[1..], weaker, p);
      FilterAppend(if weaker(s[0]) then [s[0]] else [], Filter(s[1..], weaker), p);
    }
  }

  /** OFFSET offset LIMIT size. */
  function Window<T>(s: seq<T>, offset: nat, size: nat): (p: seq<T>)
    ensures |p| <= size
    ensures |s| <= offset ==> p == []
    ensures offset <= |s| ==> |p| == if |s| - offset < size then |s| - offset else size
    ensures forall i :: 0 <= i < |p| ==> offset + i < |s| && p[i] == s[offset + i]
  {
    if |s| <= offset then []
    else if |s| - offset < size then s[offset..]
    else s[offset..offset + size]
  }

  /** OFFSET pageNumber * pageSize LIMIT pageSize. */
  function Page<T>(s: seq<T>, pageNumber: nat, pageSize: nat): (p: seq<T>)
    ensures p == Window(s, pageNumber * pageSize, pageSize)
  {
    Window(s, pageNumber * pageSize, pageSize)
  }

  /** A window holds rows of the table only. */
  lemma WindowWithin<T>(s: seq<T>, offset: nat, size: nat)
    ensures forall x :: x in Window(s, offset, size) ==> x in s
  {
    var p := Window(s, offset, size);
    forall x | x in p ensures x in s {
      var i :| 0 <= i < |p| && p[i] == x;
      assert s[offset + i] == x;
    }
  }

  /** A page holds rows of the table only. Stated through the window so that
      the proof reasons about a plain offset. */
  lemma PageWithin<T>(s: seq<T>, pageNumber: nat, pageSize: nat)
    ensures forall x :: x in Page(s, pageNumber, pageSize) ==> x in s
  {
    WindowWithin(s, pageNumber * pageSize, pageSize);
  }

  /** A window of an ordered table is ordered. */
  lemma WindowKeepsOrder<T>(s: seq<T>, offset: nat, size: nat, before: (T, T) -> bool)
    requires SortedBy(s, before)
    ensures SortedBy(Window(s, offset, size), before)
  {
    var p := Window(s, offset, size);
    forall i, j | 0 <= i < j < |p| ensures before(p[i], p[j]) {
      assert p[i] == s[offset + i] && p[j] == s[offset + j];
    }
  }

  /** A page of an ordered table is ordered. */
  lemma PageKeepsOrder<T>(s: seq<T>, pageNumber: nat, pageSize: nat, before: (T, T) -> bool)
    requires SortedBy(s, before)
    ensures SortedBy(Page(s, pageNumber, pageSize), before)
  {
    WindowKeepsOrder(s, pageNumber * pageSize, pageSize, before);
  }

  /** Row `offset + i` is in the window at `offset` when `i` is below its size. */
  lemma WindowHolds<T>(s: seq<T>, offset: nat, size: nat, i: nat)
    requires i < size && offset + i < |s|
    ensures s[offset + i] in Window(s, offset, size)
  {
    assert Window(s, offset, size)[i] == s[offset + i];
  }

  /** Division facts kept apart so that the paging proofs see no nonlinear term. */
  lemma DivMod(k: nat, size: nat)
    requires size > 0
    ensures (k / size) * size + k % size == k && k % size < size
  {
  }

  /** One more page moves the offset on by one page size. */
  lemma MulStep(count: nat, size: nat)
    requires count > 0
    ensures count * size == (count - 1) * size + size
  {
  }

  /** Row `k` is on page `k / pageSize`. */
  lemma PageHolds<T>(s: seq<T>, pageSize: nat, k: nat)
    requires pageSize > 0 && k < |s|
    ensures s[k] in Page(s, k / pageSize, pageSize)
  {
    DivMod(k, pageSize);
    WindowHolds(s, (k / pageSize) * pageSize, pageSize, k % pageSize);
  }

  /** Every row is on some page. */
  lemma PagesCover<T>(s: seq<T>, pageSize: nat, x: T)
    requires pageSize > 0 && x in s
    ensures exists n: nat :: x in Page(s, n, pageSize)
  {
    var k :| 0 <= k < |s| && s[k] == x;
    var n := k / pageSize;
    PageHolds(s, pageSize, k);
    assert x in Page(s, n, pageSize);
  }

  /** The first `count` pages, one after the other. */
  function Pages<T>(s: seq<T>, pageSize: nat, count: nat): seq<T>
  {
    if count == 0 then [] else Pages(s, pageSize, count - 1) + Page(s, count - 1, pageSize)
  }

  /** The rows ahead of a window followed by the window are the rows up to
      its end (or all of them). */
  lemma AppendWindow<T>(s: seq<T>, prev: seq<T>, offset: nat, size: nat)
    requires offset <= |s| ==> prev == s[..offset]
    requires |s| <= offset ==> prev == s
    ensures offset + size <= |s| ==> prev + Window(s, offset, size) == s[..offset + size]
    ensures |s| <= offset + size ==> prev + Window(s, offset, size) == s
  {
    if offset + size <= |s| {
      assert s[..offset] + s[offset..offset + size] == s[..offset + size];
    } else if offset <= |s| {
      assert s[..offset] + s[offset..] == s;
    }
  }

  /** Paging loses and repeats nothing: the first `count` pages together are
      exactly the first `count * pageSize` rows (or all of them). */
  lemma {:induction false} PagesArePrefix<T>(s: seq<T>, pageSize: nat, count: nat)
    ensures count * pageSize <= |s| ==> Pages(s, pageSize, count) == s[..count * pageSize]
    ensures |s| <= count * pageSize ==> Pages(s, pageSize, count) == s
  {
    if count > 0 {
      var before := (count - 1) * pageSize;
      MulStep(count, pageSize);
      PagesArePrefix(s, pageSize, count - 1);
      AppendWindow(s, Pages(s, pageSize, count - 1), before, pageSize);
    }
  }

  /** One page as large as the whole table is the whole table. */
  lemma FirstPageIsAll<T>(s: seq<T>, pageSize: nat)
    requires |s| <= pageSize
    ensures Page(s, 0, pageSize) == s
  {
  }

  /** `before(a, b)`: ORDER BY allows `a` ahead of `b`. */
  ghost predicate TotalPreorder<T(!new)>(before: (T, T) -> bool)
  {
    && (forall a, b :: before(a, b) || before(b, a))
    && (forall a, b, c :: before(a, b) && before(b, c) ==> before(a, c))
  }

  ghost predicate SortedBy<T>(s: seq<T>, before: (T, T) -> bool)
  {
    forall i, j :: 0 <= i < j < |s| ==> before(s[i], s[j])
  }

  function Insert<T>(x: T, s: seq<T>, before: (T, T) -> bool): (r: seq<T>)
    ensures multiset(r) == multiset(s) + multiset{x}
    ensures |r| == |s| + 1
  {
    if s == [] then [x]
    else if before(x, s[0]) then [x] + s
    else
      assert s == [s[0]] + s[1..];
      [s[0]] + Insert(x, s[1..], before)
  }

  /** ORDER BY as an insertion sort; rows the order ties keep their table order. */
  function SortBy<T>(s: seq<T>, before: (T, T) -> bool): (r: seq<T>)
    ensures multiset(r) == multiset(s)
    ensures |r| == |s|
  {
    if s == [] then []
    else
      assert s == [s[0]] + s[1..];
      Insert(s[0], SortBy(s[1..], before), before)
  }

  lemma {:induction false} InsertSorted<T(!new)>(x: T, s: seq<T>, before: (T, T) -> bool)
    requires TotalPreorder(before) && SortedBy(s, before)
    ensures SortedBy(Insert(x, s, before), before)
  {
    if s == [] {
    } else if before(x, s[0]) {
      var r := [x] + s;
      forall i, j | 0 <= i < j < |r| ensures before(r[i], r[j]) {
        if i == 0 && j > 1 {
          assert before(s[0], s[j - 1]);
        }
      }
    } else {
      var rest := Insert(x, s[1..], before);
      InsertSorted(x, s[1..], before);
      assert before(s[0], x);
      var r := [s[0]] + rest;
      forall i, j | 0 <= i < j < |r| ensures before(r[i], r[j]) {
        if i == 0 {
          var y := rest[j - 1];
          assert y in multiset(rest);
          if y != x {
            assert y in multiset(s[1..]);
            assert y in s[1..];
            var k :| 0 <= k < |s[1..]| && s[1..][k] == y;
            assert before(s[0], s[k + 1]);
          }
        } else {
          assert r[i] == rest[i - 1] && r[j] == rest[j - 1];
        }
      }
    }
  }

  lemma {:induction false} SortBySorted<T(!new)>(s: seq<T>, before: (T, T) -> bool)
    requires TotalPreorder(before)
    ensures SortedBy(SortBy(s, before), before)
  {
    if s != [] {
      SortBySorted(s[1..], before);
      InsertSorted(s[0], SortBy(s[1..], before), before);
    }
  }

  /** Two ordered permutations start with the same row when the order ties
      no two different rows. */
  lemma SortedHeads<T(!new)>(a: seq<T>, b: seq<T>, before: (T, T) -> bool)
    requires a != [] && b != [] && multiset(a) == multiset(b)
    requires SortedBy(a, before) && SortedBy(b, before)
    requires forall x, y :: x in a && y in a && before(x, y) && before(y, x) ==> x == y
    ensures a[0] == b[0]
  {
    assert a[0] in multiset(b) && b[0] in multiset(a);
    var k :| 0 <= k < |b| && b[k] == a[0];
    var j :| 0 <= j < |a| && a[j] == b[0];
    if j != 0 && k != 0 {
      assert before(a[0], a[j]) && before(b[0], b[k]);
    }
  }

  /** Removing the same first row from two permutations leaves permutations. */
  lemma TailsPermuted<T>(a: seq<T>, b: seq<T>)
    requires a != [] && b != [] && a[0] == b[0] && multiset(a) == multiset(b)
    ensures multiset(a[1..]) == multiset(b[1..])
  {
    assert a == [a[0]] + a[1..] && b == [b[0]] + b[1..];
    assert multiset(a) == multiset{a[0]} + multiset(a[1..]);
    assert multiset(b) == multiset{a[0]} + multiset(b[1..]);
    forall z ensures multiset(a[1..])[z] == multiset(b[1..])[z] {
      assert multiset(a)[z] == multiset{a[0]}[z] + multiset(a[1..])[z];
      assert multiset(b)[z] == multiset{a[0]}[z] + multiset(b[1..])[z];
    }
  }

  /** When the order ties no two different rows, there is only one ordered
      arrangement of a table: any two ordered permutations are equal. */
  lemma {:induction false} SortedUnique<T(!new)>(a: seq<T>, b: seq<T>, before: (T, T) -> bool)
    requires multiset(a) == multiset(b)
    requires SortedBy(a, before) && SortedBy(b, before)
    requires forall x, y :: x in a && y in a && before(x, y) && before(y, x) ==> x == y
    ensures a == b
  {
    assert |a| == |multiset(a)| == |multiset(b)| == |b|;
    if a != [] {
      SortedHeads(a, b, before);
      TailsPermuted(a, b);
      var ta, tb := a[1..], b[1..];
      assert SortedBy(ta, before) by {
        forall i, j | 0 <= i < j < |ta| ensures before(ta[i], ta[j]) {
          assert ta[i] == a[i + 1] && ta[j] == a[j + 1];
        }
      }
      assert SortedBy(tb, before) by {
        forall i, j | 0 <= i < j < |tb| ensures before(tb[i], tb[j]) {
          assert tb[i] == b[i + 1] && tb[j] == b[j + 1];
        }
      }
      forall x, y | x in ta && y in ta && before(x, y) && before(y, x) ensures x == y {
        assert x in a && y in a;
      }
      SortedUnique(ta, tb, before);
      assert a == [a[0]] + ta && b == [b[0]] + tb;
    }
  }

  /** Sorting keeps exactly the rows it was given. */
  lemma SortByMembers<T>(s: seq<T>, before: (T, T) -> bool)
    ensures forall x :: x in SortBy(s, before) <==> x in s
  {
    var r := SortBy(s, before);
    forall x ensures x in r <==> x in s {
      assert x in r <==> x in multiset(r);
      assert x in s <==> x in multiset(s);
    }
  }
}
