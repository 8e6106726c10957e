/**
 * `Array.prototype.sort` with a comparator, as an in-place insertion sort.
 * `gt(x, y)` says that the comparator puts `x` after `y` (a positive result).
 * The only thing asked of a comparator is that it never puts each of two
 * values after the other.
 *
 * The array method is proved against `SortSeq`, a stable insertion sort on
 * sequences: a value only moves past values that compare strictly greater
 * than it, so values that compare equal keep their input order.
 */
module ArraySort {
  import opened Js

  ghost predicate Asymmetric<T(!new)>(gt: (T, T) -> bool) {
    forall x, y :: gt(x, y) ==> !gt(y, x)
  }

  /** No neighbour pair is out of order. */
  predicate InOrder<T>(s: seq<T>, gt: (T, T) -> bool) {
    forall k :: 0 < k < |s| ==> !gt(s[k - 1], s[k])
  }

  /** `x` enters at the end of `s` and moves down past every greater value it meets. */
  function Insert<T>(s: seq<T>, x: T, gt: (T, T) -> bool): (r: seq<T>)
    ensures |r| == |s| + 1
    decreases |s|
  {
    if s == [] || !gt(s[|s| - 1], x) then s + [x]
    else Insert(s[..|s| - 1], x, gt) + [s[|s| - 1]]
  }

  /** The insertion sort: each value in turn is inserted into the sorted values before it. */
  function SortSeq<T>(s: seq<T>, gt: (T, T) -> bool): (r: seq<T>)
    ensures |r| == |s|
    decreases |s|
  {
    if s == [] then [] else Insert(SortSeq(s[..|s| - 1], gt), s[|s| - 1], gt)
  }

  /** Insertion adds `x` and nothing else. */
  lemma {:induction false} InsertPermutes<T>(s: seq<T>, x: T, gt: (T, T) -> bool)
    ensures multiset(Insert(s, x, gt)) == multiset(s) + multiset{x}
    decreases |s|
  {
    if s != [] && gt(s[|s| - 1], x) {
      var init := s[..|s| - 1];
      assert s == init + [s[|s| - 1]];
      InsertPermutes(init, x, gt);
    }
  }

  /** The last value after an insertion is `x` or the last value before it. */
  lemma InsertLast<T>(s: seq<T>, x: T, gt: (T, T) -> bool)
    ensures var r := Insert(s, x, gt); r[|r| - 1] == x || (s != [] && r[|r| - 1] == s[|s| - 1])
  {
  }

  /** Inserting into an ordered sequence keeps it ordered. */
  lemma {:induction false} InsertInOrder<T(!new)>(s: seq<T>, x: T, gt: (T, T) -> bool)
    requires Asymmetric(gt) && InOrder(s, gt)
    ensures InOrder(Insert(s, x, gt), gt)
    decreases |s|
  {
    if s != [] {
      var init, last := s[..|s| - 1], s[|s| - 1];
      if gt(last, x) {
        assert InOrder(init, gt) by {
          forall k | 0 < k < |init| ensures !gt(init[k - 1], init[k]) {
            assert init[k - 1] == s[k - 1] && init[k] == s[k];
          }
        }
        InsertInOrder(init, x, gt);
        var sunk := Insert(init, x, gt);
        InsertLast(init, x, gt);
        if sunk[|sunk| - 1] != x {
          assert !gt(s[|s| - 2], s[|s| - 1]);
        }
        var r := sunk + [last];
        forall k | 0 < k < |r| ensures !gt(r[k - 1], r[k]) {
          if k < |r| - 1 {
            assert r[k - 1] == sunk[k - 1] && r[k] == sunk[k];
          }
        }
      }
    }
  }

  /** The insertion sort gives a permutation of its input. */
  lemma {:induction false} SortSeqPermutes<T>(s: seq<T>, gt: (T, T) -> bool)
    ensures multiset(SortSeq(s, gt)) == multiset(s)
    decreases |s|
  {
    if s != [] {
      var init := s[..|s| - 1];
      assert s == init + [s[|s| - 1]];
      SortSeqPermutes(init, gt);
      InsertPermutes(SortSeq(init, gt), s[|s| - 1], gt);
    }
  }

  /** For an asymmetric comparator, no two neighbours of the result are out of order. */
  lemma {:induction false} SortSeqInOrder<T(!new)>(s: seq<T>, gt: (T, T) -> bool)
    requires Asymmetric(gt)
    ensures InOrder(SortSeq(s, gt), gt)
    decreases |s|
  {
    if s != [] {
      SortSeqInOrder(s[..|s| - 1], gt);
      InsertInOrder(SortSeq(s[..|s| - 1], gt), s[|s| - 1], gt);
    }
  }

  /**
   * A list none of whose values the comparator puts after another is already
   * sorted, and the sort leaves it as it is.
   */
  lemma {:induction false} SortSeqKeepsTies<T>(s: seq<T>, gt: (T, T) -> bool)
    requires forall x, y :: x in s && y in s ==> !gt(x, y)
    ensures SortSeq(s, gt) == s
    decreases |s|
  {
    if s != [] {
      var init, last := s[..|s| - 1], s[|s| - 1];
      assert forall x :: x in init ==> x in s;
      SortSeqKeepsTies(init, gt);
      assert SortSeq(s, gt) == Insert(init, last, gt);
      assert init != [] ==> !gt(init[|init| - 1], last);
      assert s == init + [last];
    }
  }

  /**
   * Where an insertion puts `x`: between a front part of `s` and a back part
   * whose values all compare greater than it.
   */
  lemma {:induction false} InsertSplit<T>(s: seq<T>, x: T, gt: (T, T) -> bool)
    returns (front: seq<T>, back: seq<T>)
    ensures s == front + back && Insert(s, x, gt) == front + [x] + back
    ensures forall y :: y in back ==> gt(y, x)
    decreases |s|
  {
    if s == [] || !gt(s[|s| - 1], x) {
      front, back := s, [];
      assert s == s + [];
    } else {
      var init, last := s[..|s| - 1], s[|s| - 1];
      var f, b := InsertSplit(init, x, gt);
      front, back := f, b + [last];
      assert s == init + [last];
      assert f + [x] + b + [last] == f + [x] + (b + [last]);
    }
  }

  /** A filter that keeps none of the values gives the empty list. */
  lemma FilterNone<T(!new)>(s: seq<T>, keep: T -> bool)
    requires forall x :: x in s ==> !keep(x)
    ensures Filter(s, keep) == []
  {
  }

  /** A filter over one value. */
  lemma FilterOne<T(!new)>(x: T, keep: T -> bool)
    ensures Filter([x], keep) == if keep(x) then [x] else []
  {
    assert [x][1..] == [];
  }

  /** Filtering a list with one value singled out, part by part. */
  lemma FilterAround<T(!new)>(front: seq<T>, x: T, back: seq<T>, keep: T -> bool)
    ensures Filter(front + [x] + back, keep)
            == Filter(front, keep) + (if keep(x) then [x] else []) + Filter(back, keep)
  {
    assert Filter(front + [x] + back, keep)
           == Filter(front, keep) + Filter([x], keep) + Filter(back, keep) by {
      FilterAppend(front + [x], back, keep);
      FilterAppend(front, [x], keep);
    }
    FilterOne(x, keep);
  }

  /** A kept value between two parts, after which the filter keeps nothing. */
  lemma FilterKeptBefore<T(!new)>(front: seq<T>, x: T, back: seq<T>, p: T -> bool)
    requires p(x) && Filter(back, p) == []
    ensures Filter(front + [x] + back, p) == Filter(front + back, p) + [x]
  {
    var kept := Filter(front, p);
    assert Filter(front + back, p) == kept by {
      FilterAppend(front, back, p);
      assert kept + [] == kept;
    }
    assert Filter(front + [x] + back, p) == kept + [x] by {
      FilterAround(front, x, back, p);
      assert kept + [x] + [] == kept + [x];
    }
  }

  /** A dropped value between two parts. */
  lemma FilterDroppedBetween<T(!new)>(front: seq<T>, x: T, back: seq<T>, p: T -> bool)
    requires !p(x)
    ensures Filter(front + [x] + back, p) == Filter(front + back, p)
  {
    var kept, passed := Filter(front, p), Filter(back, p);
    assert Filter(front + back, p) == kept + passed by {
      FilterAppend(front, back, p);
    }
    assert Filter(front + [x] + back, p) == kept + passed by {
      FilterAround(front, x, back, p);
      assert kept + [] == kept;
    }
  }

  /**
   * Seen through a filter `p` whose values never compare greater than a kept
   * `x`, inserting `x` just appends it (when `p` keeps it).
   */
  lemma FilterInsert<T(!new)>(s: seq<T>, x: T, gt: (T, T) -> bool, p: T -> bool)
    requires p(x) ==> forall y :: y in s && p(y) ==> !gt(y, x)
    ensures Filter(Insert(s, x, gt), p) == Filter(s, p) + (if p(x) then [x] else [])
  {
    var front, back := InsertSplit(s, x, gt);
    if p(x) {
      FilterNone(back, p);
      FilterKeptBefore(front, x, back, p);
    } else {
      FilterDroppedBetween(front, x, back, p);
      assert Filter(s, p) + [] == Filter(s, p);
    }
  }

  /**
   * Stability: the values a predicate `p` picks out, none of which compares
   * greater than another, come out of the sort in their input order, whatever
   * the other values do.
   */
  lemma {:induction false} SortSeqStable<T(!new)>(s: seq<T>, gt: (T, T) -> bool, p: T -> bool)
    requires forall x, y :: x in s && y in s && p(x) && p(y) ==> !gt(x, y)
    ensures Filter(SortSeq(s, gt), p) == Filter(s, p)
    decreases |s|
  {
    if s != [] {
      var init, last := s[..|s| - 1], s[|s| - 1];
      assert s == init + [last];
      var sorted := SortSeq(init, gt);
      assert SortSeq(s, gt) == Insert(sorted, last, gt);
      assert Filter(sorted, p) == Filter(init, p) by {
        assert forall x :: x in init ==> x in s;
        SortSeqStable(init, gt, p);
      }
      assert p(last) ==> forall y :: y in sorted && p(y) ==> !gt(y, last) by {
        SortSeqPermutes(init, gt);
        forall y | y in sorted ensures y in s {
          assert multiset(sorted)[y] > 0;
        }
      }
      FilterInsert(sorted, last, gt, p);
      assert Filter(s, p) == Filter(init, p) + Filter([last], p) by {
        FilterAppend(init, [last], p);
      }
      FilterOne(last, p);
    }
  }

  /** Lets `a[i]` sink into the sorted prefix `a[..i]`, as `Insert` does. */
  method SinkInto<T>(a: array<T>, i: int, gt: (T, T) -> bool)
    requires 0 <= i < a.Length
    modifies a
    ensures a[..i + 1] == Insert(old(a[..i]), old(a[i]), gt)
    ensures a[i + 1..] == old(a[i + 1..])
  {
    ghost var s, x := old(a[..i]), old(a[i]);
    var j := i;
    assert s[..j] == s && s[j..] == [];
    while j > 0 && gt(a[j - 1], a[j])
      invariant 0 <= j <= i
      invariant forall k :: 0 <= k < j ==> a[k] == s[k]
      invariant a[j] == x
      invariant forall k :: j < k <= i ==> a[k] == s[k - 1]
      invariant forall k :: i < k < a.Length ==> a[k] == old(a[k])
      invariant Insert(s, x, gt) == Insert(s[..j], x, gt) + s[j..]
    {
      InsertStep(s, j, x, gt);
      a[j - 1], a[j] := a[j], a[j - 1];
      j := j - 1;
    }
    assert j == 0 || !gt(s[j - 1], x);
    assert Insert(s[..j], x, gt) == s[..j] + [x];
    assert a[..i + 1] == s[..j] + [x] + s[j..];
    assert a[i + 1..] == old(a[i + 1..]);
  }

  /** One place down: `x` passes the greater value just below it. */
  lemma InsertStep<T>(s: seq<T>, j: int, x: T, gt: (T, T) -> bool)
    requires 0 < j <= |s| && gt(s[j - 1], x)
    ensures Insert(s[..j], x, gt) + s[j..] == Insert(s[..j - 1], x, gt) + s[j - 1..]
  {
    assert s[..j][..j - 1] == s[..j - 1];
    assert s[j - 1..] == [s[j - 1]] + s[j..];
  }

  method InsertionSort<T(!new)>(a: array<T>, gt: (T, T) -> bool)
    requires Asymmetric(gt)
    modifies a
    ensures a[..] == SortSeq(old(a[..]), gt)
    ensures multiset(a[..]) == multiset(old(a[..]))
    ensures InOrder(a[..], gt)
  {
    var i := 0;
    while i < a.Length
      invariant 0 <= i <= a.Length
      invariant a[..i] == SortSeq(old(a[..])[..i], gt)
      invariant a[i..] == old(a[..])[i..]
    {
      ghost var before := old(a[..])[..i + 1];
      assert before[..i] == old(a[..])[..i];
      SinkInto(a, i, gt);
      i := i + 1;
    }
    assert a[..a.Length] == a[..] && old(a[..])[..a.Length] == old(a[..]);
    SortSeqPermutes(old(a[..]), gt);
    SortSeqInOrder(old(a[..]), gt);
  }

  /**
   * For a transitive order, neighbours in order means every earlier element
   * is in order with every later one.
   */
  lemma {:induction false} Chain<T(!new)>(s: seq<T>, before: (T, T) -> bool)
    requires forall x, y, z :: before(x, y) && before(y, z) ==> before(x, z)
    requires forall k :: 0 < k < |s| ==> before(s[k - 1], s[k])
    ensures forall i, j :: 0 <= i < j < |s| ==> before(s[i], s[j])
    decreases |s|
  {
    if |s| > 1 {
      var init := s[..|s| - 1];
      assert forall k :: 0 <= k < |init| ==> init[k] == s[k];
      Chain(init, before);
      forall i, j | 0 <= i < j < |s|
        ensures before(s[i], s[j])
      {
        if j < |s| - 1 {
          assert init[i] == s[i] && init[j] == s[j];
        } else if i < j - 1 {
          assert init[i] == s[i] && init[j - 1] == s[j - 1];
        }
      }
    }
  }
}
