/** The stable sort that `Array.prototype.sort` performs (section 23.1.3.30 of
    ECMA-262, 2023 edition: the sort must be stable), over a comparison given
    as a "less or equal" relation `le`, where `le(a, b)` means the comparator
    returns a value `<= 0` for `(a, b)`. The sort is a functional insertion
    sort: each element, taken in input order, is placed after every element
    already placed that is not greater than it. */
module Sorting {
  import opened Collections

  /** `le` is total and transitive: what a consistent comparator provides. */
  ghost predicate TotalPreorder<T(!new)>(le: (T, T) -> bool)
  {
    && (forall x, y :: le(x, y) || le(y, x))
    && (forall x, y, z :: le(x, y) && le(y, z) ==> le(x, z))
  }

  /** Every earlier element is `le` every later one. */
  ghost predicate SortedBy<T>(s: seq<T>, le: (T, T) -> bool)
  {
    forall i, j :: 0 <= i < j < |s| ==> le(s[i], s[j])
  }

  /** The elements with the same sort key as `k`. */
  function Equivalent<T>(le: (T, T) -> bool, k: T): T -> bool
  {
    x => le(x, k) && le(k, x)
  }

  /** Places `x` after the leading elements of `t` that are `le` it. */
  function Insert<T>(t: seq<T>, x: T, le: (T, T) -> bool): (r: seq<T>)
    ensures |r| == |t| + 1
  {
    if |t| == 0 then [x]
    else if le(t[0], x) then [t[0]] + Insert(t[1..], x, le)
    else [x] + t
  }

  lemma {:induction false} InsertPermutes<T>(t: seq<T>, x: T, le: (T, T) -> bool)
    ensures multiset(Insert(t, x, le)) == multiset(t) + multiset{x}
    decreases |t|
  {
    if |t| > 0 {
      InsertPermutes(t[1..], x, le);
      assert t == [t[0]] + t[1..];
    }
  }

  /** `[...s].sort(cmp)`: a fresh, reordered copy of `s`. */
  function SortBy<T>(s: seq<T>, le: (T, T) -> bool): (r: seq<T>)
    ensures |r| == |s|
  {
    if |s| == 0 then [] else Insert(SortBy(s[..|s| - 1], le), s[|s| - 1], le)
  }

  /** The sorted copy holds exactly the input's elements, each as often. */
  lemma {:induction false} SortByPermutes<T>(s: seq<T>, le: (T, T) -> bool)
    ensures multiset(SortBy(s, le)) == multiset(s)
    decreases |s|
  {
    if |s| > 0 {
      var init := s[..|s| - 1];
      var last := s[|s| - 1];
      SortByPermutes(init, le);
      InsertPermutes(SortBy(init, le), last, le);
      assert s == init + [last];
      assert multiset(s) == multiset(init) + multiset{last};
    }
  }

  lemma {:induction false} SortedTail<T>(t: seq<T>, le: (T, T) -> bool)
    requires |t| > 0 && SortedBy(t, le)
    ensures SortedBy(t[1..], le)
  {
    var tail := t[1..];
    forall i, j | 0 <= i < j < |tail| ensures le(tail[i], tail[j]) {
      assert tail[i] == t[i + 1] && tail[j] == t[j + 1];
    }
  }

  lemma {:induction false} InsertSorted<T(!new)>(t: seq<T>, x: T, le: (T, T) -> bool)
    requires TotalPreorder(le) && SortedBy(t, le)
    ensures SortedBy(Insert(t, x, le), le)
    decreases |t|
  {
    if |t| > 0 && le(t[0], x) {
      var tail := t[1..];
      SortedTail(t, le);
      InsertSorted(tail, x, le);
      InsertPermutes(tail, x, le);
      var rest := Insert(tail, x, le);
      var r := [t[0]] + rest;
      assert forall e :: e in multiset(rest) ==> e == x || e in multiset(tail);
      forall j | 0 < j < |r| ensures le(r[0], r[j]) {
        assert r[j] in multiset(rest);
        if r[j] != x {
          var m :| 0 <= m < |tail| && tail[m] == r[j];
          assert t[m + 1] == r[j];
        }
      }
    }
  }

  /** The sorted copy is in non-decreasing order. */
  lemma {:induction false} SortBySorted<T(!new)>(s: seq<T>, le: (T, T) -> bool)
    requires TotalPreorder(le)
    ensures SortedBy(SortBy(s, le), le)
    decreases |s|
  {
    if |s| > 0 {
      SortBySorted(s[..|s| - 1], le);
      InsertSorted(SortBy(s[..|s| - 1], le), s[|s| - 1], le);
    }
  }

  /** In a sorted sequence nothing after an element greater than `x` is `le` `x`. */
  lemma {:induction false} NoneEquivalentAfterGreater<T(!new)>(t: seq<T>, x: T, le: (T, T) -> bool, k: T)
    requires TotalPreorder(le) && SortedBy(t, le)
    requires |t| > 0 && !le(t[0], x) && Equivalent(le, k)(x)
    ensures forall i :: 0 <= i < |t| ==> !Equivalent(le, k)(t[i])
  {
    forall i | 0 <= i < |t| ensures !Equivalent(le, k)(t[i]) {
      if i > 0 {
        assert le(t[0], t[i]);
      }
    }
  }

  lemma {:induction false} InsertStable<T(!new)>(t: seq<T>, x: T, le: (T, T) -> bool, k: T)
    requires TotalPreorder(le) && SortedBy(t, le)
    ensures Filter(Insert(t, x, le), Equivalent(le, k)) == Filter(t, Equivalent(le, k)) + Filter([x], Equivalent(le, k))
    decreases |t|
  {
    if |t| > 0 && le(t[0], x) {
      SortedTail(t, le);
      InsertStable(t[1..], x, le, k);
      InsertBehindStable(t, x, le, k);
    } else if |t| > 0 {
      InsertInFrontStable(t, x, le, k);
    }
  }

  lemma {:induction false} InsertBehindStable<T>(t: seq<T>, x: T, le: (T, T) -> bool, k: T)
    requires |t| > 0 && le(t[0], x)
    requires Filter(Insert(t[1..], x, le), Equivalent(le, k)) == Filter(t[1..], Equivalent(le, k)) + Filter([x], Equivalent(le, k))
    ensures Filter(Insert(t, x, le), Equivalent(le, k)) == Filter(t, Equivalent(le, k)) + Filter([x], Equivalent(le, k))
  {
    assert Insert(t, x, le) == [t[0]] + Insert(t[1..], x, le);
    assert t == [t[0]] + t[1..];
    ConsKeepsSplit(t[0], Insert(t[1..], x, le), t[1..], [x], Equivalent(le, k));
  }

  /** Putting the same element in front of both sides keeps a split of a filter. */
  lemma {:induction false} ConsKeepsSplit<T>(h: T, s: seq<T>, a: seq<T>, b: seq<T>, p: T -> bool)
    requires Filter(s, p) == Filter(a, p) + Filter(b, p)
    ensures Filter([h] + s, p) == Filter([h] + a, p) + Filter(b, p)
  {
    var fa := Filter(a, p);
    var fb := Filter(b, p);
    if p(h) {
      assert Filter([h] + s, p) == [h] + (fa + fb) by {
        FilterCons(h, s, p);
      }
      assert Filter([h] + a, p) == [h] + fa by {
        FilterCons(h, a, p);
      }
      assert [h] + (fa + fb) == ([h] + fa) + fb;
    } else {
      assert Filter([h] + s, p) == fa + fb by {
        FilterCons(h, s, p);
      }
      assert Filter([h] + a, p) == fa by {
        FilterCons(h, a, p);
      }
    }
  }

  lemma {:induction false} InsertInFrontStable<T(!new)>(t: seq<T>, x: T, le: (T, T) -> bool, k: T)
    requires TotalPreorder(le) && SortedBy(t, le)
    requires |t| > 0 && !le(t[0], x)
    ensures Filter([x] + t, Equivalent(le, k)) == Filter(t, Equivalent(le, k)) + Filter([x], Equivalent(le, k))
  {
    var eq := Equivalent(le, k);
    FilterAppend([x], t, eq);
    if eq(x) {
      NoneEquivalentAfterGreater(t, x, le, k);
      FilterNone(t, eq);
    }
  }

  /** Stability: for every sort key, the elements carrying that key appear in
      the sorted copy in exactly the order they had in the input. */
  lemma {:induction false} SortByStable<T(!new)>(s: seq<T>, le: (T, T) -> bool, k: T)
    requires TotalPreorder(le)
    ensures Filter(SortBy(s, le), Equivalent(le, k)) == Filter(s, Equivalent(le, k))
    decreases |s|
  {
    if |s| > 0 {
      var init := s[..|s| - 1];
      SortByStable(init, le, k);
      SortBySorted(init, le);
      InsertStable(SortBy(init, le), s[|s| - 1], le, k);
      FilterAppend(init, [s[|s| - 1]], Equivalent(le, k));
      assert init + [s[|s| - 1]] == s;
    }
  }

  /** The first element kept by a filter is the first element satisfying it. */
  lemma {:induction false} FilterHead<T>(s: seq<T>, p: T -> bool, i: nat)
    requires i < |s| && p(s[i]) && forall j :: 0 <= j < i ==> !p(s[j])
    ensures |Filter(s, p)| > 0 && Filter(s, p)[0] == s[i]
    decreases i
  {
    if i > 0 {
      FilterHead(s[1..], p, i - 1);
    }
  }

  /** A sorted sequence is fixed by its key classes: two sequences sorted by
      the same total preorder, holding the same elements of every key in the
      same order, are equal. */
  lemma {:induction false} SortedUnique<T(!new)>(a: seq<T>, b: seq<T>, le: (T, T) -> bool)
    requires TotalPreorder(le) && SortedBy(a, le) && SortedBy(b, le)
    requires forall k :: Filter(a, Equivalent(le, k)) == Filter(b, Equivalent(le, k))
    ensures a == b
    decreases |a| + |b|
  {
    NonEmptyAlike(a, b, le);
    NonEmptyAlike(b, a, le);
    if |a| > 0 {
      SortedHeadsEqual(a, b, le);
      SortedTail(a, le);
      SortedTail(b, le);
      forall k ensures Filter(a[1..], Equivalent(le, k)) == Filter(b[1..], Equivalent(le, k)) {
        var e := Equivalent(le, k);
        var head := if e(a[0]) then [a[0]] else [];
        assert Filter(a, e) == head + Filter(a[1..], e);
        assert Filter(b, e) == head + Filter(b[1..], e);
        assert Filter(a, e) == Filter(b, e);
        assert Filter(a[1..], e) == Filter(a, e)[|head|..];
      }
      SortedUnique(a[1..], b[1..], le);
      assert a == [a[0]] + a[1..] && b == [b[0]] + b[1..];
    }
  }

  lemma {:induction false} NonEmptyAlike<T(!new)>(a: seq<T>, b: seq<T>, le: (T, T) -> bool)
    requires TotalPreorder(le)
    requires forall k :: Filter(a, Equivalent(le, k)) == Filter(b, Equivalent(le, k))
    ensures |a| > 0 ==> |b| > 0
  {
    if |a| > 0 {
      FilterHead(a, Equivalent(le, a[0]), 0);
      assert |Filter(b, Equivalent(le, a[0]))| > 0;
    }
  }

  /** Some element of `b` shares the key of `a[0]`, and `b[0]` is not greater
      than it; and symmetrically. So the heads share a key, and being the
      first of that key in both, they are the same element. */
  lemma {:induction false} SortedHeadsEqual<T(!new)>(a: seq<T>, b: seq<T>, le: (T, T) -> bool)
    requires TotalPreorder(le) && SortedBy(a, le) && SortedBy(b, le)
    requires |a| > 0 && |b| > 0
    requires forall k :: Filter(a, Equivalent(le, k)) == Filter(b, Equivalent(le, k))
    ensures a[0] == b[0]
  {
    var ea := Equivalent(le, a[0]);
    var eb := Equivalent(le, b[0]);
    FilterHead(a, ea, 0);
    FilterHead(b, eb, 0);
    assert Filter(a, ea) == Filter(b, ea);
    assert Filter(a, eb) == Filter(b, eb);
    FilterMembers(b, ea);
    FilterMembers(a, eb);
    assert Filter(b, ea)[0] in b;
    var j :| 0 <= j < |b| && b[j] == Filter(b, ea)[0];
    assert le(b[0], a[0]) by {
      if j > 0 {
        assert le(b[0], b[j]);
      }
    }
    assert Filter(a, eb)[0] in a;
    var i :| 0 <= i < |a| && a[i] == Filter(a, eb)[0];
    assert le(a[0], b[0]) by {
      if i > 0 {
        assert le(a[0], a[i]);
      }
    }
    FilterHead(b, ea, 0);
  }

  /** Re-sorting with an order of the same key classes forgets the first sort:
      sorting ascending and then descending by one key is sorting descending. */
  lemma {:induction false} ResortForgetsFirstSort<T(!new)>(s: seq<T>, le1: (T, T) -> bool, le2: (T, T) -> bool)
    requires TotalPreorder(le1) && TotalPreorder(le2)
    requires forall x, y :: (le1(x, y) && le1(y, x)) <==> (le2(x, y) && le2(y, x))
    ensures SortBy(SortBy(s, le1), le2) == SortBy(s, le2)
  {
    var t := SortBy(s, le1);
    SortBySorted(t, le2);
    SortBySorted(s, le2);
    forall k ensures Filter(SortBy(t, le2), Equivalent(le2, k)) == Filter(SortBy(s, le2), Equivalent(le2, k)) {
      SortByStable(t, le2, k);
      SortByStable(s, le2, k);
      SortByStable(s, le1, k);
      FilterCongruent(t, Equivalent(le1, k), Equivalent(le2, k));
      FilterCongruent(s, Equivalent(le1, k), Equivalent(le2, k));
    }
    SortedUnique(SortBy(t, le2), SortBy(s, le2), le2);
  }

  /** Sorting an already sorted sequence leaves it as it is. */
  lemma {:induction false} SortAlreadySorted<T(!new)>(s: seq<T>, le: (T, T) -> bool)
    requires TotalPreorder(le) && SortedBy(s, le)
    ensures SortBy(s, le) == s
  {
    SortBySorted(s, le);
    forall k ensures Filter(SortBy(s, le), Equivalent(le, k)) == Filter(s, Equivalent(le, k)) {
      SortByStable(s, le, k);
    }
    SortedUnique(SortBy(s, le), s, le);
  }
}
