/** Generic sequence helpers shared by every view of the dashboard: the
    order-preserving filter that `Array.prototype.filter` performs, counting
    through it, the subsequence relation, and the first-match search of
    `Array.prototype.find`. */
module Collections {

  datatype Option<+T> = None | Some(value: T)

  function Min(a: int, b: int): int { if a <= b then a else b }

  function Max(a: int, b: int): int { if a >= b then a else b }

  /** `s.filter(p)`: the elements of `s` satisfying `p`, in their original order. */
  function Filter<T(==)>(s: seq<T>, p: T -> bool): (r: seq<T>)
    ensures |r| <= |s|
    ensures forall i :: 0 <= i < |r| ==> p(r[i])
  {
    if |s| == 0 then []
    else
      var rest := Filter(s[1..], p);
      if p(s[0]) then [s[0]] + rest else rest
  }

  /** The filter keeps exactly the elements satisfying `p`. */
  lemma {:induction false} FilterMembers<T>(s: seq<T>, p: T -> bool)
    ensures forall x :: x in Filter(s, p) <==> x in s && p(x)
    decreases |s|
  {
    if |s| > 0 {
      FilterMembers(s[1..], p);
      assert s == [s[0]] + s[1..];
    }
  }

  lemma {:induction false} FilterSubMultiset<T>(s: seq<T>, p: T -> bool)
    ensures multiset(Filter(s, p)) <= multiset(s)
    decreases |s|
  {
    if |s| > 0 {
      FilterSubMultiset(s[1..], p);
      assert s == [s[0]] + s[1..];
    }
  }

  /** `s.filter(p).length`. */
  function Count<T(==)>(s: seq<T>, p: T -> bool): nat
  {
    |Filter(s, p)|
  }

  /** `a` is obtained from `b` by deleting elements: same relative order,
      nothing fabricated, nothing duplicated. */
  predicate IsSubseq<T(==)>(a: seq<T>, b: seq<T>)
    decreases |b|
  {
    if |a| == 0 then true
    else if |b| == 0 then false
    else (a[0] == b[0] && IsSubseq(a[1..], b[1..])) || IsSubseq(a, b[1..])
  }

  /** No element occurs twice. */
  predicate NoDuplicates<T(==)>(s: seq<T>)
  {
    forall i, j :: 0 <= i < j < |s| ==> s[i] != s[j]
  }

  /** `s.find(p)`: the first element satisfying `p`, if any. */
  function Find<T(==)>(s: seq<T>, p: T -> bool): (r: Option<T>)
    ensures r.None? <==> forall i :: 0 <= i < |s| ==> !p(s[i])
    ensures r.Some? ==> exists i :: 0 <= i < |s| && s[i] == r.value && p(s[i]) &&
                                    forall j :: 0 <= j < i ==> !p(s[j])
  {
    if |s| == 0 then None
    else if p(s[0]) then Some(s[0])
    else
      var r := Find(s[1..], p);
      if r.Some? then
        var i :| 0 <= i < |s[1..]| && s[1..][i] == r.value && p(s[1..][i]) &&
                 forall j :: 0 <= j < i ==> !p(s[1..][j]);
        assert s[i + 1] == r.value && forall j :: 0 <= j < i + 1 ==> !p(s[j]);
        r
      else r
  }

  /** Filtering a list with a known first element. */
  lemma {:induction false} FilterCons<T>(h: T, s: seq<T>, p: T -> bool)
    ensures Filter([h] + s, p) == if p(h) then [h] + Filter(s, p) else Filter(s, p)
  {
    assert ([h] + s)[1..] == s;
  }

  lemma {:induction false} FilterAppend<T>(a: seq<T>, b: seq<T>, p: T -> bool)
    ensures Filter(a + b, p) == Filter(a, p) + Filter(b, p)
    decreases |a|
  {
    if |a| == 0 {
      assert a + b == b;
    } else {
      assert (a + b)[1..] == a[1..] + b;
      FilterAppend(a[1..], b, p);
    }
  }

  /** Filtering keeps the input order and never duplicates an element. */
  lemma {:induction false} FilterIsSubseq<T>(s: seq<T>, p: T -> bool)
    ensures IsSubseq(Filter(s, p), s)
    decreases |s|
  {
    if |s| > 0 {
      FilterIsSubseq(s[1..], p);
      if p(s[0]) {
        assert Filter(s, p)[1..] == Filter(s[1..], p);
      } else {
        SubseqOfTail(Filter(s, p), s);
      }
    }
  }

  lemma {:induction false} SubseqOfTail<T>(a: seq<T>, b: seq<T>)
    requires |b| > 0 && IsSubseq(a, b[1..])
    ensures IsSubseq(a, b)
  {
  }

  /** A predicate that holds on every element keeps the whole sequence. */
  lemma {:induction false} FilterAll<T>(s: seq<T>, p: T -> bool)
    requires forall i :: 0 <= i < |s| ==> p(s[i])
    ensures Filter(s, p) == s
    decreases |s|
  {
    if |s| > 0 {
      FilterAll(s[1..], p);
    }
  }

  /** A predicate that holds on no element keeps nothing. */
  lemma {:induction false} FilterNone<T>(s: seq<T>, p: T -> bool)
    requires forall i :: 0 <= i < |s| ==> !p(s[i])
    ensures Filter(s, p) == []
    decreases |s|
  {
    if |s| > 0 {
      FilterNone(s[1..], p);
    }
  }

  /** Filters with pointwise-equal predicates agree on a sequence. */
  lemma {:induction false} FilterCongruent<T>(s: seq<T>, p: T -> bool, q: T -> bool)
    requires forall i :: 0 <= i < |s| ==> (p(s[i]) <==> q(s[i]))
    ensures Filter(s, p) == Filter(s, q)
    decreases |s|
  {
    if |s| > 0 {
      FilterCongruent(s[1..], p, q);
    }
  }

  /** Filtering twice by `p` then `q` is filtering once by their conjunction. */
  lemma {:induction false} FilterFilter<T>(s: seq<T>, p: T -> bool, q: T -> bool, pq: T -> bool)
    requires forall x :: pq(x) <==> p(x) && q(x)
    ensures Filter(Filter(s, p), q) == Filter(s, pq)
    decreases |s|
  {
    if |s| > 0 {
      FilterFilter(s[1..], p, q, pq);
      if p(s[0]) {
        assert Filter(s, p)[1..] == Filter(s[1..], p);
      }
    }
  }

  /** If `p` implies `q` then fewer elements satisfy `p` than `q`. */
  lemma {:induction false} CountMonotone<T>(s: seq<T>, p: T -> bool, q: T -> bool)
    requires forall x :: p(x) ==> q(x)
    ensures Count(s, p) <= Count(s, q)
    decreases |s|
  {
    if |s| > 0 {
      CountMonotone(s[1..], p, q);
    }
  }

  /** Counting by a predicate that is the disjoint union of two others adds their counts. */
  lemma {:induction false} CountDisjointUnion<T>(s: seq<T>, p: T -> bool, q: T -> bool, pq: T -> bool)
    requires forall x :: pq(x) <==> p(x) || q(x)
    requires forall x :: !(p(x) && q(x))
    ensures Count(s, pq) == Count(s, p) + Count(s, q)
    decreases |s|
  {
    if |s| > 0 {
      CountDisjointUnion(s[1..], p, q, pq);
    }
  }

  lemma {:induction false} CountAppend<T>(a: seq<T>, b: seq<T>, p: T -> bool)
    ensures Count(a + b, p) == Count(a, p) + Count(b, p)
  {
    FilterAppend(a, b, p);
  }

  /** Membership in a subsequence implies membership in the whole. */
  lemma {:induction false} SubseqMembers<T>(a: seq<T>, b: seq<T>)
    requires IsSubseq(a, b)
    ensures forall x :: x in a ==> x in b
    decreases |b|
  {
    if |a| > 0 && |b| > 0 {
      if a[0] == b[0] && IsSubseq(a[1..], b[1..]) {
        SubseqMembers(a[1..], b[1..]);
        assert forall x :: x in a ==> x == a[0] || x in a[1..];
      } else {
        SubseqMembers(a, b[1..]);
      }
    }
  }

  /** `R` holds between every element and each later one. */
  ghost predicate Pairwise<T>(s: seq<T>, R: (T, T) -> bool)
  {
    forall i, j :: 0 <= i < j < |s| ==> R(s[i], s[j])
  }

  /** Filtering keeps every relation that held between earlier and later elements. */
  lemma {:induction false} FilterPairwise<T>(s: seq<T>, p: T -> bool, R: (T, T) -> bool)
    requires Pairwise(s, R)
    ensures Pairwise(Filter(s, p), R)
    decreases |s|
  {
    if |s| > 0 {
      var t := s[1..];
      assert Pairwise(t, R) by {
        forall i, j | 0 <= i < j < |t| ensures R(t[i], t[j]) {
          assert t[i] == s[i + 1] && t[j] == s[j + 1];
        }
      }
      FilterPairwise(t, p, R);
      if p(s[0]) {
        forall k | 0 <= k < |t| ensures R(s[0], t[k]) {
          assert t[k] == s[k + 1];
        }
        FilterKeepsProperty(t, p, y => R(s[0], y));
        ConsPairwise(s[0], Filter(t, p), R);
      }
    }
  }

  lemma {:induction false} ConsPairwise<T>(x: T, r: seq<T>, R: (T, T) -> bool)
    requires Pairwise(r, R)
    requires forall k :: 0 <= k < |r| ==> R(x, r[k])
    ensures Pairwise([x] + r, R)
  {
    var c := [x] + r;
    forall i, j | 0 <= i < j < |c| ensures R(c[i], c[j]) {
      assert c[j] == r[j - 1];
      if i > 0 {
        assert c[i] == r[i - 1];
      }
    }
  }

  /** A property of every element is a property of every kept element. */
  lemma {:induction false} FilterKeepsProperty<T>(s: seq<T>, p: T -> bool, P: T -> bool)
    requires forall k :: 0 <= k < |s| ==> P(s[k])
    ensures forall k :: 0 <= k < |Filter(s, p)| ==> P(Filter(s, p)[k])
    decreases |s|
  {
    if |s| > 0 {
      FilterKeepsProperty(s[1..], p, P);
    }
  }

  /** Filtering a duplicate-free sequence gives a duplicate-free sequence. */
  lemma {:induction false} FilterNoDuplicates<T>(s: seq<T>, p: T -> bool)
    requires NoDuplicates(s)
    ensures NoDuplicates(Filter(s, p))
  {
    var neq := (x: T, y: T) => x != y;
    FilterPairwise(s, p, neq);
    var r := Filter(s, p);
    assert forall i, j :: 0 <= i < j < |r| ==> neq(r[i], r[j]);
  }

  lemma {:induction false} NoDuplicatesCons<T>(s: seq<T>)
    requires |s| > 0 && NoDuplicates(s)
    ensures NoDuplicates(s[1..]) && s[0] !in s[1..]
  {
    var t := s[1..];
    forall i, j | 0 <= i < j < |t| ensures t[i] != t[j] {
      assert t[i] == s[i + 1] && t[j] == s[j + 1];
    }
    forall k | 0 <= k < |t| ensures t[k] != s[0] {
      assert t[k] == s[k + 1];
    }
  }

  /** Flip the membership of `x`: remove every copy when present, append it
      when absent (`prev.includes(x) ? prev.filter(y => y !== x) : [...prev, x]`). */
  function Toggle<T(==,!new)>(s: seq<T>, x: T): (r: seq<T>)
    ensures x in r <==> x !in s
    ensures forall y :: y != x ==> (y in r <==> y in s)
    ensures NoDuplicates(s) ==> NoDuplicates(r)
  {
    if x in s then
      var others := (y: T) => y != x;
      FilterMembers(s, others);
      assert NoDuplicates(s) ==> NoDuplicates(Filter(s, others)) by {
        if NoDuplicates(s) {
          FilterNoDuplicates(s, others);
        }
      }
      Filter(s, others)
    else
      assert NoDuplicates(s) ==> NoDuplicates(s + [x]) by {
        if NoDuplicates(s) {
          var r := s + [x];
          forall i, j | 0 <= i < j < |r| ensures r[i] != r[j] {
            if j == |s| {
              assert r[i] == s[i];
            }
          }
        }
      }
      s + [x]
  }

  /** Toggling twice restores membership of every element. */
  lemma {:induction false} ToggleTwice<T(!new)>(s: seq<T>, x: T)
    ensures forall y :: y in Toggle(Toggle(s, x), x) <==> y in s
  {
  }

  /** Strictly increasing positions inside a sequence of length `n`. */
  predicate IncreasingIndices(idx: seq<int>, n: int)
  {
    && (forall k :: 0 <= k < |idx| ==> 0 <= idx[k] < n)
    && (forall k, l :: 0 <= k < l < |idx| ==> idx[k] < idx[l])
  }

  /** The elements of `s` at the positions `idx`, in that order. */
  function Pick<T>(s: seq<T>, idx: seq<int>): (r: seq<T>)
    requires IncreasingIndices(idx, |s|)
    ensures |r| == |idx|
    ensures forall k :: 0 <= k < |idx| ==> r[k] == s[idx[k]]
  {
    seq(|idx|, k requires 0 <= k < |idx| => s[idx[k]])
  }

  /** The positions one lower, as seen from the tail. */
  function Shift(idx: seq<int>): (r: seq<int>)
    ensures |r| == |idx|
    ensures forall k :: 0 <= k < |idx| ==> r[k] == idx[k] - 1
  {
    seq(|idx|, k requires 0 <= k < |idx| => idx[k] - 1)
  }

  /** `idx` lists exactly the positions of `s` where `p` holds. */
  ghost predicate MarksExactly<T>(s: seq<T>, p: T -> bool, idx: seq<int>)
  {
    forall i :: 0 <= i < |s| ==> (p(s[i]) <==> i in idx)
  }

  lemma {:induction false} FirstMarkIsZero<T>(s: seq<T>, p: T -> bool, idx: seq<int>)
    requires |s| > 0 && p(s[0])
    requires IncreasingIndices(idx, |s|) && MarksExactly(s, p, idx)
    ensures |idx| > 0 && idx[0] == 0
  {
    assert 0 in idx;
    var k0 :| 0 <= k0 < |idx| && idx[k0] == 0;
    FirstIsSmallest(idx, |s|, k0);
  }

  /** The first position is the smallest, and in range. */
  lemma {:induction false} FirstIsSmallest(idx: seq<int>, n: int, k: int)
    requires IncreasingIndices(idx, n)
    ensures |idx| > 0 ==> 0 <= idx[0] < n
    ensures 0 < k < |idx| ==> idx[0] < idx[k]
  {
  }

  lemma {:induction false} ShiftIncreasing(idx: seq<int>, n: int)
    requires IncreasingIndices(idx, n)
    requires forall k :: 0 <= k < |idx| ==> idx[k] > 0
    ensures IncreasingIndices(Shift(idx), n - 1)
  {
  }

  lemma {:induction false} TailIncreasing(idx: seq<int>, n: int)
    requires IncreasingIndices(idx, n) && |idx| > 0
    ensures IncreasingIndices(idx[1..], n)
  {
    var t := idx[1..];
    forall k, l | 0 <= k < l < |t| ensures t[k] < t[l] {
      assert t[k] == idx[k + 1] && t[l] == idx[l + 1];
    }
  }

  lemma {:induction false} ShiftMarks<T>(s: seq<T>, p: T -> bool, idx: seq<int>, rest: seq<int>)
    requires |s| > 0
    requires MarksExactly(s, p, idx)
    requires forall i :: i in rest <==> i + 1 in idx && i + 1 != 0
    ensures MarksExactly(s[1..], p, rest)
  {
    var t := s[1..];
    forall i | 0 <= i < |t| ensures (p(t[i]) <==> i in rest) {
      assert t[i] == s[i + 1];
    }
  }

  lemma {:induction false} ShiftMembers(idx: seq<int>)
    ensures forall i :: i in Shift(idx) <==> i + 1 in idx
  {
    var r := Shift(idx);
    forall i ensures i in r <==> i + 1 in idx {
      if i in r {
        var k :| 0 <= k < |r| && r[k] == i;
        assert idx[k] == i + 1;
      }
      if i + 1 in idx {
        var k :| 0 <= k < |idx| && idx[k] == i + 1;
        assert r[k] == i;
      }
    }
  }

  lemma {:induction false} TailMembers(idx: seq<int>, n: int)
    requires IncreasingIndices(idx, n) && |idx| > 0 && idx[0] == 0
    ensures forall j :: j in idx[1..] <==> j in idx && j != 0
  {
    forall j | j in idx && j != 0 ensures j in idx[1..] {
      var k :| 0 <= k < |idx| && idx[k] == j;
      assert idx[1..][k - 1] == j;
    }
  }

  lemma {:induction false} PickCons<T>(s: seq<T>, idx: seq<int>)
    requires IncreasingIndices(idx, |s|) && |idx| > 0 && idx[0] == 0
    requires IncreasingIndices(Shift(idx[1..]), |s| - 1)
    ensures Pick(s, idx) == [s[0]] + Pick(s[1..], Shift(idx[1..]))
  {
    var a := Pick(s, idx);
    var b := [s[0]] + Pick(s[1..], Shift(idx[1..]));
    forall k | 0 <= k < |a| ensures a[k] == b[k] {
      if k > 0 {
        assert b[k] == Pick(s[1..], Shift(idx[1..]))[k - 1];
      }
    }
  }

  lemma {:induction false} HeadKept<T>(s: seq<T>, p: T -> bool, idx: seq<int>)
    requires |s| > 0 && p(s[0])
    requires IncreasingIndices(idx, |s|) && MarksExactly(s, p, idx)
    ensures IncreasingIndices(Shift(idx[1..]), |s| - 1) && MarksExactly(s[1..], p, Shift(idx[1..]))
    ensures Pick(s, idx) == [s[0]] + Pick(s[1..], Shift(idx[1..]))
  {
    FirstMarkIsZero(s, p, idx);
    TailIncreasing(idx, |s|);
    ShiftIncreasing(idx[1..], |s|);
    ShiftMembers(idx[1..]);
    TailMembers(idx, |s|);
    ShiftMarks(s, p, idx, Shift(idx[1..]));
    PickCons(s, idx);
  }

  lemma {:induction false} HeadDropped<T>(s: seq<T>, p: T -> bool, idx: seq<int>)
    requires |s| > 0 && !p(s[0])
    requires IncreasingIndices(idx, |s|) && MarksExactly(s, p, idx)
    ensures IncreasingIndices(Shift(idx), |s| - 1) && MarksExactly(s[1..], p, Shift(idx))
    ensures Pick(s, idx) == Pick(s[1..], Shift(idx))
  {
    forall k | 0 <= k < |idx| ensures idx[k] > 0 {
      assert idx[k] in idx;
    }
    ShiftIncreasing(idx, |s|);
    ShiftMembers(idx);
    ShiftMarks(s, p, idx, Shift(idx));
    var a := Pick(s, idx);
    var b := Pick(s[1..], Shift(idx));
    forall k | 0 <= k < |a| ensures a[k] == b[k] {
      assert b[k] == s[1..][idx[k] - 1];
    }
  }

  /** A filter keeps exactly the elements at the positions where the
      predicate holds, in order. */
  lemma {:induction false} FilterByIndices<T>(s: seq<T>, p: T -> bool, idx: seq<int>)
    requires IncreasingIndices(idx, |s|) && MarksExactly(s, p, idx)
    ensures Filter(s, p) == Pick(s, idx)
    decreases |s|
  {
    if |s| == 0 {
      FirstIsSmallest(idx, 0, 0);
    } else if p(s[0]) {
      HeadKept(s, p, idx);
      FilterByIndices(s[1..], p, Shift(idx[1..]));
    } else {
      HeadDropped(s, p, idx);
      FilterByIndices(s[1..], p, Shift(idx));
    }
  }
}
