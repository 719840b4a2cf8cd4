/**
 * The array operations the pages use, on sequences: `filter`, `map`,
 * `Array.from(new Set(xs))` (distinct elements in first-seen order), and
 * what it means for one array to be an order-preserving part of another.
 * All are defined by peeling off the LAST element, the order in which a
 * left-to-right loop or `reduce` extends its result.
 */
module Seqs {

  datatype Option<T> = None | Some(value: T)

  function Last<T>(xs: seq<T>): T
    requires xs != []
  {
    xs[|xs| - 1]
  }

  function Init<T>(xs: seq<T>): seq<T>
    requires xs != []
  {
    xs[..|xs| - 1]
  }

  lemma InitOfSnoc<T>(xs: seq<T>, x: T)
    ensures Init(xs + [x]) == xs && Last(xs + [x]) == x
  {
    assert (xs + [x])[..|xs|] == xs;
  }

  /** The prefix one element longer is the prefix with that element appended. */
  lemma PrefixSnoc<T>(xs: seq<T>, i: int)
    requires 0 <= i < |xs|
    ensures xs[..i + 1] == xs[..i] + [xs[i]]
  {
  }

  /** `xs.filter(p)`. */
  function Filter<T(!new)>(xs: seq<T>, p: T -> bool): (r: seq<T>)
    ensures |r| <= |xs|
  {
    if xs == [] then []
    else Filter(Init(xs), p) + (if p(Last(xs)) then [Last(xs)] else [])
  }

  /** Filtering a concatenation filters each part. */
  lemma {:induction false} FilterAppend<T(!new)>(xs: seq<T>, ys: seq<T>, p: T -> bool)
    ensures Filter(xs + ys, p) == Filter(xs, p) + Filter(ys, p)
  {
    if ys == [] {
      assert xs + ys == xs;
    } else {
      var init, last := Init(ys), Last(ys);
      FilterAppend(xs, init, p);
      assert xs + ys == (xs + init) + [last];
      assert ys == init + [last];
      FilterSnoc(xs + init, last, p);
      FilterSnoc(init, last, p);
    }
  }

  /** Filter keeps exactly the elements of xs that satisfy p. */
  lemma {:induction false} FilterMembers<T(!new)>(xs: seq<T>, p: T -> bool)
    ensures forall x :: x in Filter(xs, p) <==> x in xs && p(x)
  {
    if xs != [] {
      FilterMembers(Init(xs), p);
      assert xs == Init(xs) + [Last(xs)];
    }
  }

  lemma FilterSnoc<T(!new)>(xs: seq<T>, x: T, p: T -> bool)
    ensures Filter(xs + [x], p) == Filter(xs, p) + (if p(x) then [x] else [])
  {
    InitOfSnoc(xs, x);
  }

  /** Filtering never loses or duplicates an element that satisfies p. */
  lemma {:induction false} FilterMultiset<T(!new)>(xs: seq<T>, p: T -> bool)
    ensures forall x :: multiset(Filter(xs, p))[x] == if p(x) then multiset(xs)[x] else 0
  {
    if xs != [] {
      FilterMultiset(Init(xs), p);
      assert xs == Init(xs) + [Last(xs)];
    }
  }

  lemma {:induction false} FilterCons<T(!new)>(x: T, xs: seq<T>, p: T -> bool)
    ensures Filter([x] + xs, p) == (if p(x) then [x] else []) + Filter(xs, p)
  {
    if xs == [] {
      assert [x] + xs == [] + [x];
      FilterSnoc([], x, p);
    } else {
      var init, last := Init(xs), Last(xs);
      var head := if p(x) then [x] else [];
      var tail := if p(last) then [last] else [];
      FilterCons(x, init, p);
      assert [x] + xs == ([x] + init) + [last];
      FilterSnoc([x] + init, last, p);
      assert Filter(xs, p) == Filter(init, p) + tail;
      calc {
        Filter([x] + xs, p);
        Filter([x] + init, p) + tail;
        (head + Filter(init, p)) + tail;
        head + (Filter(init, p) + tail);
      }
    }
  }

  /** A filter that keeps nothing gives the empty sequence. */
  lemma FilterNone<T(!new)>(xs: seq<T>, p: T -> bool)
    requires forall x :: x in xs ==> !p(x)
    ensures Filter(xs, p) == []
  {
    FilterMembers(xs, p);
  }

  /** A filter that keeps everything is the identity. */
  lemma {:induction false} FilterAll<T(!new)>(xs: seq<T>, p: T -> bool)
    requires forall x :: x in xs ==> p(x)
    ensures Filter(xs, p) == xs
  {
    if xs != [] {
      FilterAll(Init(xs), p);
      assert xs == Init(xs) + [Last(xs)];
    }
  }

  /** Filtering by a conjunction is filtering twice: the result for p && q is
      an order-preserving part of the result for p alone. */
  lemma {:induction false} FilterConj<T(!new)>(xs: seq<T>, p: T -> bool, q: T -> bool, pq: T -> bool)
    requires forall x :: pq(x) == (p(x) && q(x))
    ensures Filter(xs, pq) == Filter(Filter(xs, p), q)
  {
    if xs != [] {
      FilterConj(Init(xs), p, q, pq);
      var x := Last(xs);
      if p(x) {
        FilterSnoc(Filter(Init(xs), p), x, q);
      } else {
        assert Filter(Init(xs), p) + [] == Filter(Init(xs), p);
        assert Filter(Init(xs), pq) + [] == Filter(Init(xs), pq);
      }
    }
  }

  /** idx lists strictly increasing positions of xs whose elements, in order, are r. */
  ghost predicate Embeds<T>(r: seq<T>, xs: seq<T>, idx: seq<int>)
  {
    && |idx| == |r|
    && (forall k :: 0 <= k < |idx| ==> 0 <= idx[k] < |xs| && xs[idx[k]] == r[k])
    && (forall k, l :: 0 <= k < l < |idx| ==> idx[k] < idx[l])
  }

  /** The positions of xs that Filter(xs, p) keeps. */
  function KeptPositions<T>(xs: seq<T>, p: T -> bool): seq<int>
  {
    if xs == [] then []
    else KeptPositions(Init(xs), p) + (if p(Last(xs)) then [|xs| - 1] else [])
  }

  /** Filter(xs, p) is the subsequence of xs at exactly the positions whose
      element satisfies p, in the order of xs. */
  lemma {:induction false} FilterEmbeds<T(!new)>(xs: seq<T>, p: T -> bool)
    ensures Embeds(Filter(xs, p), xs, KeptPositions(xs, p))
    ensures forall i :: 0 <= i < |xs| ==> (i in KeptPositions(xs, p) <==> p(xs[i]))
  {
    if xs != [] {
      FilterEmbeds(Init(xs), p);
      var idx := KeptPositions(Init(xs), p);
      assert forall k :: 0 <= k < |idx| ==> idx[k] < |xs| - 1;
    }
  }

  /** The elements of xs at positions idx, in the order of idx. */
  function Pick<T>(xs: seq<T>, idx: seq<int>): (r: seq<T>)
    requires forall k :: 0 <= k < |idx| ==> 0 <= idx[k] < |xs|
    ensures |r| == |idx|
    ensures forall k :: 0 <= k < |idx| ==> r[k] == xs[idx[k]]
  {
    seq(|idx|, k requires 0 <= k < |idx| => xs[idx[k]])
  }

  ghost predicate ArePositions<T>(xs: seq<T>, p: T -> bool, idx: seq<int>)
  {
    && (forall k :: 0 <= k < |idx| ==> 0 <= idx[k] < |xs|)
    && (forall k, l :: 0 <= k < l < |idx| ==> idx[k] < idx[l])
    && (forall i :: 0 <= i < |xs| ==> (p(xs[i]) <==> i in idx))
  }

  /** Dropping the last element of xs drops its position, if it was kept. */
  lemma PositionsOfInit<T>(xs: seq<T>, p: T -> bool, idx: seq<int>)
    requires xs != [] && ArePositions(xs, p, idx)
    ensures p(Last(xs)) ==> idx != [] && idx[|idx| - 1] == |xs| - 1
    ensures ArePositions(Init(xs), p, if p(Last(xs)) then idx[..|idx| - 1] else idx)
  {
    var n := |xs| - 1;
    var init := Init(xs);
    var kept := p(xs[n]);
    var rest := if kept then idx[..|idx| - 1] else idx;
    if kept {
      var j :| 0 <= j < |idx| && idx[j] == n;
      assert idx[j] <= idx[|idx| - 1];
      assert idx[|idx| - 1] == n;
    } else {
      forall k | 0 <= k < |idx| ensures idx[k] < n {
        assert idx[k] != n;
      }
    }
    assert forall k :: 0 <= k < |rest| ==> rest[k] == idx[k] && rest[k] < n;
    forall i | 0 <= i < n
      ensures p(init[i]) <==> i in rest
    {
      assert init[i] == xs[i];
      if i in idx {
        var j :| 0 <= j < |idx| && idx[j] == i;
        assert j < |rest|;
        assert rest[j] == i;
      }
    }
  }

  /** Positions that all fall before the last element pick the same from Init(xs). */
  lemma PickInit<T>(xs: seq<T>, idx: seq<int>)
    requires xs != [] && forall k :: 0 <= k < |idx| ==> 0 <= idx[k] < |xs| - 1
    ensures Pick(xs, idx) == Pick(Init(xs), idx)
  {
    assert forall k :: 0 <= k < |idx| ==> Init(xs)[idx[k]] == xs[idx[k]];
  }

  /** Ending on the last position picks the last element after the rest. */
  lemma PickLast<T>(xs: seq<T>, idx: seq<int>)
    requires xs != [] && idx != [] && idx[|idx| - 1] == |xs| - 1
    requires forall k :: 0 <= k < |idx| - 1 ==> 0 <= idx[k] < |xs| - 1
    ensures Pick(xs, idx) == Pick(Init(xs), idx[..|idx| - 1]) + [Last(xs)]
  {
    var a, b := Pick(xs, idx), Pick(Init(xs), idx[..|idx| - 1]) + [Last(xs)];
    forall k | 0 <= k < |a| ensures a[k] == b[k] {
      if k < |idx| - 1 {
        assert Init(xs)[idx[k]] == xs[idx[k]];
      }
    }
  }

  /** Knowing exactly which positions satisfy p determines Filter(xs, p). */
  lemma {:induction false} FilterByPositions<T(!new)>(xs: seq<T>, p: T -> bool, idx: seq<int>)
    requires ArePositions(xs, p, idx)
    ensures Filter(xs, p) == Pick(xs, idx)
  {
    if xs != [] {
      PositionsOfInit(xs, p, idx);
      var rest := if p(Last(xs)) then idx[..|idx| - 1] else idx;
      FilterByPositions(Init(xs), p, rest);
      if p(Last(xs)) {
        PickLast(xs, idx);
      } else {
        PickInit(xs, idx);
      }
    } else if idx != [] {
      assert false;
    }
  }

  /** `xs.map(f)`. */
  function Map<T, U>(xs: seq<T>, f: T -> U): (r: seq<U>)
    ensures |r| == |xs|
    ensures forall i :: 0 <= i < |xs| ==> r[i] == f(xs[i])
  {
    if xs == [] then [] else Map(Init(xs), f) + [f(Last(xs))]
  }

  lemma MapSnoc<T, U>(xs: seq<T>, x: T, f: T -> U)
    ensures Map(xs + [x], f) == Map(xs, f) + [f(x)]
  {
  }

  lemma MapAppend<T, U>(xs: seq<T>, ys: seq<T>, f: T -> U)
    ensures Map(xs + ys, f) == Map(xs, f) + Map(ys, f)
  {
  }

  ghost predicate NoDuplicates<T>(xs: seq<T>)
  {
    forall i, j :: 0 <= i < j < |xs| ==> xs[i] != xs[j]
  }

  /** Dropping the last element keeps a sequence free of repeats, and that
      element does not occur earlier. */
  lemma InitNoDuplicates<T>(xs: seq<T>)
    requires xs != [] && NoDuplicates(xs)
    ensures NoDuplicates(Init(xs)) && Last(xs) !in Init(xs)
  {
    var init := Init(xs);
    forall i | 0 <= i < |init| ensures init[i] == xs[i] {
    }
  }

  /** Position of the first occurrence of x in xs. */
  function FirstIndex<T(==)>(xs: seq<T>, x: T): (r: nat)
    requires x in xs
    ensures r < |xs| && xs[r] == x && x !in xs[..r]
  {
    if x in Init(xs) then FirstIndex(Init(xs), x) else |xs| - 1
  }

  /** `Array.from(new Set(xs))`: each element once, in first-seen order. */
  function Distinct<T(==,!new)>(xs: seq<T>): (r: seq<T>)
    ensures NoDuplicates(r)
    ensures forall x :: x in r <==> x in xs
  {
    if xs == [] then []
    else
      var d := Distinct(Init(xs));
      if Last(xs) in d then d else d + [Last(xs)]
  }

  lemma DistinctSnoc<T(!new)>(xs: seq<T>, x: T)
    ensures Distinct(xs + [x]) == if x in xs then Distinct(xs) else Distinct(xs) + [x]
  {
    InitOfSnoc(xs, x);
  }

  /** Appending a non-empty run of one new element x adds x once, at the end. */
  lemma {:induction false} DistinctAppendRun<T(!new)>(xs: seq<T>, run: seq<T>, x: T)
    requires run != [] && x !in xs
    requires forall i :: 0 <= i < |run| ==> run[i] == x
    ensures Distinct(xs + run) == Distinct(xs) + [x]
  {
    var init := Init(run);
    assert xs + run == (xs + init) + [x];
    DistinctSnoc(xs + init, x);
    if init == [] {
      assert xs + init == xs;
    } else {
      DistinctAppendRun(xs, init, x);
      assert x in xs + init;
    }
  }

  /** A sequence without repeats is its own distinct list. */
  lemma {:induction false} DistinctOfNoDuplicates<T(!new)>(xs: seq<T>)
    requires NoDuplicates(xs)
    ensures Distinct(xs) == xs
  {
    if xs != [] {
      var init := Init(xs);
      assert NoDuplicates(init) by {
        forall i, j | 0 <= i < j < |init| ensures init[i] != init[j] {
          assert init[i] == xs[i] && init[j] == xs[j];
        }
      }
      DistinctOfNoDuplicates(init);
      assert Last(xs) !in init by {
        forall i | 0 <= i < |init| ensures init[i] != Last(xs) {
          assert init[i] == xs[i];
        }
      }
    }
  }

  /** Distinct lists its elements in the order of their first occurrence in xs. */
  lemma {:induction false} DistinctFirstSeenOrder<T(!new)>(xs: seq<T>)
    ensures forall i, j :: 0 <= i < j < |Distinct(xs)| ==>
              FirstIndex(xs, Distinct(xs)[i]) < FirstIndex(xs, Distinct(xs)[j])
  {
    if xs != [] {
      var init := Init(xs);
      DistinctFirstSeenOrder(init);
      var d := Distinct(xs);
      forall y | y in init
        ensures FirstIndex(xs, y) == FirstIndex(init, y) < |init|
      {
      }
      if Last(xs) !in init {
        assert FirstIndex(xs, Last(xs)) == |init|;
      }
    }
  }
}
