/** Order-preserving filtering of sequences, the meaning of Python's
    `[x for x in xs if p(x)]`, together with an independent characterisation
    by the ascending list of positions it keeps. */
module Seqs {

  /** The elements of `xs` that satisfy `p`, in their original order and with
      their original multiplicity. */
  function Filter<T>(xs: seq<T>, p: T -> bool): (r: seq<T>)
    ensures |r| <= |xs|
    ensures forall k :: 0 <= k < |r| ==> p(r[k])
    ensures forall k :: 0 <= k < |r| ==> r[k] in xs
  {
    if |xs| == 0 then []
    else if p(xs[0]) then [xs[0]] + Filter(xs[1..], p)
    else Filter(xs[1..], p)
  }

  /** Adds one to every position: the positions of `xs[1..]` seen from `xs`. */
  function Shift(idx: seq<nat>): (r: seq<nat>)
    ensures |r| == |idx|
    ensures forall k :: 0 <= k < |r| ==> r[k] == idx[k] + 1
  {
    seq(|idx|, k requires 0 <= k < |idx| => idx[k] + 1)
  }

  /** The positions of `xs` whose element satisfies `p`, ascending. */
  function Kept<T>(xs: seq<T>, p: T -> bool): (idx: seq<nat>)
    ensures forall k :: 0 <= k < |idx| ==> idx[k] < |xs|
  {
    if |xs| == 0 then []
    else if p(xs[0]) then [0] + Shift(Kept(xs[1..], p))
    else Shift(Kept(xs[1..], p))
  }

  /** Positions strictly ascend, so the kept elements keep their order. */
  ghost predicate Ascending(idx: seq<nat>) {
    forall a, b :: 0 <= a < b < |idx| ==> idx[a] < idx[b]
  }

  /** Filtering keeps as many elements as there are accepted positions. */
  lemma {:induction false} FilterLength<T>(xs: seq<T>, p: T -> bool)
    ensures |Filter(xs, p)| == |Kept(xs, p)|
  {
    if |xs| > 0 {
      FilterLength(xs[1..], p);
    }
  }

  /** The accepted positions are listed in ascending order. */
  lemma {:induction false} KeptAscending<T>(xs: seq<T>, p: T -> bool)
    ensures Ascending(Kept(xs, p))
  {
    if |xs| > 0 {
      KeptAscending(xs[1..], p);
    }
  }

  /** The k-th element of the result is the input element at the k-th
      accepted position. */
  lemma {:induction false} FilterAtKept<T>(xs: seq<T>, p: T -> bool)
    ensures |Filter(xs, p)| == |Kept(xs, p)|
    ensures forall k :: 0 <= k < |Kept(xs, p)| ==> Filter(xs, p)[k] == xs[Kept(xs, p)[k]]
  {
    FilterLength(xs, p);
    if |xs| > 0 {
      var tail := xs[1..];
      FilterAtKept(tail, p);
      var idx, r := Kept(xs, p), Filter(xs, p);
      var tidx, tr := Kept(tail, p), Filter(tail, p);
      if p(xs[0]) {
        forall k | 0 <= k < |idx|
          ensures r[k] == xs[idx[k]]
        {
          if k > 0 {
            assert r[k] == tr[k - 1];
            assert idx[k] == tidx[k - 1] + 1;
          }
        }
      } else {
        forall k | 0 <= k < |idx|
          ensures r[k] == xs[idx[k]]
        {
          assert r[k] == tr[k];
          assert idx[k] == tidx[k] + 1;
        }
      }
    }
  }

  /** A position is kept exactly when its element is accepted. */
  lemma {:induction false} KeptMembership<T>(xs: seq<T>, p: T -> bool)
    ensures forall j :: 0 <= j < |xs| ==> (p(xs[j]) <==> j in Kept(xs, p))
  {
    if |xs| > 0 {
      var tail := xs[1..];
      KeptMembership(tail, p);
      var idx, tidx := Kept(xs, p), Kept(tail, p);
      forall j | 0 <= j < |xs|
        ensures p(xs[j]) <==> j in idx
      {
        if j > 0 {
          assert xs[j] == tail[j - 1];
          assert j - 1 in tidx <==> j in Shift(tidx) by {
            if j - 1 in tidx {
              var k :| 0 <= k < |tidx| && tidx[k] == j - 1;
              assert Shift(tidx)[k] == j;
            }
          }
          if p(xs[0]) {
            assert idx == [0] + Shift(tidx);
          }
        } else if p(xs[0]) {
          assert idx[0] == 0;
        }
      }
    }
  }

  /** Filtering picks exactly the elements at the ascending positions whose
      element satisfies `p`: an order-preserving subsequence that drops
      precisely the rejected elements. */
  lemma {:induction false} FilterSelects<T>(xs: seq<T>, p: T -> bool)
    ensures |Filter(xs, p)| == |Kept(xs, p)|
    ensures Ascending(Kept(xs, p))
    ensures forall k :: 0 <= k < |Kept(xs, p)| ==> Filter(xs, p)[k] == xs[Kept(xs, p)[k]]
    ensures forall j :: 0 <= j < |xs| ==> (p(xs[j]) <==> j in Kept(xs, p))
  {
    FilterAtKept(xs, p);
    KeptAscending(xs, p);
    KeptMembership(xs, p);
  }

  /** Filtering never merges or duplicates: every accepted value occurs in the
      result exactly as often as in the input, every rejected value not at all. */
  lemma {:induction false} FilterCount<T>(xs: seq<T>, p: T -> bool, v: T)
    ensures multiset(Filter(xs, p))[v] == if p(v) then multiset(xs)[v] else 0
  {
    if |xs| > 0 {
      var tail := xs[1..];
      FilterCount(tail, p, v);
      assert xs == [xs[0]] + tail;
      assert multiset(xs)[v] == multiset([xs[0]])[v] + multiset(tail)[v];
      if p(xs[0]) {
        assert Filter(xs, p) == [xs[0]] + Filter(tail, p);
        assert multiset(Filter(xs, p))[v] == multiset([xs[0]])[v] + multiset(Filter(tail, p))[v];
      }
    }
  }

  /** When every element is accepted, filtering is the identity. */
  lemma {:induction false} FilterKeepsAll<T>(xs: seq<T>, p: T -> bool)
    requires forall k :: 0 <= k < |xs| ==> p(xs[k])
    ensures Filter(xs, p) == xs
  {
    if |xs| > 0 {
      FilterKeepsAll(xs[1..], p);
      assert xs == [xs[0]] + xs[1..];
    }
  }

  /** A value is in the filtered sequence exactly when it is in the input and
      accepted. */
  lemma FilterMember<T>(xs: seq<T>, p: T -> bool, v: T)
    ensures v in Filter(xs, p) <==> v in xs && p(v)
  {
    FilterCount(xs, p, v);
    assert v in Filter(xs, p) <==> multiset(Filter(xs, p))[v] > 0;
    assert v in xs <==> multiset(xs)[v] > 0;
  }
}
