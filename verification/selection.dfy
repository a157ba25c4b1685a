/** Order-preserving selection from a sequence: the shape shared by the link
    collector, the digit and dot filters and the row filter. */
module Selection {

  /** The elements of `xs` that satisfy `keep`, in their original order and
      with repetitions kept.  Built from the front, the way a loop pushing onto
      an array builds it. */
  function Filter<T>(xs: seq<T>, keep: T -> bool): (r: seq<T>)
    ensures |r| <= |xs|
    ensures forall k :: 0 <= k < |r| ==> keep(r[k])
    decreases |xs|
  {
    if xs == [] then []
    else
      var init := Filter(xs[..|xs| - 1], keep);
      if keep(xs[|xs| - 1]) then init + [xs[|xs| - 1]] else init
  }

  /** The positions of the elements that `Filter` keeps: strictly ascending,
      covering every position whose element satisfies `keep`, and matching the
      filtered sequence element for element.  Together these say that `Filter`
      returns exactly the kept elements, in order, duplicates included. */
  function Kept<T>(xs: seq<T>, keep: T -> bool): (r: seq<nat>)
    ensures |r| == |Filter(xs, keep)|
    ensures forall k :: 0 <= k < |r| ==> r[k] < |xs| && keep(xs[r[k]]) && Filter(xs, keep)[k] == xs[r[k]]
    ensures forall k, l :: 0 <= k < l < |r| ==> r[k] < r[l]
    ensures forall i :: 0 <= i < |xs| && keep(xs[i]) ==> i in r
    decreases |xs|
  {
    if xs == [] then []
    else
      var init := Kept(xs[..|xs| - 1], keep);
      if keep(xs[|xs| - 1]) then init + [|xs| - 1] else init
  }

  /** Filtering a concatenation filters each part. */
  lemma {:induction false} FilterAppend<T>(a: seq<T>, b: seq<T>, keep: T -> bool)
    ensures Filter(a + b, keep) == Filter(a, keep) + Filter(b, keep)
    decreases |b|
  {
    if b == [] {
      assert a + b == a;
    } else {
      var b' := b[..|b| - 1];
      assert (a + b)[..|a + b| - 1] == a + b';
      assert (a + b)[|a + b| - 1] == b[|b| - 1];
      FilterAppend(a, b', keep);
    }
  }

  /** A sequence whose every element is kept filters to itself. */
  lemma {:induction false} FilterKeepsAll<T>(xs: seq<T>, keep: T -> bool)
    requires forall k :: 0 <= k < |xs| ==> keep(xs[k])
    ensures Filter(xs, keep) == xs
    decreases |xs|
  {
    if xs != [] {
      FilterKeepsAll(xs[..|xs| - 1], keep);
    }
  }

  /** A sequence none of whose elements is kept filters to nothing. */
  lemma {:induction false} FilterDropsAll<T>(xs: seq<T>, keep: T -> bool)
    requires forall k :: 0 <= k < |xs| ==> !keep(xs[k])
    ensures Filter(xs, keep) == []
    decreases |xs|
  {
    if xs != [] {
      FilterDropsAll(xs[..|xs| - 1], keep);
    }
  }

  /** A loop from position `from` to the end of `xs` that pushes `f(x)` for
      every element `x` satisfying `keep`.  `picked` names the position each
      output element came from: ascending, and covering exactly the kept
      positions from `from` on. */
  method SelectFrom<T, U>(xs: seq<T>, from: nat, keep: T -> bool, f: T -> U)
    returns (ys: seq<U>, picked: seq<nat>)
    ensures |picked| == |ys|
    ensures forall k :: 0 <= k < |picked| ==> from <= picked[k] < |xs| && ys[k] == f(xs[picked[k]])
    ensures forall k, l :: 0 <= k < l < |picked| ==> picked[k] < picked[l]
    ensures forall i :: from <= i < |xs| ==> (keep(xs[i]) <==> i in picked)
  {
    ys, picked := [], [];
    var i := from;
    while i < |xs|
      invariant from <= i
      invariant |picked| == |ys|
      invariant forall k :: 0 <= k < |picked| ==> from <= picked[k] < i && picked[k] < |xs| && ys[k] == f(xs[picked[k]])
      invariant forall k, l :: 0 <= k < l < |picked| ==> picked[k] < picked[l]
      invariant forall j :: from <= j < i && j < |xs| ==> (keep(xs[j]) <==> j in picked)
    {
      if keep(xs[i]) {
        ys := ys + [f(xs[i])];
        picked := picked + [i];
      }
      i := i + 1;
    }
  }
}
