/**
 * Row selection, as pandas does it with `dropna` and boolean indexing:
 * keep some rows, in their original order.
 */
module Seqs {
  /** The elements of xs that satisfy p, in order. */
  function Filter<T>(p: T -> bool, xs: seq<T>): (r: seq<T>)
    ensures |r| <= |xs|
    ensures forall k :: 0 <= k < |r| ==> p(r[k])
    decreases |xs|
  {
    if xs == [] then []
    else
      var n := |xs| - 1;
      Filter(p, xs[..n]) + (if p(xs[n]) then [xs[n]] else [])
  }

  /** The positions of xs whose element satisfies p, ascending. */
  function KeptIndices<T>(p: T -> bool, xs: seq<T>): seq<nat>
    decreases |xs|
  {
    if xs == [] then []
    else
      var n := |xs| - 1;
      KeptIndices(p, xs[..n]) + (if p(xs[n]) then [n] else [])
  }

  /** r is the subsequence of xs at the strictly ascending positions idx. */
  ghost predicate Selects<T>(r: seq<T>, xs: seq<T>, idx: seq<nat>)
  {
    && |r| == |idx|
    && (forall k :: 0 <= k < |idx| ==> idx[k] < |xs| && r[k] == xs[idx[k]])
    && (forall k, l :: 0 <= k < l < |idx| ==> idx[k] < idx[l])
  }

  /**
   * Filter keeps exactly the elements that satisfy p and keeps them in
   * their original relative order.
   */
  lemma {:induction false} FilterSelects<T>(p: T -> bool, xs: seq<T>)
    ensures Selects(Filter(p, xs), xs, KeptIndices(p, xs))
    ensures forall i :: 0 <= i < |xs| ==> (i in KeptIndices(p, xs) <==> p(xs[i]))
    decreases |xs|
  {
    if xs != [] {
      var n := |xs| - 1;
      var pre := xs[..n];
      FilterSelects(p, pre);
      var r0, idx0 := Filter(p, pre), KeptIndices(p, pre);
      var r, idx := Filter(p, xs), KeptIndices(p, xs);
      assert r == r0 + (if p(xs[n]) then [xs[n]] else []);
      assert idx == idx0 + (if p(xs[n]) then [n] else []);
      assert forall k :: 0 <= k < |idx0| ==> idx0[k] < n && r[k] == r0[k] == pre[idx0[k]] == xs[idx0[k]];
      assert Selects(r, xs, idx);
      forall i | 0 <= i < |xs|
        ensures i in idx <==> p(xs[i])
      {
        if i < n {
          assert xs[i] == pre[i];
          assert i in idx0 <==> p(pre[i]);
        }
      }
    }
  }

  /** Filtering a sequence with one more element at the end. */
  lemma FilterSnoc<T>(p: T -> bool, xs: seq<T>, x: T)
    ensures Filter(p, xs + [x]) == Filter(p, xs) + (if p(x) then [x] else [])
  {
    assert (xs + [x])[..|xs|] == xs;
  }

  /** The elements of xs at positions where keep is true: `df[mask]`. */
  function Mask<T>(xs: seq<T>, keep: seq<bool>): (r: seq<T>)
    requires |keep| == |xs|
    ensures |r| <= |xs|
    decreases |xs|
  {
    if xs == [] then []
    else
      var n := |xs| - 1;
      Mask(xs[..n], keep[..n]) + (if keep[n] then [xs[n]] else [])
  }

  /** The positions where keep is true, ascending. */
  function TrueIndices(keep: seq<bool>): seq<nat>
    decreases |keep|
  {
    if keep == [] then []
    else
      var n := |keep| - 1;
      TrueIndices(keep[..n]) + (if keep[n] then [n] else [])
  }

  /**
   * Masking keeps exactly the rows whose flag is true, in order; every
   * column masked with the same flags is cut at the same positions.
   */
  lemma {:induction false} MaskSelects<T>(xs: seq<T>, keep: seq<bool>)
    requires |keep| == |xs|
    ensures Selects(Mask(xs, keep), xs, TrueIndices(keep))
    ensures forall i :: 0 <= i < |xs| ==> (i in TrueIndices(keep) <==> keep[i])
    decreases |xs|
  {
    if xs != [] {
      var n := |xs| - 1;
      var pre, flags := xs[..n], keep[..n];
      MaskSelects(pre, flags);
      var r0, idx0 := Mask(pre, flags), TrueIndices(flags);
      var r, idx := Mask(xs, keep), TrueIndices(keep);
      assert r == r0 + (if keep[n] then [xs[n]] else []);
      assert idx == idx0 + (if keep[n] then [n] else []);
      assert forall k :: 0 <= k < |idx0| ==> idx0[k] < n && r[k] == r0[k] == pre[idx0[k]] == xs[idx0[k]];
      assert Selects(r, xs, idx);
      forall i | 0 <= i < |xs|
        ensures i in idx <==> keep[i]
      {
        if i < n {
          assert keep[i] == flags[i];
          assert i in idx0 <==> flags[i];
        }
      }
    }
  }
}
