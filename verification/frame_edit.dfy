/** The trajectory-editing commands: `flip_cs` (reverse the frames), `trim_cs`
    (keep a Python slice of the coordinate-set ids) and `combine_cs` (check that
    the models hold the same atoms, then collect every model's frames in order).
    Each command's result is the frame sequence it hands to `add_coordsets(...,
    replace=True)`; the ids the host then assigns are not modelled. */
module FrameEdit {
  import opened Outcomes
  import opened Geometry
  import opened BondTable

  /** `[coordset(id).xyzs for id in ids]`. */
  function FramesOf(s: Structure, ids: seq<int>): (r: seq<Frame>)
    requires Valid(s) && forall k :: 0 <= k < |ids| ==> ids[k] in s.ids
    ensures |r| == |ids|
  {
    seq(|ids|, k requires 0 <= k < |ids| => FrameOf(s, ids[k]))
  }

  /** Ascending ids are distinct, so each id finds its own frame. */
  lemma FrameOfAt(s: Structure, k: nat)
    requires Valid(s) && k < |s.ids|
    ensures FrameOf(s, s.ids[k]) == s.frames[k]
  {
    assert forall l :: 0 <= l < k ==> s.ids[l] < s.ids[k];
  }

  /** Reading every id in order gives the frames in order. */
  lemma FramesOfAll(s: Structure)
    requires Valid(s)
    ensures FramesOf(s, s.ids) == s.frames
  {
    forall k | 0 <= k < |s.ids|
      ensures FramesOf(s, s.ids)[k] == s.frames[k]
    {
      FrameOfAt(s, k);
    }
  }

  // ---------------------------------------------------------------------------------------------
  // flip_cs

  function Reverse<T>(xs: seq<T>): (r: seq<T>)
    ensures |r| == |xs|
  {
    if |xs| == 0 then [] else Reverse(xs[1..]) + [xs[0]]
  }

  lemma {:induction false} ReverseAt<T>(xs: seq<T>, k: nat)
    requires k < |xs|
    ensures Reverse(xs)[k] == xs[|xs| - 1 - k]
    decreases |xs|
  {
    if k < |xs| - 1 {
      ReverseAt(xs[1..], k);
    }
  }

  /** Reversing twice gives the sequence back. */
  lemma ReverseReverse<T>(xs: seq<T>)
    ensures Reverse(Reverse(xs)) == xs
  {
    forall k | 0 <= k < |xs|
      ensures Reverse(Reverse(xs))[k] == xs[k]
    {
      ReverseAt(Reverse(xs), k);
      ReverseAt(xs, |xs| - 1 - k);
    }
  }

  /** `flip_cs`: the frames in id order, reversed. */
  function FlipCs(s: Structure): seq<Frame>
    requires Valid(s)
  {
    Reverse(FramesOf(s, s.ids))
  }

  /** Flipping keeps the number of frames and puts frame k where frame n - 1 - k was; a second flip of
      the result restores the original order. */
  lemma FlipCsSpec(s: Structure)
    requires Valid(s)
    ensures |FlipCs(s)| == |s.frames|
    ensures forall k :: 0 <= k < |s.frames| ==> FlipCs(s)[k] == s.frames[|s.frames| - 1 - k]
    ensures Reverse(FlipCs(s)) == s.frames
  {
    FramesOfAll(s);
    forall k | 0 <= k < |s.frames|
      ensures FlipCs(s)[k] == s.frames[|s.frames| - 1 - k]
    {
      ReverseAt(s.frames, k);
    }
    ReverseReverse(s.frames);
  }

  // ---------------------------------------------------------------------------------------------
  // trim_cs

  /** Where a Python slice bound `i` lands in a sequence of length `n`: negative bounds count from the
      end, and both kinds are clamped to [0, n]. */
  function SliceBound(i: int, n: nat): (b: nat)
    ensures b <= n
  {
    if i < 0 then (if i + n < 0 then 0 else i + n) else if i > n then n else i
  }

  /** `xs[start:stop]`. */
  function PySlice<T>(xs: seq<T>, start: int, stop: int): seq<T> {
    var lo := SliceBound(start, |xs|);
    var hi := SliceBound(stop, |xs|);
    if lo < hi then xs[lo..hi] else []
  }

  /** `trim_cs(first, last)`: the frames of `coordset_ids[first : num_coordsets - last]`. */
  function TrimCs(s: Structure, first: int, last: int): seq<Frame>
    requires Valid(s)
  {
    var kept := PySlice(s.ids, first, |s.ids| - last);
    assert forall k :: 0 <= k < |kept| ==> kept[k] in s.ids;
    FramesOf(s, kept)
  }

  /** Trimming keeps the frames between the two clamped bounds, in order. */
  lemma TrimCsSpec(s: Structure, first: int, last: int)
    requires Valid(s)
    ensures var n := |s.frames|;
      var lo := SliceBound(first, n);
      var hi := SliceBound(n - last, n);
      TrimCs(s, first, last) == if lo < hi then s.frames[lo..hi] else []
  {
    var n := |s.frames|;
    var lo := SliceBound(first, n);
    var hi := SliceBound(n - last, n);
    var r := TrimCs(s, first, last);
    if lo < hi {
      forall k | 0 <= k < hi - lo
        ensures r[k] == s.frames[lo + k]
      {
        FrameOfAt(s, lo + k);
      }
    }
  }

  /** With non-negative counts that fit, trimming drops `first` frames at the front and `last` at the
      back: n - first - last frames remain, frame k being old frame first + k. */
  lemma TrimCsWithin(s: Structure, first: int, last: int)
    requires Valid(s) && 0 <= first && 0 <= last && first + last <= |s.frames|
    ensures |TrimCs(s, first, last)| == |s.frames| - first - last
    ensures forall k :: 0 <= k < |s.frames| - first - last ==> TrimCs(s, first, last)[k] == s.frames[first + k]
  {
    TrimCsSpec(s, first, last);
  }

  /** `last = 0` keeps every frame from `first` to the end. */
  lemma TrimCsToEnd(s: Structure, first: int)
    requires Valid(s) && 0 <= first <= |s.frames|
    ensures TrimCs(s, first, 0) == s.frames[first..]
  {
    TrimCsSpec(s, first, 0);
  }

  /** When `first` and `last` together cover every frame (and `last` does not go past them), nothing
      is kept; no error is raised. */
  lemma TrimCsEmpty(s: Structure, first: int, last: int)
    requires Valid(s) && 0 <= first && 0 <= last <= |s.frames| && first + last >= |s.frames|
    ensures TrimCs(s, first, last) == []
  {
    TrimCsSpec(s, first, last);
  }

  /** A `last` larger than the number of frames makes the stop negative, and Python counts it from the
      end: the kept frames end at 2n - last (nothing is kept once last >= 2n). */
  lemma TrimCsWraps(s: Structure, first: int, last: int)
    requires Valid(s) && 0 <= first && |s.frames| < last
    ensures var stop := 2 * |s.frames| - last;
      TrimCs(s, first, last) == if first < stop then s.frames[first..stop] else []
  {
    TrimCsSpec(s, first, last);
  }

  // ---------------------------------------------------------------------------------------------
  // combine_cs

  /** Why `combine_cs` stops: an empty selection (`selection[0]` raises IndexError), or one of the two
      logged errors, after which nothing is collected. */
  datatype CombineError = NoModels | AtomCountMismatch | ElementMismatch

  /** Every model has as many atoms as the first. */
  predicate SameAtomCount(sel: seq<Structure>)
    requires |sel| > 0
  {
    forall q :: 0 <= q < |sel| ==> |sel[q].elements| == |sel[0].elements|
  }

  /** Every model has the first model's element at every atom index. */
  predicate SameElements(sel: seq<Structure>)
    requires |sel| > 0
  {
    forall q :: 0 <= q < |sel| ==> sel[q].elements == sel[0].elements
  }

  /** The models' frames one after another, models in selection order and each in its own frame order. */
  function AllFrames(sel: seq<Structure>): seq<Frame>
    decreases |sel|
  {
    if |sel| == 0 then [] else AllFrames(sel[..|sel| - 1]) + sel[|sel| - 1].frames
  }

  /** How many frames the models hold together. */
  function FrameCount(sel: seq<Structure>): nat
    decreases |sel|
  {
    if |sel| == 0 then 0 else FrameCount(sel[..|sel| - 1]) + |sel[|sel| - 1].frames|
  }

  lemma {:induction false} AllFramesLength(sel: seq<Structure>)
    ensures |AllFrames(sel)| == FrameCount(sel)
    decreases |sel|
  {
    if |sel| > 0 {
      AllFramesLength(sel[..|sel| - 1]);
    }
  }

  /** Frame k of model q sits right after the frames of the models before q. */
  lemma {:induction false} AllFramesAt(sel: seq<Structure>, q: nat, k: nat)
    requires q < |sel| && k < |sel[q].frames|
    ensures FrameCount(sel[..q]) + k < |AllFrames(sel)|
    ensures AllFrames(sel)[FrameCount(sel[..q]) + k] == sel[q].frames[k]
    decreases |sel|
  {
    var last := |sel| - 1;
    AllFramesLength(sel);
    AllFramesLength(sel[..last]);
    if q < last {
      assert sel[..last][..q] == sel[..q];
      AllFramesAt(sel[..last], q, k);
    } else {
      assert sel[..last] == sel[..q];
    }
  }

  /** `combine_cs`: the atom counts are compared first, then the elements index by index; only when
      both agree are the frames collected. */
  method CombineCs(sel: seq<Structure>) returns (r: Result<seq<Frame>, CombineError>)
    requires forall q :: 0 <= q < |sel| ==> Valid(sel[q])
    ensures |sel| == 0 ==> r == Failure(NoModels)
    ensures |sel| > 0 ==> (r == Failure(AtomCountMismatch) <==> !SameAtomCount(sel))
    ensures |sel| > 0 ==> (r == Failure(ElementMismatch) <==> SameAtomCount(sel) && !SameElements(sel))
    ensures r.Success? <==> |sel| > 0 && SameElements(sel)
    ensures r.Success? ==> r.value == AllFrames(sel) && |r.value| == FrameCount(sel)
  {
    if |sel| == 0 {
      return Failure(NoModels);
    }
    var n := |sel[0].elements|;
    for q := 1 to |sel|
      invariant forall q' :: 0 <= q' < q ==> |sel[q'].elements| == n
    {
      if |sel[q].elements| != n {
        return Failure(AtomCountMismatch);
      }
    }
    for i := 0 to n
      invariant forall q, i' :: 0 <= q < |sel| && 0 <= i' < i ==> sel[q].elements[i'] == sel[0].elements[i']
    {
      for q := 1 to |sel|
        invariant forall q' :: 0 <= q' < q ==> sel[q'].elements[i] == sel[0].elements[i]
      {
        if sel[q].elements[i] != sel[0].elements[i] {
          return Failure(ElementMismatch);
        }
      }
    }
    var coords: seq<Frame> := [];
    for q := 0 to |sel|
      invariant coords == AllFrames(sel[..q])
    {
      FramesOfAll(sel[q]);
      assert sel[..q + 1][..q] == sel[..q];
      coords := coords + FramesOf(sel[q], sel[q].ids);
    }
    assert sel[..|sel|] == sel;
    AllFramesLength(sel);
    return Success(coords);
  }
}
