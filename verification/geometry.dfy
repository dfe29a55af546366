/** Points, frames and the condensed pairwise squared-distance vector that
    scipy's `pdist(coords, "sqeuclidean")` hands to both the classifier and
    the connection-table writer. */
module Geometry {
  import opened Outcomes

  datatype Point = Point(x: real, y: real, z: real)

  /** One coordinate set: a position per atom, in atom order. */
  type Frame = seq<Point>

  function SqDist(p: Point, q: Point): real {
    (p.x - q.x) * (p.x - q.x) + (p.y - q.y) * (p.y - q.y) + (p.z - q.z) * (p.z - q.z)
  }

  /** Triangular number t * (t + 1) / 2, built by sums so that no proof needs division. */
  function Tri(t: nat): nat {
    if t == 0 then 0 else Tri(t - 1) + t
  }

  lemma {:induction false} TriClosedForm(t: nat)
    ensures 2 * Tri(t) == t * (t + 1)
  {
    if t > 0 {
      TriClosedForm(t - 1);
    }
  }

  lemma {:induction false} TriMonotone(a: nat, b: nat)
    requires a <= b
    ensures Tri(a) <= Tri(b)
    decreases b - a
  {
    if a < b {
      TriMonotone(a, b - 1);
    }
  }

  /** Offset of row `p` in the condensed vector of `n` points: rows 0..p-1 hold n-1, n-2, ... entries. */
  function RowStart(n: nat, p: nat): int {
    if p == 0 then 0 else RowStart(n, p - 1) + (n - p)
  }

  lemma {:induction false} RowStartClosedForm(n: nat, p: nat)
    ensures RowStart(n, p) == n * p - Tri(p)
  {
    if p > 0 {
      RowStartClosedForm(n, p - 1);
      assert n * p == n * (p - 1) + n;
    }
  }

  lemma {:induction false} RowStartMonotone(n: nat, p: nat, p': nat)
    requires p <= p' <= n
    ensures RowStart(n, p) <= RowStart(n, p')
    decreases p' - p
  {
    if p < p' {
      RowStartMonotone(n, p, p' - 1);
    }
  }

  /** All rows together hold n(n-1)/2 entries. */
  lemma {:induction false} RowStartTail(n: nat, p: nat)
    requires p <= n
    ensures RowStart(n, p) + Tri(n - p) == Tri(n) - p
  {
    if p > 0 {
      RowStartTail(n, p - 1);
    }
  }

  /** scipy's condensed index of pair (j, i), j < i, among `n` points, as the source computes it:
      `n*j + i - ((j+2)*(j+1)) // 2` (the numerator is never negative here, so `//` is `/`). */
  function CondensedIndex(n: int, j: int, i: int): int {
    n * j + i - ((j + 2) * (j + 1)) / 2
  }

  lemma {:induction false} CondensedIndexIsRowOffset(n: nat, j: nat, i: nat)
    ensures CondensedIndex(n, j, i) == RowStart(n, j) + (i - j - 1)
  {
    RowStartClosedForm(n, j);
    TriClosedForm(j + 1);
    assert (j + 2) * (j + 1) == 2 * Tri(j + 1);
    assert ((j + 2) * (j + 1)) / 2 == Tri(j + 1);
  }

  /** The pair index lies in [0, n(n-1)/2) for 0 <= j < i < n. */
  lemma CondensedIndexRange(n: nat, j: nat, i: nat)
    requires j < i < n
    ensures 0 <= CondensedIndex(n, j, i) < Tri(n - 1)
  {
    CondensedIndexIsRowOffset(n, j, i);
    RowOffsetRange(n, j, i);
  }

  lemma RowOffsetRange(n: nat, j: nat, i: nat)
    requires j < i < n
    ensures 0 <= RowStart(n, j) + (i - j - 1) < Tri(n - 1)
  {
    RowStartMonotone(n, 0, j);
    RowStartMonotone(n, j + 1, n);
    RowStartTail(n, n);
    assert RowStart(n, j + 1) == RowStart(n, j) + (n - j - 1);
    assert Tri(n) == Tri(n - 1) + n;
  }

  /** Distinct pairs get distinct indices. */
  lemma CondensedIndexInjective(n: nat, j: nat, i: nat, j': nat, i': nat)
    requires j < i < n && j' < i' < n
    requires CondensedIndex(n, j, i) == CondensedIndex(n, j', i')
    ensures j == j' && i == i'
  {
    CondensedIndexIsRowOffset(n, j, i);
    CondensedIndexIsRowOffset(n, j', i');
    if j < j' {
      RowStartMonotone(n, j, j + 1);
      RowStartMonotone(n, j + 1, j');
      assert false;
    } else if j' < j {
      RowStartMonotone(n, j', j' + 1);
      RowStartMonotone(n, j' + 1, j);
      assert false;
    }
  }

  /** For j == i the source's formula lands on pair (i-1, n-1), or on -1 when i is 0. */
  lemma CondensedIndexOfSelfPair(n: nat, i: nat)
    requires i < n
    ensures i == 0 ==> CondensedIndex(n, i, i) == -1
    ensures 0 < i ==> CondensedIndex(n, i, i) == CondensedIndex(n, i - 1, n - 1)
  {
    CondensedIndexIsRowOffset(n, i, i);
    if 0 < i {
      CondensedIndexIsRowOffset(n, i - 1, n - 1);
    }
  }

  /** Squared distances from point `p` to every later point. */
  function Row(pts: Frame, p: nat): seq<real>
    requires p < |pts|
  {
    seq(|pts| - 1 - p, k requires 0 <= k < |pts| - 1 - p => SqDist(pts[p], pts[p + 1 + k]))
  }

  function RowsFrom(pts: Frame, p: nat): seq<real>
    decreases |pts| - p
  {
    if p >= |pts| then [] else Row(pts, p) + RowsFrom(pts, p + 1)
  }

  /** `pdist(pts, "sqeuclidean")`: every pair p < q in row-major order. */
  function PairwiseSqDist(pts: Frame): seq<real> {
    RowsFrom(pts, 0)
  }

  lemma {:induction false} RowsFromLength(pts: Frame, p: nat)
    requires p <= |pts|
    ensures |RowsFrom(pts, p)| == RowStart(|pts|, |pts|) - RowStart(|pts|, p)
    decreases |pts| - p
  {
    if p < |pts| {
      RowsFromLength(pts, p + 1);
    }
  }

  /** Row `p` sits in `RowsFrom(pts, s)` at offset RowStart(p) - RowStart(s). */
  lemma {:induction false} RowsFromRow(pts: Frame, s: nat, p: nat, k: nat)
    requires s <= p < |pts| && k < |pts| - 1 - p
    ensures 0 <= RowStart(|pts|, p) - RowStart(|pts|, s) + k < |RowsFrom(pts, s)|
    ensures RowsFrom(pts, s)[RowStart(|pts|, p) - RowStart(|pts|, s) + k] == Row(pts, p)[k]
    decreases p - s
  {
    var n := |pts|;
    var row := Row(pts, s);
    var rest := RowsFrom(pts, s + 1);
    assert RowsFrom(pts, s) == row + rest;
    RowsFromLength(pts, s + 1);
    if s < p {
      RowsFromRow(pts, s + 1, p, k);
      var m := RowStart(n, p) - RowStart(n, s + 1) + k;
      assert RowStart(n, s + 1) == RowStart(n, s) + |row|;
      assert (row + rest)[|row| + m] == rest[m];
    } else {
      assert (row + rest)[k] == row[k];
    }
  }

  lemma RowsFromAt(pts: Frame, s: nat, p: nat, q: nat)
    requires s <= p < q < |pts|
    ensures 0 <= RowStart(|pts|, p) - RowStart(|pts|, s) + (q - p - 1) < |RowsFrom(pts, s)|
    ensures RowsFrom(pts, s)[RowStart(|pts|, p) - RowStart(|pts|, s) + (q - p - 1)] == SqDist(pts[p], pts[q])
  {
    RowsFromRow(pts, s, p, q - p - 1);
  }

  /** n(n-1)/2, the number of pairs of `n` points. */
  function PairCount(n: nat): nat {
    if n == 0 then 0 else Tri(n - 1)
  }

  lemma PairwiseSqDistLength(pts: Frame)
    ensures |PairwiseSqDist(pts)| == PairCount(|pts|)
  {
    var n := |pts|;
    RowsFromLength(pts, 0);
    RowStartTail(n, n);
    if n > 0 {
      assert Tri(n) - n == Tri(n - 1);
    }
  }

  /** The condensed vector has n(n-1)/2 entries and the source's index formula finds the
      squared distance of exactly the pair it names. */
  lemma CondensedLookup(pts: Frame, j: nat, i: nat)
    requires j < i < |pts|
    ensures |PairwiseSqDist(pts)| == Tri(|pts| - 1)
    ensures 0 <= CondensedIndex(|pts|, j, i) < |PairwiseSqDist(pts)|
    ensures PairwiseSqDist(pts)[CondensedIndex(|pts|, j, i)] == SqDist(pts[j], pts[i])
  {
    var n := |pts|;
    RowsFromLength(pts, 0);
    RowStartTail(n, n);
    RowsFromAt(pts, 0, j, i);
    CondensedIndexIsRowOffset(n, j, i);
  }

  /** Python indexing `s[k]`: negative indices count from the end; anything else is an IndexError. */
  function PyIndex<T>(s: seq<T>, k: int): (r: Option<T>)
    ensures r.Some? <==> -|s| <= k < |s|
    ensures 0 <= k < |s| ==> r == Some(s[k])
    ensures -|s| <= k < 0 ==> r == Some(s[|s| + k])
  {
    if 0 <= k < |s| then Some(s[k])
    else if -|s| <= k < 0 then Some(s[|s| + k])
    else None
  }
}
