/** The connection-table writer's own pair loop in `save_sdf`: which atom pairs
    become bond rows, with which bond order, and the `bo_to_mol_map` codes the
    rows are written with. Unlike the classifier it visits the self pairs
    j == i, keeps a pair only by the transition-state cutoff, and turns the
    nearest reference label into a number with `float`. */
module SdfRows {
  import opened Outcomes
  import opened Geometry
  import opened Thresholds
  import opened PairClassifier

  /** Python's `float` applied to a reference label: None is its ValueError. */
  type ToFloat = string -> Option<real>

  /** What stops the writer: `RADII[...]`, `distances[ndx]`, `float(closest[0])`, `bo_to_mol_map[...]`
      raising, or a `style` other than "V3000" and "V2000". */
  datatype WriteError =
    | RadiusKeyError(element: string)
    | DistanceIndexError(index: int)
    | OrderValueError(text: string)
    | OrderKeyError(order: real)
    | StyleNotImplemented(style: string)

  /** One entry of `this_bonds`: atom indices i and j (j <= i) and the bond order. */
  datatype BondRow = BondRow(i: nat, j: nat, order: real)

  // ---------------------------------------------------------------------------------------------
  // bo_to_mol_map

  /** `bo_to_mol_map[order]`, None for its KeyError. */
  function MolCode(order: real): Option<nat> {
    if order == 0.5 then Some(8)
    else if order == 1.0 then Some(1)
    else if order == 1.5 then Some(4)
    else if order == 2.0 then Some(2)
    else if order == 3.0 then Some(3)
    else None
  }

  /** The bond order a reader takes from a connection-table bond type. */
  function OrderOfCode(code: nat): Option<real> {
    if code == 8 then Some(0.5)
    else if code == 1 then Some(1.0)
    else if code == 4 then Some(1.5)
    else if code == 2 then Some(2.0)
    else if code == 3 then Some(3.0)
    else None
  }

  /** The map and the reader's table are inverse: every code written reads back as its order, and only
      the five orders 0.5, 1, 1.5, 2 and 3 have a code. */
  lemma MolCodeRoundTrip(order: real, code: nat)
    ensures MolCode(order) == Some(code) <==> OrderOfCode(code) == Some(order)
    ensures MolCode(order).Some? <==> order in {0.5, 1.0, 1.5, 2.0, 3.0}
  {
  }

  // ---------------------------------------------------------------------------------------------
  // One pair

  /** The order of a pair within the transition-state cutoff: 1 when either atom is hydrogen or the
      table has no entry for the key, else `float` of the nearest entry's label; an empty entry list
      leaves the initial order 0. */
  function KeptOrder(e1: string, e2: string, entries: Option<seq<RefEntry>>, d: real, toFloat: ToFloat)
    : Result<real, WriteError>
  {
    if e1 == "H" || e2 == "H" then Success(1.0)
    else
      match entries
      case None => Success(1.0)
      case Some(es) =>
        match Nearest(es, d)
        case None => Success(0.0)
        case Some(m) =>
          match toFloat(es[m].0)
          case None => Failure(OrderValueError(es[m].0))
          case Some(v) => Success(v)
  }

  /** What the reference table says the order of a kept pair is, declaratively: the earliest entry
      among those nearest `d` supplies the label. */
  ghost predicate WriterChooses(e1: string, e2: string, entries: Option<seq<RefEntry>>, d: real, toFloat: ToFloat,
                                o: real) {
    if e1 == "H" || e2 == "H" || entries.None? then o == 1.0
    else if |entries.value| == 0 then o == 0.0
    else exists m: nat :: EarliestNearest(entries.value, d, |entries.value|, m) && toFloat(entries.value[m].0) == Some(o)
  }

  /** The label of the entry the table chooses does not convert to a number. */
  ghost predicate LabelFails(e1: string, e2: string, entries: Option<seq<RefEntry>>, d: real, toFloat: ToFloat,
                             text: string) {
    && !(e1 == "H" || e2 == "H") && entries.Some?
    && exists m: nat :: EarliestNearest(entries.value, d, |entries.value|, m)
         && toFloat(entries.value[m].0).None? && text == entries.value[m].0
  }

  /** The scan agrees with the declarative choice, and the only way it fails is a label `float` rejects. */
  lemma KeptOrderMeaning(e1: string, e2: string, entries: Option<seq<RefEntry>>, d: real, toFloat: ToFloat,
                         o: real, text: string)
    ensures KeptOrder(e1, e2, entries, d, toFloat) == Success(o) <==> WriterChooses(e1, e2, entries, d, toFloat, o)
    ensures KeptOrder(e1, e2, entries, d, toFloat) == Failure(OrderValueError(text))
      <==> LabelFails(e1, e2, entries, d, toFloat, text)
    ensures KeptOrder(e1, e2, entries, d, toFloat).Failure? ==> KeptOrder(e1, e2, entries, d, toFloat).error.OrderValueError?
  {
    if !(e1 == "H" || e2 == "H") && entries.Some? && |entries.value| > 0 {
      var es := entries.value;
      var m := Nearest(es, d).value;
      if WriterChooses(e1, e2, entries, d, toFloat, o) {
        var m': nat :| EarliestNearest(es, d, |es|, m') && toFloat(es[m'].0) == Some(o);
        NearestUnique(es, d, m');
      }
      if LabelFails(e1, e2, entries, d, toFloat, text) {
        var m': nat :| EarliestNearest(es, d, |es|, m') && toFloat(es[m'].0).None? && text == es[m'].0;
        NearestUnique(es, d, m');
      }
      assert EarliestNearest(es, d, |es|, m);
    }
  }

  /** The loop body for pair (i, j) once its squared distance `d2` is known: `continue` beyond the
      transition-state cutoff, then the (unreachable) half-bond append, then the kept row. */
  function RowsForDistance(els: seq<string>, d2: real, cut: Cutoff, t: Tables, toFloat: ToFloat, i: nat, j: nat)
    : Result<seq<BondRow>, WriteError>
    requires j <= i < |els|
  {
    if d2 > cut.ts then Success([])
    else
      var half := if d2 > cut.ts then [BondRow(i, j, 0.5)] else [];
      match KeptOrder(els[i], els[j], ReferenceOf(t, t.key(els[i], els[j])), t.sqrt(d2), toFloat)
      case Failure(e) => Failure(e)
      case Success(o) => Success(half + [BondRow(i, j, o)])
  }

  /** Pair (i, j) reads `distances[n*j + i - ((j+2)*(j+1))//2]` (a negative index counts from the end). */
  function PairRows(els: seq<string>, dists: seq<real>, cache: map<string, Cutoff>, t: Tables, toFloat: ToFloat,
                    i: nat, j: nat): Result<seq<BondRow>, WriteError>
    requires j <= i < |els| && CacheCovers(els, t, cache)
  {
    var ndx := CondensedIndex(|els|, j, i);
    match PyIndex(dists, ndx)
    case None => Failure(DistanceIndexError(ndx))
    case Some(d2) => RowsForDistance(els, d2, cache[t.key(els[i], els[j])], t, toFloat, i, j)
  }

  /** `this_bonds` over the visited pairs, or the first error a pair raises. */
  function WriterRows(els: seq<string>, dists: seq<real>, cache: map<string, Cutoff>, t: Tables, toFloat: ToFloat,
                      pairs: seq<(nat, nat)>): Result<seq<BondRow>, WriteError>
    requires CacheCovers(els, t, cache) && LowerIn(pairs, |els|)
    decreases |pairs|
  {
    if |pairs| == 0 then Success([])
    else
      match PairRows(els, dists, cache, t, toFloat, pairs[0].0, pairs[0].1)
      case Failure(e) => Failure(e)
      case Success(here) =>
        match WriterRows(els, dists, cache, t, toFloat, pairs[1..])
        case Failure(e) => Failure(e)
        case Success(rest) => Success(here + rest)
  }

  /** The rows of one coordinate set: every pair j <= i of the structure's atoms, in loop order. */
  function FrameRows(els: seq<string>, pts: Frame, cache: map<string, Cutoff>, t: Tables, toFloat: ToFloat)
    : Result<seq<BondRow>, WriteError>
    requires CacheCovers(els, t, cache)
  {
    LowerPairsMembers(|els|);
    WriterRows(els, PairwiseSqDist(pts), cache, t, toFloat, LowerPairs(|els|))
  }

  // ---------------------------------------------------------------------------------------------
  // Which distance each pair reads

  /** The squared distance pair (i, j) reads when the frame has at least two atoms: its own for j < i;
      for j == i the index formula lands on pair (i - 1, n - 1), or wraps to the last pair (n - 2, n - 1)
      when i is 0. */
  function ReadDistance(pts: Frame, i: nat, j: nat): real
    requires j <= i < |pts| && |pts| >= 2
  {
    if j < i then SqDist(pts[j], pts[i])
    else if i == 0 then SqDist(pts[|pts| - 2], pts[|pts| - 1])
    else SqDist(pts[i - 1], pts[|pts| - 1])
  }

  /** With two or more atoms every visited pair finds a distance, and it is `ReadDistance`; with one
      atom the self pair's index -1 points into an empty vector and raises IndexError. */
  lemma PairDistance(pts: Frame, i: nat, j: nat)
    requires j <= i < |pts|
    ensures |pts| >= 2 ==> PyIndex(PairwiseSqDist(pts), CondensedIndex(|pts|, j, i)) == Some(ReadDistance(pts, i, j))
    ensures |pts| == 1 ==> CondensedIndex(|pts|, j, i) == -1 && PyIndex(PairwiseSqDist(pts), -1).None?
  {
    var n := |pts|;
    PairwiseSqDistLength(pts);
    if j < i {
      CondensedLookup(pts, j, i);
    } else {
      CondensedIndexOfSelfPair(n, i);
      if n >= 2 {
        if i == 0 {
          CondensedLookup(pts, n - 2, n - 1);
          CondensedIndexIsRowOffset(n, n - 2, n - 1);
          RowStartTail(n, n - 2);
          assert Tri(2) == 3;
          assert Tri(n) == Tri(n - 1) + n;
        } else {
          CondensedLookup(pts, i - 1, n - 1);
        }
      }
    }
  }

  // ---------------------------------------------------------------------------------------------
  // What the rows are

  /** Row `x` is what the loop keeps for its pair: the pair is within its transition-state cutoff at the
      distance it reads, and the order is the one chosen for it. */
  ghost predicate KeptRow(els: seq<string>, pts: Frame, cache: map<string, Cutoff>, t: Tables, toFloat: ToFloat,
                          x: BondRow)
    requires |els| == |pts| >= 2 && CacheCovers(els, t, cache)
  {
    && x.j <= x.i < |els|
    && var key := t.key(els[x.i], els[x.j]);
    && var d2 := ReadDistance(pts, x.i, x.j);
    && d2 <= cache[key].ts
    && KeptOrder(els[x.i], els[x.j], ReferenceOf(t, key), t.sqrt(d2), toFloat) == Success(x.order)
  }

  lemma {:induction false} RowsMembers(els: seq<string>, pts: Frame, cache: map<string, Cutoff>, t: Tables,
                                       toFloat: ToFloat, pairs: seq<(nat, nat)>, x: BondRow)
    requires |els| == |pts| >= 2 && CacheCovers(els, t, cache) && LowerIn(pairs, |els|)
    requires WriterRows(els, PairwiseSqDist(pts), cache, t, toFloat, pairs).Success?
    ensures x in WriterRows(els, PairwiseSqDist(pts), cache, t, toFloat, pairs).value <==>
      (x.i, x.j) in pairs && KeptRow(els, pts, cache, t, toFloat, x)
    decreases |pairs|
  {
    if |pairs| > 0 {
      var (i, j) := pairs[0];
      PairDistance(pts, i, j);
      RowsMembers(els, pts, cache, t, toFloat, pairs[1..], x);
      assert forall p :: p in pairs <==> p == pairs[0] || p in pairs[1..];
    }
  }

  /** The rows of a frame with at least two atoms are exactly the kept pairs j <= i: a pair is left out
      exactly when the distance it reads exceeds its transition-state cutoff. */
  lemma FrameRowsMeaning(els: seq<string>, pts: Frame, cache: map<string, Cutoff>, t: Tables, toFloat: ToFloat,
                         x: BondRow)
    requires |els| == |pts| >= 2 && CacheCovers(els, t, cache)
    requires FrameRows(els, pts, cache, t, toFloat).Success?
    ensures x in FrameRows(els, pts, cache, t, toFloat).value <==> KeptRow(els, pts, cache, t, toFloat, x)
  {
    var n := |els|;
    LowerPairsMembers(n);
    RowsMembers(els, pts, cache, t, toFloat, LowerPairs(n), x);
    if x.j <= x.i < n {
      LowerPairsIndex(n, x.i, x.j);
    }
  }

  /** Every label of the reference table converts to a number. */
  ghost predicate LabelsConvert(t: Tables, toFloat: ToFloat) {
    forall key, m :: key in t.reference && 0 <= m < |t.reference[key]| ==> toFloat(t.reference[key][m].0).Some?
  }

  lemma {:induction false} RowsSucceed(els: seq<string>, pts: Frame, cache: map<string, Cutoff>, t: Tables,
                                       toFloat: ToFloat, pairs: seq<(nat, nat)>)
    requires |els| == |pts| >= 2 && CacheCovers(els, t, cache) && LowerIn(pairs, |els|)
    requires LabelsConvert(t, toFloat)
    ensures WriterRows(els, PairwiseSqDist(pts), cache, t, toFloat, pairs).Success?
    decreases |pairs|
  {
    if |pairs| > 0 {
      var (i, j) := pairs[0];
      PairDistance(pts, i, j);
      RowsSucceed(els, pts, cache, t, toFloat, pairs[1..]);
    }
  }

  /** A frame's rows fail only in two ways: a single atom, whose self pair reads index -1 of an empty
      vector, and a chosen label `float` rejects. */
  lemma FrameRowsErrors(els: seq<string>, pts: Frame, cache: map<string, Cutoff>, t: Tables, toFloat: ToFloat)
    requires |els| == |pts| && CacheCovers(els, t, cache)
    ensures |els| == 1 ==> FrameRows(els, pts, cache, t, toFloat) == Failure(DistanceIndexError(-1))
    ensures |els| != 1 && LabelsConvert(t, toFloat) ==> FrameRows(els, pts, cache, t, toFloat).Success?
    ensures |els| != 1 && FrameRows(els, pts, cache, t, toFloat).Failure? ==>
      FrameRows(els, pts, cache, t, toFloat).error.OrderValueError?
  {
    var n := |els|;
    LowerPairsMembers(n);
    if n == 1 {
      assert LowerPairs(1) == [(0, 0)];
      PairDistance(pts, 0, 0);
    } else if n >= 2 {
      if LabelsConvert(t, toFloat) {
        RowsSucceed(els, pts, cache, t, toFloat, LowerPairs(n));
      }
      RowsFailWithLabel(els, pts, cache, t, toFloat, LowerPairs(n));
    } else {
      assert LowerPairs(0) == [];
    }
  }

  lemma {:induction false} RowsFailWithLabel(els: seq<string>, pts: Frame, cache: map<string, Cutoff>, t: Tables,
                                             toFloat: ToFloat, pairs: seq<(nat, nat)>)
    requires |els| == |pts| >= 2 && CacheCovers(els, t, cache) && LowerIn(pairs, |els|)
    ensures WriterRows(els, PairwiseSqDist(pts), cache, t, toFloat, pairs).Failure? ==>
      WriterRows(els, PairwiseSqDist(pts), cache, t, toFloat, pairs).error.OrderValueError?
    decreases |pairs|
  {
    if |pairs| > 0 {
      var (i, j) := pairs[0];
      PairDistance(pts, i, j);
      RowsFailWithLabel(els, pts, cache, t, toFloat, pairs[1..]);
      var key := t.key(els[i], els[j]);
      var d2 := ReadDistance(pts, i, j);
      KeptOrderMeaning(els[i], els[j], ReferenceOf(t, key), t.sqrt(d2), toFloat, 0.0, "");
    }
  }

  /** No label of the reference table converts to 0.5. */
  ghost predicate NoHalfLabel(t: Tables, toFloat: ToFloat) {
    forall key, m :: key in t.reference && 0 <= m < |t.reference[key]| ==> toFloat(t.reference[key][m].0) != Some(0.5)
  }

  /** The half-bond append sits behind the very test that has just skipped the pair, so order 0.5 (code 8)
      only ever comes from a reference label that converts to 0.5. */
  lemma {:induction false} NoHalfRows(els: seq<string>, dists: seq<real>, cache: map<string, Cutoff>, t: Tables,
                                      toFloat: ToFloat, pairs: seq<(nat, nat)>)
    requires CacheCovers(els, t, cache) && LowerIn(pairs, |els|)
    requires NoHalfLabel(t, toFloat)
    requires WriterRows(els, dists, cache, t, toFloat, pairs).Success?
    ensures forall x :: x in WriterRows(els, dists, cache, t, toFloat, pairs).value ==> x.order != 0.5
    decreases |pairs|
  {
    if |pairs| > 0 {
      var (i, j) := pairs[0];
      PairRowsNoHalf(els, dists, cache, t, toFloat, i, j);
      NoHalfRows(els, dists, cache, t, toFloat, pairs[1..]);
    }
  }

  /** A frame's rows carry order 0.5 only through a label that converts to 0.5. */
  lemma FrameRowsNoHalf(els: seq<string>, pts: Frame, cache: map<string, Cutoff>, t: Tables, toFloat: ToFloat)
    requires CacheCovers(els, t, cache) && NoHalfLabel(t, toFloat)
    requires FrameRows(els, pts, cache, t, toFloat).Success?
    ensures forall x :: x in FrameRows(els, pts, cache, t, toFloat).value ==> x.order != 0.5
  {
    LowerPairsMembers(|els|);
    NoHalfRows(els, PairwiseSqDist(pts), cache, t, toFloat, LowerPairs(|els|));
  }

  /** One pair's rows carry order 0.5 only through a label that converts to 0.5. */
  lemma PairRowsNoHalf(els: seq<string>, dists: seq<real>, cache: map<string, Cutoff>, t: Tables,
                           toFloat: ToFloat, i: nat, j: nat)
    requires j <= i < |els| && CacheCovers(els, t, cache)
    requires NoHalfLabel(t, toFloat)
    ensures PairRows(els, dists, cache, t, toFloat, i, j).Success? ==>
      forall x :: x in PairRows(els, dists, cache, t, toFloat, i, j).value ==> x.order != 0.5
  {
    var key := t.key(els[i], els[j]);
    var es := ReferenceOf(t, key);
    var ndx := CondensedIndex(|els|, j, i);
    if PyIndex(dists, ndx).Some? && !(els[i] == "H" || els[j] == "H") && es.Some? {
      var d2 := PyIndex(dists, ndx).value;
      var m := Nearest(es.value, t.sqrt(d2));
      if m.Some? {
        assert t.reference[key][m.value].0 == es.value[m.value].0;
      }
    }
  }

  /** Every row names its larger atom index first. */
  lemma {:induction false} RowsLargerFirst(els: seq<string>, dists: seq<real>, cache: map<string, Cutoff>, t: Tables,
                                           toFloat: ToFloat, pairs: seq<(nat, nat)>)
    requires CacheCovers(els, t, cache) && LowerIn(pairs, |els|)
    requires WriterRows(els, dists, cache, t, toFloat, pairs).Success?
    ensures forall x :: x in WriterRows(els, dists, cache, t, toFloat, pairs).value ==> x.j <= x.i < |els|
    decreases |pairs|
  {
    if |pairs| > 0 {
      RowsLargerFirst(els, dists, cache, t, toFloat, pairs[1..]);
    }
  }

  /** The rows read only the transition-state cutoffs of the cache. */
  lemma {:induction false} WriterRowsTs(els: seq<string>, dists: seq<real>, c1: map<string, Cutoff>,
                                        c2: map<string, Cutoff>, t: Tables, toFloat: ToFloat, pairs: seq<(nat, nat)>)
    requires CacheCovers(els, t, c1) && CacheCovers(els, t, c2) && TsAgree(c1, c2) && LowerIn(pairs, |els|)
    ensures WriterRows(els, dists, c1, t, toFloat, pairs) == WriterRows(els, dists, c2, t, toFloat, pairs)
    decreases |pairs|
  {
    if |pairs| > 0 {
      var (i, j) := pairs[0];
      var key := t.key(els[i], els[j]);
      assert c1[key].ts == c2[key].ts;
      assert PairRows(els, dists, c1, t, toFloat, i, j) == PairRows(els, dists, c2, t, toFloat, i, j);
      WriterRowsTs(els, dists, c1, c2, t, toFloat, pairs[1..]);
    }
  }

  lemma FrameRowsTs(els: seq<string>, pts: Frame, c1: map<string, Cutoff>, c2: map<string, Cutoff>, t: Tables,
                    toFloat: ToFloat)
    requires CacheCovers(els, t, c1) && CacheCovers(els, t, c2) && TsAgree(c1, c2)
    ensures FrameRows(els, pts, c1, t, toFloat) == FrameRows(els, pts, c2, t, toFloat)
  {
    LowerPairsMembers(|els|);
    WriterRowsTs(els, PairwiseSqDist(pts), c1, c2, t, toFloat, LowerPairs(|els|));
  }
}
