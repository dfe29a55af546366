/** The classification loop of `guessBondOrders`: the verdict for one atom pair
    from its squared distance, its cutoffs and the reference table, and the
    list of (atom, atom, class) assignments for one coordinate set. */
module PairClassifier {
  import opened Outcomes
  import opened Geometry
  import opened BondClasses
  import opened Thresholds

  /** Default `bondTolerance` and `TSBondTolerance` of the command. */
  const DefaultTol: real := 0.35
  const DefaultTsTol: real := 0.6

  /** The reference-table label naming a class, for the four classes a label can name. */
  function OrderLabel(c: BondClass): Option<string> {
    match c
    case Single => Some("1.0")
    case Aromatic => Some("1.5")
    case Double => Some("2.0")
    case Triple => Some("3.0")
    case _ => None
  }

  /** The class a nearest-order label selects; any other label only logs "unanticipated bond order". */
  function ClassOfOrder(order: string): (r: Option<BondClass>)
    ensures r.Some? ==> OrderLabel(r.value) == Some(order)
    ensures r.None? ==> forall c :: OrderLabel(c) != Some(order)
  {
    if order == "1.0" then Some(Single)
    else if order == "1.5" then Some(Aromatic)
    else if order == "2.0" then Some(Double)
    else if order == "3.0" then Some(Triple)
    else None
  }

  /** Beyond the transition-state cutoff while the transition-state tolerance exceeds the bond tolerance. */
  predicate BeyondTs(d2: real, cut: Cutoff, tol: real, tsTol: real) {
    d2 > cut.ts && tsTol > tol
  }

  /** Strictly between the bonded and the transition-state cutoffs. */
  predicate InTsBand(d2: real, cut: Cutoff) {
    cut.connected < d2 < cut.ts
  }

  /** The verdict for one pair: `d2` its squared distance, `cut` the cutoffs of its key, `e1`/`e2` the
      element names of a1 and a2, `entries` the reference list of its key if the table has one, and
      `sqrt` numpy's square root. None is the "unanticipated bond order" warning (or an empty reference
      list, whose initial order 0 matches no label). */
  function ClassifyPair(d2: real, cut: Cutoff, tol: real, tsTol: real, e1: string, e2: string,
                        entries: Option<seq<RefEntry>>, sqrt: real -> real): (r: Option<BondClass>)
    ensures r == Some(Broken) <==> BeyondTs(d2, cut, tol, tsTol)
    ensures r == Some(Half) <==> InTsBand(d2, cut)
    ensures tsTol <= tol ==> r != Some(Broken)
    ensures !BeyondTs(d2, cut, tol, tsTol) && !InTsBand(d2, cut) && (e1 == "H" || e2 == "H" || entries.None?)
      ==> r == Some(Single)
  {
    if d2 > cut.ts && tsTol > tol then Some(Broken)
    else if d2 < cut.ts && d2 > cut.connected then Some(Half)
    else if e1 == "H" || e2 == "H" then Some(Single)
    else if entries.None? then Some(Single)
    else
      match Nearest(entries.value, sqrt(d2))
      case None => None
      case Some(m) => ClassOfOrder(entries.value[m].0)
  }

  /** What the reference table says of a pair within bonding range: hydrogen pairs and pairs without
      reference data are single; otherwise the class is the one labelled by an entry whose length is
      nearest `d` and that no earlier entry equals in nearness. */
  ghost predicate TableChooses(e1: string, e2: string, entries: Option<seq<RefEntry>>, d: real, c: BondClass) {
    if e1 == "H" || e2 == "H" || entries.None? then c == Single
    else exists m: nat :: EarliestNearest(entries.value, d, |entries.value|, m) && OrderLabel(c) == Some(entries.value[m].0)
  }

  /** Class `c` is the one the thresholds and the reference table assign to the pair. */
  ghost predicate Assigns(d2: real, cut: Cutoff, tol: real, tsTol: real, e1: string, e2: string,
                          entries: Option<seq<RefEntry>>, sqrt: real -> real, c: BondClass) {
    if BeyondTs(d2, cut, tol, tsTol) then c == Broken
    else if InTsBand(d2, cut) then c == Half
    else TableChooses(e1, e2, entries, sqrt(d2), c)
  }

  /** The scan agrees with the declarative choice: the pair gets class `c` exactly when `c` is assigned,
      and it gets no class exactly when no class is assigned. */
  lemma ClassifyPairMeaning(d2: real, cut: Cutoff, tol: real, tsTol: real, e1: string, e2: string,
                            entries: Option<seq<RefEntry>>, sqrt: real -> real, c: BondClass)
    ensures ClassifyPair(d2, cut, tol, tsTol, e1, e2, entries, sqrt) == Some(c)
      <==> Assigns(d2, cut, tol, tsTol, e1, e2, entries, sqrt, c)
  {
    if !BeyondTs(d2, cut, tol, tsTol) && !InTsBand(d2, cut) && !(e1 == "H" || e2 == "H" || entries.None?) {
      var es := entries.value;
      var d := sqrt(d2);
      if ClassifyPair(d2, cut, tol, tsTol, e1, e2, entries, sqrt) == Some(c) {
        var m := Nearest(es, d).value;
        assert EarliestNearest(es, d, |es|, m) && OrderLabel(c) == Some(es[m].0);
      }
      if Assigns(d2, cut, tol, tsTol, e1, e2, entries, sqrt, c) {
        var m: nat :| EarliestNearest(es, d, |es|, m) && OrderLabel(c) == Some(es[m].0);
        NearestUnique(es, d, m);
      }
    }
  }

  /** A pair within its bonded cutoff `(r1 + r2 + bondTolerance) ** 2` is neither broken nor half: its
      class is exactly the one the reference table chooses. A transition-state tolerance larger than the
      bond tolerance makes the transition-state cutoff the larger one, so the broken test cannot fire. */
  lemma WithinBondedUsesTable(d2: real, r1: real, r2: real, tol: real, tsTol: real, e1: string, e2: string,
                              entries: Option<seq<RefEntry>>, sqrt: real -> real, c: BondClass)
    requires 0.0 <= r1 + r2 + tol && d2 <= PairCutoff(r1, r2, tol, tsTol).connected
    ensures var r := ClassifyPair(d2, PairCutoff(r1, r2, tol, tsTol), tol, tsTol, e1, e2, entries, sqrt);
      r != Some(Broken) && r != Some(Half)
    ensures ClassifyPair(d2, PairCutoff(r1, r2, tol, tsTol), tol, tsTol, e1, e2, entries, sqrt) == Some(c)
      <==> TableChooses(e1, e2, entries, sqrt(d2), c)
  {
    var cut := PairCutoff(r1, r2, tol, tsTol);
    if tsTol > tol {
      PairCutoffOrdered(r1, r2, tol, tsTol);
    }
    assert !BeyondTs(d2, cut, tol, tsTol) && !InTsBand(d2, cut);
    ClassifyPairMeaning(d2, cut, tol, tsTol, e1, e2, entries, sqrt, c);
  }

  /** With the default tolerances a pair beyond its transition-state cutoff is broken. */
  lemma DefaultsBreakFarPairs(d2: real, cut: Cutoff)
    requires d2 > cut.ts
    ensures forall e1, e2, entries, sqrt ::
      ClassifyPair(d2, cut, DefaultTol, DefaultTsTol, e1, e2, entries, sqrt) == Some(Broken)
  {
  }

  /** One classified pair: the atoms (a1 the later one in selection order) and its class. */
  datatype Assignment = Assignment(a1: nat, a2: nat, cls: BondClass)

  /** Two assignments are about the same two atoms, in either order. */
  predicate SameAtoms(x: Assignment, y: Assignment) {
    (x.a1 == y.a1 && x.a2 == y.a2) || (x.a1 == y.a2 && x.a2 == y.a1)
  }

  /** At most one assignment per atom pair, and none pairs an atom with itself. */
  predicate DistinctPairs(xs: seq<Assignment>) {
    && (forall p :: 0 <= p < |xs| ==> xs[p].a1 != xs[p].a2)
    && (forall p, q :: 0 <= p < q < |xs| ==> !SameAtoms(xs[p], xs[q]))
  }

  /** Two members of a list with distinct pairs are the same assignment or about different atoms. */
  lemma DistinctMembers(xs: seq<Assignment>, x: Assignment, y: Assignment)
    requires DistinctPairs(xs) && x in xs && y in xs && x != y
    ensures !SameAtoms(x, y) && x.a1 != x.a2
  {
    var p :| 0 <= p < |xs| && xs[p] == x;
    var q :| 0 <= q < |xs| && xs[q] == y;
    if q < p {
      assert !SameAtoms(xs[q], xs[p]);
    }
  }

  lemma DistinctConcat(xs: seq<Assignment>, ys: seq<Assignment>)
    requires DistinctPairs(xs) && DistinctPairs(ys)
    requires forall x, y :: x in xs && y in ys ==> !SameAtoms(x, y)
    ensures DistinctPairs(xs + ys)
  {
    var zs := xs + ys;
    forall p, q | 0 <= p < q < |zs|
      ensures !SameAtoms(zs[p], zs[q])
    {
      if q < |xs| {
        assert zs[p] == xs[p] && zs[q] == xs[q];
      } else if |xs| <= p {
        assert zs[p] == ys[p - |xs|] && zs[q] == ys[q - |xs|];
      } else {
        assert zs[p] in xs && zs[q] in ys;
      }
    }
    forall p | 0 <= p < |zs|
      ensures zs[p].a1 != zs[p].a2
    {
      if p < |xs| {
        assert zs[p] == xs[p];
      } else {
        assert zs[p] == ys[p - |xs|];
      }
    }
  }

  /** `structure.atoms.index(a)` of every selected atom: a selection names distinct atoms of the structure. */
  predicate SelectionOk(n: nat, sel: seq<nat>) {
    && (forall k :: 0 <= k < |sel| ==> sel[k] < n)
    && (forall k, l :: 0 <= k < l < |sel| ==> sel[k] != sel[l])
  }

  /** `s[selected]`. */
  function Selected<T>(s: seq<T>, sel: seq<nat>): (r: seq<T>)
    requires forall k :: 0 <= k < |sel| ==> sel[k] < |s|
    ensures |r| == |sel| && forall k :: 0 <= k < |sel| ==> r[k] == s[sel[k]]
  {
    seq(|sel|, k requires 0 <= k < |sel| => s[sel[k]])
  }

  /** Every key the loops look up has cutoffs in the cache. */
  ghost predicate CacheCovers(els: seq<string>, t: Tables, cache: map<string, Cutoff>) {
    forall i, j :: 0 <= j <= i < |els| ==> t.key(els[i], els[j]) in cache
  }

  /** A cache that builds covers every key the loops look up. */
  lemma CutoffCacheCovers(els: seq<string>, t: Tables, tol: real, tsTol: real)
    requires CutoffCache(els, t, tol, tsTol).Success?
    ensures CacheCovers(els, t, CutoffCache(els, t, tol, tsTol).value)
  {
    forall i, j | 0 <= j <= i < |els|
      ensures t.key(els[i], els[j]) in CutoffCache(els, t, tol, tsTol).value
    {
      CutoffCacheSpec(els, t, tol, tsTol, i, j);
    }
  }

  /** `bo_data.bonds[key]`, or None for its KeyError. */
  function ReferenceOf(t: Tables, key: string): Option<seq<RefEntry>> {
    if key in t.reference then Some(t.reference[key]) else None
  }

  /** The verdict for selection atoms i and j, j < i, given their squared distance. */
  function VerdictOf(els: seq<string>, d2: real, cache: map<string, Cutoff>, t: Tables, tol: real, tsTol: real,
                     i: nat, j: nat): Option<BondClass>
    requires j < i < |els| && CacheCovers(els, t, cache)
  {
    var key := t.key(els[i], els[j]);
    ClassifyPair(d2, cache[key], tol, tsTol, els[i], els[j], ReferenceOf(t, key), t.sqrt)
  }

  /** The verdict for pair (i, j), j < i, with the distance read from the condensed vector at
      `len(atoms) * j + i - ((j + 2) * (j + 1)) // 2`. */
  function CondensedVerdict(els: seq<string>, dists: seq<real>, cache: map<string, Cutoff>, t: Tables,
                            tol: real, tsTol: real, i: nat, j: nat): Option<BondClass>
    requires j < i < |els| && |dists| == PairCount(|els|) && CacheCovers(els, t, cache)
  {
    CondensedIndexRange(|els|, j, i);
    VerdictOf(els, dists[CondensedIndex(|els|, j, i)], cache, t, tol, tsTol, i, j)
  }

  /** Pairs (i, j) with j <= i < n. */
  predicate LowerIn(pairs: seq<(nat, nat)>, n: nat) {
    forall k :: 0 <= k < |pairs| ==> pairs[k].1 <= pairs[k].0 < n
  }

  /** Visited pair `p` = (i, j) gives assignment `x`: j < i, the atoms are the pair's selected atoms, and
      the pair's verdict is `x`'s class. */
  predicate Yields(sel: seq<nat>, els: seq<string>, dists: seq<real>, cache: map<string, Cutoff>, t: Tables,
                   tol: real, tsTol: real, p: (nat, nat), x: Assignment)
    requires |sel| == |els| && |dists| == PairCount(|els|) && CacheCovers(els, t, cache)
  {
    && p.1 < p.0 < |els| && x.a1 == sel[p.0] && x.a2 == sel[p.1]
    && CondensedVerdict(els, dists, cache, t, tol, tsTol, p.0, p.1) == Some(x.cls)
  }

  /** The loop body for one visited pair: `if i == j: continue`, then the pair goes to its class list
      unless it gets no class. */
  function Visit(sel: seq<nat>, els: seq<string>, dists: seq<real>, cache: map<string, Cutoff>, t: Tables,
                 tol: real, tsTol: real, p: (nat, nat)): (r: seq<Assignment>)
    requires |sel| == |els| && |dists| == PairCount(|els|) && CacheCovers(els, t, cache)
    requires p.1 <= p.0 < |els|
    ensures |r| <= 1
    ensures forall x :: x in r <==> Yields(sel, els, dists, cache, t, tol, tsTol, p, x)
  {
    var (i, j) := p;
    if i == j then []
    else match CondensedVerdict(els, dists, cache, t, tol, tsTol, i, j)
      case None => []
      case Some(c) => [Assignment(sel[i], sel[j], c)]
  }

  /** The loop over the visited pairs, each pair's assignment (if any) in visiting order. */
  function Collect(sel: seq<nat>, els: seq<string>, dists: seq<real>, cache: map<string, Cutoff>, t: Tables,
                   tol: real, tsTol: real, pairs: seq<(nat, nat)>): seq<Assignment>
    requires |sel| == |els| && |dists| == PairCount(|els|) && CacheCovers(els, t, cache)
    requires LowerIn(pairs, |els|)
    decreases |pairs|
  {
    if |pairs| == 0 then []
    else Visit(sel, els, dists, cache, t, tol, tsTol, pairs[0]) + Collect(sel, els, dists, cache, t, tol, tsTol, pairs[1..])
  }

  /** An assignment is collected exactly when it comes from a visited pair j < i with that verdict. */
  lemma {:induction false} CollectMembers(sel: seq<nat>, els: seq<string>, dists: seq<real>,
                                          cache: map<string, Cutoff>, t: Tables, tol: real, tsTol: real,
                                          pairs: seq<(nat, nat)>, x: Assignment)
    requires |sel| == |els| && |dists| == PairCount(|els|) && CacheCovers(els, t, cache)
    requires LowerIn(pairs, |els|)
    ensures x in Collect(sel, els, dists, cache, t, tol, tsTol, pairs) <==>
      exists p :: p in pairs && Yields(sel, els, dists, cache, t, tol, tsTol, p, x)
    decreases |pairs|
  {
    if |pairs| > 0 {
      var rest := pairs[1..];
      CollectMembers(sel, els, dists, cache, t, tol, tsTol, rest, x);
      assert forall p :: p in pairs <==> p == pairs[0] || p in rest;
    }
  }

  /** The first visited pair's assignment and any later pair's are about different atoms. */
  lemma VisitApart(sel: seq<nat>, els: seq<string>, dists: seq<real>, cache: map<string, Cutoff>, t: Tables,
                   tol: real, tsTol: real, pairs: seq<(nat, nat)>, x: Assignment, y: Assignment)
    requires |sel| == |els| && |dists| == PairCount(|els|) && CacheCovers(els, t, cache)
    requires forall k, l :: 0 <= k < l < |sel| ==> sel[k] != sel[l]
    requires forall k, l :: 0 <= k < l < |pairs| ==> pairs[k] != pairs[l]
    requires LowerIn(pairs, |els|) && |pairs| > 0
    requires x in Visit(sel, els, dists, cache, t, tol, tsTol, pairs[0])
    requires y in Collect(sel, els, dists, cache, t, tol, tsTol, pairs[1..])
    ensures !SameAtoms(x, y)
  {
    var (i, j) := pairs[0];
    CollectMembers(sel, els, dists, cache, t, tol, tsTol, pairs[1..], y);
    var q :| q in pairs[1..] && Yields(sel, els, dists, cache, t, tol, tsTol, q, y);
    var k :| 0 <= k < |pairs[1..]| && pairs[1..][k] == q;
    var (i', j') := pairs[k + 1];
    assert pairs[0] != pairs[k + 1];
    SelectedPairsDiffer(sel, i, j, i', j');
  }

  /** With distinct selected atoms and distinct visited pairs, no two assignments are about the same atoms. */
  lemma {:induction false} CollectDistinct(sel: seq<nat>, els: seq<string>, dists: seq<real>,
                                           cache: map<string, Cutoff>, t: Tables, tol: real, tsTol: real,
                                           pairs: seq<(nat, nat)>)
    requires |sel| == |els| && |dists| == PairCount(|els|) && CacheCovers(els, t, cache)
    requires forall k, l :: 0 <= k < l < |sel| ==> sel[k] != sel[l]
    requires forall k, l :: 0 <= k < l < |pairs| ==> pairs[k] != pairs[l]
    requires LowerIn(pairs, |els|)
    ensures DistinctPairs(Collect(sel, els, dists, cache, t, tol, tsTol, pairs))
    decreases |pairs|
  {
    if |pairs| > 0 {
      var rest := Collect(sel, els, dists, cache, t, tol, tsTol, pairs[1..]);
      CollectDistinct(sel, els, dists, cache, t, tol, tsTol, pairs[1..]);
      var (i, j) := pairs[0];
      var here := Visit(sel, els, dists, cache, t, tol, tsTol, pairs[0]);
      forall x, y | x in here && y in rest
        ensures !SameAtoms(x, y)
      {
        VisitApart(sel, els, dists, cache, t, tol, tsTol, pairs, x, y);
      }
      forall p | 0 <= p < |here|
        ensures here[p].a1 != here[p].a2
      {
        assert Yields(sel, els, dists, cache, t, tol, tsTol, pairs[0], here[p]);
        SelectedPairsDiffer(sel, i, j, i, j);
      }
      DistinctConcat(here, rest);
    }
  }

  /** Distinct selected atoms make distinct index pairs into different atom pairs (and a pair j < i
      into two different atoms). */
  lemma SelectedPairsDiffer(sel: seq<nat>, i: nat, j: nat, i': nat, j': nat)
    requires forall k, l :: 0 <= k < l < |sel| ==> sel[k] != sel[l]
    requires j < i < |sel| && j' < i' < |sel|
    ensures sel[i] != sel[j]
    ensures (i, j) != (i', j') ==> !SameAtoms(Assignment(sel[i], sel[j], Broken), Assignment(sel[i'], sel[j'], Broken))
  {
    assert forall k, l :: 0 <= k < |sel| && 0 <= l < |sel| && k != l ==> sel[k] != sel[l] by {
      forall k, l | 0 <= k < |sel| && 0 <= l < |sel| && k != l
        ensures sel[k] != sel[l]
      {
        if l < k {
          assert sel[l] != sel[k];
        }
      }
    }
  }

  /** The verdict for selection atoms i and j, j < i, from their positions directly. */
  function DirectVerdict(els: seq<string>, pts: Frame, cache: map<string, Cutoff>, t: Tables, tol: real,
                         tsTol: real, i: nat, j: nat): Option<BondClass>
    requires j < i < |els| == |pts| && CacheCovers(els, t, cache)
  {
    VerdictOf(els, SqDist(pts[j], pts[i]), cache, t, tol, tsTol, i, j)
  }

  /** `x` is the assignment of some pair j < i of the selection, with that pair's verdict. */
  ghost predicate FromPair(sel: seq<nat>, els: seq<string>, pts: Frame, cache: map<string, Cutoff>, t: Tables,
                           tol: real, tsTol: real, x: Assignment)
    requires |sel| == |els| == |pts| && CacheCovers(els, t, cache)
  {
    exists i, j :: 0 <= j < i < |sel| && x.a1 == sel[i] && x.a2 == sel[j]
      && DirectVerdict(els, pts, cache, t, tol, tsTol, i, j) == Some(x.cls)
  }

  /** The class lists of one coordinate set, flattened in visiting order: `sel` the selected atoms, `els`
      their element names and `pts` their positions. Every pair of distinct selected atoms is
      considered once, each assignment carries the verdict of its pair's own distance, and no two
      assignments are about the same atoms. */
  function ClassifyFrame(sel: seq<nat>, els: seq<string>, pts: Frame, cache: map<string, Cutoff>, t: Tables,
                         tol: real, tsTol: real): (r: seq<Assignment>)
    requires |sel| == |els| == |pts| && CacheCovers(els, t, cache)
    requires forall k, l :: 0 <= k < l < |sel| ==> sel[k] != sel[l]
    ensures DistinctPairs(r)
  {
    ClassifyFrameFacts(sel, els, pts, cache, t, tol, tsTol);
    Collect(sel, els, PairwiseSqDist(pts), cache, t, tol, tsTol, LowerPairs(|els|))
  }

  /** The class lists hold exactly the assignments of pairs j < i of the selection with their verdicts. */
  lemma ClassifyFrameMeaning(sel: seq<nat>, els: seq<string>, pts: Frame, cache: map<string, Cutoff>, t: Tables,
                             tol: real, tsTol: real)
    requires |sel| == |els| == |pts| && CacheCovers(els, t, cache)
    requires forall k, l :: 0 <= k < l < |sel| ==> sel[k] != sel[l]
    ensures forall x :: x in ClassifyFrame(sel, els, pts, cache, t, tol, tsTol) <==>
      FromPair(sel, els, pts, cache, t, tol, tsTol, x)
  {
    ClassifyFrameFacts(sel, els, pts, cache, t, tol, tsTol);
  }

  /** A collected assignment comes from a pair j < i with that pair's verdict. */
  lemma CollectedFromPair(sel: seq<nat>, els: seq<string>, pts: Frame, cache: map<string, Cutoff>, t: Tables,
                          tol: real, tsTol: real, k: nat, x: Assignment)
    requires |sel| == |els| == |pts| && CacheCovers(els, t, cache)
    requires |PairwiseSqDist(pts)| == PairCount(|els|)
    requires k < |LowerPairs(|els|)| && Yields(sel, els, PairwiseSqDist(pts), cache, t, tol, tsTol, LowerPairs(|els|)[k], x)
    ensures FromPair(sel, els, pts, cache, t, tol, tsTol, x)
  {
    var (i, j) := LowerPairs(|els|)[k];
    CondensedLookup(pts, j, i);
    assert DirectVerdict(els, pts, cache, t, tol, tsTol, i, j) == Some(x.cls);
  }

  /** The assignment of a pair j < i with that pair's verdict is yielded by the pair's visit. */
  lemma PairYields(sel: seq<nat>, els: seq<string>, pts: Frame, cache: map<string, Cutoff>, t: Tables,
                   tol: real, tsTol: real, i: nat, j: nat, x: Assignment)
    requires |sel| == |els| == |pts| && CacheCovers(els, t, cache)
    requires |PairwiseSqDist(pts)| == PairCount(|els|)
    requires j < i < |sel| && x.a1 == sel[i] && x.a2 == sel[j] && DirectVerdict(els, pts, cache, t, tol, tsTol, i, j) == Some(x.cls)
    ensures Tri(i) + j < |LowerPairs(|els|)|
    ensures Yields(sel, els, PairwiseSqDist(pts), cache, t, tol, tsTol, LowerPairs(|els|)[Tri(i) + j], x)
  {
    LowerPairsIndex(|els|, i, j);
    CondensedLookup(pts, j, i);
  }

  /** A collected assignment comes from a pair j < i of the frame with that pair's verdict. */
  lemma CollectedOnlyFromPairs(sel: seq<nat>, els: seq<string>, pts: Frame, cache: map<string, Cutoff>, t: Tables,
                               tol: real, tsTol: real, x: Assignment)
    requires |sel| == |els| == |pts| && CacheCovers(els, t, cache)
    requires |PairwiseSqDist(pts)| == PairCount(|els|) && LowerIn(LowerPairs(|els|), |els|)
    requires x in Collect(sel, els, PairwiseSqDist(pts), cache, t, tol, tsTol, LowerPairs(|els|))
    ensures FromPair(sel, els, pts, cache, t, tol, tsTol, x)
  {
    var dists := PairwiseSqDist(pts);
    var pairs := LowerPairs(|els|);
    CollectMembers(sel, els, dists, cache, t, tol, tsTol, pairs, x);
    var q :| q in pairs && Yields(sel, els, dists, cache, t, tol, tsTol, q, x);
    var k :| 0 <= k < |pairs| && pairs[k] == q;
    CollectedFromPair(sel, els, pts, cache, t, tol, tsTol, k, x);
  }

  /** The assignment of every pair j < i of the frame with a verdict is collected. */
  lemma PairsCollected(sel: seq<nat>, els: seq<string>, pts: Frame, cache: map<string, Cutoff>, t: Tables,
                       tol: real, tsTol: real, x: Assignment)
    requires |sel| == |els| == |pts| && CacheCovers(els, t, cache)
    requires |PairwiseSqDist(pts)| == PairCount(|els|) && LowerIn(LowerPairs(|els|), |els|)
    requires FromPair(sel, els, pts, cache, t, tol, tsTol, x)
    ensures x in Collect(sel, els, PairwiseSqDist(pts), cache, t, tol, tsTol, LowerPairs(|els|))
  {
    var dists := PairwiseSqDist(pts);
    var pairs := LowerPairs(|els|);
    var i, j :| 0 <= j < i < |sel| && x.a1 == sel[i] && x.a2 == sel[j]
      && DirectVerdict(els, pts, cache, t, tol, tsTol, i, j) == Some(x.cls);
    PairYields(sel, els, pts, cache, t, tol, tsTol, i, j, x);
    CollectMembers(sel, els, dists, cache, t, tol, tsTol, pairs, x);
  }

  lemma ClassifyFrameFacts(sel: seq<nat>, els: seq<string>, pts: Frame, cache: map<string, Cutoff>, t: Tables,
                           tol: real, tsTol: real)
    requires |sel| == |els| == |pts| && CacheCovers(els, t, cache)
    requires forall k, l :: 0 <= k < l < |sel| ==> sel[k] != sel[l]
    ensures |PairwiseSqDist(pts)| == PairCount(|els|) && LowerIn(LowerPairs(|els|), |els|)
    ensures var r := Collect(sel, els, PairwiseSqDist(pts), cache, t, tol, tsTol, LowerPairs(|els|));
      && DistinctPairs(r)
      && forall x :: x in r <==> FromPair(sel, els, pts, cache, t, tol, tsTol, x)
  {
    var n := |els|;
    var dists := PairwiseSqDist(pts);
    PairwiseSqDistLength(pts);
    LowerPairsMembers(n);
    var pairs := LowerPairs(n);
    assert forall k, l :: 0 <= k < l < |pairs| ==> pairs[k] != pairs[l];
    var r := Collect(sel, els, dists, cache, t, tol, tsTol, pairs);
    CollectDistinct(sel, els, dists, cache, t, tol, tsTol, pairs);
    forall x
      ensures x in r <==> FromPair(sel, els, pts, cache, t, tol, tsTol, x)
    {
      if x in r {
        CollectedOnlyFromPairs(sel, els, pts, cache, t, tol, tsTol, x);
      }
      if FromPair(sel, els, pts, cache, t, tol, tsTol, x) {
        PairsCollected(sel, els, pts, cache, t, tol, tsTol, x);
      }
    }
  }
}
