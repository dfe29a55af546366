/** `guessBondOrders`: frame selection, the cutoff cache, and the pass that
    writes the class lists of a coordinate set into the structure (real bonds,
    class pseudobond groups and their styles). */
module GuessBondOrders {
  import opened Outcomes
  import opened Geometry
  import opened BondClasses
  import opened Thresholds
  import opened BondTable
  import opened PairClassifier

  // ---------------------------------------------------------------------------------------------
  // The class lists in processing order

  /** `bonds[bo]`: the assignments of class `c`, in the order they were appended. */
  function OfClass(xs: seq<Assignment>, c: BondClass): (r: seq<Assignment>)
    ensures forall x :: x in r <==> x in xs && x.cls == c
    decreases |xs|
  {
    if |xs| == 0 then []
    else (if xs[0].cls == c then [xs[0]] else []) + OfClass(xs[1..], c)
  }

  /** `for bo in bonds: for (a1, a2) in bonds[bo]`: the class lists one after another, in the order of
      `kinds`. */
  function Grouped(xs: seq<Assignment>, kinds: seq<BondClass>): (r: seq<Assignment>)
    ensures forall x :: x in r <==> x in xs && x.cls in kinds
    decreases |kinds|
  {
    if |kinds| == 0 then [] else OfClass(xs, kinds[0]) + Grouped(xs, kinds[1..])
  }

  lemma {:induction false} OfClassDistinct(xs: seq<Assignment>, c: BondClass)
    requires DistinctPairs(xs)
    ensures DistinctPairs(OfClass(xs, c))
    decreases |xs|
  {
    if |xs| > 0 {
      var rest := xs[1..];
      assert DistinctPairs(rest) by {
        assert forall p :: 0 <= p < |rest| ==> rest[p] == xs[p + 1];
      }
      OfClassDistinct(rest, c);
      var here := if xs[0].cls == c then [xs[0]] else [];
      forall x, y | x in here && y in OfClass(rest, c)
        ensures !SameAtoms(x, y)
      {
        var q :| 0 <= q < |rest| && rest[q] == y;
        assert xs[q + 1] == y;
      }
      DistinctConcat(here, OfClass(rest, c));
    }
  }

  /** Grouping keeps the pairs distinct when no class is listed twice. */
  lemma {:induction false} GroupedDistinct(xs: seq<Assignment>, kinds: seq<BondClass>)
    requires DistinctPairs(xs)
    requires forall k, l :: 0 <= k < l < |kinds| ==> kinds[k] != kinds[l]
    ensures DistinctPairs(Grouped(xs, kinds))
    decreases |kinds|
  {
    if |kinds| > 0 {
      OfClassDistinct(xs, kinds[0]);
      GroupedDistinct(xs, kinds[1..]);
      forall x, y | x in OfClass(xs, kinds[0]) && y in Grouped(xs, kinds[1..])
        ensures !SameAtoms(x, y)
      {
        assert y.cls != kinds[0];
        DistinctMembers(xs, x, y);
      }
      DistinctConcat(OfClass(xs, kinds[0]), Grouped(xs, kinds[1..]));
    }
  }

  // ---------------------------------------------------------------------------------------------
  // Pseudobonds

  /** For each target coordinate set in turn: `pbg.new_pseudobond(a1, a2, cs_id=cs)` in group `c`, then
      deletion of the pseudobonds joining a1 and a2 at cs from every other class group. */
  function PlaceOver(t: PbTable, a: nat, b: nat, c: BondClass, targets: seq<int>): PbTable
    decreases |targets|
  {
    if |targets| == 0 then t
    else PlaceOver(RemoveOthersAt(t + {PbKey(PairOf(a, b), targets[0], c)}, a, b, targets[0], c, AllClasses),
                   a, b, c, targets[1..])
  }

  /** Moving the pair twice, over F and then over G, is moving it over both at once. */
  lemma MovedToTwice(t: PbTable, a: nat, b: nat, c: BondClass, f: set<int>, g: set<int>)
    ensures MovedTo(MovedTo(t, a, b, c, f, true), a, b, c, g, true) == MovedTo(t, a, b, c, f + g, true)
  {
    PairOfJoins(a, b, Pair(a, b));
  }

  lemma {:induction false} PlaceOverIs(t: PbTable, a: nat, b: nat, c: BondClass, targets: seq<int>)
    ensures PlaceOver(t, a, b, c, targets) == MovedTo(t, a, b, c, set cs | cs in targets, true)
    decreases |targets|
  {
    if |targets| > 0 {
      var cs0 := targets[0];
      var t1 := RemoveOthersAt(t + {PbKey(PairOf(a, b), cs0, c)}, a, b, cs0, c, AllClasses);
      RemoveOthersAtIs(t + {PbKey(PairOf(a, b), cs0, c)}, a, b, cs0, c, AllClasses);
      AllClassesListed();
      assert t1 == MovedTo(t, a, b, c, {cs0}, true);
      PlaceOverIs(t1, a, b, c, targets[1..]);
      MovedToTwice(t, a, b, c, {cs0}, set cs | cs in targets[1..]);
      assert {cs0} + (set cs | cs in targets[1..]) == set cs | cs in targets;
    }
  }

  /** The pseudobond half of the class pass: each drawn assignment placed over `targets`, in order;
      "broken" assignments create and delete no pseudobond. */
  function PlaceAll(t: PbTable, xs: seq<Assignment>, targets: seq<int>): PbTable
    decreases |xs|
  {
    if |xs| == 0 then t
    else
      var x := xs[0];
      PlaceAll(if x.cls == Broken then t else PlaceOver(t, x.a1, x.a2, x.cls, targets), xs[1..], targets)
  }

  /** What each coordinate set is to show: the assignments written at that id. */
  type Plan = map<int, set<Assignment>>

  /** The assignments of `xs` at every target id. */
  function PlanOver(targets: seq<int>, xs: seq<Assignment>): Plan {
    map cs | cs in targets :: set x | x in xs
  }

  /** Pseudobond `k` sits at a planned coordinate set and joins the pair of a drawn assignment there. */
  ghost predicate Claimed(plan: Plan, k: PbKey) {
    k.cs in plan && exists x :: x in plan[k.cs] && x.cls != Broken && Joins(k.pair, x.a1, x.a2)
  }

  /** The table `r` carries out `plan` on `t`: at each planned id every drawn assignment has its
      pseudobond in its own class group and the pair has none in another class; a pseudobond no drawn
      assignment claims is kept or absent exactly as before. */
  ghost predicate Placed(t: PbTable, r: PbTable, plan: Plan) {
    && (forall cs, x :: cs in plan && x in plan[cs] && x.cls != Broken ==> PbKey(PairOf(x.a1, x.a2), cs, x.cls) in r)
    && (forall k, x :: k in r && k.cs in plan && x in plan[k.cs] && x.cls != Broken && Joins(k.pair, x.a1, x.a2)
          ==> k.cls == x.cls)
    && (forall k: PbKey :: !Claimed(plan, k) ==> (k in r <==> k in t))
  }

  /** A pseudobond joining two different atoms joins exactly those two. */
  lemma JoinsSame(p: Pair, x: Assignment, y: Assignment)
    requires x.a1 != x.a2 && y.a1 != y.a2
    requires Joins(p, x.a1, x.a2) && Joins(p, y.a1, y.a2)
    ensures SameAtoms(x, y)
  {
  }

  /** The first assignment of a list with distinct pairs shares its atoms with no later one. */
  lemma HeadApart(xs: seq<Assignment>, y: Assignment)
    requires DistinctPairs(xs) && |xs| > 0 && y in xs[1..]
    ensures !SameAtoms(xs[0], y) && xs[0].a1 != xs[0].a2 && y.a1 != y.a2
  {
    var q :| 0 <= q < |xs[1..]| && xs[1..][q] == y;
    assert xs[q + 1] == y;
  }

  /** With distinct pairs, placing the assignments one after another carries out the plan that writes
      all of them at every target id. */
  lemma {:induction false} PlaceAllSpec(t: PbTable, xs: seq<Assignment>, targets: seq<int>)
    requires DistinctPairs(xs)
    ensures Placed(t, PlaceAll(t, xs, targets), PlanOver(targets, xs))
    decreases |xs|
  {
    var plan := PlanOver(targets, xs);
    var r := PlaceAll(t, xs, targets);
    if |xs| == 0 {
      forall k: PbKey
        ensures !Claimed(plan, k)
      {
      }
    } else {
      var x0 := xs[0];
      var rest := xs[1..];
      var t1 := if x0.cls == Broken then t else PlaceOver(t, x0.a1, x0.a2, x0.cls, targets);
      var T := set cs | cs in targets;
      assert DistinctPairs(rest) by {
        assert forall p :: 0 <= p < |rest| ==> rest[p] == xs[p + 1];
      }
      PlaceAllSpec(t1, rest, targets);
      var plan' := PlanOver(targets, rest);
      if x0.cls != Broken {
        PlaceOverIs(t, x0.a1, x0.a2, x0.cls, targets);
        MovedToSpec(t, x0.a1, x0.a2, x0.cls, T, true);
      }
      PairOfJoins(x0.a1, x0.a2, Pair(x0.a1, x0.a2));
      // a pseudobond joining x0's pair is claimed by no later assignment
      forall k: PbKey | Joins(k.pair, x0.a1, x0.a2)
        ensures !Claimed(plan', k)
      {
        if Claimed(plan', k) {
          var y: Assignment :| y in plan'[k.cs] && y.cls != Broken && Joins(k.pair, y.a1, y.a2);
          HeadApart(xs, y);
          JoinsSame(k.pair, x0, y);
          assert false;
        }
      }
      forall cs: int, x: Assignment | cs in plan && x in plan[cs] && x.cls != Broken
        ensures PbKey(PairOf(x.a1, x.a2), cs, x.cls) in r
      {
        if x != x0 {
          assert x in plan'[cs];
        } else {
          assert PbKey(PairOf(x.a1, x.a2), cs, x.cls) in t1;
        }
      }
      forall k: PbKey, x: Assignment | k in r && k.cs in plan && x in plan[k.cs] && x.cls != Broken && Joins(k.pair, x.a1, x.a2)
        ensures k.cls == x.cls
      {
        if x != x0 {
          assert x in plan'[k.cs];
        } else {
          assert k in t1;
        }
      }
      forall k: PbKey | Claimed(plan', k)
        ensures Claimed(plan, k)
      {
        var y: Assignment :| y in plan'[k.cs] && y.cls != Broken && Joins(k.pair, y.a1, y.a2);
        assert y in plan[k.cs];
      }
      forall k: PbKey | x0.cls != Broken && k.cs in T && Joins(k.pair, x0.a1, x0.a2)
        ensures Claimed(plan, k)
      {
        assert x0 in plan[k.cs];
      }
    }
  }

  /** Carrying out two plans for different coordinate sets one after the other carries out both. */
  lemma PlacedCompose(t: PbTable, r1: PbTable, r2: PbTable, p1: Plan, p2: Plan)
    requires Placed(t, r1, p1) && Placed(r1, r2, p2)
    requires forall cs :: cs in p1 ==> cs !in p2
    ensures Placed(t, r2, p1 + p2)
  {
    var p := p1 + p2;
    forall cs: int, x: Assignment | cs in p && x in p[cs] && x.cls != Broken
      ensures PbKey(PairOf(x.a1, x.a2), cs, x.cls) in r2
    {
      if cs !in p2 {
        assert x in p1[cs];
        assert !Claimed(p2, PbKey(PairOf(x.a1, x.a2), cs, x.cls));
      }
    }
    forall k: PbKey, x: Assignment | k in r2 && k.cs in p && x in p[k.cs] && x.cls != Broken && Joins(k.pair, x.a1, x.a2)
      ensures k.cls == x.cls
    {
      if k.cs !in p2 {
        assert !Claimed(p2, k);
        assert x in p1[k.cs];
      }
    }
    forall k: PbKey | Claimed(p2, k)
      ensures Claimed(p, k)
    {
      var y: Assignment :| y in p2[k.cs] && y.cls != Broken && Joins(k.pair, y.a1, y.a2);
      assert y in p[k.cs];
    }
    forall k: PbKey | Claimed(p1, k)
      ensures Claimed(p, k)
    {
      var y: Assignment :| y in p1[k.cs] && y.cls != Broken && Joins(k.pair, y.a1, y.a2);
      assert y in p[k.cs];
    }
  }

  // ---------------------------------------------------------------------------------------------
  // Real bonds

  /** No bond joins an atom to itself and no two bonds join the same two atoms. */
  predicate SimpleBonds(bonds: seq<Pair>) {
    && (forall k :: 0 <= k < |bonds| ==> bonds[k].a != bonds[k].b)
    && (forall k, l :: 0 <= k < l < |bonds| ==> !Joins(bonds[l], bonds[k].a, bonds[k].b))
  }

  lemma SimpleCons(p: Pair, bonds: seq<Pair>)
    requires p.a != p.b && SimpleBonds(bonds)
    requires forall q :: q in bonds ==> !Joins(q, p.a, p.b)
    ensures SimpleBonds([p] + bonds)
  {
    var bs := [p] + bonds;
    forall k, l | 0 <= k < l < |bs|
      ensures !Joins(bs[l], bs[k].a, bs[k].b)
    {
      if k == 0 {
        assert bs[l] in bonds;
      } else {
        assert bs[k] == bonds[k - 1] && bs[l] == bonds[l - 1];
      }
    }
  }

  /** In simple bonds, deleting the first bond joining two different atoms leaves none joining them. */
  lemma {:induction false} DeleteFirstSimple(bonds: seq<Pair>, a: nat, b: nat)
    requires SimpleBonds(bonds) && a != b
    ensures SimpleBonds(DeleteFirstJoining(bonds, a, b))
    ensures forall q :: q in DeleteFirstJoining(bonds, a, b) ==> !Joins(q, a, b)
    decreases |bonds|
  {
    if |bonds| > 0 {
      var rest := bonds[1..];
      assert SimpleBonds(rest) by {
        assert forall k :: 0 <= k < |rest| ==> rest[k] == bonds[k + 1];
      }
      if Joins(bonds[0], a, b) {
        forall q | q in rest
          ensures !Joins(q, a, b)
        {
          var l :| 0 <= l < |rest| && rest[l] == q;
          assert !Joins(bonds[l + 1], bonds[0].a, bonds[0].b);
        }
      } else {
        DeleteFirstSimple(rest, a, b);
        DeleteFirstJoiningKeeps(rest, a, b);
        var r := DeleteFirstJoining(rest, a, b);
        forall q | q in r
          ensures !Joins(q, bonds[0].a, bonds[0].b)
        {
          assert q in multiset(r);
          var l :| 0 <= l < |rest| && rest[l] == q;
          assert !Joins(bonds[l + 1], bonds[0].a, bonds[0].b);
        }
        SimpleCons(bonds[0], r);
      }
    }
  }

  /** The real-bond half of the class pass: `for bond in structure.bonds: if a1 in bond.atoms and a2 in
      bond.atoms: bond.delete(); break`, for each assignment in order. */
  function DeleteAll(bonds: seq<Pair>, xs: seq<Assignment>): seq<Pair>
    decreases |xs|
  {
    if |xs| == 0 then bonds else DeleteAll(DeleteFirstJoining(bonds, xs[0].a1, xs[0].a2), xs[1..])
  }

  /** Bond `q` joins the atoms of an assignment somewhere in the plan. */
  ghost predicate JoinsPlanned(q: Pair, plan: Plan) {
    exists cs, x :: cs in plan && x in plan[cs] && Joins(q, x.a1, x.a2)
  }

  /** `after` is `before` with bonds of planned pairs deleted: nothing is added, a bond joining no planned
      pair survives, and when the bonds were simple none joining a planned pair is left. */
  ghost predicate BondsCleared(before: seq<Pair>, after: seq<Pair>, plan: Plan) {
    && multiset(after) <= multiset(before)
    && (forall q :: q in before && !JoinsPlanned(q, plan) ==> q in after)
    && (SimpleBonds(before) ==> SimpleBonds(after) && forall q :: q in after ==> !JoinsPlanned(q, plan))
  }

  lemma {:induction false} DeleteAllSpec(bonds: seq<Pair>, xs: seq<Assignment>, targets: seq<int>)
    requires |targets| > 0
    requires forall x :: x in xs ==> x.a1 != x.a2
    ensures BondsCleared(bonds, DeleteAll(bonds, xs), PlanOver(targets, xs))
    decreases |xs|
  {
    var plan := PlanOver(targets, xs);
    var r := DeleteAll(bonds, xs);
    if |xs| == 0 {
      forall q
        ensures !JoinsPlanned(q, plan)
      {
      }
    } else {
      var x0 := xs[0];
      var b1 := DeleteFirstJoining(bonds, x0.a1, x0.a2);
      DeleteFirstJoiningKeeps(bonds, x0.a1, x0.a2);
      assert forall x :: x in xs[1..] ==> x in xs;
      DeleteAllSpec(b1, xs[1..], targets);
      var plan' := PlanOver(targets, xs[1..]);
      var cs0 := targets[0];
      forall q | Joins(q, x0.a1, x0.a2)
        ensures JoinsPlanned(q, plan)
      {
        assert cs0 in plan && x0 in plan[cs0];
      }
      forall q | JoinsPlanned(q, plan')
        ensures JoinsPlanned(q, plan)
      {
        var cs: int, x: Assignment :| cs in plan' && x in plan'[cs] && Joins(q, x.a1, x.a2);
        assert x in plan[cs];
      }
      forall q | JoinsPlanned(q, plan)
        ensures Joins(q, x0.a1, x0.a2) || JoinsPlanned(q, plan')
      {
        var cs: int, x: Assignment :| cs in plan && x in plan[cs] && Joins(q, x.a1, x.a2);
        if x != x0 {
          assert x in plan'[cs0];
        }
      }
      if SimpleBonds(bonds) {
        DeleteFirstSimple(bonds, x0.a1, x0.a2);
        forall q | q in r
          ensures q in b1
        {
          assert q in multiset(r);
        }
      }
    }
  }

  lemma BondsClearedCompose(b0: seq<Pair>, b1: seq<Pair>, b2: seq<Pair>, p1: Plan, p2: Plan)
    requires BondsCleared(b0, b1, p1) && BondsCleared(b1, b2, p2)
    requires forall cs :: cs in p1 ==> cs !in p2
    ensures BondsCleared(b0, b2, p1 + p2)
  {
    var p := p1 + p2;
    forall q | JoinsPlanned(q, p1) || JoinsPlanned(q, p2)
      ensures JoinsPlanned(q, p)
    {
      if JoinsPlanned(q, p1) {
        var cs: int, x: Assignment :| cs in p1 && x in p1[cs] && Joins(q, x.a1, x.a2);
        assert x in p[cs];
      } else {
        var cs: int, x: Assignment :| cs in p2 && x in p2[cs] && Joins(q, x.a1, x.a2);
        assert x in p[cs];
      }
    }
    forall q | JoinsPlanned(q, p)
      ensures JoinsPlanned(q, p1) || JoinsPlanned(q, p2)
    {
      var cs: int, x: Assignment :| cs in p && x in p[cs] && Joins(q, x.a1, x.a2);
      if cs in p2 {
        assert x in p2[cs];
      } else {
        assert x in p1[cs];
      }
    }
    forall q | q in b2
      ensures q in b1
    {
      assert q in multiset(b2);
    }
  }

  // ---------------------------------------------------------------------------------------------
  // Group styles

  /** Class `c` is among `kinds`, draws pseudobonds, and its list is not empty. */
  predicate Restyled(xs: seq<Assignment>, kinds: seq<BondClass>, c: BondClass) {
    c in kinds && c != Broken && exists x :: x in xs && x.cls == c
  }

  /** `pbg.color = Set...Bond.color; pbg.dashes = Set...Bond.dashes` for each class with a non-empty list,
      classes in the order of `kinds`. */
  function Restyle(styles: map<BondClass, Style>, xs: seq<Assignment>, kinds: seq<BondClass>)
    : (r: map<BondClass, Style>)
    ensures forall c :: c in r <==> c in styles || Restyled(xs, kinds, c)
    ensures forall c :: c in r ==> r[c] == if Restyled(xs, kinds, c) then ModeStyle(c) else styles[c]
    decreases |kinds|
  {
    if |kinds| == 0 then styles
    else
      var c := kinds[0];
      var st := if Restyled(xs, [c], c) then styles[c := ModeStyle(c)] else styles;
      Restyle(st, xs, kinds[1..])
  }

  /** Class `c` draws pseudobonds and some planned id lists an assignment of class `c`. */
  ghost predicate UsedIn(plan: Plan, c: BondClass) {
    c != Broken && exists cs: int, x: Assignment :: cs in plan && x in plan[cs] && x.cls == c
  }

  /** Exactly the drawn classes in use got the mode's colour and dashes; other styles are as before. */
  ghost predicate StylesAfter(before: map<BondClass, Style>, after: map<BondClass, Style>, plan: Plan) {
    forall c :: (c in after <==> c in before || UsedIn(plan, c))
      && (c in after ==> after[c] == if UsedIn(plan, c) then ModeStyle(c) else before[c])
  }

  /** The ids and contents of a plan that writes one list everywhere. */
  lemma PlanOverMembers(targets: seq<int>, xs: seq<Assignment>)
    ensures forall cs :: cs in PlanOver(targets, xs) <==> cs in targets
    ensures forall cs, x :: cs in PlanOver(targets, xs) ==> (x in PlanOver(targets, xs)[cs] <==> x in xs)
  {
  }

  /** A class is used by a plan writing `xs` somewhere exactly when the class pass restyles it. */
  lemma UsedInPlanOver(xs: seq<Assignment>, targets: seq<int>, c: BondClass)
    requires |targets| > 0
    ensures UsedIn(PlanOver(targets, xs), c) <==> Restyled(xs, AllClasses, c)
  {
    var plan := PlanOver(targets, xs);
    PlanOverMembers(targets, xs);
    NamesIdentifyClasses(c);
    if Restyled(xs, AllClasses, c) {
      var x: Assignment :| x in xs && x.cls == c;
      var cs := targets[0];
      assert cs in plan && x in plan[cs] && x.cls == c;
      assert exists cs': int, y: Assignment :: cs' in plan && y in plan[cs'] && y.cls == c;
      assert c != Broken;
      assert UsedIn(plan, c);
    }
    if UsedIn(plan, c) {
      var cs: int, x: Assignment :| cs in plan && x in plan[cs] && x.cls == c;
      assert x in xs;
      assert Restyled(xs, AllClasses, c);
    }
  }

  lemma RestyleSpec(styles: map<BondClass, Style>, xs: seq<Assignment>, targets: seq<int>)
    requires |targets| > 0
    ensures StylesAfter(styles, Restyle(styles, xs, AllClasses), PlanOver(targets, xs))
  {
    forall c
      ensures UsedIn(PlanOver(targets, xs), c) <==> Restyled(xs, AllClasses, c)
    {
      UsedInPlanOver(xs, targets, c);
    }
  }

  lemma StylesAfterCompose(s0: map<BondClass, Style>, s1: map<BondClass, Style>, s2: map<BondClass, Style>,
                           p1: Plan, p2: Plan)
    requires StylesAfter(s0, s1, p1) && StylesAfter(s1, s2, p2)
    requires forall cs :: cs in p1 ==> cs !in p2
    ensures StylesAfter(s0, s2, p1 + p2)
  {
    var p := p1 + p2;
    forall c
      ensures UsedIn(p, c) <==> UsedIn(p1, c) || UsedIn(p2, c)
    {
      if UsedIn(p, c) {
        var cs: int, x: Assignment :| cs in p && x in p[cs] && x.cls == c;
        if cs in p2 {
          assert x in p2[cs];
        } else {
          assert x in p1[cs];
        }
      }
      if UsedIn(p1, c) {
        var cs: int, x: Assignment :| cs in p1 && x in p1[cs] && x.cls == c;
        assert x in p[cs];
      }
      if UsedIn(p2, c) {
        var cs: int, x: Assignment :| cs in p2 && x in p2[cs] && x.cls == c;
        assert x in p[cs];
      }
    }
  }

  // ---------------------------------------------------------------------------------------------
  // One coordinate set's pass, and the whole command

  /** `s2` is `s` after carrying out `plan`: pseudobonds placed, real bonds of the planned pairs
      deleted, used groups restyled, and nothing else (atoms, coordinates, ids) changed. */
  ghost predicate Updated(s: Structure, s2: Structure, plan: Plan) {
    && Placed(s.pbonds, s2.pbonds, plan)
    && BondsCleared(s.bonds, s2.bonds, plan)
    && StylesAfter(s.styles, s2.styles, plan)
    && s2 == s.(bonds := s2.bonds, pbonds := s2.pbonds, styles := s2.styles)
  }

  /** The class pass over the lists of one coordinate set, writing at `targets`. The source interleaves
      the bond deletions, the pseudobond edits and the styling class by class; each of the three touches
      its own part of the structure, so they are written as three folds. */
  function UpdateFrame(s: Structure, xs: seq<Assignment>, targets: seq<int>): Structure {
    var g := Grouped(xs, AllClasses);
    s.(bonds := DeleteAll(s.bonds, g), pbonds := PlaceAll(s.pbonds, g, targets), styles := Restyle(s.styles, xs, AllClasses))
  }

  /** Grouping by all six classes keeps exactly the assignments of the list. */
  lemma GroupedAllSame(xs: seq<Assignment>)
    ensures (set x | x in Grouped(xs, AllClasses)) == (set x | x in xs)
  {
    forall x
      ensures x in Grouped(xs, AllClasses) <==> x in xs
    {
      NamesIdentifyClasses(x.cls);
    }
  }

  /** Grouping by all six classes keeps exactly the assignments of the list, and keeps them distinct. */
  lemma GroupedAll(xs: seq<Assignment>, targets: seq<int>)
    requires DistinctPairs(xs)
    ensures DistinctPairs(Grouped(xs, AllClasses))
    ensures PlanOver(targets, Grouped(xs, AllClasses)) == PlanOver(targets, xs)
  {
    GroupedDistinct(xs, AllClasses);
    GroupedAllSame(xs);
  }

  /** The pseudobond part of one class pass carries out the plan that writes its lists at every target. */
  lemma PlaceFrame(t: PbTable, xs: seq<Assignment>, targets: seq<int>)
    requires DistinctPairs(xs)
    ensures Placed(t, PlaceAll(t, Grouped(xs, AllClasses), targets), PlanOver(targets, xs))
  {
    GroupedAll(xs, targets);
    PlaceAllSpec(t, Grouped(xs, AllClasses), targets);
  }

  /** The real-bond part of one class pass clears the bonds of the plan that writes its lists at every
      target. */
  lemma ClearFrame(bonds: seq<Pair>, xs: seq<Assignment>, targets: seq<int>)
    requires DistinctPairs(xs) && |targets| > 0
    ensures BondsCleared(bonds, DeleteAll(bonds, Grouped(xs, AllClasses)), PlanOver(targets, xs))
  {
    GroupedAll(xs, targets);
    DeleteAllSpec(bonds, Grouped(xs, AllClasses), targets);
  }

  /** With distinct pairs, one class pass writing at `targets` carries out the plan that writes its lists
      at every target id. */
  lemma UpdateFrameSpec(s: Structure, xs: seq<Assignment>, targets: seq<int>)
    requires DistinctPairs(xs) && |targets| > 0
    ensures Updated(s, UpdateFrame(s, xs, targets), PlanOver(targets, xs))
  {
    PlaceFrame(s.pbonds, xs, targets);
    ClearFrame(s.bonds, xs, targets);
    RestyleSpec(s.styles, xs, targets);
  }

  /** `coordinateSet`: None (the active set), "all", or an id. */
  datatype FrameSelector = ActiveSet | EverySet | SetId(id: int)

  /** The command's keywords. */
  datatype Settings = Settings(selector: FrameSelector, tol: real, tsTol: real)

  const DefaultSettings: Settings := Settings(ActiveSet, DefaultTol, DefaultTsTol)

  /** "coordinateSet ... is not a valid coordinate set", or the KeyError of a missing radius. */
  datatype GuessError = InvalidCoordset(id: int) | RadiusMissing(element: string)

  /** The class lists of coordinate set `cs` over the selected atoms `sel`. */
  function ClassifyAt(s: Structure, sel: seq<nat>, cache: map<string, Cutoff>, t: Tables, opts: Settings, cs: int)
    : (r: seq<Assignment>)
    requires Valid(s) && cs in s.ids && SelectionOk(|s.elements|, sel)
    requires CacheCovers(Selected(s.elements, sel), t, cache)
    ensures DistinctPairs(r)
  {
    ClassifyFrame(sel, Selected(s.elements, sel), Selected(FrameOf(s, cs), sel), cache, t, opts.tol, opts.tsTol)
  }

  /** The class lists of every coordinate set of `s`, by id. */
  function ListsOf(s: Structure, sel: seq<nat>, cache: map<string, Cutoff>, t: Tables, opts: Settings)
    : (r: map<int, seq<Assignment>>)
    requires Valid(s) && SelectionOk(|s.elements|, sel) && CacheCovers(Selected(s.elements, sel), t, cache)
    ensures forall cs :: cs in r <==> cs in s.ids
    ensures ListsDistinct(r)
  {
    map cs | cs in s.ids :: ClassifyAt(s, sel, cache, t, opts, cs)
  }

  /** Each id of `ids` with its own list. */
  function PlanEach(lists: map<int, seq<Assignment>>, ids: seq<int>): Plan
    requires forall k :: 0 <= k < |ids| ==> ids[k] in lists
  {
    map cs | cs in ids :: set x | x in lists[cs]
  }

  /** Peeling the first id off a list of distinct ids splits the plan into two plans for disjoint ids. */
  lemma PlanEachCons(lists: map<int, seq<Assignment>>, ids: seq<int>)
    requires |ids| > 0 && forall k :: 0 <= k < |ids| ==> ids[k] in lists
    requires forall k, l :: 0 <= k < l < |ids| ==> ids[k] != ids[l]
    ensures
      var p1 := PlanOver([ids[0]], lists[ids[0]]);
      var p2 := PlanEach(lists, ids[1..]);
      && (forall cs :: cs in p1 ==> cs !in p2)
      && PlanEach(lists, ids) == p1 + p2
  {
    var p := PlanEach(lists, ids);
    var p1 := PlanOver([ids[0]], lists[ids[0]]);
    var p2 := PlanEach(lists, ids[1..]);
    forall l | 0 <= l < |ids[1..]|
      ensures ids[1..][l] != ids[0]
    {
      assert ids[1..][l] == ids[l + 1];
    }
    assert p.Keys == p1.Keys + p2.Keys by {
      assert forall cs :: cs in ids <==> cs == ids[0] || cs in ids[1..];
    }
    forall cs | cs in p
      ensures p[cs] == (p1 + p2)[cs]
    {
      if cs !in p2 {
        assert cs == ids[0];
      }
    }
  }

  /** No list of `lists` has two assignments on the same atoms. */
  predicate ListsDistinct(lists: map<int, seq<Assignment>>) {
    forall cs {:trigger lists[cs]} :: cs in lists ==> DistinctPairs(lists[cs])
  }

  /** "all": each id's own list written at that id only, one id after another. */
  function UpdateEach(s: Structure, lists: map<int, seq<Assignment>>, ids: seq<int>): Structure
    requires forall k :: 0 <= k < |ids| ==> ids[k] in lists
    decreases |ids|
  {
    if |ids| == 0 then s
    else
      var cs := ids[0];
      UpdateEach(UpdateFrame(s, lists[cs], [cs]), lists, ids[1..])
  }

  /** The pseudobond part of the "all" passes. */
  function PbondsEach(t: PbTable, lists: map<int, seq<Assignment>>, ids: seq<int>): PbTable
    requires forall k :: 0 <= k < |ids| ==> ids[k] in lists
    decreases |ids|
  {
    if |ids| == 0 then t
    else
      var cs := ids[0];
      PbondsEach(PlaceAll(t, Grouped(lists[cs], AllClasses), [cs]), lists, ids[1..])
  }

  /** The real-bond part of the "all" passes. */
  function BondsEach(bonds: seq<Pair>, lists: map<int, seq<Assignment>>, ids: seq<int>): seq<Pair>
    requires forall k :: 0 <= k < |ids| ==> ids[k] in lists
    decreases |ids|
  {
    if |ids| == 0 then bonds
    else
      var cs := ids[0];
      BondsEach(DeleteAll(bonds, Grouped(lists[cs], AllClasses)), lists, ids[1..])
  }

  /** The styling part of the "all" passes. */
  function StylesEach(styles: map<BondClass, Style>, lists: map<int, seq<Assignment>>, ids: seq<int>)
    : map<BondClass, Style>
    requires forall k :: 0 <= k < |ids| ==> ids[k] in lists
    decreases |ids|
  {
    if |ids| == 0 then styles
    else
      var cs := ids[0];
      StylesEach(Restyle(styles, lists[cs], AllClasses), lists, ids[1..])
  }

  /** The "all" passes touch the real bonds, the pseudobonds and the styles independently. */
  lemma {:induction false} UpdateEachParts(s: Structure, lists: map<int, seq<Assignment>>, ids: seq<int>)
    requires forall k :: 0 <= k < |ids| ==> ids[k] in lists
    ensures UpdateEach(s, lists, ids) ==
      s.(bonds := BondsEach(s.bonds, lists, ids), pbonds := PbondsEach(s.pbonds, lists, ids),
         styles := StylesEach(s.styles, lists, ids))
    decreases |ids|
  {
    if |ids| > 0 {
      var cs := ids[0];
      UpdateEachParts(UpdateFrame(s, lists[cs], [cs]), lists, ids[1..]);
    }
  }

  /** The ids after the first are still distinct and still listed. */
  lemma TailIds(lists: map<int, seq<Assignment>>, ids: seq<int>)
    requires |ids| > 0 && forall k :: 0 <= k < |ids| ==> ids[k] in lists
    requires forall k, l :: 0 <= k < l < |ids| ==> ids[k] != ids[l]
    ensures forall k :: 0 <= k < |ids[1..]| ==> ids[1..][k] in lists
    ensures forall k, l :: 0 <= k < l < |ids[1..]| ==> ids[1..][k] != ids[1..][l]
  {
    assert forall k :: 0 <= k < |ids[1..]| ==> ids[1..][k] == ids[k + 1];
  }

  lemma {:induction false} PbondsEachSpec(t: PbTable, lists: map<int, seq<Assignment>>, ids: seq<int>)
    requires forall k :: 0 <= k < |ids| ==> ids[k] in lists
    requires ListsDistinct(lists)
    requires forall k, l :: 0 <= k < l < |ids| ==> ids[k] != ids[l]
    ensures Placed(t, PbondsEach(t, lists, ids), PlanEach(lists, ids))
    decreases |ids|
  {
    if |ids| == 0 {
      assert PlanEach(lists, ids) == map[];
      forall k: PbKey
        ensures !Claimed(map[], k)
      {
      }
    } else {
      var cs := ids[0];
      assert cs in lists;
      var t1 := PlaceAll(t, Grouped(lists[cs], AllClasses), [cs]);
      PlaceFrame(t, lists[cs], [cs]);
      TailIds(lists, ids);
      PbondsEachSpec(t1, lists, ids[1..]);
      PlanEachCons(lists, ids);
      PlacedCompose(t, t1, PbondsEach(t1, lists, ids[1..]), PlanOver([cs], lists[cs]), PlanEach(lists, ids[1..]));
    }
  }

  lemma {:induction false} BondsEachSpec(bonds: seq<Pair>, lists: map<int, seq<Assignment>>, ids: seq<int>)
    requires forall k :: 0 <= k < |ids| ==> ids[k] in lists
    requires ListsDistinct(lists)
    requires forall k, l :: 0 <= k < l < |ids| ==> ids[k] != ids[l]
    ensures BondsCleared(bonds, BondsEach(bonds, lists, ids), PlanEach(lists, ids))
    decreases |ids|
  {
    if |ids| == 0 {
      assert PlanEach(lists, ids) == map[];
      forall q
        ensures !JoinsPlanned(q, map[])
      {
      }
    } else {
      var cs := ids[0];
      assert cs in lists;
      var b1 := DeleteAll(bonds, Grouped(lists[cs], AllClasses));
      ClearFrame(bonds, lists[cs], [cs]);
      TailIds(lists, ids);
      BondsEachSpec(b1, lists, ids[1..]);
      PlanEachCons(lists, ids);
      BondsClearedCompose(bonds, b1, BondsEach(b1, lists, ids[1..]), PlanOver([cs], lists[cs]),
                          PlanEach(lists, ids[1..]));
    }
  }

  lemma {:induction false} StylesEachSpec(styles: map<BondClass, Style>, lists: map<int, seq<Assignment>>,
                                          ids: seq<int>)
    requires forall k :: 0 <= k < |ids| ==> ids[k] in lists
    requires forall k, l :: 0 <= k < l < |ids| ==> ids[k] != ids[l]
    ensures StylesAfter(styles, StylesEach(styles, lists, ids), PlanEach(lists, ids))
    decreases |ids|
  {
    if |ids| == 0 {
      assert PlanEach(lists, ids) == map[];
      forall c
        ensures !UsedIn(map[], c)
      {
      }
    } else {
      var cs := ids[0];
      assert cs in lists;
      var s1 := Restyle(styles, lists[cs], AllClasses);
      RestyleSpec(styles, lists[cs], [cs]);
      TailIds(lists, ids);
      StylesEachSpec(s1, lists, ids[1..]);
      PlanEachCons(lists, ids);
      StylesAfterCompose(styles, s1, StylesEach(s1, lists, ids[1..]), PlanOver([cs], lists[cs]),
                         PlanEach(lists, ids[1..]));
    }
  }

  /** With distinct ids, the passes one id after another carry out the plan of all of them. */
  lemma UpdateEachSpec(s: Structure, lists: map<int, seq<Assignment>>, ids: seq<int>)
    requires forall k :: 0 <= k < |ids| ==> ids[k] in lists
    requires ListsDistinct(lists)
    requires forall k, l :: 0 <= k < l < |ids| ==> ids[k] != ids[l]
    ensures Updated(s, UpdateEach(s, lists, ids), PlanEach(lists, ids))
  {
    UpdateEachParts(s, lists, ids);
    PbondsEachSpec(s.pbonds, lists, ids);
    BondsEachSpec(s.bonds, lists, ids);
    StylesEachSpec(s.styles, lists, ids);
  }

  /** The plan the command carries out on one structure: with no `coordinateSet` the active set's lists at
      every id; with an id, that set's lists at every id; with "all", each set's own lists at its id. */
  function GuessPlan(s: Structure, sel: seq<nat>, cache: map<string, Cutoff>, t: Tables, opts: Settings): Plan
    requires Valid(s) && SelectionOk(|s.elements|, sel) && CacheCovers(Selected(s.elements, sel), t, cache)
    requires opts.selector.SetId? ==> opts.selector.id in s.ids
  {
    match opts.selector
    case ActiveSet => PlanOver(s.ids, ClassifyAt(s, sel, cache, t, opts, s.active))
    case SetId(k) => PlanOver(s.ids, ClassifyAt(s, sel, cache, t, opts, k))
    case EverySet => PlanEach(ListsOf(s, sel, cache, t, opts), s.ids)
  }

  /** The pass over one structure once its cutoff cache is built. */
  function GuessWith(s: Structure, sel: seq<nat>, cache: map<string, Cutoff>, t: Tables, opts: Settings): Structure
    requires Valid(s) && SelectionOk(|s.elements|, sel) && CacheCovers(Selected(s.elements, sel), t, cache)
    requires opts.selector.SetId? ==> opts.selector.id in s.ids
  {
    match opts.selector
    case ActiveSet => UpdateFrame(s, ClassifyAt(s, sel, cache, t, opts, s.active), s.ids)
    case SetId(k) => UpdateFrame(s, ClassifyAt(s, sel, cache, t, opts, k), s.ids)
    case EverySet => UpdateEach(s, ListsOf(s, sel, cache, t, opts), s.ids)
  }

  /** The body of the loop over `selection.by_structure` for one structure and its selected atoms: an id
      that is not a coordinate set is refused, then the cutoff cache is built, then the pass runs. */
  function GuessStructure(s: Structure, sel: seq<nat>, t: Tables, opts: Settings): Result<Structure, GuessError>
    requires Valid(s) && SelectionOk(|s.elements|, sel)
  {
    var els := Selected(s.elements, sel);
    if opts.selector.SetId? && opts.selector.id !in s.ids then Failure(InvalidCoordset(opts.selector.id))
    else
      match CutoffCache(els, t, opts.tol, opts.tsTol)
      case Failure(e) => Failure(RadiusMissing(e.element))
      case Success(cache) =>
        CutoffCacheCovers(els, t, opts.tol, opts.tsTol);
        Success(GuessWith(s, sel, cache, t, opts))
  }

  /** The errors: an id that is not a coordinate set is refused before anything is touched; a missing
      radius is one of a selected atom's element and fails while building the cache, before anything is
      touched; with every radius present and a valid id the command succeeds. */
  lemma GuessStructureOutcome(s: Structure, sel: seq<nat>, t: Tables, opts: Settings)
    requires Valid(s) && SelectionOk(|s.elements|, sel)
    ensures var r := GuessStructure(s, sel, t, opts);
      && (opts.selector.SetId? && opts.selector.id !in s.ids ==> r == Failure(InvalidCoordset(opts.selector.id)))
      && (r.Failure? && r.error.RadiusMissing? ==>
            r.error.element in Selected(s.elements, sel) && r.error.element !in t.radii)
      && (((forall k :: 0 <= k < |sel| ==> s.elements[sel[k]] in t.radii)
           && (opts.selector.SetId? ==> opts.selector.id in s.ids)) ==> r.Success?)
      && (r.Success? ==> CutoffCache(Selected(s.elements, sel), t, opts.tol, opts.tsTol).Success?)
  {
    CutoffCacheErrors(Selected(s.elements, sel), t, opts.tol, opts.tsTol);
  }

  /** A structure the command succeeds on carries out the plan its selector asks for, and stays valid. */
  lemma GuessStructureUpdates(s: Structure, sel: seq<nat>, t: Tables, opts: Settings)
    requires Valid(s) && SelectionOk(|s.elements|, sel)
    requires GuessStructure(s, sel, t, opts).Success?
    ensures
      var els := Selected(s.elements, sel);
      var cache := CutoffCache(els, t, opts.tol, opts.tsTol).value;
      && CacheCovers(els, t, cache)
      && (opts.selector.SetId? ==> opts.selector.id in s.ids)
      && Valid(GuessStructure(s, sel, t, opts).value)
      && Updated(s, GuessStructure(s, sel, t, opts).value, GuessPlan(s, sel, cache, t, opts))
  {
    var els := Selected(s.elements, sel);
    CutoffCacheCovers(els, t, opts.tol, opts.tsTol);
    var cache := CutoffCache(els, t, opts.tol, opts.tsTol).value;
    GuessWithUpdates(s, sel, cache, t, opts);
  }

  /** The pass carries out the plan of its selector. */
  lemma GuessWithUpdates(s: Structure, sel: seq<nat>, cache: map<string, Cutoff>, t: Tables, opts: Settings)
    requires Valid(s) && SelectionOk(|s.elements|, sel) && CacheCovers(Selected(s.elements, sel), t, cache)
    requires opts.selector.SetId? ==> opts.selector.id in s.ids
    ensures Updated(s, GuessWith(s, sel, cache, t, opts), GuessPlan(s, sel, cache, t, opts))
  {
    match opts.selector
    case ActiveSet =>
      var xs := ClassifyAt(s, sel, cache, t, opts, s.active);
      UpdateFrameSpec(s, xs, s.ids);
    case SetId(k) =>
      var xs := ClassifyAt(s, sel, cache, t, opts, k);
      UpdateFrameSpec(s, xs, s.ids);
    case EverySet =>
      var lists := ListsOf(s, sel, cache, t, opts);
      assert forall k, l :: 0 <= k < l < |s.ids| ==> s.ids[k] != s.ids[l];
      UpdateEachSpec(s, lists, s.ids);
  }

  /** One structure of the selection with the indices of its selected atoms. */
  datatype Job = Job(s: Structure, sel: seq<nat>)

  predicate JobOk(j: Job) {
    Valid(j.s) && SelectionOk(|j.s.elements|, j.sel)
  }

  /** One structure's part of the command. */
  function Attempt(j: Job, t: Tables, opts: Settings): Result<Structure, GuessError>
    requires JobOk(j)
  {
    GuessStructure(j.s, j.sel, t, opts)
  }

  /** The structures after the command, and the error that stopped it, if any. */
  datatype Run = Run(structures: seq<Structure>, error: Option<GuessError>)

  /** Each structure's own outcome, as if it were attempted. */
  function Attempts(jobs: seq<Job>, t: Tables, opts: Settings): (r: seq<Result<Structure, GuessError>>)
    requires forall j :: j in jobs ==> JobOk(j)
    ensures |r| == |jobs| && forall m :: 0 <= m < |jobs| ==> r[m] == Attempt(jobs[m], t, opts)
  {
    seq(|jobs|, m requires 0 <= m < |jobs| => Attempt(jobs[m], t, opts))
  }

  /** Every outcome before position `n` is a success. */
  predicate OkBefore(rs: seq<Result<Structure, GuessError>>, n: nat) {
    forall m :: 0 <= m < n && m < |rs| ==> rs[m].Success?
  }

  /** The structures of the jobs as they were. */
  function Untouched(jobs: seq<Job>): (r: seq<Structure>)
    ensures |r| == |jobs| && forall m :: 0 <= m < |jobs| ==> r[m] == jobs[m].s
  {
    if |jobs| == 0 then [] else [jobs[0].s] + Untouched(jobs[1..])
  }

  /** Position of the first failure at or after `k`, or the number of outcomes. */
  function FirstFailure(rs: seq<Result<Structure, GuessError>>, k: nat): (u: nat)
    requires k <= |rs| && OkBefore(rs, k)
    ensures k <= u <= |rs| && OkBefore(rs, u)
    ensures u < |rs| ==> rs[u].Failure?
    decreases |rs| - k
  {
    if k == |rs| || rs[k].Failure? then k else FirstFailure(rs, k + 1)
  }

  /** Running through outcomes `rs` of structures `ss` in order: the first failure stops the run, the
      structures before it take their results and the rest stay as they were. */
  function RunAll(ss: seq<Structure>, rs: seq<Result<Structure, GuessError>>): (r: Run)
    requires |ss| == |rs|
    ensures |r.structures| == |ss|
    ensures forall m :: 0 <= m < |ss| ==> r.structures[m] == if OkBefore(rs, m + 1) then rs[m].value else ss[m]
    ensures r.error.None? <==> OkBefore(rs, |rs|)
    ensures r.error.Some? ==> exists m :: 0 <= m < |rs| && OkBefore(rs, m) && rs[m] == Failure(r.error.value)
  {
    var u := FirstFailure(rs, 0);
    var done := seq(|ss|, m requires 0 <= m < |ss| => if m < u then rs[m].value else ss[m]);
    assert forall m :: 0 <= m < |ss| ==> done[m] == if OkBefore(rs, m + 1) then rs[m].value else ss[m];
    if u == |rs| then Run(done, None) else Run(done, Some(rs[u].error))
  }

  /** `guessBondOrders`: the structures are processed in order; the first error stops the command, the
      structures before it keep their changes and the rest are untouched. */
  function GuessAll(jobs: seq<Job>, t: Tables, opts: Settings): (r: Run)
    requires forall j :: j in jobs ==> JobOk(j)
    ensures |r.structures| == |jobs|
    ensures forall m :: 0 <= m < |jobs| ==>
      r.structures[m] == if OkBefore(Attempts(jobs, t, opts), m + 1) then Attempt(jobs[m], t, opts).value else jobs[m].s
    ensures r.error.None? <==> OkBefore(Attempts(jobs, t, opts), |jobs|)
    ensures r.error.Some? ==>
      exists m :: 0 <= m < |jobs| && OkBefore(Attempts(jobs, t, opts), m) && Attempt(jobs[m], t, opts) == Failure(r.error.value)
  {
    RunAll(Untouched(jobs), Attempts(jobs, t, opts))
  }
}
