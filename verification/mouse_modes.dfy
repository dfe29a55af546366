/** The bond-order mouse modes: `draw_new_pbond`, which moves one atom pair
    into the mode's class group from the active coordinate set to the last,
    and `mouse_up`, the decision procedure over what the click picked. */
module MouseModes {
  import opened Outcomes
  import opened BondClasses
  import opened BondTable

  /** `range(lo, hi + 1)`. */
  function IdRange(lo: int, hi: int): seq<int>
    decreases hi - lo
  {
    if lo > hi then [] else [lo] + IdRange(lo + 1, hi)
  }

  lemma {:induction false} IdRangeMembers(lo: int, hi: int)
    ensures forall cs :: cs in IdRange(lo, hi) <==> lo <= cs <= hi
    decreases hi - lo
  {
    if lo <= hi {
      IdRangeMembers(lo + 1, hi);
    }
  }

  /** Coordinate sets a mode edits: the active one through the last id. */
  function ModeFrames(s: Structure): set<int>
    requires Valid(s)
  {
    set cs | cs in IdRange(s.active, LastId(s))
  }

  /** `for kind in bo_names: if kind == name: continue; for cs_id in range(...): <delete pseudobonds
      of kind joining a and b>`. */
  function RemoveKindsOver(t: PbTable, a: nat, b: nat, frames: seq<int>, c: BondClass, kinds: seq<BondClass>)
    : PbTable
    decreases |kinds|
  {
    if |kinds| == 0 then t
    else if kinds[0] == c then RemoveKindsOver(t, a, b, frames, c, kinds[1..])
    else RemoveKindsOver(RemoveOver(t, a, b, frames, kinds[0]), a, b, frames, c, kinds[1..])
  }

  lemma {:induction false} RemoveKindsOverIs(t: PbTable, a: nat, b: nat, frames: seq<int>, c: BondClass,
                                             kinds: seq<BondClass>)
    ensures RemoveKindsOver(t, a, b, frames, c, kinds) ==
      set k | k in t && !(k.cs in frames && k.cls in kinds && k.cls != c && Joins(k.pair, a, b))
    decreases |kinds|
  {
    if |kinds| > 0 {
      if kinds[0] == c {
        RemoveKindsOverIs(t, a, b, frames, c, kinds[1..]);
      } else {
        RemoveOverIs(t, a, b, frames, kinds[0]);
        RemoveKindsOverIs(RemoveOver(t, a, b, frames, kinds[0]), a, b, frames, c, kinds[1..]);
      }
      assert forall k: BondClass :: k in kinds <==> k == kinds[0] || k in kinds[1..];
    }
  }

  /** `r` is `s` with the pair (a, b) redrawn in class `c`: from the active coordinate set through the
      last id the pair has a pseudobond in group `c` (unless `c` is "broken") and none in any other class
      group, while pseudobonds of other pairs and of earlier coordinate sets are untouched. */
  ghost predicate Redrawn(s: Structure, r: Structure, a: nat, b: nat, c: BondClass)
    requires Valid(s)
  {
    && (DrawsNew(c) ==> forall cs :: s.active <= cs <= LastId(s) ==> PbKey(PairOf(a, b), cs, c) in r.pbonds)
    && (forall k :: k in r.pbonds && s.active <= k.cs <= LastId(s) && Joins(k.pair, a, b) ==> k.cls == c)
    && (forall k: PbKey :: !(s.active <= k.cs <= LastId(s) && Joins(k.pair, a, b)) ==>
          (k in r.pbonds <==> k in s.pbonds))
    && (!DrawsNew(c) ==> r.pbonds <= s.pbonds)
    && r.bonds == s.bonds
  }

  /** `draw_new_pbond(a1, a2)` of the mode for class `c`: the pair is redrawn in class `c`, and the group
      `c` gets the mode's colour and dashes when the mode draws. */
  function DrawNewPbond(s: Structure, a1: nat, a2: nat, c: BondClass): (r: Structure)
    requires Valid(s)
    ensures Redrawn(s, r, a1, a2, c)
    ensures r.styles == if DrawsNew(c) then s.styles[c := ModeStyle(c)] else s.styles
    ensures r == s.(pbonds := r.pbonds, styles := r.styles)
  {
    var range := IdRange(s.active, LastId(s));
    var added := if DrawsNew(c) then AddOver(s.pbonds, a1, a2, range, c) else s.pbonds;
    var styles := if DrawsNew(c) then s.styles[c := ModeStyle(c)] else s.styles;
    var r := s.(pbonds := RemoveKindsOver(added, a1, a2, range, c, AllClasses), styles := styles);
    DrawNewPbondMoves(s, a1, a2, c);
    IdRangeMembers(s.active, LastId(s));
    MovedToSpec(s.pbonds, a1, a2, c, ModeFrames(s), DrawsNew(c));
    r
  }

  /** Removing the pair from every class but `c` over `frames`. */
  lemma RemoveOtherKindsIs(t: PbTable, a: nat, b: nat, frames: seq<int>, c: BondClass)
    ensures RemoveKindsOver(t, a, b, frames, c, AllClasses) ==
      set k | k in t && !(k.cs in frames && k.cls != c && Joins(k.pair, a, b))
  {
    RemoveKindsOverIs(t, a, b, frames, c, AllClasses);
    AllClassesListed();
  }

  /** Adding the pair in class `c` over `range` (when `draw`) and then removing it from every other class
      there moves it to class `c` over the frames `range` lists. */
  lemma AddThenRemoveMoves(t: PbTable, a: nat, b: nat, range: seq<int>, frames: set<int>, c: BondClass, draw: bool)
    requires forall cs :: cs in range <==> cs in frames
    ensures var added := if draw then AddOver(t, a, b, range, c) else t;
      RemoveKindsOver(added, a, b, range, c, AllClasses) == MovedTo(t, a, b, c, frames, draw)
  {
    var drawn := if draw then set cs | cs in frames :: PbKey(PairOf(a, b), cs, c) else {};
    AddOverIs(t, a, b, range, c);
    assert (if draw then AddOver(t, a, b, range, c) else t) == t + drawn;
    RemoveOtherKindsIs(t + drawn, a, b, range, c);
  }

  /** The table `draw_new_pbond` leaves is the pair moved to class `c` over the mode's frames. */
  lemma DrawNewPbondMoves(s: Structure, a1: nat, a2: nat, c: BondClass)
    requires Valid(s)
    ensures
      var range := IdRange(s.active, LastId(s));
      var added := if DrawsNew(c) then AddOver(s.pbonds, a1, a2, range, c) else s.pbonds;
      RemoveKindsOver(added, a1, a2, range, c, AllClasses) == MovedTo(s.pbonds, a1, a2, c, ModeFrames(s), DrawsNew(c))
  {
    IdRangeMembers(s.active, LastId(s));
    AddThenRemoveMoves(s.pbonds, a1, a2, IdRange(s.active, LastId(s)), ModeFrames(s), c, DrawsNew(c));
  }

  /** An atom of one of the open structures. */
  datatype AtomRef = AtomRef(model: nat, atom: nat)

  /** What `view.picked_object(x, y)` returned. A pseudobond of one of the six class groups is a key of
      the table; one of any other group (missing structure, hydrogen bonds, ...) is known only by the
      two atoms it joins. */
  datatype Pick =
    | PickedPseudobond(model: nat, pb: PbKey)
    | PickedOtherPseudobond(model: nat, a: nat, b: nat)
    | PickedBond(model: nat, bond: nat)
    | PickedAtom(ref: AtomRef)
    | PickedNothing

  predicate ValidRef(models: seq<Structure>, r: AtomRef) {
    r.model < |models| && r.atom < |models[r.model].elements|
  }

  /** Host guarantees about a pick: it names an existing pseudobond, real bond or atom. */
  predicate ValidPick(models: seq<Structure>, p: Pick) {
    match p
    case PickedPseudobond(m, pb) => m < |models| && pb in models[m].pbonds
    case PickedOtherPseudobond(m, a, b) => m < |models| && a < |models[m].elements| && b < |models[m].elements|
    case PickedBond(m, k) => m < |models| && k < |models[m].bonds|
    case PickedAtom(r) => ValidRef(models, r)
    case PickedNothing => true
  }

  /** The structure a pick can change. */
  function PickedModel(pick: Pick): int {
    match pick
    case PickedPseudobond(m, _) => m
    case PickedOtherPseudobond(m, _, _) => m
    case PickedBond(m, _) => m
    case PickedAtom(ref) => ref.model
    case PickedNothing => -1
  }

  /** A picked real bond: its pair is redrawn, then the bond itself is deleted. */
  function RedrawBond(s: Structure, k: nat, c: BondClass): (r: Structure)
    requires Valid(s) && k < |s.bonds|
    ensures Valid(r)
    ensures Redrawn(s, r.(bonds := s.bonds), s.bonds[k].a, s.bonds[k].b, c)
    ensures r.bonds == s.bonds[..k] + s.bonds[k + 1..]
  {
    var d := DrawNewPbond(s, s.bonds[k].a, s.bonds[k].b, c);
    d.(bonds := d.bonds[..k] + d.bonds[k + 1..])
  }

  /** A second atom picked: the pair is redrawn, then the first real bond joining the two is deleted.
      The source scans the first atom's own bond list rather than the structure's; the two find the same
      bond because a host structure holds at most one real bond per atom pair, an assumption `Valid`
      does not state. */
  function RedrawAtoms(s: Structure, a: nat, b: nat, c: BondClass): (r: Structure)
    requires Valid(s)
    ensures Valid(r)
    ensures Redrawn(s, r.(bonds := s.bonds), a, b, c)
    ensures r.bonds == DeleteFirstJoining(s.bonds, a, b)
  {
    var d := DrawNewPbond(s, a, b, c);
    d.(bonds := DeleteFirstJoining(d.bonds, a, b))
  }

  /** The open structures, the mode's first atom afterwards, and whether `self.reset()` was called
      (the reset itself belongs to the host's draw-bond mode and is not modelled). */
  datatype MouseResult = MouseResult(models: seq<Structure>, atom1: Option<AtomRef>, reset: bool)

  /** What the host guarantees when `mouse_up` runs: valid structures, a pick naming something that
      exists, and a first atom (unless deleted) of one of the structures. */
  predicate Ready(models: seq<Structure>, atom1: Option<AtomRef>, atom1Deleted: bool, pick: Pick) {
    && (forall m :: 0 <= m < |models| ==> Valid(models[m]))
    && ValidPick(models, pick)
    && (atom1.Some? && !atom1Deleted ==> ValidRef(models, atom1.value))
  }

  /** The structures with structure `m` replaced by `s`. */
  function Replace(models: seq<Structure>, m: nat, s: Structure): (r: seq<Structure>)
    requires m < |models| && Valid(s) && forall q :: 0 <= q < |models| ==> Valid(models[q])
    ensures |r| == |models| && r[m] == s
    ensures forall q :: 0 <= q < |models| ==> Valid(r[q])
    ensures forall q :: 0 <= q < |models| && q != m ==> r[q] == models[q]
  {
    models[m := s]
  }

  /** The structures with the pair (a, b) of structure `m` redrawn in class `c` by `draw_new_pbond`. */
  function RedrawIn(models: seq<Structure>, m: nat, a: nat, b: nat, c: BondClass): (r: seq<Structure>)
    requires m < |models| && forall q :: 0 <= q < |models| ==> Valid(models[q])
    ensures |r| == |models| && Redrawn(models[m], r[m], a, b, c)
    ensures forall q :: 0 <= q < |models| ==> Valid(r[q])
    ensures forall q :: 0 <= q < |models| && q != m ==> r[q] == models[q]
  {
    Replace(models, m, DrawNewPbond(models[m], a, b, c))
  }

  /** `SetBondOrder.mouse_up` of the mode for class `c`, with `atom1` its `_atom1` and `atom1Deleted`
      telling whether that atom has been deleted since. Only the picked structure changes, and a deleted
      first atom counts as no first atom; what happens to the picked structure is stated case by case by
      `MouseUpPseudobond`, `MouseUpBond` and `MouseUpAtom`. */
  function MouseUp(models: seq<Structure>, c: BondClass, atom1: Option<AtomRef>, atom1Deleted: bool, pick: Pick)
    : (r: MouseResult)
    requires Ready(models, atom1, atom1Deleted, pick)
    ensures |r.models| == |models|
    ensures forall m :: 0 <= m < |models| ==> Valid(r.models[m])
    ensures forall m :: 0 <= m < |models| && m != PickedModel(pick) ==> r.models[m] == models[m]
    ensures !pick.PickedAtom? || (atom1.Some? && !atom1Deleted) ==>
      r.atom1 == (if atom1Deleted then None else atom1)
    ensures pick.PickedNothing? ==> r.models == models && !r.reset
  {
    var first := if atom1.Some? && atom1Deleted then None else atom1;
    match pick
    case PickedPseudobond(m, pb) =>
      if pb.cls == c then MouseResult(Replace(models, m, models[m].(pbonds := models[m].pbonds - {pb})), first, true)
      else MouseResult(RedrawIn(models, m, pb.pair.a, pb.pair.b, c), first, false)
    case PickedOtherPseudobond(m, a, b) => MouseResult(RedrawIn(models, m, a, b, c), first, false)
    case PickedBond(m, k) =>
      MouseResult(Replace(models, m, RedrawBond(models[m], k, c)), first, true)
    case PickedAtom(ref) =>
      if first.None? then MouseResult(models, Some(ref), false)
      else if ref.model == first.value.model && ref.atom != first.value.atom then
        MouseResult(Replace(models, ref.model, RedrawAtoms(models[ref.model], first.value.atom, ref.atom, c)), first, true)
      else MouseResult(models, first, false)
    case PickedNothing => MouseResult(models, first, false)
  }

  /** A pseudobond of the mode's own class is deleted and the mode resets; one of another class has its
      pair redrawn in the mode's class, without a reset. */
  lemma MouseUpPseudobond(models: seq<Structure>, c: BondClass, atom1: Option<AtomRef>, atom1Deleted: bool,
                          m: nat, pb: PbKey)
    requires Ready(models, atom1, atom1Deleted, PickedPseudobond(m, pb))
    ensures var r := MouseUp(models, c, atom1, atom1Deleted, PickedPseudobond(m, pb));
      && (pb.cls == c ==> r.models[m] == models[m].(pbonds := models[m].pbonds - {pb}) && r.reset)
      && (pb.cls != c ==> Redrawn(models[m], r.models[m], pb.pair.a, pb.pair.b, c) && !r.reset)
  {
  }

  /** A pseudobond of a group that is none of the six classes is never the mode's own: its pair is
      redrawn in the mode's class, the picked pseudobond itself is left alone, and there is no reset. */
  lemma MouseUpOtherPseudobond(models: seq<Structure>, c: BondClass, atom1: Option<AtomRef>, atom1Deleted: bool,
                               m: nat, a: nat, b: nat)
    requires Ready(models, atom1, atom1Deleted, PickedOtherPseudobond(m, a, b))
    ensures var r := MouseUp(models, c, atom1, atom1Deleted, PickedOtherPseudobond(m, a, b));
      Redrawn(models[m], r.models[m], a, b, c) && !r.reset
  {
  }

  /** A picked real bond has its pair redrawn in the mode's class and is itself deleted; the mode
      resets. */
  lemma MouseUpBond(models: seq<Structure>, c: BondClass, atom1: Option<AtomRef>, atom1Deleted: bool,
                    m: nat, k: nat)
    requires Ready(models, atom1, atom1Deleted, PickedBond(m, k))
    ensures var r := MouseUp(models, c, atom1, atom1Deleted, PickedBond(m, k));
      var bs := models[m].bonds;
      && Redrawn(models[m], r.models[m].(bonds := bs), bs[k].a, bs[k].b, c)
      && r.models[m].bonds == bs[..k] + bs[k + 1..]
      && r.reset
  {
  }

  /** A picked atom becomes the first atom when there is none (or it was deleted); a second, different
      atom of the first atom's structure has the pair redrawn and loses the first real bond joining the
      two, and the mode resets; an atom of another structure, or the first atom again, changes nothing. */
  lemma MouseUpAtom(models: seq<Structure>, c: BondClass, atom1: Option<AtomRef>, atom1Deleted: bool, ref: AtomRef)
    requires Ready(models, atom1, atom1Deleted, PickedAtom(ref))
    ensures var r := MouseUp(models, c, atom1, atom1Deleted, PickedAtom(ref));
      && (atom1.None? || atom1Deleted ==> r.atom1 == Some(ref) && r.models == models && !r.reset)
      && (atom1.Some? && !atom1Deleted ==>
            var a := atom1.value;
            if ref.model == a.model && ref.atom != a.atom then
              var s := models[a.model];
              && Redrawn(s, r.models[a.model].(bonds := s.bonds), a.atom, ref.atom, c)
              && r.models[a.model].bonds == DeleteFirstJoining(s.bonds, a.atom, ref.atom)
              && r.reset
            else r.models == models && !r.reset)
  {
  }
}
