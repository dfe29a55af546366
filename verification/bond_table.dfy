/** The structure value that replaces the host's object graph: element symbols
    in atom order, coordinate sets, real bonds and the per-class,
    per-coordinate-set pseudobond table, with the edits the classifier and the
    mouse modes make to it. */
module BondTable {
  import opened Geometry
  import opened BondClasses

  /** Two atoms of one structure, by atom index. */
  datatype Pair = Pair(a: nat, b: nat)

  /** The pair a new bond or pseudobond between `a` and `b` is recorded under (smaller index first). */
  function PairOf(a: nat, b: nat): Pair {
    if a <= b then Pair(a, b) else Pair(b, a)
  }

  /** `a in bond.atoms and b in bond.atoms`. */
  predicate Joins(p: Pair, a: nat, b: nat) {
    (p.a == a || p.b == a) && (p.a == b || p.b == b)
  }

  lemma PairOfJoins(a: nat, b: nat, p: Pair)
    ensures Joins(PairOf(a, b), a, b) && Joins(PairOf(a, b), b, a)
    ensures forall c: nat, d: nat :: a != b && c != d && Joins(p, a, b) && Joins(p, c, d) ==>
      (c == a && d == b) || (c == b && d == a)
  {
  }

  /** A pseudobond of class `cls` joining `pair`, living in coordinate set `cs` (groups are created
      per coordinate set). */
  datatype PbKey = PbKey(pair: Pair, cs: int, cls: BondClass)

  /** The pseudobonds of the six class groups; a group holding none of them is not told apart from a
      missing group. */
  type PbTable = set<PbKey>

  datatype Structure = Structure(
    name: string,
    /** element symbol of each atom, in atom order */
    elements: seq<string>,
    /** `coordset_ids`, ascending */
    ids: seq<int>,
    /** `frames[k]` holds the positions of coordinate set `ids[k]` */
    frames: seq<Frame>,
    active: int,
    /** real bonds in `structure.bonds` order */
    bonds: seq<Pair>,
    pbonds: PbTable,
    /** colour and dashes of the class groups whose style has been set */
    styles: map<BondClass, Style>)

  predicate Ascending(ids: seq<int>) {
    forall k, l :: 0 <= k < l < |ids| ==> ids[k] < ids[l]
  }

  /** What the host guarantees of every structure: one frame per id, ids ascending, at least one
      coordinate set, the active one among them, and every frame with one position per atom. */
  predicate Valid(s: Structure) {
    && |s.ids| == |s.frames| && 0 < |s.ids|
    && Ascending(s.ids)
    && s.active in s.ids
    && (forall k :: 0 <= k < |s.frames| ==> |s.frames[k]| == |s.elements|)
  }

  function IndexOf(ids: seq<int>, id: int): (k: nat)
    requires id in ids
    ensures k < |ids| && ids[k] == id
    ensures forall l :: 0 <= l < k ==> ids[l] != id
  {
    if ids[0] == id then 0 else 1 + IndexOf(ids[1..], id)
  }

  /** `structure.coordset(id).xyzs`. */
  function FrameOf(s: Structure, id: int): (f: Frame)
    requires Valid(s) && id in s.ids
    ensures |f| == |s.elements|
  {
    s.frames[IndexOf(s.ids, id)]
  }

  /** `coordset_ids[-1]`. */
  function LastId(s: Structure): int
    requires Valid(s)
  {
    s.ids[|s.ids| - 1]
  }

  /** No bond before position `k` joins a and b. */
  predicate FirstJoining(bonds: seq<Pair>, a: nat, b: nat, k: nat)
    requires k <= |bonds|
  {
    forall l :: 0 <= l < k ==> !Joins(bonds[l], a, b)
  }

  /** `for bond in bonds: if a in bond.atoms and b in bond.atoms: bond.delete(); break`. */
  function DeleteFirstJoining(bonds: seq<Pair>, a: nat, b: nat): seq<Pair> {
    if |bonds| == 0 then []
    else if Joins(bonds[0], a, b) then bonds[1..]
    else [bonds[0]] + DeleteFirstJoining(bonds[1..], a, b)
  }

  lemma FirstJoiningTail(bonds: seq<Pair>, a: nat, b: nat, k: nat)
    requires 0 < k <= |bonds| && FirstJoining(bonds, a, b, k)
    ensures !Joins(bonds[0], a, b) && FirstJoining(bonds[1..], a, b, k - 1)
  {
    forall l | 0 <= l < k - 1
      ensures !Joins(bonds[1..][l], a, b)
    {
      assert bonds[1..][l] == bonds[l + 1];
    }
  }

  lemma {:induction false} DeleteFirstJoiningNone(bonds: seq<Pair>, a: nat, b: nat)
    requires FirstJoining(bonds, a, b, |bonds|)
    ensures DeleteFirstJoining(bonds, a, b) == bonds
    decreases |bonds|
  {
    if |bonds| > 0 {
      FirstJoiningTail(bonds, a, b, |bonds|);
      DeleteFirstJoiningNone(bonds[1..], a, b);
      assert [bonds[0]] + bonds[1..] == bonds;
    }
  }

  lemma {:induction false} DeleteFirstJoiningAt(bonds: seq<Pair>, a: nat, b: nat, k: nat)
    requires k < |bonds| && Joins(bonds[k], a, b) && FirstJoining(bonds, a, b, k)
    ensures DeleteFirstJoining(bonds, a, b) == bonds[..k] + bonds[k + 1..]
    decreases k
  {
    if k == 0 {
      assert bonds[..0] + bonds[1..] == bonds[1..];
    } else {
      var tail := bonds[1..];
      FirstJoiningTail(bonds, a, b, k);
      assert tail[k - 1] == bonds[k];
      DeleteFirstJoiningAt(tail, a, b, k - 1);
      assert tail[..k - 1] + tail[k..] == bonds[1..k] + bonds[k + 1..];
      assert [bonds[0]] + bonds[1..k] == bonds[..k];
    }
  }

  /** Without a bond joining a and b nothing changes; otherwise exactly the first joining bond goes. */
  lemma DeleteFirstJoiningSpec(bonds: seq<Pair>, a: nat, b: nat)
    ensures FirstJoining(bonds, a, b, |bonds|) ==> DeleteFirstJoining(bonds, a, b) == bonds
    ensures forall k :: 0 <= k < |bonds| && Joins(bonds[k], a, b) && FirstJoining(bonds, a, b, k) ==>
      DeleteFirstJoining(bonds, a, b) == bonds[..k] + bonds[k + 1..]
  {
    if FirstJoining(bonds, a, b, |bonds|) {
      DeleteFirstJoiningNone(bonds, a, b);
    }
    forall k | 0 <= k < |bonds| && Joins(bonds[k], a, b) && FirstJoining(bonds, a, b, k)
      ensures DeleteFirstJoining(bonds, a, b) == bonds[..k] + bonds[k + 1..]
    {
      DeleteFirstJoiningAt(bonds, a, b, k);
    }
  }

  lemma {:induction false} DeleteFirstJoiningSub(bonds: seq<Pair>, a: nat, b: nat)
    ensures multiset(DeleteFirstJoining(bonds, a, b)) <= multiset(bonds)
    decreases |bonds|
  {
    if |bonds| > 0 {
      DeleteFirstJoiningSub(bonds[1..], a, b);
      assert bonds == [bonds[0]] + bonds[1..];
    }
  }

  lemma {:induction false} DeleteFirstJoiningOthers(bonds: seq<Pair>, a: nat, b: nat)
    ensures forall q :: q in bonds && !Joins(q, a, b) ==> q in DeleteFirstJoining(bonds, a, b)
    decreases |bonds|
  {
    if |bonds| > 0 {
      DeleteFirstJoiningOthers(bonds[1..], a, b);
      assert forall q :: q in bonds && q != bonds[0] ==> q in bonds[1..];
    }
  }

  lemma {:induction false} DeleteFirstJoiningLength(bonds: seq<Pair>, a: nat, b: nat)
    ensures |DeleteFirstJoining(bonds, a, b)| == if FirstJoining(bonds, a, b, |bonds|) then |bonds| else |bonds| - 1
    decreases |bonds|
  {
    if |bonds| > 0 {
      DeleteFirstJoiningLength(bonds[1..], a, b);
      if !Joins(bonds[0], a, b) {
        if FirstJoining(bonds, a, b, |bonds|) {
          FirstJoiningTail(bonds, a, b, |bonds|);
        } else {
          assert !FirstJoining(bonds[1..], a, b, |bonds| - 1) by {
            var l :| 0 <= l < |bonds| && Joins(bonds[l], a, b);
            assert bonds[1..][l - 1] == bonds[l];
          }
        }
      }
    }
  }

  /** Deleting keeps every bond that does not join the pair, and removes at most one bond. */
  lemma DeleteFirstJoiningKeeps(bonds: seq<Pair>, a: nat, b: nat)
    ensures multiset(DeleteFirstJoining(bonds, a, b)) <= multiset(bonds)
    ensures forall q :: q in bonds && !Joins(q, a, b) ==> q in DeleteFirstJoining(bonds, a, b)
    ensures |DeleteFirstJoining(bonds, a, b)| == if FirstJoining(bonds, a, b, |bonds|) then |bonds| else |bonds| - 1
  {
    DeleteFirstJoiningSub(bonds, a, b);
    DeleteFirstJoiningOthers(bonds, a, b);
    DeleteFirstJoiningLength(bonds, a, b);
  }

  /** `pbg.new_pseudobond(a, b, cs_id=cs)` in group `c`, at every cs of `frames` in turn. */
  function AddOver(t: PbTable, a: nat, b: nat, frames: seq<int>, c: BondClass): PbTable
    decreases |frames|
  {
    if |frames| == 0 then t
    else AddOver(t + {PbKey(PairOf(a, b), frames[0], c)}, a, b, frames[1..], c)
  }

  /** `for pb in group(c).get_pseudobonds(cs): if a in pb.atoms and b in pb.atoms: pb.delete()`. */
  function RemoveJoining(t: PbTable, a: nat, b: nat, cs: int, c: BondClass): PbTable {
    set k | k in t && !(k.cs == cs && k.cls == c && Joins(k.pair, a, b))
  }

  /** Removal from group `c` at every cs of `frames` in turn. */
  function RemoveOver(t: PbTable, a: nat, b: nat, frames: seq<int>, c: BondClass): PbTable {
    if |frames| == 0 then t
    else RemoveOver(RemoveJoining(t, a, b, frames[0], c), a, b, frames[1..], c)
  }

  /** Removal at `cs` from every group of `kinds` other than `c`. */
  function RemoveOthersAt(t: PbTable, a: nat, b: nat, cs: int, c: BondClass, kinds: seq<BondClass>): PbTable {
    if |kinds| == 0 then t
    else if kinds[0] == c then RemoveOthersAt(t, a, b, cs, c, kinds[1..])
    else RemoveOthersAt(RemoveJoining(t, a, b, cs, kinds[0]), a, b, cs, c, kinds[1..])
  }

  /** The table once the pair (a, b) is moved to class `c` at every coordinate set of `frames`: every
      pseudobond joining the pair there in another class is gone, one in class `c` is present when `draw`
      holds, and every other pseudobond is as before. */
  function MovedTo(t: PbTable, a: nat, b: nat, c: BondClass, frames: set<int>, draw: bool): PbTable {
    (set k | k in t && !(k.cs in frames && Joins(k.pair, a, b) && k.cls != c))
    + (if draw then set cs | cs in frames :: PbKey(PairOf(a, b), cs, c) else {})
  }

  /** Reading of `MovedTo` key by key. */
  lemma MovedToSpec(t: PbTable, a: nat, b: nat, c: BondClass, frames: set<int>, draw: bool)
    ensures forall cs :: cs in frames && draw ==> PbKey(PairOf(a, b), cs, c) in MovedTo(t, a, b, c, frames, draw)
    ensures forall k :: k in MovedTo(t, a, b, c, frames, draw) && k.cs in frames && Joins(k.pair, a, b) ==> k.cls == c
    ensures forall k: PbKey :: !(k.cs in frames && Joins(k.pair, a, b)) ==> (k in MovedTo(t, a, b, c, frames, draw) <==> k in t)
    ensures !draw ==> MovedTo(t, a, b, c, frames, draw) <= t
  {
    PairOfJoins(a, b, Pair(a, b));
  }

  lemma {:induction false} AddOverIs(t: PbTable, a: nat, b: nat, frames: seq<int>, c: BondClass)
    ensures AddOver(t, a, b, frames, c) == t + set cs | cs in frames :: PbKey(PairOf(a, b), cs, c)
    decreases |frames|
  {
    if |frames| > 0 {
      AddOverIs(t + {PbKey(PairOf(a, b), frames[0], c)}, a, b, frames[1..], c);
      assert forall cs :: cs in frames <==> cs == frames[0] || cs in frames[1..];
    }
  }

  lemma {:induction false} RemoveOverIs(t: PbTable, a: nat, b: nat, frames: seq<int>, c: BondClass)
    ensures RemoveOver(t, a, b, frames, c) == set k | k in t && !(k.cs in frames && k.cls == c && Joins(k.pair, a, b))
    decreases |frames|
  {
    if |frames| > 0 {
      RemoveOverIs(RemoveJoining(t, a, b, frames[0], c), a, b, frames[1..], c);
      assert forall cs :: cs in frames <==> cs == frames[0] || cs in frames[1..];
    }
  }

  lemma {:induction false} RemoveOthersAtIs(t: PbTable, a: nat, b: nat, cs: int, c: BondClass, kinds: seq<BondClass>)
    ensures RemoveOthersAt(t, a, b, cs, c, kinds) ==
      set k | k in t && !(k.cs == cs && k.cls in kinds && k.cls != c && Joins(k.pair, a, b))
    decreases |kinds|
  {
    if |kinds| > 0 {
      if kinds[0] == c {
        RemoveOthersAtIs(t, a, b, cs, c, kinds[1..]);
      } else {
        RemoveOthersAtIs(RemoveJoining(t, a, b, cs, kinds[0]), a, b, cs, c, kinds[1..]);
      }
      assert forall k: BondClass :: k in kinds <==> k == kinds[0] || k in kinds[1..];
    }
  }
}
