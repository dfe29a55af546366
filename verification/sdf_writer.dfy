/** `save_sdf`: the lines the SD file receives, one connection-table record per
    written coordinate set, in the V3000 or V2000 layout, and the exception
    that cuts the file short. Each line is given without its newline. The
    readers below take lines apart the way a connection-table reader does,
    and serve as the writer's inverse. */
module SdfWriter {
  import opened Outcomes
  import opened Geometry
  import opened Thresholds
  import opened BondTable
  import opened PairClassifier
  import opened SdfText
  import opened SdfRows

  /** `"%.Nf" % x` for N decimals; a parameter, since floating-point formatting is not modelled. */
  type Fixed = (real, nat) -> string

  /** Keywords of `save_sdf`: `tolerance`, `TStolerance`, `style` and `coordsets`. */
  datatype SdfSettings = SdfSettings(tol: real, tsTol: real, style: string, coordsets: bool)

  const DefaultSdfSettings: SdfSettings := SdfSettings(0.35, 0.6, "V3000", true)

  /** Lines written so far and the exception that stopped the writer, if any. */
  datatype Written = Written(lines: seq<string>, error: Option<WriteError>)

  /** Writing `next` after `w`, unless `w` already raised. */
  function Then(w: Written, next: Written): Written {
    if w.error.Some? then w else Written(w.lines + next.lines, next.error)
  }

  /** The file after the call: never opened when the cutoff cache raises first, otherwise what was written
      before the call returned or raised. */
  datatype SdfFile = Untouched(reason: WriteError) | Opened(contents: Written)

  // ---------------------------------------------------------------------------------------------
  // Lines

  /** `"M  V30 COUNTS %i %i 0 0 0" % (n, m)`. */
  function CountsLine3000(n: nat, m: nat): string {
    Render(CountsFields3000(n, m))
  }

  function CountsFields3000(n: nat, m: nat): seq<Field> {
    [Field("", "M"), Field("  ", "V30"), Field(" ", "COUNTS"), Field(" ", Dec(n)), Field(" ", Dec(m)),
     Field(" ", "0"), Field(" ", "0"), Field(" ", "0")]
  }

  /** `"M  V30 %4i %2s %10.6f %10.6f %10.6f 0" % (k + 1, element, *coords[k])`. */
  function AtomLine3000(k: nat, el: string, p: Point, fixed: Fixed): string {
    Render(AtomFields3000(k, el, p, fixed))
  }

  function AtomFields3000(k: nat, el: string, p: Point, fixed: Fixed): seq<Field> {
    [Field("", "M"), Field("  ", "V30"), Padded(" ", Dec(k + 1), 4), Padded(" ", el, 2),
     Padded(" ", fixed(p.x, 6), 10), Padded(" ", fixed(p.y, 6), 10), Padded(" ", fixed(p.z, 6), 10),
     Field(" ", "0")]
  }

  /** `"M  V30 %3i %i %i %i" % (l + 1, code, i + 1, j + 1)`. */
  function BondLine3000(l: nat, code: nat, r: BondRow): string {
    Render(BondFields3000(l, code, r))
  }

  function BondFields3000(l: nat, code: nat, r: BondRow): seq<Field> {
    [Field("", "M"), Field("  ", "V30"), Padded(" ", Dec(l + 1), 3), Field(" ", Dec(code)),
     Field(" ", Dec(r.i + 1)), Field(" ", Dec(r.j + 1))]
  }

  /** `"%3i%3i  0  0  0  0  0  0  0  0  0 V2000" % (n, m)`. */
  function CountsLine2000(n: nat, m: nat): string {
    PadLeft(Dec(n), 3) + PadLeft(Dec(m), 3) + "  0  0  0  0  0  0  0  0  0 V2000"
  }

  /** `"%10.4f%10.4f%10.4f %3s 0%3i  0  0  0  0  0  0  0  0" % (*coords[k], element, 0)`. */
  function AtomLine2000(el: string, p: Point, fixed: Fixed): string {
    PadLeft(fixed(p.x, 4), 10) + PadLeft(fixed(p.y, 4), 10) + PadLeft(fixed(p.z, 4), 10) + " " + PadLeft(el, 3)
    + " 0" + PadLeft(Dec(0), 3) + "  0  0  0  0  0  0  0  0"
  }

  /** `"%3i%3i%3i  0  0  0  0" % (i + 1, j + 1, code)`. */
  function BondLine2000(code: nat, r: BondRow): string {
    PadLeft(Dec(r.i + 1), 3) + PadLeft(Dec(r.j + 1), 3) + PadLeft(Dec(code), 3) + "  0  0  0  0"
  }

  // ---------------------------------------------------------------------------------------------
  // Blocks

  /** The three lines that open every block: the model name, the program line and a blank line. */
  function Header(s: Structure): seq<string> {
    [s.name, "ORA stuff for ChimeraX", ""]
  }

  const Footer: seq<string> := ["M END", "$$$$"]

  function BondLine(l: nat, code: nat, r: BondRow, v3000: bool): string {
    if v3000 then BondLine3000(l, code, r) else BondLine2000(code, r)
  }

  /** The lines `line` renders for the rows from `k` on, each row's in turn, until a row whose order has
      no code raises KeyError (`bo_to_mol_map[bond[2]]`) before its line is written. */
  function CodedLines(rows: seq<BondRow>, k: nat, line: (nat, nat, BondRow) -> string): Written
    requires k <= |rows|
    decreases |rows| - k
  {
    if k == |rows| then Written([], None)
    else
      match MolCode(rows[k].order)
      case None => Written([], Some(OrderKeyError(rows[k].order)))
      case Some(code) => Then(Written([line(k, code, rows[k])], None), CodedLines(rows, k + 1, line))
  }

  /** The bond lines from row `k` on. */
  function BondLines(rows: seq<BondRow>, k: nat, v3000: bool): Written
    requires k <= |rows|
  {
    CodedLines(rows, k, (l: nat, code: nat, r: BondRow) => BondLine(l, code, r, v3000))
  }

  /** The atom lines: one per atom, in atom order. */
  function AtomLines(els: seq<string>, pts: Frame, fixed: Fixed, v3000: bool): (r: seq<string>)
    requires |els| == |pts|
    ensures |r| == |els|
  {
    seq(|els|, k requires 0 <= k < |els| =>
      if v3000 then AtomLine3000(k, els[k], pts[k], fixed) else AtomLine2000(els[k], pts[k], fixed))
  }

  const V3000Opening: seq<string> := ["  0  0  0  0  0  0  0  0  0  0  0 V3000", "M  V30 BEGIN CTAB"]

  /** The V3000 lines before the first bond line. */
  function Ctab3000Head(els: seq<string>, pts: Frame, m: nat, fixed: Fixed): seq<string>
    requires |els| == |pts|
  {
    V3000Opening + [CountsLine3000(|els|, m), "M  V30 BEGIN ATOM"]
    + AtomLines(els, pts, fixed, true) + ["M  V30 END ATOM", "M  V30 BEGIN BOND"]
  }

  /** The V3000 connection table of one frame with its bond rows. */
  function Ctab3000(els: seq<string>, pts: Frame, rows: seq<BondRow>, fixed: Fixed): Written
    requires |els| == |pts|
  {
    Then(Written(Ctab3000Head(els, pts, |rows|, fixed), None),
         Then(BondLines(rows, 0, true), Written(["M  V30 END BOND", "M  V30 END CTAB"], None)))
  }

  /** The V2000 lines before the first bond line. */
  function Ctab2000Head(els: seq<string>, pts: Frame, m: nat, fixed: Fixed): seq<string>
    requires |els| == |pts|
  {
    [CountsLine2000(|els|, m)] + AtomLines(els, pts, fixed, false)
  }

  /** The V2000 connection table of one frame with its bond rows. */
  function Ctab2000(els: seq<string>, pts: Frame, rows: seq<BondRow>, fixed: Fixed): Written
    requires |els| == |pts|
  {
    Then(Written(Ctab2000Head(els, pts, |rows|, fixed), None), BondLines(rows, 0, false))
  }

  /** What follows the header for one frame: its rows are computed first, then the style is looked at. */
  function Body(els: seq<string>, pts: Frame, cache: map<string, Cutoff>, t: Tables, toFloat: ToFloat,
                fixed: Fixed, style: string): Written
    requires |els| == |pts| && CacheCovers(els, t, cache)
  {
    match FrameRows(els, pts, cache, t, toFloat)
    case Failure(e) => Written([], Some(e))
    case Success(rows) =>
      if style == "V3000" then Ctab3000(els, pts, rows, fixed)
      else if style == "V2000" then Ctab2000(els, pts, rows, fixed)
      else Written([], Some(StyleNotImplemented(style)))
  }

  /** The block of one coordinate set around its body: header, body, and "M END" and "$$$$" unless the
      body raised. */
  function Block(s: Structure, body: Written): Written {
    Then(Written(Header(s), None), Then(body, Written(Footer, None)))
  }

  /** The body of every coordinate set of `ids`, in order. A body is a pure value, so computing the bodies
      after the first exception too changes nothing that is written. */
  function Bodies(s: Structure, ids: seq<int>, cache: map<string, Cutoff>, t: Tables, toFloat: ToFloat,
                  fixed: Fixed, style: string): (r: seq<Written>)
    requires Valid(s) && (forall k :: 0 <= k < |ids| ==> ids[k] in s.ids) && CacheCovers(s.elements, t, cache)
    ensures |r| == |ids|
    ensures forall k :: 0 <= k < |ids| ==> r[k] == Body(s.elements, FrameOf(s, ids[k]), cache, t, toFloat, fixed, style)
  {
    seq(|ids|, k requires 0 <= k < |ids| => Body(s.elements, FrameOf(s, ids[k]), cache, t, toFloat, fixed, style))
  }

  /** The blocks of `bodies` in order, up to the first exception. */
  function Blocks(s: Structure, bodies: seq<Written>): Written
    decreases |bodies|
  {
    if |bodies| == 0 then Written([], None) else Then(Block(s, bodies[0]), Blocks(s, bodies[1..]))
  }

  /** `write_coordsets`: every coordinate set, or only the active one. */
  function WrittenIds(s: Structure, coordsets: bool): seq<int> {
    if coordsets then s.ids else [s.active]
  }

  /** `save_sdf(session, path, model, ...)`: the cutoff cache is built before the file is opened, so a
      missing radius leaves the file untouched; after that the blocks go out one by one. */
  function SaveSdf(s: Structure, t: Tables, toFloat: ToFloat, fixed: Fixed, opts: SdfSettings): SdfFile
    requires Valid(s)
  {
    match CutoffCache(s.elements, t, opts.tol, opts.tsTol)
    case Failure(e) => Untouched(RadiusKeyError(e.element))
    case Success(cache) =>
      CutoffCacheCovers(s.elements, t, opts.tol, opts.tsTol);
      Opened(Blocks(s, Bodies(s, WrittenIds(s, opts.coordsets), cache, t, toFloat, fixed, opts.style)))
  }

  // ---------------------------------------------------------------------------------------------
  // Readers

  /** Numbers of a V3000 COUNTS line. */
  function ReadCounts3000(line: string): Option<(nat, nat)> {
    var ts := Tokens(line);
    if |ts| == 8 && ts[0] == "M" && ts[1] == "V30" && ts[2] == "COUNTS"
       && ts[5] == "0" && ts[6] == "0" && ts[7] == "0" && ParseNat(ts[3]).Some? && ParseNat(ts[4]).Some?
    then Some((ParseNat(ts[3]).value, ParseNat(ts[4]).value))
    else None
  }

  /** Serial number and element of a V3000 atom line. */
  function ReadAtom3000(line: string): Option<(nat, string)> {
    var ts := Tokens(line);
    if |ts| == 8 && ts[0] == "M" && ts[1] == "V30" && ts[7] == "0" && ParseNat(ts[2]).Some?
    then Some((ParseNat(ts[2]).value, ts[3]))
    else None
  }

  /** Serial number, bond type and the two 1-based atom numbers of a V3000 bond line. */
  function ReadBond3000(line: string): Option<(nat, nat, nat, nat)> {
    var ts := Tokens(line);
    if |ts| == 6 && ts[0] == "M" && ts[1] == "V30"
       && ParseNat(ts[2]).Some? && ParseNat(ts[3]).Some? && ParseNat(ts[4]).Some? && ParseNat(ts[5]).Some?
    then Some((ParseNat(ts[2]).value, ParseNat(ts[3]).value, ParseNat(ts[4]).value, ParseNat(ts[5]).value))
    else None
  }

  /** The number in columns [lo, hi) of a fixed-column line. */
  function Column(line: string, lo: nat, hi: nat): Option<nat> {
    if lo <= hi <= |line| then ParseNat(TrimLeft(line[lo..hi])) else None
  }

  /** Atom and bond counts of a V2000 counts line: columns 1-3 and 4-6. */
  function ReadCounts2000(line: string): Option<(nat, nat)> {
    if Column(line, 0, 3).Some? && Column(line, 3, 6).Some?
    then Some((Column(line, 0, 3).value, Column(line, 3, 6).value))
    else None
  }

  /** The two 1-based atom numbers and the bond type of a V2000 bond line: columns 1-3, 4-6 and 7-9. */
  function ReadBond2000(line: string): Option<(nat, nat, nat)> {
    if Column(line, 0, 3).Some? && Column(line, 3, 6).Some? && Column(line, 6, 9).Some?
    then Some((Column(line, 0, 3).value, Column(line, 3, 6).value, Column(line, 6, 9).value))
    else None
  }

  /** The element symbol of a V2000 atom line: columns 32-34. */
  function ReadAtom2000(line: string): Option<string> {
    if 34 <= |line| then Some(TrimLeft(line[31..34])) else None
  }

  // ---------------------------------------------------------------------------------------------
  // Lines read back

  lemma CountsFields3000Separated(n: nat, m: nat)
    ensures Separated(CountsFields3000(n, m))
  {
  }

  lemma CountsLine3000Tokens(n: nat, m: nat)
    ensures var ts := Tokens(CountsLine3000(n, m));
      |ts| == 8 && ts[0] == "M" && ts[1] == "V30" && ts[2] == "COUNTS" && ts[3] == Dec(n) && ts[4] == Dec(m)
      && ts[5] == "0" && ts[6] == "0" && ts[7] == "0"
  {
    CountsFields3000Separated(n, m);
    TokensRender(CountsFields3000(n, m));
  }

  lemma CountsLine3000ReadsBack(n: nat, m: nat)
    ensures ReadCounts3000(CountsLine3000(n, m)) == Some((n, m))
  {
    CountsLine3000Tokens(n, m);
    DecRoundTrip(n);
    DecRoundTrip(m);
  }

  /** A token that splitting on whitespace keeps whole. */
  predicate Word(w: string) {
    |w| > 0 && NoSpace(w)
  }

  /** The three coordinates print as words with the given number of decimals. */
  predicate CoordWords(p: Point, fixed: Fixed, digits: nat) {
    Word(fixed(p.x, digits)) && Word(fixed(p.y, digits)) && Word(fixed(p.z, digits))
  }

  lemma AtomFields3000Separated(k: nat, el: string, p: Point, fixed: Fixed)
    requires Word(el) && CoordWords(p, fixed, 6)
    ensures Separated(AtomFields3000(k, el, p, fixed))
  {
  }

  /** An atom line gives back its 1-based serial number and its element. */
  lemma AtomLine3000ReadsBack(k: nat, el: string, p: Point, fixed: Fixed)
    requires Word(el) && CoordWords(p, fixed, 6)
    ensures ReadAtom3000(AtomLine3000(k, el, p, fixed)) == Some((k + 1, el))
  {
    AtomFields3000Separated(k, el, p, fixed);
    TokensRender(AtomFields3000(k, el, p, fixed));
    DecRoundTrip(k + 1);
  }

  lemma BondFields3000Separated(l: nat, code: nat, r: BondRow)
    ensures Separated(BondFields3000(l, code, r))
  {
  }

  /** A bond line gives back its serial number, its type code and the two 1-based atom numbers. */
  lemma BondLine3000ReadsBack(l: nat, code: nat, r: BondRow)
    ensures ReadBond3000(BondLine3000(l, code, r)) == Some((l + 1, code, r.i + 1, r.j + 1))
  {
    BondFields3000Separated(l, code, r);
    TokensRender(BondFields3000(l, code, r));
    DecRoundTrip(l + 1);
    DecRoundTrip(code);
    DecRoundTrip(r.i + 1);
    DecRoundTrip(r.j + 1);
  }

  /** A V2000 counts line gives back both counts while each fits its three columns. */
  lemma CountsLine2000ReadsBack(n: nat, m: nat)
    requires n < 1000 && m < 1000
    ensures ReadCounts2000(CountsLine2000(n, m)) == Some((n, m))
  {
    DecFitsThree(n);
    DecFitsThree(m);
    var a := PadLeft(Dec(n), 3);
    var b := PadLeft(Dec(m), 3);
    var line := CountsLine2000(n, m);
    assert line[0..3] == a;
    assert line[3..6] == b;
    PaddedNumberReadsBack(n, 3);
    PaddedNumberReadsBack(m, 3);
  }

  /** A V2000 bond line gives back the 1-based atom numbers and the type code while each fits its columns. */
  lemma BondLine2000ReadsBack(code: nat, r: BondRow)
    requires r.i + 1 < 1000 && r.j + 1 < 1000 && code < 1000
    ensures ReadBond2000(BondLine2000(code, r)) == Some((r.i + 1, r.j + 1, code))
  {
    DecFitsThree(r.i + 1);
    DecFitsThree(r.j + 1);
    DecFitsThree(code);
    var a := PadLeft(Dec(r.i + 1), 3);
    var b := PadLeft(Dec(r.j + 1), 3);
    var c := PadLeft(Dec(code), 3);
    var ab := a + b;
    var abc := ab + c;
    assert BondLine2000(code, r) == abc + "  0  0  0  0";
    SliceOfPrefix(abc, "  0  0  0  0", 0, 3);
    SliceOfPrefix(abc, "  0  0  0  0", 3, 6);
    SliceOfPrefix(abc, "  0  0  0  0", 6, 9);
    SliceOfPrefix(ab, c, 0, 3);
    SliceOfPrefix(ab, c, 3, 6);
    SliceOfPrefix(a, b, 0, 3);
    SliceOfSuffix(ab, c);
    SliceOfSuffix(a, b);
    assert a[0..3] == a;
    PaddedNumberReadsBack(r.i + 1, 3);
    PaddedNumberReadsBack(r.j + 1, 3);
    PaddedNumberReadsBack(code, 3);
  }

  /** The coordinates fill no more than their ten columns each. */
  predicate CoordsFit(p: Point, fixed: Fixed) {
    |fixed(p.x, 4)| <= 10 && |fixed(p.y, 4)| <= 10 && |fixed(p.z, 4)| <= 10
  }

  /** Columns before the end of `u` are not moved by what follows. */
  lemma SliceOfPrefix(u: string, v: string, lo: nat, hi: nat)
    requires lo <= hi <= |u|
    ensures (u + v)[lo..hi] == u[lo..hi]
  {
  }

  /** The columns of `v` after `u`. */
  lemma SliceOfSuffix(u: string, v: string)
    ensures (u + v)[|u|..|u| + |v|] == v
  {
  }

  /** A V2000 atom line gives back its element symbol when the coordinates fit their columns and the
      symbol has one to three characters. */
  lemma AtomLine2000ReadsBack(el: string, p: Point, fixed: Fixed)
    requires CoordsFit(p, fixed) && 0 < |el| <= 3 && el[0] != ' '
    ensures ReadAtom2000(AtomLine2000(el, p, fixed)) == Some(el)
  {
    var front := PadLeft(fixed(p.x, 4), 10) + PadLeft(fixed(p.y, 4), 10) + PadLeft(fixed(p.z, 4), 10) + " ";
    var withEl := front + PadLeft(el, 3);
    var withZero := withEl + " 0";
    var withCharge := withZero + PadLeft(Dec(0), 3);
    assert AtomLine2000(el, p, fixed) == withCharge + "  0  0  0  0  0  0  0  0";
    SliceOfPrefix(withCharge, "  0  0  0  0  0  0  0  0", 31, 34);
    SliceOfPrefix(withZero, PadLeft(Dec(0), 3), 31, 34);
    SliceOfPrefix(withEl, " 0", 31, 34);
    assert withEl[31..34] == PadLeft(el, 3);
    TrimLeftSpaces(Padding(el, 3), el);
  }

  // ---------------------------------------------------------------------------------------------
  // Connection tables

  /** Position of the first row from `k` on whose order has no code, or the number of rows. */
  function FirstUnmapped(rows: seq<BondRow>, k: nat): (u: nat)
    requires k <= |rows|
    ensures k <= u <= |rows|
    ensures forall l :: k <= l < u ==> MolCode(rows[l].order).Some?
    ensures u < |rows| ==> MolCode(rows[u].order).None?
    decreases |rows| - k
  {
    if k == |rows| || MolCode(rows[k].order).None? then k else FirstUnmapped(rows, k + 1)
  }

  lemma {:induction false} CodedLinesShape(rows: seq<BondRow>, k: nat, line: (nat, nat, BondRow) -> string)
    requires k <= |rows|
    ensures var w := CodedLines(rows, k, line);
      var u := FirstUnmapped(rows, k);
      && |w.lines| == u - k
      && w.error == (if u == |rows| then None else Some(OrderKeyError(rows[u].order)))
    decreases |rows| - k
  {
    if k < |rows| && MolCode(rows[k].order).Some? {
      CodedLinesShape(rows, k + 1, line);
    }
  }

  lemma {:induction false} CodedLinesAt(rows: seq<BondRow>, k: nat, l: nat, line: (nat, nat, BondRow) -> string)
    requires k <= |rows| && k <= l < FirstUnmapped(rows, k)
    ensures l - k < |CodedLines(rows, k, line).lines|
    ensures CodedLines(rows, k, line).lines[l - k] == line(l, MolCode(rows[l].order).value, rows[l])
    decreases l - k
  {
    var first := line(k, MolCode(rows[k].order).value, rows[k]);
    var rest := CodedLines(rows, k + 1, line);
    var lines := [first] + rest.lines;
    assert CodedLines(rows, k, line) == Then(Written([first], None), rest);
    assert CodedLines(rows, k, line).lines == lines;
    if k < l {
      CodedLinesAt(rows, k + 1, l, line);
      assert lines[l - k] == rest.lines[l - (k + 1)];
    } else {
      assert lines[0] == first;
    }
  }

  /** The bond lines are those of the rows before the first order without a code, and the KeyError names
      that order; with no such row every line is written and nothing is raised. */
  lemma BondLinesSpec(rows: seq<BondRow>, k: nat, v3000: bool)
    requires k <= |rows|
    ensures var w := BondLines(rows, k, v3000);
      var u := FirstUnmapped(rows, k);
      && |w.lines| == u - k
      && (forall l :: k <= l < u ==> w.lines[l - k] == BondLine(l, MolCode(rows[l].order).value, rows[l], v3000))
      && w.error == (if u == |rows| then None else Some(OrderKeyError(rows[u].order)))
  {
    var line := (l: nat, code: nat, r: BondRow) => BondLine(l, code, r, v3000);
    assert BondLines(rows, k, v3000) == CodedLines(rows, k, line);
    CodedLinesShape(rows, k, line);
    forall l | k <= l < FirstUnmapped(rows, k)
      ensures CodedLines(rows, k, line).lines[l - k] == BondLine(l, MolCode(rows[l].order).value, rows[l], v3000)
    {
      CodedLinesAt(rows, k, l, line);
    }
  }

  /** How many bond lines there are, and the KeyError that stops them. */
  lemma BondLinesCount(rows: seq<BondRow>, v3000: bool)
    ensures var w := BondLines(rows, 0, v3000);
      var u := FirstUnmapped(rows, 0);
      && |w.lines| == u
      && w.error == (if u == |rows| then None else Some(OrderKeyError(rows[u].order)))
  {
    var line := (l: nat, code: nat, r: BondRow) => BondLine(l, code, r, v3000);
    assert BondLines(rows, 0, v3000) == CodedLines(rows, 0, line);
    CodedLinesShape(rows, 0, line);
  }

  /** Bond line `l` is row `l`'s. */
  lemma BondLineAt(rows: seq<BondRow>, v3000: bool, l: nat)
    requires l < FirstUnmapped(rows, 0)
    ensures l < |BondLines(rows, 0, v3000).lines|
    ensures BondLines(rows, 0, v3000).lines[l] == BondLine(l, MolCode(rows[l].order).value, rows[l], v3000)
  {
    var line := (l: nat, code: nat, r: BondRow) => BondLine(l, code, r, v3000);
    assert BondLines(rows, 0, v3000) == CodedLines(rows, 0, line);
    CodedLinesAt(rows, 0, l, line);
  }

  lemma Ctab3000HeadLines(els: seq<string>, pts: Frame, m: nat, fixed: Fixed)
    requires |els| == |pts|
    ensures var h := Ctab3000Head(els, pts, m, fixed);
      var n := |els|;
      && |h| == n + 6
      && h[0] == V3000Opening[0] && h[1] == V3000Opening[1]
      && h[2] == CountsLine3000(n, m) && h[3] == "M  V30 BEGIN ATOM"
      && (forall k :: 0 <= k < n ==> h[4 + k] == AtomLine3000(k, els[k], pts[k], fixed))
      && h[n + 4] == "M  V30 END ATOM" && h[n + 5] == "M  V30 BEGIN BOND"
  {
    var h := Ctab3000Head(els, pts, m, fixed);
    forall k | 0 <= k < |els|
      ensures h[4 + k] == AtomLine3000(k, els[k], pts[k], fixed)
    {
      assert h[4 + k] == AtomLines(els, pts, fixed, true)[k];
    }
  }

  /** The V3000 table is its head, then the bond lines, then the two closing lines when no row failed. */
  lemma Ctab3000Parts(els: seq<string>, pts: Frame, rows: seq<BondRow>, fixed: Fixed)
    requires |els| == |pts|
    ensures var b := BondLines(rows, 0, true);
      && Ctab3000(els, pts, rows, fixed).lines
         == Ctab3000Head(els, pts, |rows|, fixed) + b.lines
            + (if b.error.None? then ["M  V30 END BOND", "M  V30 END CTAB"] else [])
      && Ctab3000(els, pts, rows, fixed).error == b.error
  {
    var b := BondLines(rows, 0, true);
    var ends := Written(["M  V30 END BOND", "M  V30 END CTAB"], None);
    var tail := Then(b, ends);
    assert tail.lines == b.lines + (if b.error.None? then ends.lines else []);
  }

  lemma Ctab3000CountsLine(els: seq<string>, pts: Frame, rows: seq<BondRow>, fixed: Fixed)
    requires |els| == |pts|
    ensures |Ctab3000(els, pts, rows, fixed).lines| >= |els| + 6 + FirstUnmapped(rows, 0)
    ensures Ctab3000(els, pts, rows, fixed).lines[2] == CountsLine3000(|els|, |rows|)
  {
    var h := Ctab3000Head(els, pts, |rows|, fixed);
    var b := BondLines(rows, 0, true);
    Ctab3000Parts(els, pts, rows, fixed);
    Ctab3000HeadLines(els, pts, |rows|, fixed);
    BondLinesCount(rows, true);
    var w := Ctab3000(els, pts, rows, fixed);
    assert w.lines[2] == h[2];
  }

  lemma Ctab3000AtomLine(els: seq<string>, pts: Frame, rows: seq<BondRow>, fixed: Fixed, k: nat)
    requires |els| == |pts| && k < |els|
    ensures 4 + k < |Ctab3000(els, pts, rows, fixed).lines|
    ensures Ctab3000(els, pts, rows, fixed).lines[4 + k] == AtomLine3000(k, els[k], pts[k], fixed)
  {
    var h := Ctab3000Head(els, pts, |rows|, fixed);
    Ctab3000Parts(els, pts, rows, fixed);
    Ctab3000HeadLines(els, pts, |rows|, fixed);
    var w := Ctab3000(els, pts, rows, fixed);
    assert w.lines[4 + k] == h[4 + k];
  }

  lemma Ctab3000BondLine(els: seq<string>, pts: Frame, rows: seq<BondRow>, fixed: Fixed, l: nat)
    requires |els| == |pts| && l < FirstUnmapped(rows, 0)
    ensures |els| + 6 + l < |Ctab3000(els, pts, rows, fixed).lines|
    ensures Ctab3000(els, pts, rows, fixed).lines[|els| + 6 + l] == BondLine3000(l, MolCode(rows[l].order).value, rows[l])
  {
    var h := Ctab3000Head(els, pts, |rows|, fixed);
    var b := BondLines(rows, 0, true);
    Ctab3000Parts(els, pts, rows, fixed);
    BondLineAt(rows, true, l);
    assert |h| == |els| + 6;
    var w := Ctab3000(els, pts, rows, fixed);
    assert w.lines[|els| + 6 + l] == b.lines[l];
  }

  /** The V3000 table, line by line: opening, COUNTS, one atom line per atom, the bond lines of the rows
      before the first order without a code, and the closing lines only when every row had a code. */
  lemma Ctab3000Layout(els: seq<string>, pts: Frame, rows: seq<BondRow>, fixed: Fixed)
    requires |els| == |pts|
    ensures var w := Ctab3000(els, pts, rows, fixed);
      var n := |els|;
      var u := FirstUnmapped(rows, 0);
      && |w.lines| == n + 6 + u + (if u == |rows| then 2 else 0)
      && w.error == (if u == |rows| then None else Some(OrderKeyError(rows[u].order)))
      && w.lines[..n + 6] == Ctab3000Head(els, pts, |rows|, fixed)
      && (forall l :: 0 <= l < u ==> w.lines[n + 6 + l] == BondLine3000(l, MolCode(rows[l].order).value, rows[l]))
      && (u == |rows| ==> w.lines[n + 6 + u] == "M  V30 END BOND" && w.lines[n + 7 + u] == "M  V30 END CTAB")
  {
    var n := |els|;
    var h := Ctab3000Head(els, pts, |rows|, fixed);
    var b := BondLines(rows, 0, true);
    Ctab3000Parts(els, pts, rows, fixed);
    BondLinesCount(rows, true);
    var w := Ctab3000(els, pts, rows, fixed);
    assert |h| == n + 6;
    assert w.lines[..n + 6] == h;
    forall l | 0 <= l < FirstUnmapped(rows, 0)
      ensures w.lines[n + 6 + l] == BondLine3000(l, MolCode(rows[l].order).value, rows[l])
    {
      Ctab3000BondLine(els, pts, rows, fixed, l);
    }
  }

  /** A bond line read back names the row: its serial number, the code of its order and its atoms. */
  predicate BondReadsAs3000(line: string, l: nat, r: BondRow) {
    var b := ReadBond3000(line);
    b.Some? && b.value.0 == l + 1 && OrderOfCode(b.value.1) == Some(r.order) && b.value.2 == r.i + 1
    && b.value.3 == r.j + 1
  }

  lemma Ctab3000BondReadsBack(els: seq<string>, pts: Frame, rows: seq<BondRow>, fixed: Fixed, l: nat)
    requires |els| == |pts| && l < FirstUnmapped(rows, 0)
    ensures |els| + 6 + l < |Ctab3000(els, pts, rows, fixed).lines|
    ensures BondReadsAs3000(Ctab3000(els, pts, rows, fixed).lines[|els| + 6 + l], l, rows[l])
  {
    var code := MolCode(rows[l].order).value;
    var line := BondLine3000(l, code, rows[l]);
    Ctab3000BondLine(els, pts, rows, fixed, l);
    BondLine3000ReadsBack(l, code, rows[l]);
    MolCodeRoundTrip(rows[l].order, code);
    assert BondReadsAs3000(line, l, rows[l]);
  }

  lemma Ctab3000AtomReadsBack(els: seq<string>, pts: Frame, rows: seq<BondRow>, fixed: Fixed, k: nat)
    requires |els| == |pts| && k < |els| && Word(els[k]) && CoordWords(pts[k], fixed, 6)
    ensures 4 + k < |Ctab3000(els, pts, rows, fixed).lines|
    ensures ReadAtom3000(Ctab3000(els, pts, rows, fixed).lines[4 + k]) == Some((k + 1, els[k]))
  {
    Ctab3000AtomLine(els, pts, rows, fixed, k);
    AtomLine3000ReadsBack(k, els[k], pts[k], fixed);
  }

  /** A reader finds the atom and bond counts in the V3000 COUNTS line. */
  lemma Ctab3000CountsReadBack(els: seq<string>, pts: Frame, rows: seq<BondRow>, fixed: Fixed)
    requires |els| == |pts|
    ensures |Ctab3000(els, pts, rows, fixed).lines| >= |els| + 6 + FirstUnmapped(rows, 0)
    ensures ReadCounts3000(Ctab3000(els, pts, rows, fixed).lines[2]) == Some((|els|, |rows|))
  {
    Ctab3000CountsLine(els, pts, rows, fixed);
    CountsLine3000ReadsBack(|els|, |rows|);
  }

  /** A reader finds each atom's serial number and element, when the element and the coordinates print
      as single words. */
  lemma Ctab3000AtomsReadBack(els: seq<string>, pts: Frame, rows: seq<BondRow>, fixed: Fixed)
    requires |els| == |pts|
    ensures |Ctab3000(els, pts, rows, fixed).lines| >= |els| + 4
    ensures forall k :: 0 <= k < |els| && Word(els[k]) && CoordWords(pts[k], fixed, 6) ==>
      ReadAtom3000(Ctab3000(els, pts, rows, fixed).lines[4 + k]) == Some((k + 1, els[k]))
  {
    var w := Ctab3000(els, pts, rows, fixed);
    Ctab3000CountsLine(els, pts, rows, fixed);
    forall k | 0 <= k < |els| && Word(els[k]) && CoordWords(pts[k], fixed, 6)
      ensures ReadAtom3000(w.lines[4 + k]) == Some((k + 1, els[k]))
    {
      Ctab3000AtomReadsBack(els, pts, rows, fixed, k);
    }
  }

  /** A reader finds, for each written bond, its serial number, its order's code and its 1-based atoms,
      the larger index first. */
  lemma Ctab3000BondsReadBack(els: seq<string>, pts: Frame, rows: seq<BondRow>, fixed: Fixed)
    requires |els| == |pts|
    ensures |Ctab3000(els, pts, rows, fixed).lines| >= |els| + 6 + FirstUnmapped(rows, 0)
    ensures forall l :: 0 <= l < FirstUnmapped(rows, 0) ==>
      BondReadsAs3000(Ctab3000(els, pts, rows, fixed).lines[|els| + 6 + l], l, rows[l])
  {
    var w := Ctab3000(els, pts, rows, fixed);
    Ctab3000CountsLine(els, pts, rows, fixed);
    forall l | 0 <= l < FirstUnmapped(rows, 0)
      ensures BondReadsAs3000(w.lines[|els| + 6 + l], l, rows[l])
    {
      Ctab3000BondReadsBack(els, pts, rows, fixed, l);
    }
  }

  lemma Ctab2000HeadLines(els: seq<string>, pts: Frame, m: nat, fixed: Fixed)
    requires |els| == |pts|
    ensures var h := Ctab2000Head(els, pts, m, fixed);
      && |h| == 1 + |els|
      && h[0] == CountsLine2000(|els|, m)
      && (forall k :: 0 <= k < |els| ==> h[1 + k] == AtomLine2000(els[k], pts[k], fixed))
  {
    var atoms := AtomLines(els, pts, fixed, false);
    var h := Ctab2000Head(els, pts, m, fixed);
    forall k | 0 <= k < |els|
      ensures h[1 + k] == AtomLine2000(els[k], pts[k], fixed)
    {
      assert h[1 + k] == atoms[k];
    }
  }

  /** The V2000 table is its head followed by the bond lines. */
  lemma Ctab2000Parts(els: seq<string>, pts: Frame, rows: seq<BondRow>, fixed: Fixed)
    requires |els| == |pts|
    ensures Ctab2000(els, pts, rows, fixed).lines == Ctab2000Head(els, pts, |rows|, fixed) + BondLines(rows, 0, false).lines
    ensures Ctab2000(els, pts, rows, fixed).error == BondLines(rows, 0, false).error
  {
  }

  /** A V2000 bond line read back names the row's atoms and the code of its order. */
  predicate BondReadsAs2000(line: string, r: BondRow) {
    var b := ReadBond2000(line);
    b.Some? && b.value.0 == r.i + 1 && b.value.1 == r.j + 1 && OrderOfCode(b.value.2) == Some(r.order)
  }

  /** A V2000 element symbol that a column reader gets back. */
  predicate ShortSymbol(el: string) {
    0 < |el| <= 3 && el[0] != ' '
  }

  lemma Ctab2000AtomLine(els: seq<string>, pts: Frame, rows: seq<BondRow>, fixed: Fixed, k: nat)
    requires |els| == |pts| && k < |els|
    ensures 1 + k < |Ctab2000(els, pts, rows, fixed).lines|
    ensures Ctab2000(els, pts, rows, fixed).lines[1 + k] == AtomLine2000(els[k], pts[k], fixed)
  {
    var h := Ctab2000Head(els, pts, |rows|, fixed);
    Ctab2000Parts(els, pts, rows, fixed);
    Ctab2000HeadLines(els, pts, |rows|, fixed);
    var w := Ctab2000(els, pts, rows, fixed);
    assert w.lines[1 + k] == h[1 + k];
  }

  lemma Ctab2000AtomReadsBack(els: seq<string>, pts: Frame, rows: seq<BondRow>, fixed: Fixed, k: nat)
    requires |els| == |pts| && k < |els| && ShortSymbol(els[k]) && CoordsFit(pts[k], fixed)
    ensures 1 + k < |Ctab2000(els, pts, rows, fixed).lines|
    ensures ReadAtom2000(Ctab2000(els, pts, rows, fixed).lines[1 + k]) == Some(els[k])
  {
    Ctab2000AtomLine(els, pts, rows, fixed, k);
    AtomLine2000ReadsBack(els[k], pts[k], fixed);
  }

  lemma Ctab2000CountsLine(els: seq<string>, pts: Frame, rows: seq<BondRow>, fixed: Fixed)
    requires |els| == |pts|
    ensures |Ctab2000(els, pts, rows, fixed).lines| == 1 + |els| + FirstUnmapped(rows, 0)
    ensures Ctab2000(els, pts, rows, fixed).lines[0] == CountsLine2000(|els|, |rows|)
  {
    var h := Ctab2000Head(els, pts, |rows|, fixed);
    Ctab2000Parts(els, pts, rows, fixed);
    Ctab2000HeadLines(els, pts, |rows|, fixed);
    BondLinesCount(rows, false);
    var w := Ctab2000(els, pts, rows, fixed);
    assert w.lines[0] == h[0];
  }

  lemma Ctab2000BondLine(els: seq<string>, pts: Frame, rows: seq<BondRow>, fixed: Fixed, l: nat)
    requires |els| == |pts| && l < FirstUnmapped(rows, 0)
    ensures 1 + |els| + l < |Ctab2000(els, pts, rows, fixed).lines|
    ensures Ctab2000(els, pts, rows, fixed).lines[1 + |els| + l] == BondLine2000(MolCode(rows[l].order).value, rows[l])
  {
    var h := Ctab2000Head(els, pts, |rows|, fixed);
    var b := BondLines(rows, 0, false);
    Ctab2000Parts(els, pts, rows, fixed);
    BondLineAt(rows, false, l);
    assert |h| == 1 + |els|;
    var w := Ctab2000(els, pts, rows, fixed);
    assert w.lines[1 + |els| + l] == b.lines[l];
  }

  /** The V2000 table, line by line: the counts line, one atom line per atom, and the bond lines of the
      rows before the first order without a code. */
  lemma Ctab2000Layout(els: seq<string>, pts: Frame, rows: seq<BondRow>, fixed: Fixed)
    requires |els| == |pts|
    ensures var w := Ctab2000(els, pts, rows, fixed);
      var n := |els|;
      var u := FirstUnmapped(rows, 0);
      && |w.lines| == 1 + n + u
      && w.error == (if u == |rows| then None else Some(OrderKeyError(rows[u].order)))
      && w.lines[0] == CountsLine2000(n, |rows|)
      && (forall k :: 0 <= k < n ==> w.lines[1 + k] == AtomLine2000(els[k], pts[k], fixed))
      && (forall l :: 0 <= l < u ==> w.lines[1 + n + l] == BondLine2000(MolCode(rows[l].order).value, rows[l]))
  {
    var n := |els|;
    var w := Ctab2000(els, pts, rows, fixed);
    Ctab2000Parts(els, pts, rows, fixed);
    BondLinesCount(rows, false);
    Ctab2000CountsLine(els, pts, rows, fixed);
    forall k | 0 <= k < n
      ensures w.lines[1 + k] == AtomLine2000(els[k], pts[k], fixed)
    {
      Ctab2000AtomLine(els, pts, rows, fixed, k);
    }
    forall l | 0 <= l < FirstUnmapped(rows, 0)
      ensures w.lines[1 + n + l] == BondLine2000(MolCode(rows[l].order).value, rows[l])
    {
      Ctab2000BondLine(els, pts, rows, fixed, l);
    }
  }

  lemma Ctab2000BondReadsBack(els: seq<string>, pts: Frame, rows: seq<BondRow>, fixed: Fixed, l: nat)
    requires |els| == |pts| && l < FirstUnmapped(rows, 0) && rows[l].i + 1 < 1000 && rows[l].j + 1 < 1000
    ensures 1 + |els| + l < |Ctab2000(els, pts, rows, fixed).lines|
    ensures BondReadsAs2000(Ctab2000(els, pts, rows, fixed).lines[1 + |els| + l], rows[l])
  {
    var code := MolCode(rows[l].order).value;
    var line := BondLine2000(code, rows[l]);
    Ctab2000BondLine(els, pts, rows, fixed, l);
    BondLine2000ReadsBack(code, rows[l]);
    MolCodeRoundTrip(rows[l].order, code);
    assert BondReadsAs2000(line, rows[l]);
  }

  /** A column reader finds both counts in the V2000 counts line while each is below 1000. */
  lemma Ctab2000CountsReadBack(els: seq<string>, pts: Frame, rows: seq<BondRow>, fixed: Fixed)
    requires |els| == |pts| && |els| < 1000 && |rows| < 1000
    ensures |Ctab2000(els, pts, rows, fixed).lines| == 1 + |els| + FirstUnmapped(rows, 0)
    ensures ReadCounts2000(Ctab2000(els, pts, rows, fixed).lines[0]) == Some((|els|, |rows|))
  {
    Ctab2000CountsLine(els, pts, rows, fixed);
    CountsLine2000ReadsBack(|els|, |rows|);
  }

  /** A column reader finds each atom's element, when the symbol is short and the coordinates fit their
      ten columns. */
  lemma Ctab2000AtomsReadBack(els: seq<string>, pts: Frame, rows: seq<BondRow>, fixed: Fixed)
    requires |els| == |pts|
    ensures |Ctab2000(els, pts, rows, fixed).lines| >= 1 + |els|
    ensures forall k :: 0 <= k < |els| && ShortSymbol(els[k]) && CoordsFit(pts[k], fixed) ==>
      ReadAtom2000(Ctab2000(els, pts, rows, fixed).lines[1 + k]) == Some(els[k])
  {
    var w := Ctab2000(els, pts, rows, fixed);
    Ctab2000CountsLine(els, pts, rows, fixed);
    forall k | 0 <= k < |els| && ShortSymbol(els[k]) && CoordsFit(pts[k], fixed)
      ensures ReadAtom2000(w.lines[1 + k]) == Some(els[k])
    {
      Ctab2000AtomReadsBack(els, pts, rows, fixed, k);
    }
  }

  /** A column reader finds each written bond's 1-based atoms and the code of its order, while the
      atom numbers fit three columns. */
  lemma Ctab2000BondsReadBack(els: seq<string>, pts: Frame, rows: seq<BondRow>, fixed: Fixed)
    requires |els| == |pts|
    ensures |Ctab2000(els, pts, rows, fixed).lines| == 1 + |els| + FirstUnmapped(rows, 0)
    ensures forall l :: 0 <= l < FirstUnmapped(rows, 0) && rows[l].i + 1 < 1000 && rows[l].j + 1 < 1000 ==>
      BondReadsAs2000(Ctab2000(els, pts, rows, fixed).lines[1 + |els| + l], rows[l])
  {
    var w := Ctab2000(els, pts, rows, fixed);
    Ctab2000CountsLine(els, pts, rows, fixed);
    forall l | 0 <= l < FirstUnmapped(rows, 0) && rows[l].i + 1 < 1000 && rows[l].j + 1 < 1000
      ensures BondReadsAs2000(w.lines[1 + |els| + l], rows[l])
    {
      Ctab2000BondReadsBack(els, pts, rows, fixed, l);
    }
  }

  // ---------------------------------------------------------------------------------------------
  // Records

  /** Length of the record `lines` starts with: through the first "$$$$", or everything. */
  function RecordEnd(lines: seq<string>): (e: nat)
    requires |lines| > 0
    ensures 0 < e <= |lines|
    decreases |lines|
  {
    if lines[0] == "$$$$" || |lines| == 1 then 1 else 1 + RecordEnd(lines[1..])
  }

  /** An SD file split into its records, each ending with its "$$$$" line, as an SD reader splits it. */
  function Records(lines: seq<string>): seq<seq<string>>
    decreases |lines|
  {
    if |lines| == 0 then [] else [lines[..RecordEnd(lines)]] + Records(lines[RecordEnd(lines)..])
  }

  /** `b` ends with "$$$$" and has no other. */
  predicate Terminated(b: seq<string>) {
    |b| > 0 && b[|b| - 1] == "$$$$" && forall k :: 0 <= k < |b| - 1 ==> b[k] != "$$$$"
  }

  lemma {:induction false} RecordEndOf(b: seq<string>, rest: seq<string>)
    requires Terminated(b)
    ensures RecordEnd(b + rest) == |b|
    decreases |b|
  {
    if |b| > 1 {
      assert (b + rest)[0] == b[0] != "$$$$";
      assert (b + rest)[1..] == b[1..] + rest;
      assert b[1..][|b| - 2] == b[|b| - 1];
      RecordEndOf(b[1..], rest);
    }
  }

  /** A terminated block is read as one record, and the reader goes on after it. */
  lemma RecordsAppend(b: seq<string>, rest: seq<string>)
    requires Terminated(b)
    ensures Records(b + rest) == [b] + Records(rest)
  {
    RecordEndOf(b, rest);
    assert (b + rest)[..|b|] == b;
    assert (b + rest)[|b|..] == rest;
  }

  /** No line of a connection table is a record separator. */
  predicate NoSeparator(lines: seq<string>) {
    forall k :: 0 <= k < |lines| ==> lines[k] != "$$$$"
  }

  /** A line rendered from fields that open with the word "M". */
  lemma RenderOpensWithM(fs: seq<Field>)
    requires |fs| > 0 && fs[0] == Field("", "M")
    ensures Render(fs) != "$$$$"
  {
    assert Render(fs)[0] == 'M';
  }

  lemma Ctab3000HeadNoSeparator(els: seq<string>, pts: Frame, m: nat, fixed: Fixed)
    requires |els| == |pts|
    ensures NoSeparator(Ctab3000Head(els, pts, m, fixed))
  {
    var n := |els|;
    var h := Ctab3000Head(els, pts, m, fixed);
    Ctab3000HeadLines(els, pts, m, fixed);
    forall k | 0 <= k < |h|
      ensures h[k] != "$$$$"
    {
      if k == 2 {
        RenderOpensWithM(CountsFields3000(n, m));
      } else if 4 <= k < n + 4 {
        RenderOpensWithM(AtomFields3000(k - 4, els[k - 4], pts[k - 4], fixed));
      }
    }
  }

  lemma BondLinesNoSeparator(rows: seq<BondRow>, v3000: bool)
    ensures NoSeparator(BondLines(rows, 0, v3000).lines)
  {
    var b := BondLines(rows, 0, v3000);
    BondLinesSpec(rows, 0, v3000);
    forall l | 0 <= l < |b.lines|
      ensures b.lines[l] != "$$$$"
    {
      var code := MolCode(rows[l].order).value;
      if v3000 {
        RenderOpensWithM(BondFields3000(l, code, rows[l]));
      } else {
        assert |BondLine2000(code, rows[l])| > 4;
      }
    }
  }

  lemma Ctab3000NoSeparator(els: seq<string>, pts: Frame, rows: seq<BondRow>, fixed: Fixed)
    requires |els| == |pts|
    ensures NoSeparator(Ctab3000(els, pts, rows, fixed).lines)
  {
    var h := Ctab3000Head(els, pts, |rows|, fixed);
    var b := BondLines(rows, 0, true);
    var ends := ["M  V30 END BOND", "M  V30 END CTAB"];
    Ctab3000HeadNoSeparator(els, pts, |rows|, fixed);
    BondLinesNoSeparator(rows, true);
    var w := Ctab3000(els, pts, rows, fixed);
    assert w.lines == h + b.lines + (if b.error.None? then ends else []);
  }

  lemma Ctab2000NoSeparator(els: seq<string>, pts: Frame, rows: seq<BondRow>, fixed: Fixed)
    requires |els| == |pts|
    ensures NoSeparator(Ctab2000(els, pts, rows, fixed).lines)
  {
    var n := |els|;
    var h := Ctab2000Head(els, pts, |rows|, fixed);
    BondLinesNoSeparator(rows, false);
    var w := Ctab2000(els, pts, rows, fixed);
    assert w.lines == h + BondLines(rows, 0, false).lines;
    forall k | 0 <= k < |h|
      ensures h[k] != "$$$$"
    {
      if k == 0 {
        assert |CountsLine2000(n, |rows|)| > 4;
      } else {
        assert |AtomLine2000(els[k - 1], pts[k - 1], fixed)| > 4;
      }
    }
  }

  lemma BodyNoSeparator(els: seq<string>, pts: Frame, cache: map<string, Cutoff>, t: Tables, toFloat: ToFloat,
                        fixed: Fixed, style: string)
    requires |els| == |pts| && CacheCovers(els, t, cache)
    ensures NoSeparator(Body(els, pts, cache, t, toFloat, fixed, style).lines)
  {
    match FrameRows(els, pts, cache, t, toFloat)
    case Failure(_) =>
    case Success(rows) =>
      Ctab3000NoSeparator(els, pts, rows, fixed);
      Ctab2000NoSeparator(els, pts, rows, fixed);
  }

  /** A block is the header, then the body, then the footer unless the body raised. */
  lemma BlockParts(s: Structure, body: Written)
    ensures Block(s, body).error == body.error
    ensures Block(s, body).lines == Header(s) + body.lines + (if body.error.None? then Footer else [])
  {
  }

  /** Bodies written without an exception, and without a separator line, read as one record each, in
      order: the header, the body, "M END" and "$$$$". */
  lemma {:induction false} BlocksRecords(s: Structure, bodies: seq<Written>)
    requires s.name != "$$$$"
    requires forall k :: 0 <= k < |bodies| ==> NoSeparator(bodies[k].lines)
    requires Blocks(s, bodies).error.None?
    ensures var recs := Records(Blocks(s, bodies).lines);
      && |recs| == |bodies|
      && forall k :: 0 <= k < |bodies| ==> recs[k] == Header(s) + bodies[k].lines + Footer
    decreases |bodies|
  {
    if |bodies| > 0 {
      var body := bodies[0];
      var blk := Block(s, body);
      var rest := Blocks(s, bodies[1..]);
      BlockParts(s, body);
      assert Blocks(s, bodies) == Then(blk, rest);
      assert blk.error.None?;
      var whole := Header(s) + body.lines + Footer;
      assert blk.lines == whole;
      assert NoSeparator(body.lines);
      forall k | 0 <= k < |whole| - 1
        ensures whole[k] != "$$$$"
      {
        if 3 <= k < 3 + |body.lines| {
          assert whole[k] == body.lines[k - 3];
        }
      }
      RecordsAppend(whole, rest.lines);
      assert forall k :: 0 <= k < |bodies| - 1 ==> bodies[1..][k] == bodies[k + 1];
      BlocksRecords(s, bodies[1..]);
      assert Blocks(s, bodies).lines == whole + rest.lines;
    }
  }

  lemma BodiesNoSeparator(s: Structure, ids: seq<int>, cache: map<string, Cutoff>, t: Tables, toFloat: ToFloat,
                          fixed: Fixed, style: string)
    requires Valid(s) && (forall k :: 0 <= k < |ids| ==> ids[k] in s.ids) && CacheCovers(s.elements, t, cache)
    ensures var bodies := Bodies(s, ids, cache, t, toFloat, fixed, style);
      forall k :: 0 <= k < |bodies| ==> NoSeparator(bodies[k].lines)
  {
    var bodies := Bodies(s, ids, cache, t, toFloat, fixed, style);
    forall k | 0 <= k < |bodies|
      ensures NoSeparator(bodies[k].lines)
    {
      BodyNoSeparator(s.elements, FrameOf(s, ids[k]), cache, t, toFloat, fixed, style);
    }
  }

  // ---------------------------------------------------------------------------------------------
  // The whole file

  /** With `coordsets` one block per coordinate set, in id order, otherwise the active one's only; a file
      written without an exception reads as exactly those records, each framed by the header and by
      "M END" and "$$$$" around that frame's connection table. */
  lemma SaveSdfRecords(s: Structure, t: Tables, toFloat: ToFloat, fixed: Fixed, opts: SdfSettings)
    requires Valid(s) && s.name != "$$$$"
    requires SaveSdf(s, t, toFloat, fixed, opts).Opened? && SaveSdf(s, t, toFloat, fixed, opts).contents.error.None?
    ensures CutoffCache(s.elements, t, opts.tol, opts.tsTol).Success?
    ensures var cache := CutoffCache(s.elements, t, opts.tol, opts.tsTol).value;
      var ids := if opts.coordsets then s.ids else [s.active];
      var recs := Records(SaveSdf(s, t, toFloat, fixed, opts).contents.lines);
      && CacheCovers(s.elements, t, cache)
      && |recs| == |ids|
      && forall k :: 0 <= k < |ids| ==>
           recs[k] == Header(s) + Body(s.elements, FrameOf(s, ids[k]), cache, t, toFloat, fixed, opts.style).lines + Footer
  {
    var cache := CutoffCache(s.elements, t, opts.tol, opts.tsTol).value;
    CutoffCacheCovers(s.elements, t, opts.tol, opts.tsTol);
    var ids := WrittenIds(s, opts.coordsets);
    var bodies := Bodies(s, ids, cache, t, toFloat, fixed, opts.style);
    BodiesNoSeparator(s, ids, cache, t, toFloat, fixed, opts.style);
    BlocksRecords(s, bodies);
  }

  /** The blocks open with the first header, and stop right after it when the first body raises. */
  lemma BlocksFirst(s: Structure, bodies: seq<Written>)
    requires 0 < |bodies|
    ensures var all := Blocks(s, bodies);
      && |all.lines| >= 3 && all.lines[..3] == Header(s)
      && (bodies[0].error.Some? ==> all == Written(Header(s) + bodies[0].lines, bodies[0].error))
  {
    var blk := Block(s, bodies[0]);
    var rest := Blocks(s, bodies[1..]);
    var all := Blocks(s, bodies);
    BlockParts(s, bodies[0]);
    assert all == Then(blk, rest);
    if blk.error.None? {
      assert all.lines == blk.lines + rest.lines;
    }
    assert blk.lines[..3] == Header(s);
  }

  /** The file is left untouched exactly when the cutoff cache raises, naming an atom's element without a
      radius. */
  lemma SaveSdfUntouched(s: Structure, t: Tables, toFloat: ToFloat, fixed: Fixed, opts: SdfSettings)
    requires Valid(s)
    ensures SaveSdf(s, t, toFloat, fixed, opts).Untouched? <==> CutoffCache(s.elements, t, opts.tol, opts.tsTol).Failure?
    ensures SaveSdf(s, t, toFloat, fixed, opts).Untouched? ==>
      SaveSdf(s, t, toFloat, fixed, opts).reason.RadiusKeyError?
      && SaveSdf(s, t, toFloat, fixed, opts).reason.element in s.elements
      && SaveSdf(s, t, toFloat, fixed, opts).reason.element !in t.radii
  {
    CutoffCacheErrors(s.elements, t, opts.tol, opts.tsTol);
  }

  /** Once the file is open the first block's header is always written, and then: a single atom raises
      IndexError(-1) right after it; an unknown style raises NotImplementedError right after it, unless a
      reference label that `float` rejects raises ValueError first. */
  lemma SaveSdfOutcome(s: Structure, t: Tables, toFloat: ToFloat, fixed: Fixed, opts: SdfSettings)
    requires Valid(s) && SaveSdf(s, t, toFloat, fixed, opts).Opened?
    ensures var w := SaveSdf(s, t, toFloat, fixed, opts).contents;
      && |w.lines| >= 3 && w.lines[..3] == Header(s)
      && (|s.elements| == 1 ==> w == Written(Header(s), Some(DistanceIndexError(-1))))
      && (opts.style != "V3000" && opts.style != "V2000" && |s.elements| != 1 ==>
            && w.lines == Header(s)
            && (w.error == Some(StyleNotImplemented(opts.style)) || w.error.value.OrderValueError?)
            && (LabelsConvert(t, toFloat) ==> w.error == Some(StyleNotImplemented(opts.style))))
  {
    var cache := CutoffCache(s.elements, t, opts.tol, opts.tsTol).value;
    CutoffCacheCovers(s.elements, t, opts.tol, opts.tsTol);
    var ids := WrittenIds(s, opts.coordsets);
    var pts := FrameOf(s, ids[0]);
    var bodies := Bodies(s, ids, cache, t, toFloat, fixed, opts.style);
    assert bodies[0] == Body(s.elements, pts, cache, t, toFloat, fixed, opts.style);
    BlocksFirst(s, bodies);
    FrameRowsErrors(s.elements, pts, cache, t, toFloat);
  }

  lemma BodiesTs(s: Structure, ids: seq<int>, c1: map<string, Cutoff>, c2: map<string, Cutoff>,
                 t: Tables, toFloat: ToFloat, fixed: Fixed, style: string)
    requires Valid(s) && (forall k :: 0 <= k < |ids| ==> ids[k] in s.ids)
    requires CacheCovers(s.elements, t, c1) && CacheCovers(s.elements, t, c2) && TsAgree(c1, c2)
    ensures Bodies(s, ids, c1, t, toFloat, fixed, style) == Bodies(s, ids, c2, t, toFloat, fixed, style)
  {
    forall k | 0 <= k < |ids|
      ensures Bodies(s, ids, c1, t, toFloat, fixed, style)[k] == Bodies(s, ids, c2, t, toFloat, fixed, style)[k]
    {
      FrameRowsTs(s.elements, FrameOf(s, ids[k]), c1, c2, t, toFloat);
    }
  }

  /** `tolerance` has no effect on the file: only the transition-state cutoffs decide which pairs are
      written, and a missing radius raises whatever the tolerance. */
  lemma ToleranceIgnored(s: Structure, t: Tables, toFloat: ToFloat, fixed: Fixed, opts: SdfSettings, tol: real)
    requires Valid(s)
    ensures SaveSdf(s, t, toFloat, fixed, opts) == SaveSdf(s, t, toFloat, fixed, opts.(tol := tol))
  {
    var opts2 := opts.(tol := tol);
    CutoffCacheTs(s.elements, t, opts.tol, tol, opts.tsTol);
    var cc1 := CutoffCache(s.elements, t, opts.tol, opts.tsTol);
    var cc2 := CutoffCache(s.elements, t, tol, opts.tsTol);
    if cc1.Success? {
      CutoffCacheCovers(s.elements, t, opts.tol, opts.tsTol);
      CutoffCacheCovers(s.elements, t, tol, opts.tsTol);
      BodiesTs(s, WrittenIds(s, opts.coordsets), cc1.value, cc2.value, t, toFloat, fixed, opts.style);
    }
  }

  /** Every line reads as a V3000 bond line whose type code is not 8. */
  predicate NoCodeEight(lines: seq<string>) {
    forall line :: line in lines ==> ReadBond3000(line).Some? && ReadBond3000(line).value.1 != 8
  }

  /** A row whose order is coded but is not 0.5 gives a V3000 bond line that reads back without code 8. */
  lemma BondLineNoCodeEight(l: nat, r: BondRow)
    requires MolCode(r.order).Some? && r.order != 0.5
    ensures var line := BondLine(l, MolCode(r.order).value, r, true);
      ReadBond3000(line).Some? && ReadBond3000(line).value.1 != 8
  {
    BondLine3000ReadsBack(l, MolCode(r.order).value, r);
  }

  /** Rows without order 0.5 give V3000 bond lines without code 8. */
  lemma BondLinesNoCodeEight(rows: seq<BondRow>)
    requires forall x :: x in rows ==> x.order != 0.5
    ensures NoCodeEight(BondLines(rows, 0, true).lines)
  {
    var b := BondLines(rows, 0, true);
    BondLinesSpec(rows, 0, true);
    forall line | line in b.lines
      ensures ReadBond3000(line).Some? && ReadBond3000(line).value.1 != 8
    {
      var l :| 0 <= l < |b.lines| && b.lines[l] == line;
      assert rows[l] in rows;
      BondLineNoCodeEight(l, rows[l]);
    }
  }

  lemma NoHalfNoCodeEight(els: seq<string>, pts: Frame, rows: seq<BondRow>, fixed: Fixed)
    requires |els| == |pts| && forall x :: x in rows ==> x.order != 0.5
    ensures var w := Ctab3000(els, pts, rows, fixed);
      var n := |els|;
      && |w.lines| >= n + 6 + FirstUnmapped(rows, 0)
      && NoCodeEight(w.lines[n + 6..n + 6 + FirstUnmapped(rows, 0)])
  {
    var w := Ctab3000(els, pts, rows, fixed);
    var h := Ctab3000Head(els, pts, |rows|, fixed);
    var b := BondLines(rows, 0, true);
    var ends := ["M  V30 END BOND", "M  V30 END CTAB"];
    BondLinesSpec(rows, 0, true);
    Ctab3000HeadLines(els, pts, |rows|, fixed);
    BondLinesNoCodeEight(rows);
    var tail := if b.error.None? then ends else [];
    assert w.lines == h + b.lines + tail;
    assert w.lines[|h|..|h| + |b.lines|] == b.lines;
  }

  /** Unless a reference label converts to 0.5, no V3000 bond line of a frame carries code 8. */
  lemma HalfCodeNeverWritten(els: seq<string>, pts: Frame, cache: map<string, Cutoff>, t: Tables, toFloat: ToFloat,
                             fixed: Fixed)
    requires |els| == |pts| && CacheCovers(els, t, cache) && NoHalfLabel(t, toFloat)
    requires FrameRows(els, pts, cache, t, toFloat).Success?
    ensures var rows := FrameRows(els, pts, cache, t, toFloat).value;
      var w := Ctab3000(els, pts, rows, fixed);
      var n := |els|;
      && |w.lines| >= n + 6 + FirstUnmapped(rows, 0)
      && NoCodeEight(w.lines[n + 6..n + 6 + FirstUnmapped(rows, 0)])
  {
    var rows := FrameRows(els, pts, cache, t, toFloat).value;
    FrameRowsNoHalf(els, pts, cache, t, toFloat);
    NoHalfNoCodeEight(els, pts, rows, fixed);
  }
}
