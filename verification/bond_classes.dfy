/** The six bond-order classes, the pseudobond group each one is drawn in, and
    the colour / dash style a group gets when a mouse mode or the classifier
    writes to it. */
module BondClasses {
  import opened Outcomes

  datatype BondClass = Broken | Half | Single | Aromatic | Double | Triple

  /** `bo_names`, which is also the key order of the classifier's `bonds` dict. */
  const AllClasses: seq<BondClass> := [Broken, Half, Single, Aromatic, Double, Triple]

  /** RGBA colour, components 0..255 except where a mode sets something else. */
  datatype Rgba = Rgba(r: int, g: int, b: int, a: int)

  datatype Style = Style(color: Rgba, dashes: int)

  /** Name of the pseudobond group (and of the mouse mode) for a class. */
  function Name(c: BondClass): string {
    match c
    case Broken => "broken"
    case Half => "half"
    case Single => "single"
    case Aromatic => "aromatic"
    case Double => "double"
    case Triple => "triple"
  }

  /** The group a name refers to, if it is one of the six class groups. */
  function ClassNamed(name: string): (r: Option<BondClass>)
    ensures r.Some? ==> Name(r.value) == name
  {
    if name == "broken" then Some(Broken)
    else if name == "half" then Some(Half)
    else if name == "single" then Some(Single)
    else if name == "aromatic" then Some(Aromatic)
    else if name == "double" then Some(Double)
    else if name == "triple" then Some(Triple)
    else None
  }

  /** Names identify classes: the lookup inverts `Name`, and `AllClasses` lists each class once. */
  lemma NamesIdentifyClasses(c: BondClass)
    ensures ClassNamed(Name(c)) == Some(c)
    ensures c in AllClasses
    ensures forall k, l :: 0 <= k < l < |AllClasses| ==> AllClasses[k] != AllClasses[l]
  {
  }

  lemma AllClassesListed()
    ensures forall c: BondClass :: c in AllClasses
  {
    forall c: BondClass
      ensures c in AllClasses
    {
      NamesIdentifyClasses(c);
    }
  }

  /** `draw_new`: only the "broken" mode creates no pseudobond. */
  predicate DrawsNew(c: BondClass) {
    c != Broken
  }

  /** The class attributes of the mouse modes (`color`, `dashes`), which the classifier copies onto
      the groups it writes. */
  function ModeStyle(c: BondClass): Style {
    match c
    case Broken => Style(Rgba(0, 0, 0, 1), 0)
    case Half => Style(Rgba(50, 190, 50, 100), 0)
    case Single => Style(Rgba(255, 255, 255, 255), 0)
    case Aromatic => Style(Rgba(255, 0, 255, 255), 4)
    case Double => Style(Rgba(0, 0, 0, 255), 4)
    case Triple => Style(Rgba(255, 255, 0, 255), 6)
  }

  /** Styles tell the drawn classes apart: no two classes that create pseudobonds share colour and dashes. */
  lemma DrawnStylesDistinct(c: BondClass, d: BondClass)
    requires DrawsNew(c) && DrawsNew(d) && c != d
    ensures ModeStyle(c) != ModeStyle(d)
  {
  }
}
