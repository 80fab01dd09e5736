/**
 The two fixed linguistic scales (criterion importance and alternative
 performance), the cells of the experts' input matrices, and the lookup of a
 cell in a scale.
 */
module Scales {
  import opened Fuzzy

  datatype Option<T> = None | Some(value: T)

  /** Labels of the criterion-importance scale, weakest first. */
  datatype CritTerm = VL | L | ML | M | MH | H | VH

  /** Labels of the alternative-performance scale, weakest first. */
  datatype AltTerm = VP | P | MP | F | MG | G | VG

  /** A cell of an input matrix as the editor holds it: nothing usable
      (missing, undefined or the empty string, all falsy), a label of the
      cell's scale, or some other non-empty label that the scale does not
      contain. */
  datatype Cell<T> = Absent | Label(term: T) | Unrecognised

  /** `CRITERIA_TERMS`. */
  function CritTri(t: CritTerm): (r: TFN)
    ensures WellScaled(r)
  {
    match t
    case VL => TFN(0.0, 0.0, 0.1)
    case L => TFN(0.0, 0.1, 0.3)
    case ML => TFN(0.1, 0.3, 0.5)
    case M => TFN(0.3, 0.5, 0.7)
    case MH => TFN(0.5, 0.7, 0.9)
    case H => TFN(0.7, 0.7, 1.0)
    case VH => TFN(0.9, 1.0, 1.0)
  }

  /** `ALT_TERMS`. */
  function AltTri(t: AltTerm): (r: TFN)
    ensures WellScaled(r)
  {
    match t
    case VP => TFN(0.0, 0.0, 0.1)
    case P => TFN(0.0, 0.1, 0.3)
    case MP => TFN(0.1, 0.3, 0.5)
    case F => TFN(0.3, 0.5, 0.7)
    case MG => TFN(0.5, 0.7, 0.9)
    case G => TFN(0.7, 0.7, 1.0)
    case VG => TFN(0.9, 1.0, 1.0)
  }

  function CritRank(t: CritTerm): nat {
    match t
    case VL => 0 case L => 1 case ML => 2 case M => 3 case MH => 4 case H => 5 case VH => 6
  }

  function AltRank(t: AltTerm): nat {
    match t
    case VP => 0 case P => 1 case MP => 2 case F => 3 case MG => 4 case G => 5 case VG => 6
  }

  /** The importance scale is monotone: a stronger label never has a smaller
      component. */
  lemma CritTriMonotone(a: CritTerm, b: CritTerm)
    requires CritRank(a) <= CritRank(b)
    ensures Leq(CritTri(a), CritTri(b))
  {
  }

  /** The performance scale is monotone in the same way. */
  lemma AltTriMonotone(a: AltTerm, b: AltTerm)
    requires AltRank(a) <= AltRank(b)
    ensures Leq(AltTri(a), AltTri(b))
  {
  }

  /** The two scales bind the same triangle to labels of the same rank. */
  lemma ScalesAgree(a: CritTerm, b: AltTerm)
    requires CritRank(a) == AltRank(b)
    ensures CritTri(a) == AltTri(b)
  {
  }

  /** Every label of a scale maps to a well-scaled triangle. */
  ghost predicate ValidScale<T(!new)>(table: T -> TFN) {
    forall t :: WellScaled(table(t))
  }

  lemma ScalesValid()
    ensures ValidScale(CritTri) && ValidScale(AltTri)
  {
  }

  /** Reading a cell in a scale: a missing cell reads as the scale's neutral
      label, a known label as its triangle, and an unknown label has no
      triangle (the source then fails on `undefined`). */
  function Lookup<T(!new)>(c: Cell<T>, table: T -> TFN, neutral: T): (r: Option<TFN>)
    ensures r.None? <==> c.Unrecognised?
    ensures c.Absent? ==> r == Some(table(neutral))
    ensures c.Label? ==> r == Some(table(c.term))
    ensures r.Some? && ValidScale(table) ==> WellScaled(r.value)
  {
    match c
    case Absent => Some(table(neutral))
    case Label(t) => Some(table(t))
    case Unrecognised => None
  }

  /** All-or-nothing: the values of a sequence of options when every one is
      present. */
  function AllSome<X>(xs: seq<Option<X>>): (r: Option<seq<X>>)
    ensures r.Some? <==> forall i :: 0 <= i < |xs| ==> xs[i].Some?
    ensures r.Some? ==> |r.value| == |xs| && forall i :: 0 <= i < |xs| ==> xs[i] == Some(r.value[i])
  {
    if |xs| == 0 then Some([])
    else
      match AllSome(xs[..|xs| - 1])
      case None => None
      case Some(init) =>
        match xs[|xs| - 1]
        case None => None
        case Some(x) => Some(init + [x])
  }
}
