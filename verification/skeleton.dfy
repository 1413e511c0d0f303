/** Facts the mannequin context derives from the skeleton once per tool
    session: the longest joint segment, the per-joint size ratio, the scale
    of the rotate handle, and the lookup tables from influence path to
    influence index and presentation style. */
module Skeleton {
  import opened Wrappers
  import opened Numeric
  import opened Vectors
  import opened DagPaths
  import opened Scene
  import P = Presentation

  /** Length of the object-space translation of a child joint. */
  function SegmentLength(c: Child, sqrt: real -> real): real
    requires IsSqrt(sqrt)
  {
    Length(c.translation, sqrt)
  }

  /** The longest segment among the joint children, starting from 0; other
      children are skipped. */
  function LongestChild(children: seq<Child>, sqrt: real -> real): (r: real)
    requires IsSqrt(sqrt)
    ensures r >= 0.0
    ensures forall j :: 0 <= j < |children| && children[j].isJoint ==> SegmentLength(children[j], sqrt) <= r
    ensures r == 0.0 || exists j :: 0 <= j < |children| && children[j].isJoint && r == SegmentLength(children[j], sqrt)
  {
    if |children| == 0 then 0.0
    else
      var rest := LongestChild(children[..|children| - 1], sqrt);
      var last := children[|children| - 1];
      if last.isJoint then Max(rest, SegmentLength(last, sqrt)) else rest
  }

  /** Child `j` of influence `i` is a joint. */
  predicate IsJointOf(world: World, influences: seq<DagPath>, i: int, j: int) {
    0 <= i < |influences| && 0 <= j < |Children(world, influences[i])| && Children(world, influences[i])[j].isJoint
  }

  /** No joint segment below an influence is longer than `r`. */
  ghost predicate BoundsSegments(world: World, influences: seq<DagPath>, sqrt: real -> real, r: real)
    requires IsSqrt(sqrt)
  {
    forall i, j :: IsJointOf(world, influences, i, j) ==> SegmentLength(Children(world, influences[i])[j], sqrt) <= r
  }

  /** `r` is 0 or the length of some joint segment below an influence. */
  ghost predicate AttainsSegment(world: World, influences: seq<DagPath>, sqrt: real -> real, r: real)
    requires IsSqrt(sqrt)
  {
    r == 0.0 || exists i, j :: IsJointOf(world, influences, i, j) && r == SegmentLength(Children(world, influences[i])[j], sqrt)
  }

  /** `calculateLongestJoint`: the longest joint segment hanging below any
      influence, or 0 when there is none. */
  function LongestJoint(world: World, influences: seq<DagPath>, sqrt: real -> real): (r: real)
    requires IsSqrt(sqrt)
    ensures r >= 0.0
    ensures BoundsSegments(world, influences, sqrt, r)
    ensures AttainsSegment(world, influences, sqrt, r)
  {
    if |influences| == 0 then 0.0
    else
      var n := |influences| - 1;
      var rest := LongestJoint(world, influences[..n], sqrt);
      var own := LongestChild(Children(world, influences[n]), sqrt);
      LongestJointStep(world, influences, sqrt, rest, own);
      Max(rest, own)
  }

  /** Adding one influence to the scan keeps the running maximum exact. */
  lemma LongestJointStep(world: World, influences: seq<DagPath>, sqrt: real -> real, rest: real, own: real)
    requires IsSqrt(sqrt) && |influences| > 0 && rest >= 0.0
    requires BoundsSegments(world, influences[..|influences| - 1], sqrt, rest)
    requires AttainsSegment(world, influences[..|influences| - 1], sqrt, rest)
    requires own == LongestChild(Children(world, influences[|influences| - 1]), sqrt)
    ensures BoundsSegments(world, influences, sqrt, Max(rest, own))
    ensures AttainsSegment(world, influences, sqrt, Max(rest, own))
  {
    StepBounds(world, influences, sqrt, rest, own);
    StepAttains(world, influences, sqrt, rest, own);
  }

  lemma StepBounds(world: World, influences: seq<DagPath>, sqrt: real -> real, rest: real, own: real)
    requires IsSqrt(sqrt) && |influences| > 0
    requires BoundsSegments(world, influences[..|influences| - 1], sqrt, rest)
    requires own == LongestChild(Children(world, influences[|influences| - 1]), sqrt)
    ensures BoundsSegments(world, influences, sqrt, Max(rest, own))
  {
    var n := |influences| - 1;
    var prefix := influences[..n];
    forall i, j | IsJointOf(world, influences, i, j)
      ensures SegmentLength(Children(world, influences[i])[j], sqrt) <= Max(rest, own)
    {
      if i < n {
        assert prefix[i] == influences[i];
        assert IsJointOf(world, prefix, i, j);
      }
    }
  }

  lemma StepAttains(world: World, influences: seq<DagPath>, sqrt: real -> real, rest: real, own: real)
    requires IsSqrt(sqrt) && |influences| > 0
    requires AttainsSegment(world, influences[..|influences| - 1], sqrt, rest)
    requires own == LongestChild(Children(world, influences[|influences| - 1]), sqrt)
    ensures AttainsSegment(world, influences, sqrt, Max(rest, own))
  {
    var n := |influences| - 1;
    var prefix := influences[..n];
    if Max(rest, own) == own && own != 0.0 {
      var j :| 0 <= j < |Children(world, influences[n])| && Children(world, influences[n])[j].isJoint
        && own == SegmentLength(Children(world, influences[n])[j], sqrt);
      assert IsJointOf(world, influences, n, j);
    } else if Max(rest, own) == rest && rest != 0.0 {
      var i, j :| IsJointOf(world, prefix, i, j) && rest == SegmentLength(Children(world, prefix[i])[j], sqrt);
      assert prefix[i] == influences[i];
      assert IsJointOf(world, influences, i, j);
    }
  }

  /** Every influence's own longest segment is bounded by the skeleton's. */
  lemma OwnWithinLongest(world: World, influences: seq<DagPath>, i: nat, sqrt: real -> real)
    requires IsSqrt(sqrt) && i < |influences|
    ensures LongestChild(Children(world, influences[i]), sqrt) <= LongestJoint(world, influences, sqrt)
  {
    var own := LongestChild(Children(world, influences[i]), sqrt);
    if own != 0.0 {
      var j :| 0 <= j < |Children(world, influences[i])| && Children(world, influences[i])[j].isJoint
        && own == SegmentLength(Children(world, influences[i])[j], sqrt);
    }
  }

  /** `calculateJointLengthRatio`. With the cached auto-adjust flag set and
      true the joint's own longest segment is scaled into `[1/4, 1]` of the
      skeleton's longest; otherwise the ratio is 1. A zero `longest` makes
      the quotient infinite or NaN, modelled as `None`. */
  function JointLengthRatio(autoAdjust: Option<bool>, own: real, longest: real): (r: Option<real>)
    ensures autoAdjust != Some(true) ==> r == Some(1.0)
    ensures autoAdjust == Some(true) && longest == 0.0 ==> r.None?
    ensures autoAdjust == Some(true) && longest > 0.0 && 0.0 <= own <= longest ==>
              r.Some? && 0.25 <= r.value <= 1.0
    ensures autoAdjust == Some(true) && longest > 0.0 && own == longest ==> r == Some(1.0)
    ensures autoAdjust == Some(true) && longest != 0.0 && own == 0.0 ==> r == Some(0.25)
  {
    if autoAdjust == Some(true) then
      if longest == 0.0 then None
      else
        RatioBounds(own, longest);
        Some(own / longest * 0.75 + 0.25)
    else Some(1.0)
  }

  lemma RatioBounds(own: real, longest: real)
    requires longest != 0.0
    ensures longest > 0.0 && 0.0 <= own <= longest ==> 0.0 <= own / longest <= 1.0
    ensures own == longest ==> own / longest == 1.0
  {
  }

  /** For any influence of a non-trivial skeleton the ratio lies in
      `[1/4, 1]`. */
  lemma InfluenceRatioInRange(world: World, influences: seq<DagPath>, i: nat, autoAdjust: Option<bool>,
                              sqrt: real -> real)
    requires IsSqrt(sqrt) && i < |influences|
    requires LongestJoint(world, influences, sqrt) > 0.0
    ensures var r := JointLengthRatio(autoAdjust, LongestChild(Children(world, influences[i]), sqrt),
                                      LongestJoint(world, influences, sqrt));
            r.Some? && 0.25 <= r.value <= 1.0
  {
    OwnWithinLongest(world, influences, i, sqrt);
  }

  /** `manipAdjustedScale`: the user's scale times the fixed adjustment,
      the longest segment and the joint's ratio. */
  function AdjustedScale(manipScale: real, manipAdjustment: real, longest: real, ratio: Option<real>): (r: Option<real>)
    ensures r.Some? <==> ratio.Some?
    ensures ratio == Some(1.0) ==> r == Some(Product3(manipScale, manipAdjustment, longest))
    ensures (ratio.Some? && manipScale >= 0.0 && manipAdjustment >= 0.0 && longest >= 0.0
             && ratio.value >= 0.0) ==> r.value >= 0.0
  {
    match ratio
    case None => None
    case Some(k) =>
      NonNegativeProduct(manipScale, manipAdjustment, longest, k);
      Some(Product3(manipScale, manipAdjustment, longest) * k)
  }

  function Product3(a: real, b: real, c: real): real {
    a * b * c
  }

  lemma NonNegativeProduct(a: real, b: real, c: real, d: real)
    ensures a >= 0.0 && b >= 0.0 && c >= 0.0 && d >= 0.0 ==> Product3(a, b, c) * d >= 0.0
  {
    if a >= 0.0 && b >= 0.0 && c >= 0.0 && d >= 0.0 {
      assert a * b >= 0.0;
      assert a * b * c >= 0.0;
    }
  }

  /** The style an influence is offered: a leaf (no children at all) is
      translated, anything else rotated. */
  function LeafStyle(world: World, p: DagPath): (r: P.Style)
    ensures r == P.Translate <==> |Children(world, p)| == 0
    ensures r == P.Rotate || r == P.Translate
  {
    if |Children(world, p)| == 0 then P.Translate else P.Rotate
  }

  /** The two maps keyed by full path name, as the path comparator keys them. */
  datatype Lookup = Lookup(index: map<string, int>, style: map<string, P.Style>)

  /** `calculateDagLookupTables`: influences are entered in order, so when
      two share a full path name the later one wins. */
  function BuildLookup(world: World, influences: seq<DagPath>): (r: Lookup)
    ensures r.index.Keys == r.style.Keys
    ensures forall i :: 0 <= i < |influences| ==> FullPathName(influences[i]) in r.index
  {
    if |influences| == 0 then Lookup(map[], map[])
    else
      var n := |influences| - 1;
      var prev := BuildLookup(world, influences[..n]);
      var name := FullPathName(influences[n]);
      assert forall j :: 0 <= j < n ==> influences[..n][j] == influences[j];
      Lookup(prev.index[name := n], prev.style[name := LeafStyle(world, influences[n])])
  }

  /** A name in the tables maps to the last influence carrying that name,
      and to that influence's style. */
  lemma {:induction false} LookupIsLastEntry(world: World, influences: seq<DagPath>, name: string)
    ensures var r := BuildLookup(world, influences);
            name in r.index ==>
              0 <= r.index[name] < |influences|
              && FullPathName(influences[r.index[name]]) == name
              && (forall j :: r.index[name] < j < |influences| ==> FullPathName(influences[j]) != name)
              && r.style[name] == LeafStyle(world, influences[r.index[name]])
  {
    if |influences| > 0 {
      var n := |influences| - 1;
      LookupIsLastEntry(world, influences[..n], name);
      assert forall j :: 0 <= j < n ==> influences[..n][j] == influences[j];
    }
  }

  /** `influenceIndexForJointDagPath`: -1 for a path that is not an influence. */
  function IndexFor(lookup: Lookup, p: DagPath): int {
    var name := FullPathName(p);
    if name in lookup.index then lookup.index[name] else -1
  }

  /** `presentationStyleForJointDagPath`: NONE for a path that is not an
      influence. */
  function StyleFor(lookup: Lookup, p: DagPath): P.Style {
    var name := FullPathName(p);
    if name in lookup.style then lookup.style[name] else P.None
  }

  /** A known influence gets its last position and exactly one of the two
      styles; an unknown path gets -1 and NONE. */
  lemma LookupAnswers(world: World, influences: seq<DagPath>, p: DagPath)
    ensures var lookup := BuildLookup(world, influences);
            (exists i :: 0 <= i < |influences| && FullPathName(influences[i]) == FullPathName(p))
            ==> 0 <= IndexFor(lookup, p) < |influences|
                && FullPathName(influences[IndexFor(lookup, p)]) == FullPathName(p)
                && (StyleFor(lookup, p) == P.Rotate || StyleFor(lookup, p) == P.Translate)
    ensures var lookup := BuildLookup(world, influences);
            (forall i :: 0 <= i < |influences| ==> FullPathName(influences[i]) != FullPathName(p))
            ==> IndexFor(lookup, p) == -1 && StyleFor(lookup, p) == P.None
  {
    LookupIsLastEntry(world, influences, FullPathName(p));
  }

  /** A style from the table never carries both bits. */
  lemma LookupStyleExclusive(world: World, influences: seq<DagPath>, p: DagPath)
    ensures StyleFor(BuildLookup(world, influences), p) & P.Rotate == 0
         || StyleFor(BuildLookup(world, influences), p) & P.Translate == 0
  {
    LookupIsLastEntry(world, influences, FullPathName(p));
  }
}
