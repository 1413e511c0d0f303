/** Dominant-influence aggregation: per-vertex skin weights of a face are
    summed per influence, and the influence with the strictly greatest sum
    (the first one on ties) becomes the face's joint. The scan starts from the
    smallest positive normal number, so a face whose sums are all zero or
    negative falls back to influence 0. */
module Influence {
  import opened Numeric

  /** One face as the skin cluster reports it: `weights` holds
      `numVertices` rows of `numInfluences` weights, row after row. */
  datatype FaceWeights = FaceWeights(numVertices: nat, numInfluences: nat, weights: seq<real>)

  /** The weight table has exactly one entry per vertex and influence. */
  predicate WellFormed(f: FaceWeights) {
    |f.weights| == f.numVertices * f.numInfluences
  }

  lemma RowBounds(n: nat, v: nat, k: nat)
    requires k < n
    ensures v * n + k < (v + 1) * n
    ensures v * n <= (v + 1) * n
  {
    assert (v + 1) * n == v * n + n;
  }

  lemma NextRow(n: nat, v: nat)
    ensures (v + 1) * n == v * n + n
  {
  }

  lemma RowsWithin(n: nat, v: nat, nv: nat)
    requires v <= nv
    ensures v * n <= nv * n
  {
  }

  /** Column `k` of the first `nv` rows of a row-major table with `n` columns,
      summed top to bottom. */
  function ColumnSum(w: seq<real>, n: nat, nv: nat, k: nat): real
    requires k < n && nv * n <= |w|
  {
    if nv == 0 then 0.0
    else
      RowBounds(n, nv - 1, k);
      ColumnSum(w, n, nv - 1, k) + w[(nv - 1) * n + k]
  }

  /** The per-influence sums of a face, as a reference definition. */
  function FaceSums(f: FaceWeights): (r: seq<real>)
    requires WellFormed(f)
    ensures |r| == f.numInfluences
  {
    seq(f.numInfluences, k requires 0 <= k < f.numInfluences =>
      ColumnSum(f.weights, f.numInfluences, f.numVertices, k))
  }

  /** The summation loop: sums start at zero and take `weights[count++]`
      for every vertex and, within it, every influence. */
  method WeightSums(f: FaceWeights) returns (sums: seq<real>)
    requires WellFormed(f)
    ensures sums == FaceSums(f)
  {
    var n := f.numInfluences;
    var w := f.weights;
    sums := seq(n, _ => 0.0);
    var count := 0;
    var vtx := 0;
    while vtx < f.numVertices
      invariant 0 <= vtx <= f.numVertices
      invariant count == vtx * n
      invariant |sums| == n
      invariant forall k :: 0 <= k < n ==> sums[k] == ColumnSum(w, n, vtx, k)
    {
      RowsWithin(n, vtx + 1, f.numVertices);
      var influence := 0;
      while influence < n
        invariant 0 <= influence <= n
        invariant count == vtx * n + influence
        invariant |sums| == n
        invariant forall k :: 0 <= k < influence ==> sums[k] == ColumnSum(w, n, vtx + 1, k)
        invariant forall k :: influence <= k < n ==> sums[k] == ColumnSum(w, n, vtx, k)
      {
        RowBounds(n, vtx, influence);
        sums := sums[influence := sums[influence] + w[count]];
        count := count + 1;
        influence := influence + 1;
      }
      NextRow(n, vtx);
      vtx := vtx + 1;
    }
  }

  /** The best weight seen so far and its index. */
  datatype Best = Best(weight: real, index: nat)

  /** The arg-max loop after its first `i` iterations: a sum replaces the
      best only when it is strictly greater. */
  function Scan(sums: seq<real>, floor: real, i: nat): (b: Best)
    requires i <= |sums|
    ensures (forall k :: 0 <= k < i ==> sums[k] <= floor) ==> b == Best(floor, 0)
    ensures (exists k :: 0 <= k < i && sums[k] > floor) ==>
              b.index < i && b.weight == sums[b.index] && b.weight > floor
    ensures forall k :: 0 <= k < i ==> sums[k] <= b.weight
    ensures forall k :: 0 <= k < b.index ==> sums[k] < b.weight
  {
    if i == 0 then Best(floor, 0)
    else
      var prev := Scan(sums, floor, i - 1);
      if sums[i - 1] > prev.weight then Best(sums[i - 1], i - 1) else prev
  }

  /** Reference definition: with no sum above `floor` the index is 0;
      otherwise it is the first position of the greatest sum. */
  ghost predicate IsDominant(sums: seq<real>, floor: real, idx: nat) {
    if forall k :: 0 <= k < |sums| ==> sums[k] <= floor then idx == 0
    else
      idx < |sums| && sums[idx] > floor
      && (forall k :: 0 <= k < |sums| ==> sums[k] <= sums[idx])
      && (forall k :: 0 <= k < idx ==> sums[k] < sums[idx])
  }

  /** The index the arg-max loop leaves behind. */
  function DominantIndex(sums: seq<real>, floor: real): (r: nat)
    ensures IsDominant(sums, floor, r)
  {
    Scan(sums, floor, |sums|).index
  }

  /** The reference definition pins down a single index, so any loop meeting
      it computes the same table. */
  lemma DominantIsUnique(sums: seq<real>, floor: real, a: nat, b: nat)
    requires IsDominant(sums, floor, a) && IsDominant(sums, floor, b)
    ensures a == b
  {
  }

  /** The face's joint is in range whenever some sum is positive enough;
      otherwise it is 0. */
  lemma DominantInRange(sums: seq<real>, floor: real)
    ensures (exists k :: 0 <= k < |sums| && sums[k] > floor) ==> DominantIndex(sums, floor) < |sums|
    ensures (forall k :: 0 <= k < |sums| ==> sums[k] <= floor) ==> DominantIndex(sums, floor) == 0
  {
  }

  /** `calculateMaxInfluences`: one entry per polygon, each the dominant
      influence of that face's summed weights, compared against the smallest
      positive double. */
  method MaxInfluences(faces: seq<FaceWeights>) returns (table: seq<nat>)
    requires forall i :: 0 <= i < |faces| ==> WellFormed(faces[i])
    ensures |table| == |faces|
    ensures forall i :: 0 <= i < |faces| ==>
              IsDominant(FaceSums(faces[i]), DoubleMinPositive(), table[i])
    ensures table == MaxInfluenceTable(faces)
  {
    table := [];
    var i := 0;
    while i < |faces|
      invariant 0 <= i <= |faces|
      invariant |table| == i
      invariant forall j :: 0 <= j < i ==> IsDominant(FaceSums(faces[j]), DoubleMinPositive(), table[j])
      invariant table == MaxInfluenceTable(faces)[..i]
    {
      var sums := WeightSums(faces[i]);
      table := table + [DominantIndex(sums, DoubleMinPositive())];
      i := i + 1;
    }
  }

  /** The table `calculateMaxInfluences` leaves in `_maxInfluences`, as a
      value: one dominant influence per face. */
  function MaxInfluenceTable(faces: seq<FaceWeights>): (r: seq<nat>)
    requires forall i :: 0 <= i < |faces| ==> WellFormed(faces[i])
    ensures |r| == |faces|
    ensures forall i :: 0 <= i < |faces| ==> IsDominant(FaceSums(faces[i]), DoubleMinPositive(), r[i])
  {
    seq(|faces|, i requires 0 <= i < |faces| => DominantIndex(FaceSums(faces[i]), DoubleMinPositive()))
  }

  /** The per-vertex variant: the first strictly greatest of a single
      vertex's weights, compared against the smallest positive float. */
  function VertexInfluence(weights: seq<real>): (r: nat)
    ensures IsDominant(weights, FloatMinPositive(), r)
  {
    DominantIndex(weights, FloatMinPositive())
  }

  /** Which corner of the hit triangle is closest: the largest barycentric
      coordinate, checked in corner order with `>=`. */
  function ClosestCorner(bary0: real, bary1: real, bary2: real): (r: nat)
    ensures r < 3
  {
    if bary0 >= bary1 && bary0 >= bary2 then 0
    else if bary1 >= bary0 && bary1 >= bary2 then 1
    else 2
  }

  /** The chosen corner holds the largest coordinate, and every earlier
      corner holds a strictly smaller one. */
  lemma ClosestCornerIsFirstMaximum(bary0: real, bary1: real, bary2: real)
    ensures var b := [bary0, bary1, bary2];
            var c := ClosestCorner(bary0, bary1, bary2);
            (forall j :: 0 <= j < 3 ==> b[j] <= b[c]) && (forall j :: 0 <= j < c ==> b[j] < b[c])
  {
  }

  /** The third barycentric coordinate the source derives, so that the three
      sum to one. */
  function ThirdBarycentric(bary0: real, bary1: real): (r: real)
    ensures bary0 + bary1 + r == 1.0
  {
    1.0 - bary0 - bary1
  }
}
