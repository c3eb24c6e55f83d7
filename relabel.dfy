/**
  The copy step after labelling: the distinct label values are listed in
  increasing order (np.unique), the first of them is skipped, and every
  voxel whose label is among the rest is copied into a fresh zero-filled
  array. The first distinct value is the background 0 whenever the mask
  has background; when it has none, it is the one label of the whole
  volume, which is then dropped as well.
*/
module Relabel {
  import opened Grid
  import opened Labeling

  // ---------------------------------------------------------------------
  // np.unique over the samples in scan order

  predicate Increasing(u: seq<int>)
  {
    forall i, j :: 0 <= i < j < |u| ==> u[i] < u[j]
  }

  /** The samples of v from p to the end of the scan, in scan order. */
  function SamplesFrom(v: Volume, sh: Shape, p: Cell): (s: seq<int>)
    requires Inside(sh, p) || p == End(sh)
    ensures forall q :: Inside(sh, q) && !Before(q, p) ==> Sample(v, q) in s
    ensures forall i :: 0 <= i < |s| ==> exists q :: Inside(sh, q) && !Before(q, p) && Sample(v, q) == s[i]
    decreases sh.depth - p.s, sh.rows - p.r, sh.cols - p.c
  {
    if Inside(sh, p) then [Sample(v, p)] + SamplesFrom(v, sh, Next(sh, p)) else []
  }

  /** The samples of v in scan order: the flattened array. */
  function Samples(v: Volume, sh: Shape): (s: seq<int>)
    ensures forall q :: Inside(sh, q) ==> Sample(v, q) in s
    ensures forall i :: 0 <= i < |s| ==> exists q :: Inside(sh, q) && Sample(v, q) == s[i]
  {
    SamplesFrom(v, sh, First(sh))
  }

  /** x added to the increasing sequence u, unless it is there already. */
  function Insert(u: seq<int>, x: int): (w: seq<int>)
    requires Increasing(u)
    ensures Increasing(w)
    ensures forall y :: y in w <==> y == x || y in u
  {
    if u == [] then [x]
    else if x < u[0] then [x] + u
    else if x == u[0] then u
    else
      var w' := Insert(u[1..], x);
      assert u == [u[0]] + u[1..];
      assert forall y :: y in w' ==> u[0] < y;
      assert forall i :: 0 <= i < |w'| ==> w'[i] in w';
      [u[0]] + w'
  }

  /** The distinct values of s in increasing order. */
  function Unique(s: seq<int>): (u: seq<int>)
    ensures Increasing(u)
    ensures forall y :: y in u <==> y in s
  {
    if s == [] then [] else
      assert s == [s[0]] + s[1..];
      Insert(Unique(s[1..]), s[0])
  }

  /** Python's u[1:]: everything but the first element, and empty when u is. */
  function DropFirst(u: seq<int>): (w: seq<int>)
    ensures u == [] ==> w == []
    ensures u != [] ==> [u[0]] + w == u
  {
    if u == [] then [] else u[1..]
  }

  // ---------------------------------------------------------------------
  // The copy loop

  /** x is the smallest label of lab. */
  ghost predicate Smallest(lab: Volume, sh: Shape, x: int)
  {
    forall q :: Inside(sh, q) ==> x <= Sample(lab, q)
  }

  /** out is lab with the voxels of its smallest label set to 0. */
  ghost predicate DropsSmallest(lab: Volume, sh: Shape, out: Volume)
  {
    HasShape(out, sh) &&
    forall p :: Inside(sh, p) ==>
      Sample(out, p) == if Smallest(lab, sh, Sample(lab, p)) then 0 else Sample(lab, p)
  }

  /** A label is among the distinct values after the first exactly when it
      is not the smallest label. */
  lemma KeptIffNotSmallest(lab: Volume, sh: Shape, p: Cell)
    requires Inside(sh, p)
    ensures Sample(lab, p) in DropFirst(Unique(Samples(lab, sh))) <==> !Smallest(lab, sh, Sample(lab, p))
  {
    var u := Unique(Samples(lab, sh));
    var x := Sample(lab, p);
    assert x in u;
    var i :| 0 <= i < |u| && u[i] == x;
    assert u[0] in Samples(lab, sh);
    var k :| 0 <= k < |Samples(lab, sh)| && Samples(lab, sh)[k] == u[0];
    var q :| Inside(sh, q) && Sample(lab, q) == u[0];
    if i == 0 {
      forall y | Inside(sh, y)
        ensures x <= Sample(lab, y)
      {
        assert Sample(lab, y) in u;
        var j :| 0 <= j < |u| && u[j] == Sample(lab, y);
      }
    } else {
      assert x in u[1..];
      assert Sample(lab, q) < x;
    }
  }

  /** The copy of the labels of lab whose value is not the first distinct
      value. */
  method CopyLabels(lab: Volume, sh: Shape) returns (out: Volume)
    requires HasShape(lab, sh)
    ensures DropsSmallest(lab, sh, out)
  {
    var rest := DropFirst(Unique(Samples(lab, sh)));
    out := CopyListed(lab, sh, rest);
    CopiedDropsSmallest(lab, sh, out);
  }

  /** The copy loop: a zero-filled array, into which every voxel whose label
      is listed is copied, one listed label at a time. */
  method CopyListed(lab: Volume, sh: Shape, labels: seq<int>) returns (out: Volume)
    requires HasShape(lab, sh)
    ensures HasShape(out, sh)
    ensures forall p :: Inside(sh, p) ==>
              Sample(out, p) == if Sample(lab, p) in labels then Sample(lab, p) else 0
  {
    var a := new int[sh.depth, sh.rows, sh.cols]((s, r, c) => 0);
    for k := 0 to |labels|
      invariant forall p :: Inside(sh, p) ==>
                  a[p.s, p.r, p.c] == if Sample(lab, p) in labels[..k] then Sample(lab, p) else 0
    {
      CopyLabel(a, lab, sh, labels[k]);
      TakeOneMore(labels, k);
    }
    TakeAll(labels);
    out := ToVolume(a);
  }

  lemma CopiedDropsSmallest(lab: Volume, sh: Shape, out: Volume)
    requires HasShape(out, sh)
    requires forall p :: Inside(sh, p) ==>
               Sample(out, p) == if Sample(lab, p) in DropFirst(Unique(Samples(lab, sh))) then Sample(lab, p) else 0
    ensures DropsSmallest(lab, sh, out)
  {
    forall p | Inside(sh, p)
      ensures Sample(out, p) == if Smallest(lab, sh, Sample(lab, p)) then 0 else Sample(lab, p)
    {
      KeptIffNotSmallest(lab, sh, p);
    }
  }

  /** One step of the copy loop: writes x at every voxel labelled x and
      leaves every other voxel as it was. */
  method CopyLabel(a: array3<int>, lab: Volume, sh: Shape, x: int)
    requires a.Length0 == sh.depth && a.Length1 == sh.rows && a.Length2 == sh.cols
    requires HasShape(lab, sh)
    modifies a
    ensures forall p :: Inside(sh, p) ==>
              a[p.s, p.r, p.c] == if Sample(lab, p) == x then x else old(a[p.s, p.r, p.c])
  {
    forall s, r, c | 0 <= s < sh.depth && 0 <= r < sh.rows && 0 <= c < sh.cols && lab[s][r][c] == x
    {
      a[s, r, c] := x;
    }
  }

  // ---------------------------------------------------------------------
  // What the copy does to a labelling

  /** With some background the copy returns the labelling unchanged. */
  lemma WithBackgroundKeepsLabels(m: Volume, sh: Shape, lab: Volume, n: nat, out: Volume)
    requires IsLabeling(m, sh, lab, n) && DropsSmallest(lab, sh, out)
    requires exists b :: Inside(sh, b) && Sample(m, b) == 0
    ensures out == lab
  {
    var b :| Inside(sh, b) && Sample(m, b) == 0;
    forall p | Inside(sh, p)
      ensures Sample(out, p) == Sample(lab, p)
    {
      if Sample(lab, p) != 0 {
        assert Sample(lab, b) == 0;
      }
    }
    Extensionality(out, lab, sh);
  }

  /** Without background the whole mask is label 1, the smallest value, so
      the copy is all zeros. */
  lemma WithoutBackgroundDropsAll(m: Volume, sh: Shape, lab: Volume, n: nat, out: Volume)
    requires IsLabeling(m, sh, lab, n) && DropsSmallest(lab, sh, out)
    requires forall p :: Inside(sh, p) ==> Sample(m, p) != 0
    ensures forall p :: Inside(sh, p) ==> Sample(out, p) == 0
    ensures n == if Inside(sh, Cell(0, 0, 0)) then 1 else 0
  {
    if Inside(sh, Cell(0, 0, 0)) {
      FullMaskOneComponent(m, sh, lab, n);
    } else {
      NoLabelsIffEmpty(m, sh, lab, n);
    }
  }
}
