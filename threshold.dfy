/**
  Threshold segmentation: every sample strictly above the threshold becomes
  1, every other sample 0, and the nesting of the input is kept. The same
  element-wise comparison serves the single-image and the volume pipeline.
*/
module Threshold {
  import opened Grid

  /** A binary mask of v for threshold t. */
  function Segment(v: Volume, t: int): (mask: Volume)
    ensures SameShape(v, mask)
    ensures forall p :: InVolume(v, p) ==> InVolume(mask, p)
    ensures forall p :: InVolume(v, p) ==>
              (Sample(mask, p) == 1 <==> Sample(v, p) > t) &&
              (Sample(mask, p) == 0 <==> Sample(v, p) <= t)
  {
    seq(|v|, s requires 0 <= s < |v| =>
      seq(|v[s]|, r requires 0 <= r < |v[s]| =>
        seq(|v[s][r]|, c requires 0 <= c < |v[s][r]| =>
          if v[s][r][c] > t then 1 else 0)))
  }

  /** The mask of a block has the block's shape. */
  lemma SegmentHasShape(v: Volume, sh: Shape, t: int)
    requires HasShape(v, sh)
    ensures HasShape(Segment(v, t), sh)
  {
    SameShapeHasShape(v, Segment(v, t), sh);
  }

  /** Raising the threshold can only clear voxels of the mask. */
  lemma Monotone(v: Volume, t1: int, t2: int, p: Cell)
    requires t1 < t2 && InVolume(v, p)
    ensures Sample(Segment(v, t2), p) == 1 ==> Sample(Segment(v, t1), p) == 1
  {
  }
}
