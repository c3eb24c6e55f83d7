/**
  Volume assembly: a zero volume of unsigned 16-bit samples of extents
  (number of slices, rows, cols), with rows and cols taken from the first
  slice, filled slice by slice in the order of the selected files. Writing
  a slice into the volume casts its samples to 16 bits without a check, so
  a sample outside 0..65535 wraps around.
*/
module Assembly {
  import opened Grid

  const Uint16Range: int := 0x1_0000

  /** The value an integer sample takes in an unsigned 16-bit array. */
  function Wrap16(x: int): (y: int)
    ensures 0 <= y < Uint16Range
    ensures (x - y) % Uint16Range == 0
    ensures 0 <= x < Uint16Range ==> y == x
  {
    x % Uint16Range
  }

  /** Every frame is well formed and has the first frame's extents. */
  predicate Uniform(frames: seq<Frame>)
  {
    |frames| > 0 &&
    forall i :: 0 <= i < |frames| ==>
      WellFormed(frames[i]) && frames[i].rows == frames[0].rows && frames[i].cols == frames[0].cols
  }

  /** The volume of the frames: slice i holds frame i, cast to 16 bits. */
  method AssembleVolume(frames: seq<Frame>) returns (sh: Shape, v: Volume)
    requires Uniform(frames)
    ensures sh == Shape(|frames|, frames[0].rows, frames[0].cols)
    ensures HasShape(v, sh)
    ensures forall p :: Inside(sh, p) ==> Sample(v, p) == Wrap16(frames[p.s].pixels[p.r][p.c])
  {
    var rows, cols, numSlices := frames[0].rows, frames[0].cols, |frames|;
    var volume := new int[numSlices, rows, cols]((s, r, c) => 0);
    for i := 0 to numSlices
      // slices already written hold their frame ...
      invariant forall j, r, c :: 0 <= j < i && 0 <= r < rows && 0 <= c < cols ==>
                  volume[j, r, c] == Wrap16(frames[j].pixels[r][c])
      // ... and the slices still to come are untouched zeros
      invariant forall j, r, c :: i <= j < numSlices && 0 <= r < rows && 0 <= c < cols ==>
                  volume[j, r, c] == 0
    {
      forall r, c | 0 <= r < rows && 0 <= c < cols {
        volume[i, r, c] := Wrap16(frames[i].pixels[r][c]);
      }
    }
    sh := Shape(numSlices, rows, cols);
    v := ToVolume(volume);
  }

  /** When every sample fits in 16 bits, slice i of the volume is frame i. */
  lemma AssembledSlices(frames: seq<Frame>, sh: Shape, v: Volume)
    requires Uniform(frames) && sh == Shape(|frames|, frames[0].rows, frames[0].cols)
    requires HasShape(v, sh)
    requires forall p :: Inside(sh, p) ==> Sample(v, p) == Wrap16(frames[p.s].pixels[p.r][p.c])
    requires forall i, r, c :: 0 <= i < |frames| && 0 <= r < sh.rows && 0 <= c < sh.cols ==>
               0 <= frames[i].pixels[r][c] < Uint16Range
    ensures forall i :: 0 <= i < |frames| ==> v[i] == frames[i].pixels
  {
    forall i | 0 <= i < |frames|
      ensures v[i] == frames[i].pixels
    {
      forall r | 0 <= r < sh.rows
        ensures v[i][r] == frames[i].pixels[r]
      {
        forall c | 0 <= c < sh.cols
          ensures v[i][r][c] == frames[i].pixels[r][c]
        {
          assert Sample(v, Cell(i, r, c)) == Wrap16(frames[i].pixels[r][c]);
        }
      }
    }
  }
}
