/**
  The two segmentation entry points, with file reading passed in as a
  decoding function from a path to its frame.

  SegmentImage is the single-image pipeline: threshold, label the
  components of the mask, and copy every label but the first distinct
  value. SegmentOrgan is the volume pipeline: select the slice files of a
  listing, stack their frames into a 16-bit volume and threshold it; it
  does not label, and it names the file it would write.
*/
module Pipeline {
  import opened Grid
  import opened SliceFiles
  import opened Threshold
  import opened Assembly
  import opened Labeling
  import opened Relabel

  // ---------------------------------------------------------------------
  // One image

  /** The single-image segmentation of a decoded image at a threshold:
      lab, with n labels, is the labelling of the thresholded mask, and the
      result is that labelling with its smallest label set to 0. */
  method SegmentImage(image: Frame, threshold: int) returns (out: Volume, lab: Volume, n: nat)
    requires WellFormed(image)
    ensures IsLabeling(Segment([image.pixels], threshold), Shape(1, image.rows, image.cols), lab, n)
    ensures DropsSmallest(lab, Shape(1, image.rows, image.cols), out)
    ensures (exists p :: Inside(Shape(1, image.rows, image.cols), p) && Sample([image.pixels], p) <= threshold)
            ==> out == lab
    ensures (forall p :: Inside(Shape(1, image.rows, image.cols), p) ==> Sample([image.pixels], p) > threshold)
            ==> forall p :: Inside(Shape(1, image.rows, image.cols), p) ==> Sample(out, p) == 0
  {
    var sh := Shape(1, image.rows, image.cols);
    var pixels: Volume := [image.pixels];
    assert HasShape(pixels, sh);
    var mask := Segment(pixels, threshold);
    SegmentHasShape(pixels, sh, threshold);
    lab, n := Label(mask, sh);
    out := CopyLabels(lab, sh);
    ThresholdCases(pixels, sh, threshold, lab, n, out);
  }

  /** How the copy of a thresholded image's labelling depends on whether
      some pixel is at or below the threshold. */
  lemma ThresholdCases(pixels: Volume, sh: Shape, threshold: int, lab: Volume, n: nat, out: Volume)
    requires HasShape(pixels, sh)
    requires IsLabeling(Segment(pixels, threshold), sh, lab, n) && DropsSmallest(lab, sh, out)
    ensures (exists p :: Inside(sh, p) && Sample(pixels, p) <= threshold) ==> out == lab
    ensures (forall p :: Inside(sh, p) ==> Sample(pixels, p) > threshold) ==>
              forall p :: Inside(sh, p) ==> Sample(out, p) == 0
  {
    var mask := Segment(pixels, threshold);
    if b :| Inside(sh, b) && Sample(pixels, b) <= threshold {
      assert Sample(mask, b) == 0;
      WithBackgroundKeepsLabels(mask, sh, lab, n, out);
    }
    if forall p :: Inside(sh, p) ==> Sample(pixels, p) > threshold {
      WithoutBackgroundDropsAll(mask, sh, lab, n, out);
    }
  }

  // ---------------------------------------------------------------------
  // A volume of slices

  const NoDicomMessage: string := "Nenhum arquivo DICOM encontrado no diretório de entrada."
  const SegmentedSuffix: string := "_segmented.dcm"

  /** Python's os.path.join of two POSIX path components. */
  function JoinPath(dir: string, name: string): (path: string)
    ensures |name| > 0 && name[0] == '/' ==> path == name
    ensures !(|name| > 0 && name[0] == '/') ==>
              EndsWith(path, name) && |dir| <= |path| && path[..|dir|] == dir &&
              |path| <= |dir| + 1 + |name|
    ensures !(|name| > 0 && name[0] == '/') ==>
              (path == dir + name || path == dir + "/" + name) &&
              (path == dir + "/" + name <==> dir != [] && dir[|dir| - 1] != '/')
  {
    if |name| > 0 && name[0] == '/' then name
    else if dir == [] || dir[|dir| - 1] == '/' then dir + name
    else dir + "/" + name
  }

  /** The paths of the slice files of a directory listing. */
  function SlicePaths(dir: string, listing: seq<string>): (paths: seq<string>)
    ensures |paths| == |SelectDicom(listing)|
    ensures forall i :: 0 <= i < |paths| ==> paths[i] == JoinPath(dir, SelectDicom(listing)[i])
  {
    var files := SelectDicom(listing);
    seq(|files|, i requires 0 <= i < |files| => JoinPath(dir, files[i]))
  }

  /** What the volume segmentation writes: the header extents, the mask and
      the path of the output file. */
  datatype Written = Written(rows: nat, cols: nat, frames: nat, organ: Volume, path: string)

  datatype Outcome = Error(message: string) | Saved(written: Written)

  /** The frames of files, in order, as decoded. */
  function Decoded(files: seq<string>, decode: string -> Frame): (frames: seq<Frame>)
    ensures |frames| == |files|
    ensures forall i :: 0 <= i < |files| ==> frames[i] == decode(files[i])
  {
    seq(|files|, i requires 0 <= i < |files| => decode(files[i]))
  }

  /** The volume segmentation of the slices of a directory: an error when
      the listing has no slice file, and otherwise the thresholded 16-bit
      volume with the first slice's extents, one slice per file in listing
      order, to be written under organ name + "_segmented.dcm". */
  method SegmentOrgan(inputDir: string, outputDir: string, organName: string, listing: seq<string>,
                      decode: string -> Frame, threshold: int) returns (r: Outcome)
    requires SelectDicom(listing) != [] ==> Uniform(Decoded(SlicePaths(inputDir, listing), decode))
    ensures r.Error? <==> SelectDicom(listing) == []
    ensures r.Error? ==> r.message == NoDicomMessage
    ensures r.Saved? ==>
              var files := SlicePaths(inputDir, listing);
              var sh := Shape(|files|, decode(files[0]).rows, decode(files[0]).cols);
              r.written.rows == sh.rows && r.written.cols == sh.cols && r.written.frames == sh.depth &&
              HasShape(r.written.organ, sh) &&
              (forall p :: Inside(sh, p) ==>
                 (Sample(r.written.organ, p) == 1 <==> Wrap16(decode(files[p.s]).pixels[p.r][p.c]) > threshold) &&
                 (Sample(r.written.organ, p) == 0 <==> Wrap16(decode(files[p.s]).pixels[p.r][p.c]) <= threshold)) &&
              r.written.path == JoinPath(outputDir, organName + SegmentedSuffix)
  {
    var files := SlicePaths(inputDir, listing);
    if files == [] {
      return Error(NoDicomMessage);
    }
    var frames := Decoded(files, decode);
    var sh, volume := AssembleVolume(frames);
    var organ := Segment(volume, threshold);
    SegmentHasShape(volume, sh, threshold);
    r := Saved(Written(sh.rows, sh.cols, sh.depth, organ, JoinPath(outputDir, organName + SegmentedSuffix)));
  }
}
