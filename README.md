# Threshold segmentation of DICOM slices

This project models the pixel pipeline of a small DICOM segmentation
service (`main.py`). The service takes a single image or a directory of
slices and produces a segmentation by intensity thresholding. The model
starts from decoded integer grids and covers four steps.

- **Slice selection and volume assembly** (`segment_3d_organ`):
  - The names of a directory listing that end in `.dcm` are kept, in
    listing order. An empty selection is the error outcome.
  - A zero volume of unsigned 16-bit samples is allocated with extents
    (number of slices, rows, cols); rows and cols come from the first
    slice.
  - A loop writes slice `i` into `volume[i, :, :]`.
- **Thresholding** (both pipelines): a sample strictly above the
  threshold becomes 1, every other sample 0.
- **Connected-component labelling** (`segment_dicom`, `ndimage.label`
  with its default cross-shaped element).
  - Adjacency is face adjacency: 4-connectivity on an image, 6 in a
    volume, never diagonals.
  - Background gets 0. Components get 1..n in the order the scan (slice,
    then row, then column) first meets them.
  - The labeller is an explicit scan with a stack-based flood fill over
    a three-dimensional array. It is proved to return a labelling that
    meets this contract, and the contract is proved to determine the
    labelling uniquely.
- **The copy loop** (`segment_dicom`):
  - `np.unique` lists the distinct label values in increasing order.
  - The first value is skipped; every voxel whose label is among the
    rest is copied into a zero array.
  - The skipped value is 0 whenever the mask has background. When every
    pixel is above the threshold, the whole image is one component
    labelled 1, and the result is all zeros.

An image is a volume of depth 1 throughout (`Grid.PlanarAdjacency` shows
that face adjacency is then 4-connectivity). Volumes are
`seq<seq<seq<int>>>` with an explicit `Shape`; `Sample` reads a voxel and
gives 0 outside the volume.

Modules:
- `Grid`: shapes, voxels, adjacency, scan order, paths.
- `SliceFiles`: the `.dcm` filter.
- `Assembly`: the preallocate-and-fill loop, with its 16-bit cast.
- `Threshold`: the mask.
- `Labeling`: the labelling contract, the labeller and what the contract
  determines.
- `Relabel`: `np.unique` and the copy loop.
- `Pipeline`: `segment_dicom` and `segment_3d_organ` with decoding passed
  in.

What the code does, which the model follows:
- main.py has no step that counts the voxels of each label or computes
  bounding boxes, so the model has none.
- The volume path thresholds and never labels, so
  `Pipeline.SegmentOrgan` returns the thresholded volume.
- The single-image path returns the labelling with its smallest label
  cleared. That equals the labelling only when the image has background.
- The labeller of this model is a flood fill. `Labeling.LabelingUnique`
  shows that any labeller meeting the labelling contract returns the same
  labels.

## Model

| member | source | states |
|---|---|---|
| SliceFiles.SelectDicom | main.py:191 | a name is selected exactly when it is in the listing and ends in ".dcm"; the selection is no longer than the listing |
| SliceFiles.SelectConcat | main.py:191 | selecting from two parts of a listing gives the selection of the first part followed by that of the second, so listing order is kept |
| SliceFiles.SelectSingle | main.py:191 | a single name is kept exactly when it ends in ".dcm" |
| SliceFiles.SelectEmpty | main.py:191-194 | the selection is empty exactly when no name of the listing ends in ".dcm", which is the error case |
| SliceFiles.EndsWith | main.py:191 | str.endswith: the suffix fits in the name and matches its last characters one by one |
| Pipeline.JoinPath | main.py:191 | os.path.join of two components: an absolute second component replaces the first; otherwise the result is the directory and the name, with a "/" between them exactly when the directory is non-empty and does not already end in "/" |
| Pipeline.SlicePaths | main.py:191 | one path per selected name, in selection order, each the directory joined with that name |
| Pipeline.Decoded | main.py:204-205 | the frames of the paths, one per path and in the same order |
| Assembly.Wrap16 | main.py:201-206 | a sample stored in the uint16 volume lies in 0..65535, is congruent to the original modulo 65536, and is unchanged when it already fits |
| Assembly.AssembleVolume | main.py:198-206 | the volume has extents (number of slices, first slice's rows, first slice's cols), and every voxel holds the 16-bit cast of the matching sample of its slice |
| Assembly.AssembledSlices | main.py:204-206 | when every sample fits in 16 bits, slice i of the volume is exactly frame i |
| Threshold.Segment | main.py:109 | the mask has the input's nesting; a voxel is 1 exactly when its sample is strictly above the threshold and 0 exactly when it is at or below it (the same comparison as main.py:209) |
| Threshold.SegmentHasShape | main.py:209 | the mask of a depth x rows x cols block is a block of the same extents |
| Threshold.Monotone | main.py:109 | raising the threshold never sets a voxel that a lower threshold leaves clear |
| Grid.Neighbours | main.py:113 | the default cross-shaped structuring element: exactly the six face neighbours, with no diagonals |
| Grid.PlanarAdjacency | main.py:113 | on a single image, face adjacency is 4-connectivity |
| Grid.Next | main.py:113 | the scan order: the successor of a voxel is the next voxel in slice, row, column order, or the end |
| Grid.FullJoined | main.py:113 | when no voxel of a mask is zero, every voxel is connected to the first one |
| Labeling.Label | main.py:113 | the result is a labelling of the mask: background exactly where the mask is 0; labels in 0..n with each of 1..n used; adjacent occupied voxels share a label; voxels sharing a label are connected; labels numbered in scan order |
| Labeling.ScanVoxel | main.py:113 | visiting a voxel keeps every earlier occupied voxel labelled and closed; the label count grows by one exactly when the voxel is occupied and not yet labelled, and is unchanged otherwise |
| Labeling.OpenComponent | main.py:113 | a new label n + 1 is opened at the first unlabelled occupied voxel of the scan and its whole component is labelled |
| Labeling.Flood | main.py:113 | after the flood, every occupied neighbour of a voxel with the new label carries that label, and the labelling stays consistent |
| Labeling.PathKeepsLabel | main.py:113 | a walk through occupied voxels never changes label |
| Labeling.SameLabelIffJoined | main.py:113 | two occupied voxels share a label exactly when they are connected through occupied voxels |
| Labeling.LowerLabelsEarlier | main.py:113 | every label below the label of a voxel occurs earlier in the scan |
| Labeling.AgreeAt | main.py:113 | two labellings of one mask agree at every voxel |
| Labeling.FirstOfComponent | main.py:113 | at the first voxel of a component, labellings that agree before it give it the same label |
| Labeling.LabelingUnique | main.py:113 | a mask has exactly one labelling and one label count, so the labelling is deterministic |
| Labeling.NoLabelsIffEmpty | main.py:113 | the label count is 0 exactly when the mask is empty |
| Labeling.SingleBlob | main.py:113 | a mask whose occupied voxels are all connected has exactly one label |
| Labeling.FullMaskOneComponent | main.py:113 | a non-empty mask without background has one label, 1, on every voxel |
| Labeling.LabelCountBound | main.py:113 | the label count never exceeds the number of occupied voxels |
| Relabel.Samples | main.py:114 | the flattened array holds every sample and nothing else |
| Relabel.Insert | main.py:114 | adding a value to an increasing list of distinct values keeps it increasing and adds exactly that value |
| Relabel.Unique | main.py:114 | np.unique: strictly increasing, and holding exactly the values of its input |
| Relabel.DropFirst | main.py:117 | Python's `u[1:]`: empty for an empty list, otherwise the list without its first element, which put back in front restores the list |
| Relabel.KeptIffNotSmallest | main.py:114-117 | a voxel's label is among the distinct values after the first exactly when it is not the smallest label |
| Relabel.CopyLabel | main.py:118 | every voxel labelled x gets x, and every other voxel keeps its value |
| Relabel.CopyListed | main.py:116-118 | the copy loop: a fresh array of the labelled array's shape holding a voxel's label exactly when that label is listed, and 0 everywhere else |
| Relabel.CopyLabels | main.py:114-120 | the result has the labelled array's shape and equals it everywhere except on the smallest label, which becomes 0 |
| Relabel.CopiedDropsSmallest | main.py:114-118 | copying the values after the first distinct one is the same as clearing the smallest label |
| Relabel.WithBackgroundKeepsLabels | main.py:116-118 | when the mask has background, the copy equals the labelled array |
| Relabel.WithoutBackgroundDropsAll | main.py:116-118 | when every voxel is occupied, the copy is all zeros and the label count is 1 for a non-empty image |
| Pipeline.SegmentImage | main.py:108-120 | the result is the labelling of the thresholded image with its smallest label cleared; it equals the labelling when some pixel is at or below the threshold and is all zeros when none is |
| Pipeline.ThresholdCases | main.py:109-120 | for a thresholded image, the copy equals the labelling when some pixel is at or below the threshold, and is all zeros when every pixel is above it |
| Pipeline.SegmentOrgan | main.py:189-219 | the outcome is the error message exactly when no name ends in ".dcm"; otherwise it holds the first slice's rows and cols, the slice count, the pointwise threshold of the 16-bit volume, and the output path `<organ>_segmented.dcm` in the output directory |

## Left out

- The HTTP routes (`anonimize_dicom`, `segmentar_dicom`, `segmentar_3d_organ`), request parsing and `send_file`: request handling, not pipeline logic.
- DICOM reading and writing: `dcmread`, `pixel_array` decoding, building the output dataset, `PixelData = tobytes()` and `save_as`. Decoding is a function parameter from path to frame. The written file is represented by its header extents, its mask and its path.
- Pipeline.SegmentImage: does not model the `InvalidDicomError` branch that returns the error text, because the error arises only while reading the file.
- Pipeline.SegmentOrgan: does not model the `PydicomError` branch, for the same reason.
- Pipeline.SegmentOrgan: every slice must have the first slice's extents, a precondition. A slice whose shape cannot be broadcast raises an error the code does not catch. A slice of one row, one column, or 1x1 is silently broadcast across all of `volume[i]`. The precondition excludes that case as well, so the model does not capture that copy.
- `os.listdir` and `os.makedirs`: the listing is a parameter, and creating directories is file-system work. `os.path.join` is modelled for two POSIX components only.
- `anonymize_dicom_file` (defined twice) and `preprocess_dicom`: rewriting fields of a library object and round trips through disk.
- Plotting: the colour map, colour bar, legend and `savefig`, including the fixed ten-colour legend and the choice of slice 20.
- The misplaced `dynamic_threshold` block of the volume route: route-level control flow outside the pipeline.
- Labeling.Label: this is a flood-fill labeller of its own, since scipy's code is not part of this model. It is tied to the library's documented result through the contract it meets, which `Labeling.LabelingUnique` shows determines the labels.
- Element types of the single-image path: samples and labels are unbounded integers there; the only explicit width is the uint16 volume of the volume path.
