/**
  Shared vocabulary of the segmentation pipeline: shapes, voxel positions,
  decoded slices and volumes, face adjacency, the fixed scan order
  (slice, then row, then column) and paths of occupied voxels.

  A two-dimensional image is a volume of depth 1; on such a volume face
  adjacency is exactly 4-connectivity (see PlanarAdjacency).
*/
module Grid {

  /** Extents of a volume: slices, rows per slice, columns per row. */
  datatype Shape = Shape(depth: nat, rows: nat, cols: nat)

  /** A voxel position (slice, row, column). The coordinates are integers so
      that the neighbours of a border voxel can be named before they are
      bounds-checked. */
  datatype Cell = Cell(s: int, r: int, c: int)

  /** Samples indexed as v[slice][row][column]. */
  type Volume = seq<seq<seq<int>>>

  /** One decoded slice: the header's row and column counts and its samples. */
  datatype Frame = Frame(rows: nat, cols: nat, pixels: seq<seq<int>>)

  /** The samples of a frame form a rows x cols rectangle. */
  predicate WellFormed(f: Frame)
  {
    |f.pixels| == f.rows && forall r :: 0 <= r < f.rows ==> |f.pixels[r]| == f.cols
  }

  /** v is a depth x rows x cols block. */
  predicate HasShape(v: Volume, sh: Shape)
  {
    |v| == sh.depth &&
    forall s :: 0 <= s < |v| ==>
      |v[s]| == sh.rows && forall r :: 0 <= r < |v[s]| ==> |v[s][r]| == sh.cols
  }

  /** v and w have the same (possibly ragged) nesting. */
  predicate SameShape(v: Volume, w: Volume)
  {
    |v| == |w| &&
    forall s :: 0 <= s < |v| ==>
      |v[s]| == |w[s]| && forall r :: 0 <= r < |v[s]| ==> |v[s][r]| == |w[s][r]|
  }

  predicate Inside(sh: Shape, p: Cell)
  {
    0 <= p.s < sh.depth && 0 <= p.r < sh.rows && 0 <= p.c < sh.cols
  }

  predicate InVolume(v: Volume, p: Cell)
  {
    0 <= p.s < |v| && 0 <= p.r < |v[p.s]| && 0 <= p.c < |v[p.s][p.r]|
  }

  /** The sample at p, and 0 outside the volume. */
  function Sample(v: Volume, p: Cell): int
  {
    if InVolume(v, p) then v[p.s][p.r][p.c] else 0
  }

  lemma SameShapeHasShape(v: Volume, w: Volume, sh: Shape)
    requires HasShape(v, sh) && SameShape(v, w)
    ensures HasShape(w, sh)
  {
  }

  /** Two volumes of one shape that agree at every voxel are equal. */
  lemma Extensionality(v: Volume, w: Volume, sh: Shape)
    requires HasShape(v, sh) && HasShape(w, sh)
    requires forall p :: Inside(sh, p) ==> Sample(v, p) == Sample(w, p)
    ensures v == w
  {
    forall s | 0 <= s < sh.depth
      ensures v[s] == w[s]
    {
      forall r | 0 <= r < sh.rows
        ensures v[s][r] == w[s][r]
      {
        forall c | 0 <= c < sh.cols
          ensures v[s][r][c] == w[s][r][c]
        {
          assert Sample(v, Cell(s, r, c)) == Sample(w, Cell(s, r, c));
        }
      }
    }
  }

  /** The contents of a three-dimensional array as a volume. */
  function ToVolume(a: array3<int>): (v: Volume)
    reads a
    ensures HasShape(v, Shape(a.Length0, a.Length1, a.Length2))
    ensures forall p :: Inside(Shape(a.Length0, a.Length1, a.Length2), p) ==>
              Sample(v, p) == a[p.s, p.r, p.c]
  {
    seq(a.Length0, s requires 0 <= s < a.Length0 reads a =>
      seq(a.Length1, r requires 0 <= r < a.Length1 reads a =>
        seq(a.Length2, c requires 0 <= c < a.Length2 reads a => a[s, r, c])))
  }

  // ---------------------------------------------------------------------
  // Face adjacency (the cross-shaped structuring element)

  function Dist(x: int, y: int): nat
  {
    if x <= y then y - x else x - y
  }

  /** p and q differ by one along exactly one axis: 6-connectivity, no
      diagonals. */
  predicate Adjacent(p: Cell, q: Cell)
  {
    Dist(p.s, q.s) + Dist(p.r, q.r) + Dist(p.c, q.c) == 1
  }

  /** The six face neighbours of p, before any bounds check. */
  function Neighbours(p: Cell): (nb: seq<Cell>)
    ensures |nb| == 6
    ensures forall q :: Adjacent(p, q) <==> q in nb
  {
    [Cell(p.s - 1, p.r, p.c), Cell(p.s + 1, p.r, p.c),
     Cell(p.s, p.r - 1, p.c), Cell(p.s, p.r + 1, p.c),
     Cell(p.s, p.r, p.c - 1), Cell(p.s, p.r, p.c + 1)]
  }

  /** On a single slice the cross-shaped element is 4-connectivity: same row
      and neighbouring columns, or same column and neighbouring rows. */
  lemma PlanarAdjacency(sh: Shape, p: Cell, q: Cell)
    requires sh.depth == 1 && Inside(sh, p) && Inside(sh, q)
    ensures Adjacent(p, q) <==>
              (p.r == q.r && Dist(p.c, q.c) == 1) || (p.c == q.c && Dist(p.r, q.r) == 1)
  {
  }

  // ---------------------------------------------------------------------
  // Scan order: slice-major, then row-major

  /** p comes strictly before q in the scan. */
  predicate Before(p: Cell, q: Cell)
  {
    p.s < q.s || (p.s == q.s && (p.r < q.r || (p.r == q.r && p.c < q.c)))
  }

  /** The position just past the last voxel. */
  function End(sh: Shape): Cell
  {
    Cell(sh.depth, 0, 0)
  }

  /** The first voxel of the scan, or End when the shape holds no voxel. */
  function First(sh: Shape): (p: Cell)
    ensures Inside(sh, p) || p == End(sh)
    ensures forall q :: Inside(sh, q) ==> !Before(q, p)
  {
    if sh.rows > 0 && sh.cols > 0 then Cell(0, 0, 0) else End(sh)
  }

  /** The voxel that follows p in the scan, or End after the last one. */
  function Next(sh: Shape, p: Cell): (q: Cell)
    requires Inside(sh, p)
    ensures Inside(sh, q) || q == End(sh)
    ensures Before(p, q)
    ensures forall x :: Inside(sh, x) ==> (Before(x, q) <==> Before(x, p) || x == p)
  {
    if p.c + 1 < sh.cols then Cell(p.s, p.r, p.c + 1)
    else if p.r + 1 < sh.rows then Cell(p.s, p.r + 1, 0)
    else Cell(p.s + 1, 0, 0)
  }

  lemma BeforeEnd(sh: Shape, p: Cell)
    requires Inside(sh, p)
    ensures Before(p, End(sh))
  {
  }

  // ---------------------------------------------------------------------
  // Paths of occupied voxels

  /** A non-empty walk through non-zero voxels of m, each step to a face
      neighbour. */
  ghost predicate IsPath(m: Volume, path: seq<Cell>)
  {
    |path| > 0 &&
    (forall i :: 0 <= i < |path| ==> InVolume(m, path[i]) && Sample(m, path[i]) != 0) &&
    (forall i :: 0 < i < |path| ==> Step(path, i))
  }

  /** The i-th step of a walk goes to a face neighbour. */
  ghost predicate Step(path: seq<Cell>, i: int)
    requires 0 < i < |path|
  {
    Adjacent(path[i - 1], path[i])
  }

  /** p and q lie in one connected region of non-zero voxels of m. */
  ghost predicate Joined(m: Volume, p: Cell, q: Cell)
  {
    exists path :: IsPath(m, path) && path[0] == p && path[|path| - 1] == q
  }

  function Reverse(path: seq<Cell>): (w: seq<Cell>)
    ensures |w| == |path|
    ensures forall i :: 0 <= i < |path| ==> w[i] == path[|path| - 1 - i]
  {
    seq(|path|, i requires 0 <= i < |path| => path[|path| - 1 - i])
  }

  /** A path extended by an occupied neighbour of its last voxel. */
  lemma PathExtend(m: Volume, path: seq<Cell>, q: Cell)
    requires IsPath(m, path)
    requires InVolume(m, q) && Sample(m, q) != 0 && Adjacent(path[|path| - 1], q)
    ensures IsPath(m, path + [q])
  {
    var w := path + [q];
    forall i | 0 < i < |w|
      ensures Step(w, i)
    {
      if i < |path| {
        assert Step(path, i);
      }
    }
  }

  /** Two paths that start at one voxel join their end points. */
  lemma JoinPaths(m: Volume, p1: seq<Cell>, p2: seq<Cell>)
    requires IsPath(m, p1) && IsPath(m, p2) && p1[0] == p2[0]
    ensures Joined(m, p1[|p1| - 1], p2[|p2| - 1])
  {
    var w := Reverse(p1) + p2[1..];
    forall i | 0 < i < |w|
      ensures Step(w, i)
    {
      if i < |p1| {
        assert Step(p1, |p1| - i);
      } else {
        assert w[i - 1] == p2[i - |p1|] && w[i] == p2[i - |p1| + 1];
        assert Step(p2, i - |p1| + 1);
      }
    }
    assert IsPath(m, w);
  }

  /** Joined is symmetric. */
  lemma JoinedSymmetric(m: Volume, p: Cell, q: Cell)
    requires Joined(m, p, q)
    ensures Joined(m, q, p)
  {
    var path :| IsPath(m, path) && path[0] == p && path[|path| - 1] == q;
    JoinPaths(m, path, [p]);
  }

  /** A region grows by an occupied neighbour of one of its voxels. */
  lemma JoinedExtend(m: Volume, p: Cell, q: Cell, x: Cell)
    requires Joined(m, p, q) && Adjacent(q, x) && InVolume(m, x) && Sample(m, x) != 0
    ensures Joined(m, p, x)
  {
    var path :| IsPath(m, path) && path[0] == p && path[|path| - 1] == q;
    PathExtend(m, path, x);
    assert (path + [x])[0] == p;
  }

  /** When no voxel of m is zero, every voxel is joined to the first one. */
  lemma {:induction false} FullJoined(m: Volume, sh: Shape, p: Cell)
    requires HasShape(m, sh) && forall q :: Inside(sh, q) ==> Sample(m, q) != 0
    requires Inside(sh, p)
    ensures Joined(m, Cell(0, 0, 0), p)
    decreases p.s, p.r, p.c
  {
    if p == Cell(0, 0, 0) {
      assert IsPath(m, [p]);
    } else {
      var q := if p.c > 0 then Cell(p.s, p.r, p.c - 1)
               else if p.r > 0 then Cell(p.s, p.r - 1, p.c)
               else Cell(p.s - 1, p.r, p.c);
      FullJoined(m, sh, q);
      JoinedExtend(m, Cell(0, 0, 0), q, p);
    }
  }

  // ---------------------------------------------------------------------
  // Sequence slices

  lemma PopLast<T>(s: seq<T>)
    requires |s| > 0
    ensures s[..|s| - 1] + [s[|s| - 1]] == s
  {
  }

  lemma TakeOneMore<T>(s: seq<T>, i: nat)
    requires i < |s|
    ensures s[..i + 1] == s[..i] + [s[i]]
  {
  }

  lemma TakeAll<T>(s: seq<T>)
    ensures s[..|s|] == s
  {
  }
}
