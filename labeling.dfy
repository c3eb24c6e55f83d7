/**
  Connected-component labelling of a mask with the cross-shaped structuring
  element (face adjacency, no diagonals): background voxels get 0, the
  components get 1..n numbered in the order in which the scan (slice, then
  row, then column) first meets them.

  The labeller scans the volume once; at every occupied voxel that has no
  label yet it opens a new label and floods its component with an explicit
  stack. The label array is mirrored by a ghost volume, and every step of
  the algorithm is justified by a lemma over that volume.
*/
module Labeling {
  import opened Grid

  // ---------------------------------------------------------------------
  // The contract of the labelling

  /** Background voxels, and only they, carry label 0. */
  ghost predicate Background(m: Volume, sh: Shape, lab: Volume)
  {
    forall p :: Inside(sh, p) ==> (Sample(lab, p) == 0 <==> Sample(m, p) == 0)
  }

  /** Some voxel carries label k. */
  ghost predicate Used(sh: Shape, lab: Volume, k: int)
  {
    exists p :: Inside(sh, p) && Sample(lab, p) == k
  }

  /** Every label lies in 0..n and each of 1..n is used. */
  ghost predicate LabelRange(sh: Shape, lab: Volume, n: nat)
  {
    (forall p :: Inside(sh, p) ==> 0 <= Sample(lab, p) <= n) &&
    (forall k :: 1 <= k <= n ==> Used(sh, lab, k))
  }

  /** Face-adjacent occupied voxels share their label. */
  ghost predicate AdjacentAgree(m: Volume, sh: Shape, lab: Volume)
  {
    forall p, q ::
      (Inside(sh, p) && Inside(sh, q) && Adjacent(p, q) && Sample(m, p) != 0 && Sample(m, q) != 0)
      ==> Sample(lab, p) == Sample(lab, q)
  }

  /** Voxels that share a non-zero label are joined through occupied voxels. */
  ghost predicate LabelsConnected(m: Volume, sh: Shape, lab: Volume)
  {
    forall p, q ::
      (Inside(sh, p) && Inside(sh, q) && Sample(lab, p) != 0 && Sample(lab, p) == Sample(lab, q))
      ==> Joined(m, p, q)
  }

  /** Labels are numbered in scan order: every voxel of label k > 1 comes
      after some voxel of label k - 1. */
  ghost predicate ScanOrdered(sh: Shape, lab: Volume)
  {
    forall q :: Inside(sh, q) && Sample(lab, q) > 1 ==>
      exists p :: Inside(sh, p) && Before(p, q) && Sample(lab, p) == Sample(lab, q) - 1
  }

  /** lab, with n labels, is the labelling of the mask m of shape sh. */
  ghost predicate IsLabeling(m: Volume, sh: Shape, lab: Volume, n: nat)
  {
    HasShape(m, sh) && HasShape(lab, sh) &&
    Background(m, sh, lab) && LabelRange(sh, lab, n) &&
    AdjacentAgree(m, sh, lab) && LabelsConnected(m, sh, lab) && ScanOrdered(sh, lab)
  }

  // ---------------------------------------------------------------------
  // State of the labeller, over the ghost mirror L of the label array

  /** L' is L with the label at q replaced by x. */
  ghost predicate Updated(L: Volume, L': Volume, sh: Shape, q: Cell, x: int)
  {
    HasShape(L', sh) && forall p :: Sample(L', p) == if p == q then x else Sample(L, p)
  }

  /** L with the label at q replaced by x. */
  ghost function Put(L: Volume, sh: Shape, q: Cell, x: int): (L': Volume)
    requires HasShape(L, sh) && Inside(sh, q)
    ensures Updated(L, L', sh, q, x)
  {
    L[q.s := L[q.s][q.r := L[q.s][q.r][q.c := x]]]
  }

  /** The array a holds the labels L. */
  ghost predicate Mirrors(a: array3<int>, sh: Shape, L: Volume)
    reads a
  {
    a.Length0 == sh.depth && a.Length1 == sh.rows && a.Length2 == sh.cols && HasShape(L, sh) &&
    forall p :: Inside(sh, p) ==> a[p.s, p.r, p.c] == Sample(L, p)
  }

  /** Labels 1..n are open and label k was opened at seeds[k]: every
      labelled voxel is occupied, the seeds follow the scan, and every
      labelled voxel sits at or after its seed. */
  ghost predicate Numbered(L: Volume, m: Volume, sh: Shape, n: nat, seeds: map<int, Cell>)
  {
    HasShape(L, sh) && HasShape(m, sh) &&
    (forall p :: Inside(sh, p) ==> 0 <= Sample(L, p) <= n) &&
    (forall p :: Inside(sh, p) && Sample(m, p) == 0 ==> Sample(L, p) == 0) &&
    (forall k :: 1 <= k <= n ==> k in seeds && Inside(sh, seeds[k]) && Sample(L, seeds[k]) == k) &&
    (forall j, k :: 1 <= j < k <= n ==> Before(seeds[j], seeds[k])) &&
    (forall p :: Inside(sh, p) && 1 <= Sample(L, p) <= n ==> !Before(p, seeds[Sample(L, p)]))
  }

  /** Every labelled voxel is reached from the seed of its label by the
      path recorded for it. */
  ghost predicate Witnessed(L: Volume, m: Volume, sh: Shape, n: nat, seeds: map<int, Cell>,
                            paths: map<Cell, seq<Cell>>)
  {
    forall p :: Inside(sh, p) && 1 <= Sample(L, p) <= n ==>
      Sample(L, p) in seeds && p in paths && IsPath(m, paths[p]) &&
      paths[p][0] == seeds[Sample(L, p)] && paths[p][|paths[p]| - 1] == p
  }

  ghost predicate Consistent(L: Volume, m: Volume, sh: Shape, n: nat,
                             seeds: map<int, Cell>, paths: map<Cell, seq<Cell>>)
  {
    Numbered(L, m, sh, n, seeds) && Witnessed(L, m, sh, n, seeds, paths)
  }

  /** Every labelled voxel outside pending has its label on all its occupied
      neighbours. */
  ghost predicate ClosedExcept(L: Volume, m: Volume, sh: Shape, pending: seq<Cell>)
  {
    forall p, q ::
      (Inside(sh, p) && Inside(sh, q) && Sample(L, p) != 0 && p !in pending &&
       Adjacent(p, q) && Sample(m, q) != 0)
      ==> Sample(L, q) == Sample(L, p)
  }

  /** Every occupied voxel before cur has a label. */
  ghost predicate ScannedBefore(L: Volume, m: Volume, sh: Shape, cur: Cell)
  {
    forall p :: Inside(sh, p) && Before(p, cur) && Sample(m, p) != 0 ==> Sample(L, p) != 0
  }

  /** Stacked voxels carry the label being flooded. */
  ghost predicate Stacked(L: Volume, sh: Shape, todo: seq<Cell>, n: nat)
  {
    forall i :: 0 <= i < |todo| ==> Inside(sh, todo[i]) && Sample(L, todo[i]) == n
  }

  /** Every occupied voxel without a label is in free. */
  ghost predicate FreeCovers(L: Volume, m: Volume, sh: Shape, free: set<Cell>)
  {
    forall p :: Inside(sh, p) && Sample(m, p) != 0 && Sample(L, p) == 0 ==> p in free
  }

  /** The invariant of the flood of label n from seed, with stack todo. */
  ghost predicate Flooding(L: Volume, m: Volume, sh: Shape, n: nat, seeds: map<int, Cell>,
                           paths: map<Cell, seq<Cell>>, seed: Cell, pending: seq<Cell>,
                           todo: seq<Cell>, free: set<Cell>)
  {
    Consistent(L, m, sh, n, seeds, paths) && n >= 1 && n in seeds && seeds[n] == seed &&
    ClosedExcept(L, m, sh, pending) && ScannedBefore(L, m, sh, seed) &&
    Stacked(L, sh, todo, n) && FreeCovers(L, m, sh, free)
  }

  // ---------------------------------------------------------------------
  // The labeller

  /** Writes label x at q, keeping the ghost mirror in step. */
  method Store(a: array3<int>, sh: Shape, ghost L: Volume, q: Cell, x: int) returns (ghost L': Volume)
    requires Mirrors(a, sh, L) && Inside(sh, q)
    modifies a
    ensures Mirrors(a, sh, L') && Updated(L, L', sh, q, x)
  {
    L' := Put(L, sh, q, x);
    a[q.s, q.r, q.c] := x;
  }

  /** The state of the scan at cur: every occupied voxel before cur is
      labelled and closed, and the last label was opened before cur. */
  ghost predicate Scanning(L: Volume, m: Volume, sh: Shape, n: nat, seeds: map<int, Cell>,
                           paths: map<Cell, seq<Cell>>, cur: Cell)
  {
    Consistent(L, m, sh, n, seeds, paths) && ClosedExcept(L, m, sh, []) &&
    ScannedBefore(L, m, sh, cur) && (n > 0 ==> n in seeds && Before(seeds[n], cur))
  }

  /** Labels the mask m of shape sh: one scan, flooding every component at
      the first voxel the scan meets. */
  method Label(m: Volume, sh: Shape) returns (lab: Volume, n: nat)
    requires HasShape(m, sh)
    ensures IsLabeling(m, sh, lab, n)
  {
    var a := new int[sh.depth, sh.rows, sh.cols]((s, r, c) => 0);
    ghost var L := ToVolume(a);
    n := 0;
    ghost var seeds: map<int, Cell> := map[];
    ghost var paths: map<Cell, seq<Cell>> := map[];
    var cur := First(sh);
    while Inside(sh, cur)
      invariant Inside(sh, cur) || cur == End(sh)
      invariant Mirrors(a, sh, L)
      invariant Scanning(L, m, sh, n, seeds, paths, cur)
      decreases sh.depth - cur.s, sh.rows - cur.r, sh.cols - cur.c
    {
      n, seeds, L, paths := ScanVoxel(a, m, sh, cur, n, seeds, L, paths);
      cur := Next(sh, cur);
    }
    lab := ToVolume(a);
    MirrorIsVolume(a, sh, L);
    Conclude(L, m, sh, n, seeds, paths);
  }

  /** The scan's visit of cur: opens and floods a new label there when cur
      is occupied and not yet labelled. */
  method ScanVoxel(a: array3<int>, m: Volume, sh: Shape, cur: Cell, n0: nat,
                   ghost seeds0: map<int, Cell>, ghost L0: Volume,
                   ghost paths0: map<Cell, seq<Cell>>)
    returns (n: nat, ghost seeds: map<int, Cell>, ghost L: Volume, ghost paths: map<Cell, seq<Cell>>)
    requires Inside(sh, cur) && Mirrors(a, sh, L0) && Scanning(L0, m, sh, n0, seeds0, paths0, cur)
    modifies a
    ensures Mirrors(a, sh, L) && Scanning(L, m, sh, n, seeds, paths, Next(sh, cur))
    ensures n == if Sample(m, cur) != 0 && Sample(L0, cur) == 0 then n0 + 1 else n0
  {
    n, seeds, L, paths := n0, seeds0, L0, paths0;
    if Sample(m, cur) != 0 && a[cur.s, cur.r, cur.c] == 0 {
      n, seeds, L, paths := OpenComponent(a, m, sh, cur, n, seeds, L, paths);
    }
    ScanStep(L, m, sh, cur);
  }

  /** Opens label n + 1 at the unlabelled occupied voxel cur and floods its
      component. */
  method OpenComponent(a: array3<int>, m: Volume, sh: Shape, cur: Cell, n0: nat,
                       ghost seeds0: map<int, Cell>, ghost L0: Volume,
                       ghost paths0: map<Cell, seq<Cell>>)
    returns (n: nat, ghost seeds: map<int, Cell>, ghost L: Volume, ghost paths: map<Cell, seq<Cell>>)
    requires Mirrors(a, sh, L0) && Consistent(L0, m, sh, n0, seeds0, paths0)
    requires ClosedExcept(L0, m, sh, []) && ScannedBefore(L0, m, sh, cur)
    requires n0 > 0 ==> Before(seeds0[n0], cur)
    requires Inside(sh, cur) && Sample(m, cur) != 0 && Sample(L0, cur) == 0
    modifies a
    ensures n == n0 + 1 && Mirrors(a, sh, L) && Consistent(L, m, sh, n, seeds, paths)
    ensures ClosedExcept(L, m, sh, []) && ScannedBefore(L, m, sh, cur)
    ensures n in seeds && seeds[n] == cur && Sample(L, cur) == n
  {
    L := Store(a, sh, L0, cur, n0 + 1);
    OpenLabel(L0, L, m, sh, n0, seeds0, paths0, cur);
    n := n0 + 1;
    seeds := seeds0[n := cur];
    paths := paths0[cur := [cur]];
    L, paths := Flood(a, m, sh, cur, n, seeds, L, paths);
  }

  /** Labels with n every occupied voxel that is joined to seed, which has
      just been given the new label n. */
  method Flood(a: array3<int>, m: Volume, sh: Shape, seed: Cell, n: nat,
               ghost seeds: map<int, Cell>, ghost L0: Volume, ghost paths0: map<Cell, seq<Cell>>)
    returns (ghost L: Volume, ghost paths: map<Cell, seq<Cell>>)
    requires Mirrors(a, sh, L0)
    requires Consistent(L0, m, sh, n, seeds, paths0)
    requires n >= 1 && n in seeds && seeds[n] == seed && Inside(sh, seed) && Sample(L0, seed) == n
    requires ClosedExcept(L0, m, sh, [seed])
    requires ScannedBefore(L0, m, sh, seed)
    modifies a
    ensures Mirrors(a, sh, L)
    ensures Consistent(L, m, sh, n, seeds, paths)
    ensures ClosedExcept(L, m, sh, [])
    ensures ScannedBefore(L, m, sh, seed) && Sample(L, seed) == n
  {
    L, paths := L0, paths0;
    var todo := [seed];
    ghost var free := set s, r, c | 0 <= s < sh.depth && 0 <= r < sh.rows && 0 <= c < sh.cols &&
                                      Sample(m, Cell(s, r, c)) != 0 && Sample(L, Cell(s, r, c)) == 0
                                    :: Cell(s, r, c);
    FreeInitially(L, m, sh, free);
    while todo != []
      invariant Mirrors(a, sh, L)
      invariant Flooding(L, m, sh, n, seeds, paths, seed, todo, todo, free)
      invariant Sample(L, seed) == n
      decreases free, |todo|
    {
      ghost var stack := todo;
      var p := todo[|todo| - 1];
      todo := todo[..|todo| - 1];
      PopLast(stack);
      todo, L, paths, free := VisitNeighbours(a, m, sh, seed, n, seeds, p, todo, L, paths, free);
    }
  }

  /** Labels with n every unlabelled occupied neighbour of p and stacks it;
      afterwards p itself is closed. */
  method VisitNeighbours(a: array3<int>, m: Volume, sh: Shape, seed: Cell, n: nat,
                         ghost seeds: map<int, Cell>, p: Cell, todo0: seq<Cell>, ghost L0: Volume,
                         ghost paths0: map<Cell, seq<Cell>>, ghost free0: set<Cell>)
    returns (todo: seq<Cell>, ghost L: Volume, ghost paths: map<Cell, seq<Cell>>,
             ghost free: set<Cell>)
    requires Mirrors(a, sh, L0)
    requires Flooding(L0, m, sh, n, seeds, paths0, seed, todo0 + [p], todo0, free0)
    requires Sample(L0, seed) == n
    requires Inside(sh, p) && Sample(L0, p) == n
    modifies a
    ensures Mirrors(a, sh, L)
    ensures Flooding(L, m, sh, n, seeds, paths, seed, todo, todo, free)
    ensures Sample(L, seed) == n
    ensures free < free0 || (free == free0 && todo == todo0)
  {
    var nb := Neighbours(p);
    todo, L, paths, free := todo0, L0, paths0, free0;
    for i := 0 to 6
      invariant Mirrors(a, sh, L)
      invariant Flooding(L, m, sh, n, seeds, paths, seed, todo + [p], todo, free)
      invariant Sample(L, seed) == n && Sample(L, p) == n
      invariant forall q :: q in nb[..i] && Inside(sh, q) && Sample(m, q) != 0 ==> Sample(L, q) == n
      invariant free < free0 || (free == free0 && todo == todo0)
    {
      var q := nb[i];
      todo, L, paths, free := VisitNeighbour(a, m, sh, seed, n, seeds, p, q, todo, L, paths, free);
      TakeOneMore(nb, i);
    }
    TakeAll(nb);
    CloseCell(L, m, sh, todo, p);
  }

  /** Labels with n the neighbour q of p and stacks it when q is occupied
      and unlabelled. */
  method VisitNeighbour(a: array3<int>, m: Volume, sh: Shape, seed: Cell, n: nat,
                        ghost seeds: map<int, Cell>, p: Cell, q: Cell, todo0: seq<Cell>,
                        ghost L0: Volume, ghost paths0: map<Cell, seq<Cell>>, ghost free0: set<Cell>)
    returns (todo: seq<Cell>, ghost L: Volume, ghost paths: map<Cell, seq<Cell>>,
             ghost free: set<Cell>)
    requires Mirrors(a, sh, L0)
    requires Flooding(L0, m, sh, n, seeds, paths0, seed, todo0 + [p], todo0, free0)
    requires Sample(L0, seed) == n && Inside(sh, p) && Sample(L0, p) == n && Adjacent(p, q)
    modifies a
    ensures Mirrors(a, sh, L)
    ensures Flooding(L, m, sh, n, seeds, paths, seed, todo + [p], todo, free)
    ensures Sample(L, seed) == n && Sample(L, p) == n
    ensures Inside(sh, q) && Sample(m, q) != 0 ==> Sample(L, q) == n
    ensures forall x :: Inside(sh, x) && Sample(L0, x) == n ==> Sample(L, x) == n
    ensures free < free0 || (free == free0 && todo == todo0)
  {
    todo, L, paths, free := todo0, L0, paths0, free0;
    if Inside(sh, q) && Sample(m, q) != 0 && a[q.s, q.r, q.c] == 0 {
      ghost var L' := Store(a, sh, L, q, n);
      LabelNeighbour(L, L', m, sh, n, seeds, paths, seed, todo, free, p, q);
      L := L';
      paths := paths[q := paths[p] + [q]];
      todo := todo + [q];
      free := free - {q};
    } else if Inside(sh, q) && Sample(m, q) != 0 {
      NeighbourShares(L, m, sh, n, seeds, paths, todo, p, q);
    }
  }

  // ---------------------------------------------------------------------
  // The steps of the labeller, each over the ghost mirror

  /** Opening label n + 1 at the unlabelled occupied voxel cur. */
  lemma OpenLabel(L: Volume, L': Volume, m: Volume, sh: Shape, n: nat, seeds: map<int, Cell>,
                  paths: map<Cell, seq<Cell>>, cur: Cell)
    requires Consistent(L, m, sh, n, seeds, paths)
    requires ClosedExcept(L, m, sh, []) && ScannedBefore(L, m, sh, cur)
    requires n > 0 ==> Before(seeds[n], cur)
    requires Inside(sh, cur) && Sample(m, cur) != 0 && Sample(L, cur) == 0
    requires Updated(L, L', sh, cur, n + 1)
    ensures Consistent(L', m, sh, n + 1, seeds[n + 1 := cur], paths[cur := [cur]])
    ensures ClosedExcept(L', m, sh, [cur]) && ScannedBefore(L', m, sh, cur)
  {
    NumberedAfterOpen(L, L', m, sh, n, seeds, cur);
    WitnessedAfterOpen(L, L', m, sh, n, seeds, paths, cur);
    ClosedAfterOpen(L, L', m, sh, cur);
  }

  lemma NumberedAfterOpen(L: Volume, L': Volume, m: Volume, sh: Shape, n: nat,
                          seeds: map<int, Cell>, cur: Cell)
    requires Numbered(L, m, sh, n, seeds) && ScannedBefore(L, m, sh, cur)
    requires n > 0 ==> Before(seeds[n], cur)
    requires Inside(sh, cur) && Sample(m, cur) != 0 && Sample(L, cur) == 0
    requires Updated(L, L', sh, cur, n + 1)
    ensures Numbered(L', m, sh, n + 1, seeds[n + 1 := cur])
  {
    var seeds' := seeds[n + 1 := cur];
    forall k | 1 <= k <= n + 1
      ensures k in seeds' && Inside(sh, seeds'[k]) && Sample(L', seeds'[k]) == k
    {
      if k <= n {
        assert seeds'[k] == seeds[k] && seeds[k] != cur;
      }
    }
    forall j, k | 1 <= j < k <= n + 1
      ensures Before(seeds'[j], seeds'[k])
    {
      if k <= n {
        assert seeds'[j] == seeds[j] && seeds'[k] == seeds[k];
      } else if j < n {
        assert Before(seeds[j], seeds[n]);
      }
    }
    forall p | Inside(sh, p) && 1 <= Sample(L', p) <= n + 1
      ensures !Before(p, seeds'[Sample(L', p)])
    {
      if p != cur {
        assert Sample(L', p) == Sample(L, p);
      }
    }
  }

  lemma WitnessedAfterOpen(L: Volume, L': Volume, m: Volume, sh: Shape, n: nat,
                           seeds: map<int, Cell>, paths: map<Cell, seq<Cell>>, cur: Cell)
    requires Witnessed(L, m, sh, n, seeds, paths)
    requires forall p :: Inside(sh, p) ==> 0 <= Sample(L, p) <= n
    requires Inside(sh, cur) && InVolume(m, cur) && Sample(m, cur) != 0 && Sample(L, cur) == 0
    requires Updated(L, L', sh, cur, n + 1)
    ensures Witnessed(L', m, sh, n + 1, seeds[n + 1 := cur], paths[cur := [cur]])
  {
    var seeds', paths' := seeds[n + 1 := cur], paths[cur := [cur]];
    assert IsPath(m, [cur]);
    forall x | Inside(sh, x) && 1 <= Sample(L', x) <= n + 1
      ensures Sample(L', x) in seeds' && x in paths' && IsPath(m, paths'[x]) &&
              paths'[x][0] == seeds'[Sample(L', x)] && paths'[x][|paths'[x]| - 1] == x
    {
      if x != cur {
        assert paths'[x] == paths[x] && Sample(L', x) == Sample(L, x) <= n;
      }
    }
  }

  lemma ClosedAfterOpen(L: Volume, L': Volume, m: Volume, sh: Shape, cur: Cell)
    requires ClosedExcept(L, m, sh, []) && ScannedBefore(L, m, sh, cur)
    requires Inside(sh, cur) && Sample(L, cur) == 0
    requires Updated(L, L', sh, cur, Sample(L', cur)) && Sample(L', cur) != 0
    ensures ClosedExcept(L', m, sh, [cur]) && ScannedBefore(L', m, sh, cur)
  {
    forall x, y | Inside(sh, x) && Inside(sh, y) && Sample(L', x) != 0 && x !in [cur] &&
                  Adjacent(x, y) && Sample(m, y) != 0
      ensures Sample(L', y) == Sample(L', x)
    {
      assert x != cur && Sample(L', x) == Sample(L, x);
      assert x !in [];
    }
  }

  /** The array a, read as a volume, is its mirror. */
  lemma MirrorIsVolume(a: array3<int>, sh: Shape, L: Volume)
    requires Mirrors(a, sh, L)
    ensures ToVolume(a) == L
  {
    Extensionality(ToVolume(a), L, sh);
  }

  /** Moving the cursor past a voxel that is background or labelled. */
  lemma ScanStep(L: Volume, m: Volume, sh: Shape, cur: Cell)
    requires Inside(sh, cur) && ScannedBefore(L, m, sh, cur)
    requires Sample(m, cur) != 0 ==> Sample(L, cur) != 0
    ensures ScannedBefore(L, m, sh, Next(sh, cur))
  {
  }

  /** The first set of unlabelled occupied voxels covers all of them. */
  lemma FreeInitially(L: Volume, m: Volume, sh: Shape, free: set<Cell>)
    requires free == set s, r, c | 0 <= s < sh.depth && 0 <= r < sh.rows && 0 <= c < sh.cols &&
                                   Sample(m, Cell(s, r, c)) != 0 && Sample(L, Cell(s, r, c)) == 0
                                 :: Cell(s, r, c)
    ensures FreeCovers(L, m, sh, free)
  {
    forall p | Inside(sh, p) && Sample(m, p) != 0 && Sample(L, p) == 0
      ensures p in free
    {
      assert p == Cell(p.s, p.r, p.c);
    }
  }

  /** Labelling the unlabelled occupied neighbour q of p with n. */
  lemma LabelNeighbour(L: Volume, L': Volume, m: Volume, sh: Shape, n: nat, seeds: map<int, Cell>,
                       paths: map<Cell, seq<Cell>>, seed: Cell, todo: seq<Cell>,
                       free: set<Cell>, p: Cell, q: Cell)
    requires Flooding(L, m, sh, n, seeds, paths, seed, todo + [p], todo, free)
    requires Sample(L, seed) == n && Inside(sh, p) && Sample(L, p) == n
    requires Inside(sh, q) && Adjacent(p, q) && Sample(m, q) != 0 && Sample(L, q) == 0
    requires Updated(L, L', sh, q, n)
    ensures q in free && q != p && q != seed
    ensures Flooding(L', m, sh, n, seeds, paths[q := paths[p] + [q]], seed,
                     todo + [q] + [p], todo + [q], free - {q})
  {
    PathExtend(m, paths[p], q);
    ConsistentAfterLabel(L, L', m, sh, n, seeds, paths, seed, p, q);
    forall x, y | Inside(sh, x) && Inside(sh, y) && Sample(L', x) != 0 && x !in todo + [q] + [p] &&
                  Adjacent(x, y) && Sample(m, y) != 0
      ensures Sample(L', y) == Sample(L', x)
    {
      assert x !in todo + [p];
    }
  }

  /** Labelling q keeps the labelling consistent. */
  lemma ConsistentAfterLabel(L: Volume, L': Volume, m: Volume, sh: Shape, n: nat,
                             seeds: map<int, Cell>, paths: map<Cell, seq<Cell>>, seed: Cell,
                             p: Cell, q: Cell)
    requires Consistent(L, m, sh, n, seeds, paths) && n >= 1 && n in seeds && seeds[n] == seed
    requires ScannedBefore(L, m, sh, seed)
    requires Inside(sh, p) && Sample(L, p) == n
    requires Inside(sh, q) && Adjacent(p, q) && Sample(m, q) != 0 && Sample(L, q) == 0
    requires IsPath(m, paths[p] + [q])
    requires Updated(L, L', sh, q, n)
    ensures Consistent(L', m, sh, n, seeds, paths[q := paths[p] + [q]])
  {
    NumberedAfterLabel(L, L', m, sh, n, seeds, seed, q);
    WitnessedAfterLabel(L, L', m, sh, n, seeds, paths, p, q);
  }

  lemma NumberedAfterLabel(L: Volume, L': Volume, m: Volume, sh: Shape, n: nat,
                           seeds: map<int, Cell>, seed: Cell, q: Cell)
    requires Numbered(L, m, sh, n, seeds) && n >= 1 && n in seeds && seeds[n] == seed
    requires ScannedBefore(L, m, sh, seed)
    requires Inside(sh, q) && Sample(m, q) != 0 && Sample(L, q) == 0
    requires Updated(L, L', sh, q, n)
    ensures Numbered(L', m, sh, n, seeds)
  {
  }

  lemma WitnessedAfterLabel(L: Volume, L': Volume, m: Volume, sh: Shape, n: nat,
                            seeds: map<int, Cell>, paths: map<Cell, seq<Cell>>, p: Cell, q: Cell)
    requires Witnessed(L, m, sh, n, seeds, paths)
    requires Inside(sh, p) && Sample(L, p) == n && n >= 1
    requires Inside(sh, q) && Sample(L, q) == 0
    requires IsPath(m, paths[p] + [q])
    requires Updated(L, L', sh, q, n)
    ensures Witnessed(L', m, sh, n, seeds, paths[q := paths[p] + [q]])
  {
    var paths' := paths[q := paths[p] + [q]];
    forall x | Inside(sh, x) && 1 <= Sample(L', x) <= n
      ensures Sample(L', x) in seeds && x in paths' && IsPath(m, paths'[x]) &&
              paths'[x][0] == seeds[Sample(L', x)] && paths'[x][|paths'[x]| - 1] == x
    {
      if x != q {
        assert paths'[x] == paths[x] && Sample(L', x) == Sample(L, x);
      }
    }
  }

  /** An already labelled occupied neighbour of p carries p's label n. */
  lemma NeighbourShares(L: Volume, m: Volume, sh: Shape, n: nat, seeds: map<int, Cell>,
                        paths: map<Cell, seq<Cell>>, todo: seq<Cell>, p: Cell, q: Cell)
    requires Consistent(L, m, sh, n, seeds, paths)
    requires ClosedExcept(L, m, sh, todo + [p]) && Stacked(L, sh, todo, n)
    requires Inside(sh, p) && Sample(L, p) == n
    requires Inside(sh, q) && Adjacent(p, q) && Sample(m, q) != 0 && Sample(L, q) != 0
    ensures Sample(L, q) == n
  {
    if q !in todo + [p] {
      assert Adjacent(q, p) && Sample(m, p) != 0;
    } else if q in todo {
      var i :| 0 <= i < |todo| && todo[i] == q;
    }
  }

  /** Once all occupied neighbours of p carry its label, p is closed. */
  lemma CloseCell(L: Volume, m: Volume, sh: Shape, todo: seq<Cell>, p: Cell)
    requires ClosedExcept(L, m, sh, todo + [p])
    requires forall q :: q in Neighbours(p) && Inside(sh, q) && Sample(m, q) != 0 ==>
               Sample(L, q) == Sample(L, p)
    ensures ClosedExcept(L, m, sh, todo)
  {
  }

  /** The state in which the scan ends is the labelling of m. */
  lemma Conclude(L: Volume, m: Volume, sh: Shape, n: nat,
                 seeds: map<int, Cell>, paths: map<Cell, seq<Cell>>)
    requires Consistent(L, m, sh, n, seeds, paths)
    requires ClosedExcept(L, m, sh, [])
    requires ScannedBefore(L, m, sh, End(sh))
    ensures IsLabeling(m, sh, L, n)
  {
    forall p | Inside(sh, p)
      ensures Sample(L, p) == 0 <==> Sample(m, p) == 0
    {
      BeforeEnd(sh, p);
    }
    forall k | 1 <= k <= n
      ensures Used(sh, L, k)
    {
      assert Inside(sh, seeds[k]) && Sample(L, seeds[k]) == k;
    }
    forall p, q | Inside(sh, p) && Inside(sh, q) && Sample(L, p) != 0 && Sample(L, p) == Sample(L, q)
      ensures Joined(m, p, q)
    {
      JoinPaths(m, paths[p], paths[q]);
    }
    forall q | Inside(sh, q) && Sample(L, q) > 1
      ensures exists p :: Inside(sh, p) && Before(p, q) && Sample(L, p) == Sample(L, q) - 1
    {
      var k := Sample(L, q);
      assert Before(seeds[k - 1], seeds[k]);
      assert Inside(sh, seeds[k - 1]) && Sample(L, seeds[k - 1]) == k - 1;
    }
  }

  // ---------------------------------------------------------------------
  // What the contract determines

  /** A walk through occupied voxels never changes label. */
  lemma {:induction false} PathKeepsLabel(m: Volume, sh: Shape, lab: Volume, path: seq<Cell>)
    requires HasShape(m, sh) && AdjacentAgree(m, sh, lab) && IsPath(m, path)
    ensures Sample(lab, path[0]) == Sample(lab, path[|path| - 1])
    decreases |path|
  {
    if |path| > 1 {
      var init := path[..|path| - 1];
      forall i | 0 < i < |init|
        ensures Step(init, i)
      {
        assert Step(path, i);
      }
      assert IsPath(m, init);
      PathKeepsLabel(m, sh, lab, init);
      assert Step(path, |path| - 1);
      var x, y := path[|path| - 2], path[|path| - 1];
      assert InVolume(m, x) && InVolume(m, y) && Sample(m, x) != 0 && Sample(m, y) != 0;
      assert Inside(sh, x) && Inside(sh, y);
    }
  }

  /** Occupied voxels share a label exactly when they are joined. */
  lemma SameLabelIffJoined(m: Volume, sh: Shape, lab: Volume, n: nat, p: Cell, q: Cell)
    requires IsLabeling(m, sh, lab, n)
    requires Inside(sh, p) && Inside(sh, q) && Sample(m, p) != 0 && Sample(m, q) != 0
    ensures Sample(lab, p) == Sample(lab, q) <==> Joined(m, p, q)
  {
    if Joined(m, p, q) {
      var path :| IsPath(m, path) && path[0] == p && path[|path| - 1] == q;
      PathKeepsLabel(m, sh, lab, path);
    }
  }

  /** Every label below the label of q already occurs before q in the scan. */
  lemma {:induction false} LowerLabelsEarlier(sh: Shape, lab: Volume, q: Cell, j: int)
    requires ScanOrdered(sh, lab) && Inside(sh, q) && 1 <= j < Sample(lab, q)
    ensures exists x :: Inside(sh, x) && Before(x, q) && Sample(lab, x) == j
    decreases Sample(lab, q) - j
  {
    var y :| Inside(sh, y) && Before(y, q) && Sample(lab, y) == Sample(lab, q) - 1;
    if j < Sample(lab, y) {
      LowerLabelsEarlier(sh, lab, y, j);
      var x :| Inside(sh, x) && Before(x, y) && Sample(lab, x) == j;
      assert Before(x, q);
    }
  }

  /** Two labellings of one mask agree at p. */
  lemma {:induction false} AgreeAt(m: Volume, sh: Shape, lab1: Volume, n1: nat, lab2: Volume, n2: nat,
                                   p: Cell)
    requires IsLabeling(m, sh, lab1, n1) && IsLabeling(m, sh, lab2, n2) && Inside(sh, p)
    ensures Sample(lab1, p) == Sample(lab2, p)
    decreases p.s, p.r, p.c
  {
    if Sample(m, p) != 0 {
      if x :| Inside(sh, x) && Before(x, p) && Sample(m, x) != 0 && Joined(m, x, p) {
        AgreeAt(m, sh, lab1, n1, lab2, n2, x);
        SameLabelIffJoined(m, sh, lab1, n1, x, p);
        SameLabelIffJoined(m, sh, lab2, n2, x, p);
      } else {
        forall x | Inside(sh, x) && Before(x, p)
          ensures Sample(lab1, x) == Sample(lab2, x)
        {
          AgreeAt(m, sh, lab1, n1, lab2, n2, x);
        }
        var k1, k2 := Sample(lab1, p), Sample(lab2, p);
        if k1 < k2 {
          FirstOfComponent(m, sh, lab2, n2, lab1, n1, p);
        } else if k2 < k1 {
          FirstOfComponent(m, sh, lab1, n1, lab2, n2, p);
        }
      }
    }
  }

  /** At the first voxel p of a component, labellings that agree before p
      cannot give p a smaller label in lab2 than in lab1. */
  lemma FirstOfComponent(m: Volume, sh: Shape, lab1: Volume, n1: nat, lab2: Volume, n2: nat, p: Cell)
    requires IsLabeling(m, sh, lab1, n1) && IsLabeling(m, sh, lab2, n2)
    requires Inside(sh, p) && Sample(m, p) != 0
    requires forall x :: Inside(sh, x) && Before(x, p) && Sample(m, x) != 0 ==> !Joined(m, x, p)
    requires forall x :: Inside(sh, x) && Before(x, p) ==> Sample(lab1, x) == Sample(lab2, x)
    ensures !(Sample(lab2, p) < Sample(lab1, p))
  {
    if Sample(lab2, p) < Sample(lab1, p) {
      LowerLabelsEarlier(sh, lab1, p, Sample(lab2, p));
    }
  }

  /** The contract fixes the labelling: a mask has exactly one labelling. */
  lemma LabelingUnique(m: Volume, sh: Shape, lab1: Volume, n1: nat, lab2: Volume, n2: nat)
    requires IsLabeling(m, sh, lab1, n1) && IsLabeling(m, sh, lab2, n2)
    ensures lab1 == lab2 && n1 == n2
  {
    forall p | Inside(sh, p)
      ensures Sample(lab1, p) == Sample(lab2, p)
    {
      AgreeAt(m, sh, lab1, n1, lab2, n2, p);
    }
    Extensionality(lab1, lab2, sh);
    if n1 > 0 {
      assert Used(sh, lab1, n1);
      var p :| Inside(sh, p) && Sample(lab1, p) == n1;
      assert Sample(lab2, p) <= n2;
    }
    if n2 > 0 {
      assert Used(sh, lab2, n2);
      var p :| Inside(sh, p) && Sample(lab2, p) == n2;
      assert Sample(lab1, p) <= n1;
    }
  }

  /** There are no labels exactly when the mask is empty. */
  lemma NoLabelsIffEmpty(m: Volume, sh: Shape, lab: Volume, n: nat)
    requires IsLabeling(m, sh, lab, n)
    ensures n == 0 <==> forall p :: Inside(sh, p) ==> Sample(m, p) == 0
  {
    if n > 0 {
      assert Used(sh, lab, 1);
    }
  }

  /** A mask without background is one component, labelled 1. */
  lemma FullMaskOneComponent(m: Volume, sh: Shape, lab: Volume, n: nat)
    requires IsLabeling(m, sh, lab, n)
    requires forall p :: Inside(sh, p) ==> Sample(m, p) != 0
    requires Inside(sh, Cell(0, 0, 0))
    ensures n == 1 && forall p :: Inside(sh, p) ==> Sample(lab, p) == 1
  {
    var o := Cell(0, 0, 0);
    forall p | Inside(sh, p)
      ensures Sample(lab, p) == Sample(lab, o)
    {
      FullJoined(m, sh, p);
      SameLabelIffJoined(m, sh, lab, n, o, p);
    }
    assert 1 <= Sample(lab, o) <= n;
    assert Used(sh, lab, n) && Used(sh, lab, 1);
  }

  /** A mask whose occupied voxels are all joined to one another has a
      single label. */
  lemma SingleBlob(m: Volume, sh: Shape, lab: Volume, n: nat, o: Cell)
    requires IsLabeling(m, sh, lab, n)
    requires Inside(sh, o) && Sample(m, o) != 0
    requires forall p :: Inside(sh, p) && Sample(m, p) != 0 ==> Joined(m, o, p)
    ensures n == 1
  {
    forall p | Inside(sh, p) && Sample(m, p) != 0
      ensures Sample(lab, p) == Sample(lab, o)
    {
      SameLabelIffJoined(m, sh, lab, n, o, p);
    }
    assert 1 <= Sample(lab, o) <= n;
    assert Used(sh, lab, n) && Used(sh, lab, 1);
  }

  /** The occupied voxels of m. */
  ghost function Occupied(m: Volume, sh: Shape): set<Cell>
  {
    set s, r, c | 0 <= s < sh.depth && 0 <= r < sh.rows && 0 <= c < sh.cols && Sample(m, Cell(s, r, c)) != 0
      :: Cell(s, r, c)
  }

  /** The voxels of cells with a label in 1..k. */
  ghost function LabelledUpTo(cells: set<Cell>, lab: Volume, k: int): set<Cell>
  {
    set p | p in cells && 1 <= Sample(lab, p) <= k
  }

  /** Some voxel of cells carries label j. */
  ghost predicate UsedIn(cells: set<Cell>, lab: Volume, j: int)
  {
    exists p :: p in cells && Sample(lab, p) == j
  }

  lemma {:induction false} LabelledUpToSize(cells: set<Cell>, lab: Volume, k: nat)
    requires forall j :: 1 <= j <= k ==> UsedIn(cells, lab, j)
    ensures |LabelledUpTo(cells, lab, k)| >= k
  {
    if k > 0 {
      LabelledUpToSize(cells, lab, k - 1);
      assert UsedIn(cells, lab, k);
      var p :| p in cells && Sample(lab, p) == k;
      assert p in LabelledUpTo(cells, lab, k) && p !in LabelledUpTo(cells, lab, k - 1);
      assert LabelledUpTo(cells, lab, k - 1) + {p} <= LabelledUpTo(cells, lab, k);
      AddOneSize(LabelledUpTo(cells, lab, k - 1), LabelledUpTo(cells, lab, k), p);
    }
  }

  lemma AddOneSize<T>(a: set<T>, b: set<T>, x: T)
    requires a + {x} <= b && x !in a
    ensures |b| >= |a| + 1
  {
    assert |a + {x}| == |a| + 1;
    SubsetSize(a + {x}, b);
  }

  /** There are never more labels than occupied voxels. */
  lemma LabelCountBound(m: Volume, sh: Shape, lab: Volume, n: nat)
    requires IsLabeling(m, sh, lab, n)
    ensures n <= |Occupied(m, sh)|
  {
    var occ := Occupied(m, sh);
    forall j | 1 <= j <= n
      ensures UsedIn(occ, lab, j)
    {
      assert Used(sh, lab, j);
      var p :| Inside(sh, p) && Sample(lab, p) == j;
      assert p == Cell(p.s, p.r, p.c) && Sample(m, p) != 0;
      assert p in occ;
    }
    LabelledUpToSize(occ, lab, n);
    SubsetSize(LabelledUpTo(occ, lab, n), occ);
  }

  lemma SubsetSize<T>(a: set<T>, b: set<T>)
    requires a <= b
    ensures |a| <= |b|
  {
    assert b == a + (b - a);
  }
}
