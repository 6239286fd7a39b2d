/** The elimination tree of the multifrontal LDL factorization.

    The source walks three parallel trees in lockstep: the separator tree
    (`Separator`/`DistSeparator`, holding the reordered indices `inds` of each
    separator), the symbolic tree (`NodeInfo`/`DistNodeInfo`, holding `off`,
    `size`, `lowerStruct`, `origLowerStruct`, `origLowerRelInds`) and the front
    tree (`Front`/`DistFront`, holding the dense block `L`).  Child `c` of one
    corresponds to child `c` of the others, so they are fused here into one
    node type, and `size` is `|inds|`.

    The top of the tree is distributed: each distributed node is either a
    `Dist` node with one `child` on the process's subteam, or a `Duplicate`
    that hands over to a purely local subtree. */
module FrontTree {
  import opened ComplexArith
  import opened Strided

  /** A local node (`Separator` + `NodeInfo` + `Front`).  The dense front `L`
      is `(size + |lowerStruct|) x size`; entries not in the map are zero. */
  datatype Node = Node(
    inds: seq<int>,
    off: int,
    lowerStruct: seq<int>,
    origLowerStruct: seq<int>,
    origLowerRelInds: seq<int>,
    L: map<(int, int), Complex>,
    children: seq<Node>)

  /** The position of this process in the grid of a distributed front, and
      the grid's shape (`grid.Row()`, `grid.Col()`, `Height()`, `Width()`). */
  datatype Grid = Grid(row: nat, col: nat, height: nat, width: nat)

  /** A distributed node (`DistSeparator` + `DistNodeInfo` + `DistFront`).
      `L` holds the global entries of the distributed front, of which the
      process reads only those its layout makes local; `is1D` selects the
      `[VC,STAR]` layout over the `[MC,MR]` one. */
  datatype DistNode =
    | Duplicate(local: Node)
    | Dist(
        inds: seq<int>,
        off: int,
        lowerStruct: seq<int>,
        origLowerStruct: seq<int>,
        origLowerRelInds: seq<int>,
        L: map<(int, int), Complex>,
        grid: Grid,
        is1D: bool,
        child: DistNode)

  predicate GridOk(g: Grid)
  {
    0 < g.height && 0 < g.width && g.row < g.height && g.col < g.width
  }

  /** `front.L.Get(s, t)`. */
  function Get(L: map<(int, int), Complex>, s: int, t: int): Complex
  {
    if (s, t) in L then L[(s, t)] else Zero
  }

  /** Every grid on the distributed spine is a proper grid. */
  predicate Grids(d: DistNode)
  {
    match d
    case Duplicate(_) => true
    case Dist(_, _, _, _, _, _, g, _, c) => GridOk(g) && Grids(c)
  }

  /** Every node's `origLowerRelInds` runs parallel to its `origLowerStruct`. */
  predicate NodeShapes(n: Node)
    decreases n
  {
    |n.origLowerRelInds| == |n.origLowerStruct| &&
    forall c :: 0 <= c < |n.children| ==> NodeShapes(n.children[c])
  }

  predicate Shapes(d: DistNode)
  {
    match d
    case Duplicate(n) => NodeShapes(n)
    case Dist(_, _, _, ols, olri, _, _, _, c) => |olri| == |ols| && Shapes(c)
  }

  /** Element-cyclic row layout of a distributed front: the shift and stride
      of the rows the process owns.  `[MC,MR]` deals rows over the grid
      column (stride = grid height); `[VC,STAR]` deals them over all
      processes in column-major rank order. */
  function RowShift(d: DistNode): nat
    requires d.Dist?
  {
    if d.is1D then d.grid.row + d.grid.col * d.grid.height else d.grid.row
  }

  function RowStride(d: DistNode): nat
    requires d.Dist?
  {
    if d.is1D then d.grid.height * d.grid.width else d.grid.height
  }

  /** Element-cyclic column layout: `[MC,MR]` deals columns over the grid row
      (stride = grid width); `[VC,STAR]` keeps every column. */
  function ColShift(d: DistNode): nat
    requires d.Dist?
  {
    if d.is1D then 0 else d.grid.col
  }

  function ColStride(d: DistNode): nat
    requires d.Dist?
  {
    if d.is1D then 1 else d.grid.width
  }

  /** The shift of the bottom block `FBL`, whose row 0 is front row `size`. */
  function BottomShift(d: DistNode): nat
    requires d.Dist? && GridOk(d.grid)
  {
    LayoutPositive(d);
    (RowShift(d) - |d.inds|) % RowStride(d)
  }

  lemma LayoutPositive(d: DistNode)
    requires d.Dist? && GridOk(d.grid)
    ensures RowStride(d) > 0 && ColStride(d) > 0
    ensures RowShift(d) < RowStride(d) && ColShift(d) < ColStride(d)
  {
    var g := d.grid;
    if d.is1D {
      assert g.height * g.width == g.height * (g.width - 1) + g.height;
      assert g.col * g.height <= (g.width - 1) * g.height;
    }
  }

  /** The local rows of the top block `FTL` (`FTL.GlobalRow(sLoc)` for
      `sLoc < FTL.LocalHeight()`), in local order. */
  function TopRows(d: DistNode): seq<nat>
    requires d.Dist? && GridOk(d.grid)
  {
    LayoutPositive(d);
    StrideWalk(RowShift(d), RowStride(d), |d.inds|)
  }

  /** The local rows of the bottom block `FBL`, as rows of that block. */
  function BottomRows(d: DistNode): seq<nat>
    requires d.Dist? && GridOk(d.grid)
  {
    LayoutPositive(d);
    StrideWalk(BottomShift(d), RowStride(d), |d.lowerStruct|)
  }

  /** The local columns of the front (`GlobalCol(tLoc)` for
      `tLoc < LocalWidth()`), in local order. */
  function LocalCols(d: DistNode): seq<nat>
    requires d.Dist? && GridOk(d.grid)
  {
    LayoutPositive(d);
    StrideWalk(ColShift(d), ColStride(d), |d.inds|)
  }
}
