/** `DistFront::Unpack`: the factored fronts are shipped back into a
    distributed sparse matrix.  Every process walks its part of the front
    tree twice.  The count pass `localCount`/`count` adds, per row of a
    front, the number of entries that row contributes to `sendSizes` at the
    row's owner; the packing pass `localPack`/`pack` writes each entry
    `(i, j, value)` at its owner's cursor `offs[RowOwner(i)]++`.

    A local front contributes its lower triangle `(off+s, off+t)`, `t <= s`,
    row by row, then its bottom block `(lowerStruct[s], off+t)`.  A
    distributed front contributes the entries of the rows and columns the
    process holds, keeping only `t <= s` in the top block.  In both passes
    the children come first. */
module FrontUnpack {
  import opened SeqMath
  import opened Buckets
  import opened Strided
  import opened ComplexArith
  import opened FrontTree
  import RowRequests

  /** `Entry<F>`: row, column and value of one update of the sparse matrix. */
  datatype Entry = Entry(i: int, j: int, value: Complex)

  /** Every entry is routed to the owner of its row. */
  predicate RoutedBy(xs: seq<Routed<Entry>>, owner: int -> int)
  {
    forall k :: 0 <= k < |xs| ==> xs[k].rank == owner(xs[k].item.i)
  }

  /** The entry of front `L` at (`s`, `t`), shipped as row `i`, column
      `off + t` of the sparse matrix, to the owner of row `i`. */
  function Ship(owner: int -> int, L: map<(int, int), Complex>, off: int, i: int, s: int, t: int): Routed<Entry>
  {
    Routed(owner(i), Entry(i, off + t, Get(L, s, t)))
  }

  // ---------------------------------------------------------------------
  // The packing walk of a local front (`localPack`).
  // ---------------------------------------------------------------------

  /** Row `s` of the top block: `for( t=0; t<=s; ++t )`. */
  function DiagRow(n: Node, owner: int -> int, s: int): (r: seq<Routed<Entry>>)
    requires 0 <= s
    ensures |r| == s + 1
    ensures forall t :: 0 <= t <= s ==> r[t] == Ship(owner, n.L, n.off, n.off + s, s, t)
  {
    seq(s + 1, t requires 0 <= t <= s => Ship(owner, n.L, n.off, n.off + s, s, t))
  }

  /** Row `s` of the bottom block: `for( t=0; t<node.size; ++t )`, read
      from front row `size + s`. */
  function LowerRow(n: Node, owner: int -> int, s: int): (r: seq<Routed<Entry>>)
    requires 0 <= s < |n.lowerStruct|
    ensures |r| == |n.inds|
    ensures forall t :: 0 <= t < |n.inds| ==>
              r[t] == Ship(owner, n.L, n.off, n.lowerStruct[s], |n.inds| + s, t)
  {
    seq(|n.inds|, t requires 0 <= t < |n.inds| => Ship(owner, n.L, n.off, n.lowerStruct[s], |n.inds| + s, t))
  }

  /** The first `m` rows of the top block. */
  function DiagRows(n: Node, owner: int -> int, m: nat): (r: seq<Routed<Entry>>)
    ensures RoutedBy(r, owner)
  {
    if m == 0 then []
    else
      RoutedAppend(DiagRows(n, owner, m - 1), DiagRow(n, owner, m - 1), owner);
      DiagRows(n, owner, m - 1) + DiagRow(n, owner, m - 1)
  }

  /** The first `m` rows of the bottom block. */
  function LowerRows(n: Node, owner: int -> int, m: nat): (r: seq<Routed<Entry>>)
    requires m <= |n.lowerStruct|
    ensures RoutedBy(r, owner)
  {
    if m == 0 then []
    else
      RoutedAppend(LowerRows(n, owner, m - 1), LowerRow(n, owner, m - 1), owner);
      LowerRows(n, owner, m - 1) + LowerRow(n, owner, m - 1)
  }

  /** Everything a local subtree ships, in the order `localPack` visits it. */
  function LocalStream(n: Node, owner: int -> int): (r: seq<Routed<Entry>>)
    ensures RoutedBy(r, owner)
    decreases n, 1
  {
    var cs := ChildStreams(n, 0, owner);
    RoutedAppend(cs, DiagRows(n, owner, |n.inds|), owner);
    RoutedAppend(cs + DiagRows(n, owner, |n.inds|), LowerRows(n, owner, |n.lowerStruct|), owner);
    cs + DiagRows(n, owner, |n.inds|) + LowerRows(n, owner, |n.lowerStruct|)
  }

  /** The streams of children `c, c+1, ...`, concatenated. */
  function ChildStreams(n: Node, c: nat, owner: int -> int): (r: seq<Routed<Entry>>)
    ensures RoutedBy(r, owner)
    decreases n, 0, |n.children| - c
  {
    if c >= |n.children| then []
    else
      RoutedAppend(LocalStream(n.children[c], owner), ChildStreams(n, c + 1, owner), owner);
      LocalStream(n.children[c], owner) + ChildStreams(n, c + 1, owner)
  }

  // ---------------------------------------------------------------------
  // The packing walk of a distributed front (`pack`).
  // ---------------------------------------------------------------------

  /** The local columns `t` among the first `k` with `t <= s`, in order:
      the columns the guard `if( t <= s )` lets through. */
  function AtMost(cols: seq<nat>, s: int, k: nat): (r: seq<nat>)
    requires k <= |cols|
    ensures forall x :: x in r <==> x <= s && exists tLoc :: 0 <= tLoc < k && cols[tLoc] == x
  {
    if k == 0 then []
    else
      var r := AtMost(cols, s, k - 1) + (if cols[k - 1] <= s then [cols[k - 1]] else []);
      r
  }

  /** Top-block row `s` of a distributed front: its local columns up to the
      diagonal. */
  function TopRow(d: DistNode, owner: int -> int, s: nat): (r: seq<Routed<Entry>>)
    requires d.Dist? && GridOk(d.grid)
    ensures RoutedBy(r, owner)
    ensures |r| == |AtMost(LocalCols(d), s, |LocalCols(d)|)|
    ensures forall k :: 0 <= k < |r| ==> r[k].rank == owner(d.off + s)
  {
    var cols := AtMost(LocalCols(d), s, |LocalCols(d)|);
    seq(|cols|, k requires 0 <= k < |cols| => Ship(owner, d.L, d.off, d.off + s, s, cols[k]))
  }

  /** The top rows of a distributed front stay in its lower triangle: entry
      `k` of row `s` lies in row `off + s` at a column in `[off, off + s]`. */
  lemma TopRowLower(d: DistNode, owner: int -> int, s: nat, k: nat)
    requires d.Dist? && GridOk(d.grid) && k < |TopRow(d, owner, s)|
    ensures TopRow(d, owner, s)[k].item.i == d.off + s
    ensures d.off <= TopRow(d, owner, s)[k].item.j <= d.off + s
  {
    var cols := AtMost(LocalCols(d), s, |LocalCols(d)|);
    assert cols[k] in cols;
  }

  /** Bottom-block row `s` of a distributed front: all its local columns. */
  function BottomRow(d: DistNode, owner: int -> int, s: nat): (r: seq<Routed<Entry>>)
    requires d.Dist? && GridOk(d.grid) && s < |d.lowerStruct|
    ensures RoutedBy(r, owner)
    ensures |r| == |LocalCols(d)|
    ensures forall k :: 0 <= k < |r| ==> r[k].rank == owner(d.lowerStruct[s])
  {
    var cols := LocalCols(d);
    seq(|cols|, k requires 0 <= k < |cols| => Ship(owner, d.L, d.off, d.lowerStruct[s], |d.inds| + s, cols[k]))
  }

  /** The first `m` local rows of the top block. */
  function TopRowsStream(d: DistNode, owner: int -> int, m: nat): (r: seq<Routed<Entry>>)
    requires d.Dist? && GridOk(d.grid) && m <= |TopRows(d)|
    ensures RoutedBy(r, owner)
  {
    if m == 0 then []
    else
      RoutedAppend(TopRowsStream(d, owner, m - 1), TopRow(d, owner, TopRows(d)[m - 1]), owner);
      TopRowsStream(d, owner, m - 1) + TopRow(d, owner, TopRows(d)[m - 1])
  }

  /** The first `m` local rows of the bottom block. */
  function BottomRowsStream(d: DistNode, owner: int -> int, m: nat): (r: seq<Routed<Entry>>)
    requires d.Dist? && GridOk(d.grid) && m <= |BottomRows(d)|
    ensures RoutedBy(r, owner)
  {
    if m == 0 then []
    else
      RoutedAppend(BottomRowsStream(d, owner, m - 1), BottomRow(d, owner, BottomRows(d)[m - 1]), owner);
      BottomRowsStream(d, owner, m - 1) + BottomRow(d, owner, BottomRows(d)[m - 1])
  }

  /** Everything the process ships, in the order `pack` visits it: the child
      first, then the local top rows, then the local bottom rows. */
  function UnpackStream(d: DistNode, owner: int -> int): (r: seq<Routed<Entry>>)
    requires Grids(d)
    ensures RoutedBy(r, owner)
  {
    match d
    case Duplicate(n) => LocalStream(n, owner)
    case Dist(_, _, _, _, _, _, _, _, child) =>
      var top := TopRowsStream(d, owner, |TopRows(d)|);
      RoutedAppend(UnpackStream(child, owner), top, owner);
      RoutedAppend(UnpackStream(child, owner) + top, BottomRowsStream(d, owner, |BottomRows(d)|), owner);
      UnpackStream(child, owner) + top + BottomRowsStream(d, owner, |BottomRows(d)|)
  }

  lemma RoutedAppend(xs: seq<Routed<Entry>>, ys: seq<Routed<Entry>>, owner: int -> int)
    requires RoutedBy(xs, owner) && RoutedBy(ys, owner)
    ensures RoutedBy(xs + ys, owner)
  {
    forall k | 0 <= k < |xs + ys|
      ensures (xs + ys)[k].rank == owner((xs + ys)[k].item.i)
    {
      if k >= |xs| {
        assert (xs + ys)[k] == ys[k - |xs|];
      }
    }
  }

  /** Entries routed by an owner map into `[0, P)` go to ranks in `[0, P)`. */
  lemma RoutedRanks(xs: seq<Routed<Entry>>, owner: int -> int, P: nat)
    requires RoutedBy(xs, owner) && RowRequests.OwnersIn(owner, P)
    ensures RanksIn(xs, P)
  {
    forall k | 0 <= k < |xs|
      ensures 0 <= xs[k].rank < P
    {
      RowRequests.OwnerIn(owner, P, xs[k].item.i);
    }
  }

  // ---------------------------------------------------------------------
  // The count pass (`localCount` / `count`).
  // ---------------------------------------------------------------------

  /** The inner count loop `for( t=0; t<times; ++t ) sendSizes[q]++`. */
  function Bump(sizes: seq<int>, q: int, times: nat): (r: seq<int>)
    requires 0 <= q < |sizes|
    ensures r == sizes[q := sizes[q] + times]
    decreases times
  {
    if times == 0 then sizes else Bump(sizes[q := sizes[q] + 1], q, times - 1)
  }

  /** The guarded inner count loop of a distributed top row:
      `for( tLoc<k ) if( GlobalCol(tLoc) <= s ) ++sendSizes[q]`. */
  function BumpAtMost(sizes: seq<int>, q: int, cols: seq<nat>, s: int, k: nat): (r: seq<int>)
    requires 0 <= q < |sizes| && k <= |cols|
    ensures r == sizes[q := sizes[q] + |AtMost(cols, s, k)|]
  {
    if k == 0 then sizes
    else
      var r := BumpAtMost(sizes, q, cols, s, k - 1);
      if cols[k - 1] <= s then r[q := r[q] + 1] else r
  }

  /** One row of the count: bumping the row owner's size by the row's
      length continues the count of the stream by that row. */
  lemma DiagStep(n: Node, owner: int -> int, m: nat, sizes: seq<int>, r: seq<int>)
    requires 0 < m && RowRequests.OwnersIn(owner, |sizes|) && 0 <= owner(n.off + m - 1) < |sizes|
    requires r == Tally(DiagRows(n, owner, m - 1), sizes)
    ensures Bump(r, owner(n.off + m - 1), m) == Tally(DiagRows(n, owner, m), sizes)
  {
    RoutedRanks(DiagRows(n, owner, m - 1), owner, |sizes|);
    TallyAppendRun(DiagRows(n, owner, m), DiagRows(n, owner, m - 1), DiagRow(n, owner, m - 1),
                   owner(n.off + m - 1), m, sizes, r, Bump(r, owner(n.off + m - 1), m));
  }

  lemma LowerStep(n: Node, owner: int -> int, m: nat, sizes: seq<int>, r: seq<int>)
    requires 0 < m <= |n.lowerStruct| && RowRequests.OwnersIn(owner, |sizes|)
    requires 0 <= owner(n.lowerStruct[m - 1]) < |sizes|
    requires r == Tally(LowerRows(n, owner, m - 1), sizes)
    ensures Bump(r, owner(n.lowerStruct[m - 1]), |n.inds|) == Tally(LowerRows(n, owner, m), sizes)
  {
    RoutedRanks(LowerRows(n, owner, m - 1), owner, |sizes|);
    TallyAppendRun(LowerRows(n, owner, m), LowerRows(n, owner, m - 1), LowerRow(n, owner, m - 1),
                   owner(n.lowerStruct[m - 1]), |n.inds|, sizes, r, Bump(r, owner(n.lowerStruct[m - 1]), |n.inds|));
  }

  lemma TopStep(d: DistNode, owner: int -> int, m: nat, sizes: seq<int>, r: seq<int>)
    requires d.Dist? && GridOk(d.grid) && 0 < m <= |TopRows(d)| && RowRequests.OwnersIn(owner, |sizes|)
    requires 0 <= owner(d.off + TopRows(d)[m - 1]) < |sizes|
    requires r == Tally(TopRowsStream(d, owner, m - 1), sizes)
    ensures BumpAtMost(r, owner(d.off + TopRows(d)[m - 1]), LocalCols(d), TopRows(d)[m - 1], |LocalCols(d)|)
            == Tally(TopRowsStream(d, owner, m), sizes)
  {
    var s := TopRows(d)[m - 1];
    RoutedRanks(TopRowsStream(d, owner, m - 1), owner, |sizes|);
    TallyAppendRun(TopRowsStream(d, owner, m), TopRowsStream(d, owner, m - 1), TopRow(d, owner, s),
                   owner(d.off + s), |AtMost(LocalCols(d), s, |LocalCols(d)|)|, sizes, r,
                   BumpAtMost(r, owner(d.off + s), LocalCols(d), s, |LocalCols(d)|));
  }

  /** The bottom stream grows by one row of one owner at a time. */
  lemma BottomSplit(d: DistNode, owner: int -> int, m: nat, P: nat)
    requires d.Dist? && GridOk(d.grid) && 0 < m <= |BottomRows(d)| && RowRequests.OwnersIn(owner, P)
    ensures BottomRowsStream(d, owner, m) == BottomRowsStream(d, owner, m - 1) + BottomRow(d, owner, BottomRows(d)[m - 1])
    ensures RanksIn(BottomRowsStream(d, owner, m - 1), P)
  {
    RoutedRanks(BottomRowsStream(d, owner, m - 1), owner, P);
  }

  lemma BottomStep(d: DistNode, owner: int -> int, m: nat, sizes: seq<int>, r: seq<int>)
    requires d.Dist? && GridOk(d.grid) && 0 < m <= |BottomRows(d)| && RowRequests.OwnersIn(owner, |sizes|)
    requires 0 <= owner(d.lowerStruct[BottomRows(d)[m - 1]]) < |sizes|
    requires r == Tally(BottomRowsStream(d, owner, m - 1), sizes)
    ensures Bump(r, owner(d.lowerStruct[BottomRows(d)[m - 1]]), |LocalCols(d)|)
            == Tally(BottomRowsStream(d, owner, m), sizes)
  {
    var s := BottomRows(d)[m - 1];
    var q := owner(d.lowerStruct[s]);
    BottomSplit(d, owner, m, |sizes|);
    TallyAppendRun(BottomRowsStream(d, owner, m), BottomRowsStream(d, owner, m - 1), BottomRow(d, owner, s),
                   q, |LocalCols(d)|, sizes, r, Bump(r, q, |LocalCols(d)|));
  }

  /** `for( s<m ) { q = RowOwner(off+s); for( t<=s ) sendSizes[q]++; }` */
  function CountDiag(n: Node, owner: int -> int, m: nat, sizes: seq<int>): (r: seq<int>)
    requires RowRequests.OwnersIn(owner, |sizes|)
    ensures RanksIn(DiagRows(n, owner, m), |sizes|)
    ensures r == Tally(DiagRows(n, owner, m), sizes)
  {
    RoutedRanks(DiagRows(n, owner, m), owner, |sizes|);
    if m == 0 then sizes
    else
      var r := CountDiag(n, owner, m - 1, sizes);
      var q := owner(n.off + m - 1);
      RowRequests.OwnerIn(owner, |sizes|, n.off + m - 1);
      DiagStep(n, owner, m, sizes, r);
      Bump(r, q, m)
  }

  /** `for( s<m ) { q = RowOwner(lowerStruct[s]); for( t<size ) sendSizes[q]++; }` */
  function CountLower(n: Node, owner: int -> int, m: nat, sizes: seq<int>): (r: seq<int>)
    requires RowRequests.OwnersIn(owner, |sizes|) && m <= |n.lowerStruct|
    ensures RanksIn(LowerRows(n, owner, m), |sizes|)
    ensures r == Tally(LowerRows(n, owner, m), sizes)
  {
    RoutedRanks(LowerRows(n, owner, m), owner, |sizes|);
    if m == 0 then sizes
    else
      var r := CountLower(n, owner, m - 1, sizes);
      var q := owner(n.lowerStruct[m - 1]);
      RowRequests.OwnerIn(owner, |sizes|, n.lowerStruct[m - 1]);
      LowerStep(n, owner, m, sizes, r);
      Bump(r, q, |n.inds|)
  }

  /** `localCount(sep, node, front)`: children first, then the node's top
      and bottom blocks. */
  function CountLocal(n: Node, owner: int -> int, sizes: seq<int>): (r: seq<int>)
    requires RowRequests.OwnersIn(owner, |sizes|)
    ensures RanksIn(LocalStream(n, owner), |sizes|)
    ensures r == Tally(LocalStream(n, owner), sizes)
    decreases n, 1
  {
    var cs := ChildStreams(n, 0, owner);
    var mid := CountChildren(n, 0, owner, sizes);
    var diag := DiagRows(n, owner, |n.inds|);
    RoutedRanks(cs, owner, |sizes|);
    RoutedRanks(diag, owner, |sizes|);
    RoutedRanks(LowerRows(n, owner, |n.lowerStruct|), owner, |sizes|);
    TallyAppend(cs, diag, sizes);
    TallyAppend(cs + diag, LowerRows(n, owner, |n.lowerStruct|), sizes);
    CountLower(n, owner, |n.lowerStruct|, CountDiag(n, owner, |n.inds|, mid))
  }

  /** `for( c=k; c<numChildren; ++c ) localCount(children[c], ...)`. */
  function CountChildren(n: Node, c: nat, owner: int -> int, sizes: seq<int>): (r: seq<int>)
    requires RowRequests.OwnersIn(owner, |sizes|)
    ensures |r| == |sizes|
    ensures RanksIn(ChildStreams(n, c, owner), |sizes|)
    ensures r == Tally(ChildStreams(n, c, owner), sizes)
    decreases n, 0, |n.children| - c
  {
    RoutedRanks(ChildStreams(n, c, owner), owner, |sizes|);
    if c >= |n.children| then sizes
    else
      var mid := CountLocal(n.children[c], owner, sizes);
      RoutedRanks(ChildStreams(n, c + 1, owner), owner, |sizes|);
      TallyAppend(LocalStream(n.children[c], owner), ChildStreams(n, c + 1, owner), sizes);
      CountChildren(n, c + 1, owner, mid)
  }

  /** `for( sLoc<m ) { s = FTL.GlobalRow(sLoc); q = RowOwner(off+s);
      for( tLoc ) if( FTL.GlobalCol(tLoc) <= s ) ++sendSizes[q]; }` */
  function CountTop(d: DistNode, owner: int -> int, m: nat, sizes: seq<int>): (r: seq<int>)
    requires d.Dist? && GridOk(d.grid) && m <= |TopRows(d)|
    requires RowRequests.OwnersIn(owner, |sizes|)
    ensures RanksIn(TopRowsStream(d, owner, m), |sizes|)
    ensures r == Tally(TopRowsStream(d, owner, m), sizes)
  {
    RoutedRanks(TopRowsStream(d, owner, m), owner, |sizes|);
    if m == 0 then sizes
    else
      var r := CountTop(d, owner, m - 1, sizes);
      var s := TopRows(d)[m - 1];
      var q := owner(d.off + s);
      RowRequests.OwnerIn(owner, |sizes|, d.off + s);
      TopStep(d, owner, m, sizes, r);
      BumpAtMost(r, q, LocalCols(d), s, |LocalCols(d)|)
  }

  /** `for( sLoc<m ) { s = FBL.GlobalRow(sLoc); q = RowOwner(lowerStruct[s]);
      for( tLoc ) ++sendSizes[q]; }` */
  function CountBottom(d: DistNode, owner: int -> int, m: nat, sizes: seq<int>): (r: seq<int>)
    requires d.Dist? && GridOk(d.grid) && m <= |BottomRows(d)|
    requires RowRequests.OwnersIn(owner, |sizes|)
    ensures RanksIn(BottomRowsStream(d, owner, m), |sizes|)
    ensures r == Tally(BottomRowsStream(d, owner, m), sizes)
  {
    RoutedRanks(BottomRowsStream(d, owner, m), owner, |sizes|);
    if m == 0 then sizes
    else
      var r := CountBottom(d, owner, m - 1, sizes);
      var s := BottomRows(d)[m - 1];
      var q := owner(d.lowerStruct[s]);
      RowRequests.OwnerIn(owner, |sizes|, d.lowerStruct[s]);
      BottomStep(d, owner, m, sizes, r);
      Bump(r, q, |LocalCols(d)|)
  }

  /** `count(sep, node, front)`: the child first, then the local rows of the
      front's top and bottom blocks; a duplicate hands over to `localCount`. */
  function CountDist(d: DistNode, owner: int -> int, sizes: seq<int>): (r: seq<int>)
    requires Grids(d)
    requires RowRequests.OwnersIn(owner, |sizes|)
    ensures RanksIn(UnpackStream(d, owner), |sizes|)
    ensures r == Tally(UnpackStream(d, owner), sizes)
  {
    RoutedRanks(UnpackStream(d, owner), owner, |sizes|);
    match d
    case Duplicate(n) => CountLocal(n, owner, sizes)
    case Dist(_, _, _, _, _, _, _, _, child) =>
      var xs := UnpackStream(child, owner);
      var top := TopRowsStream(d, owner, |TopRows(d)|);
      var bottom := BottomRowsStream(d, owner, |BottomRows(d)|);
      var mid := CountDist(child, owner, sizes);
      RoutedRanks(top, owner, |sizes|);
      RoutedRanks(bottom, owner, |sizes|);
      TallyAppend(xs, top, sizes);
      TallyAppend(xs + top, bottom, sizes);
      CountBottom(d, owner, |BottomRows(d)|, CountTop(d, owner, |TopRows(d)|, mid))
  }

  // ---------------------------------------------------------------------
  // What a local front contributes, and where each entry sits.
  // ---------------------------------------------------------------------

  /** The triangular number `0 + 1 + ... + m`: the entries of the first `m`
      rows of a lower triangle. */
  function Tri(m: nat): (r: nat)
    ensures r == m * (m + 1) / 2
  {
    if m == 0 then 0 else Tri(m - 1) + m
  }

  lemma {:induction false} TriMonotone(a: nat, b: nat)
    requires a <= b
    ensures Tri(a) <= Tri(b)
    decreases b - a
  {
    if a < b {
      TriMonotone(a + 1, b);
    }
  }

  /** The first `m` rows of the top block hold `Tri(m)` entries. */
  lemma {:induction false} DiagRowsLength(n: Node, owner: int -> int, m: nat)
    ensures |DiagRows(n, owner, m)| == Tri(m)
  {
    if m > 0 {
      DiagRowsLength(n, owner, m - 1);
    }
  }

  /** The first `m` rows of the bottom block hold `m * size` entries. */
  lemma {:induction false} LowerRowsLength(n: Node, owner: int -> int, m: nat)
    requires m <= |n.lowerStruct|
    ensures |LowerRows(n, owner, m)| == m * |n.inds|
  {
    if m > 0 {
      LowerRowsLength(n, owner, m - 1);
      assert m * |n.inds| == (m - 1) * |n.inds| + |n.inds|;
    }
  }

  /** `localPack` ships the entry `(off + s, off + t)`, `t <= s`, of the
      top block as entry number `Tri(s) + t` of the top rows: the lower
      triangle, row by row. */
  lemma {:induction false} DiagRowsAt(n: Node, owner: int -> int, m: nat, s: nat, t: nat)
    requires t <= s < m
    ensures Tri(s) + t < |DiagRows(n, owner, m)|
    ensures DiagRows(n, owner, m)[Tri(s) + t] == Ship(owner, n.L, n.off, n.off + s, s, t)
  {
    DiagRowsLength(n, owner, m - 1);
    if s < m - 1 {
      DiagRowsAt(n, owner, m - 1, s, t);
    } else {
      assert DiagRows(n, owner, m)[Tri(s) + t] == DiagRow(n, owner, s)[t];
    }
  }

  /** Entry `(lowerStruct[s], off + t)` of the bottom block is entry number
      `s * size + t` of the bottom rows. */
  lemma {:induction false} LowerRowsAt(n: Node, owner: int -> int, m: nat, s: nat, t: nat)
    requires s < m <= |n.lowerStruct| && t < |n.inds|
    ensures s * |n.inds| + t < |LowerRows(n, owner, m)|
    ensures LowerRows(n, owner, m)[s * |n.inds| + t]
            == Ship(owner, n.L, n.off, n.lowerStruct[s], |n.inds| + s, t)
  {
    LowerRowsLength(n, owner, m - 1);
    if s < m - 1 {
      LowerRowsAt(n, owner, m - 1, s, t);
      assert (s + 1) * |n.inds| <= (m - 1) * |n.inds|;
    } else {
      assert LowerRows(n, owner, m)[s * |n.inds| + t] == LowerRow(n, owner, s)[t];
    }
  }

  /** A local node adds `size * (size + 1) / 2 + |lowerStruct| * size` to
      the counts, on top of what its children add. */
  lemma LocalContribution(n: Node, owner: int -> int, sizes: seq<int>)
    requires RowRequests.OwnersIn(owner, |sizes|)
    ensures Sum(CountLocal(n, owner, sizes))
            == Sum(sizes) + |ChildStreams(n, 0, owner)|
               + |n.inds| * (|n.inds| + 1) / 2 + |n.lowerStruct| * |n.inds|
  {
    DiagRowsLength(n, owner, |n.inds|);
    LowerRowsLength(n, owner, |n.lowerStruct|);
    SumTally(LocalStream(n, owner), sizes);
  }

  // ---------------------------------------------------------------------
  // Count, scan and pack agree.
  // ---------------------------------------------------------------------

  /** Every entry in rank `q`'s bucket lies in a row that `q` owns. */
  lemma {:induction false} BucketRowsOwned(xs: seq<Routed<Entry>>, owner: int -> int, q: int)
    requires RoutedBy(xs, owner)
    ensures forall k :: 0 <= k < |Bucket(xs, q)| ==> owner(Bucket(xs, q)[k].i) == q
    decreases |xs|
  {
    if |xs| > 0 {
      assert RoutedBy(xs[..|xs| - 1], owner);
      BucketRowsOwned(xs[..|xs| - 1], owner, q);
    }
  }

  /** `count`, `Scan` and `pack` over the whole tree: the cursors `offs`
      land exactly on `sendOffs[q] + sendSizes[q]`, `totalSend` is the
      number of shipped entries, and `sendBuf` is written exactly on
      `[0, totalSend)`. */
  lemma UnpackLands(root: DistNode, owner: int -> int, P: nat,
                    sendSizes: seq<int>, sendOffs: seq<int>, totalSend: int,
                    offs: seq<int>, sendBuf: map<int, Entry>)
    requires Grids(root) && RowRequests.OwnersIn(owner, P)
    requires sendSizes == CountDist(root, owner, Zeros(P))
    requires (sendOffs, totalSend) == Scan(sendSizes)
    requires (offs, sendBuf) == Place(UnpackStream(root, owner), sendOffs, map[])
    ensures |sendSizes| == P && |offs| == P
    ensures forall q :: 0 <= q < P ==> offs[q] == sendOffs[q] + sendSizes[q]
    ensures totalSend == |UnpackStream(root, owner)|
    ensures forall k :: k in sendBuf <==> 0 <= k < totalSend
  {
    CountScanPack(UnpackStream(root, owner), P, sendSizes, sendOffs, totalSend, offs, sendBuf);
  }

  /** Slot `k` of rank `q`'s segment of `sendBuf` holds the `k`-th entry the
      walk ships to `q`, and `q` owns that entry's row. */
  lemma UnpackSegment(root: DistNode, owner: int -> int, P: nat,
                      sendSizes: seq<int>, sendOffs: seq<int>, totalSend: int,
                      offs: seq<int>, sendBuf: map<int, Entry>, q: int, k: int)
    requires Grids(root) && RowRequests.OwnersIn(owner, P)
    requires sendSizes == CountDist(root, owner, Zeros(P))
    requires (sendOffs, totalSend) == Scan(sendSizes)
    requires (offs, sendBuf) == Place(UnpackStream(root, owner), sendOffs, map[])
    requires 0 <= q < P && 0 <= k < sendSizes[q]
    ensures Stores(sendBuf, sendOffs[q] + k, Bucket(UnpackStream(root, owner), q)[k])
    ensures owner(sendBuf[sendOffs[q] + k].i) == q
  {
    var xs := UnpackStream(root, owner);
    RoutedRanks(xs, owner, P);
    CountScanPack(xs, P, sendSizes, sendOffs, totalSend, offs, sendBuf);
    BucketRowsOwned(xs, owner, q);
  }
}
