/** The unpack phase of `Pull`: the received nonzeros are written into the
    fronts.

    The walk visits the rows of the tree in the order the row requests were
    packed.  For each visited row `i` of rank `q = RowOwner(i)` it reads the
    row's length `rRowLengths[offs[q]++]` and consumes that many entries
    `rEntries[entryOff]`, `rTargets[entryOff]` at `entryOff = entryOffs[q]++`,
    placing each by the rule of `Placement.Classify`.  A read outside a
    received buffer is recorded as `Overrun`; the logic error of `Find` as
    `NotFound`.  Afterwards the source checks
    `entryOffs[q] == rEntriesOffs[q] + rEntriesSizes[q]` for every rank. */
module PullUnpack {
  import opened SeqMath
  import opened Buckets
  import opened Strided
  import opened ComplexArith
  import opened FrontTree
  import opened RowRequests
  import opened Placement

  /** What the second exchange delivered: `rRowLengths`, `rEntries`,
      `rTargets`. */
  datatype Recv = Recv(rowLengths: seq<int>, entries: seq<Complex>, targets: seq<int>)

  datatype Status = Running | Overrun | NotFound(target: int)

  /** `front.L.Set(row, col, value)` on the front with offset `front`. */
  datatype SetOp = SetOp(front: int, row: int, col: int, value: Complex)

  /** The cursors `offs` and `entryOffs`, the writes so far, and whether the
      walk is still running. */
  datatype UState = UState(offs: seq<int>, entryOffs: seq<int>, sets: seq<SetOp>, status: Status)

  /** What the unpack loop reads from `NodeInfo` for one front. */
  datatype Shape = Shape(off: int, size: int, origLowerStruct: seq<int>, origLowerRelInds: seq<int>)

  /** One visited row: column `t` of the front, whose separator index is `i`. */
  datatype RowVisit = RowVisit(sh: Shape, t: int, i: int)

  predicate RowsOk(rows: seq<RowVisit>)
  {
    forall k :: 0 <= k < |rows| ==> |rows[k].sh.origLowerRelInds| == |rows[k].sh.origLowerStruct|
  }

  ghost predicate CursorsOk(st: UState, owner: int -> int)
  {
    |st.entryOffs| == |st.offs| && OwnersIn(owner, |st.offs|)
  }

  // ---------------------------------------------------------------------
  // One row.
  // ---------------------------------------------------------------------

  /** `for( k=0; k<numEntries; ++k )`: consume `k` more entries of rank `q`. */
  function UnpackEntries(v: RowVisit, q: nat, k: int, recv: Recv, st: UState): (r: UState)
    requires |v.sh.origLowerRelInds| == |v.sh.origLowerStruct|
    requires q < |st.entryOffs|
    ensures |r.offs| == |st.offs| && |r.entryOffs| == |st.entryOffs|
    decreases k
  {
    if st.status != Running || k <= 0 then st
    else
      var e := st.entryOffs[q];
      if !(0 <= e < |recv.entries| && e < |recv.targets|) then st.(status := Overrun)
      else
        var value := recv.entries[e];
        var target := recv.targets[e];
        var st1 := st.(entryOffs := st.entryOffs[q := e + 1]);
        var st2 :=
          match Classify(target, v.sh.off, v.t, v.sh.size, v.sh.origLowerStruct, v.sh.origLowerRelInds)
          case Discard => st1
          case Diagonal(row) => st1.(sets := st1.sets + [SetOp(v.sh.off, row, v.t, value)])
          case Lower(row) => st1.(sets := st1.sets + [SetOp(v.sh.off, row, v.t, value)])
          case Missing => st1.(status := NotFound(target));
        UnpackEntries(v, q, k - 1, recv, st2)
  }

  /** One row: read its length at the rank's row cursor, then its entries. */
  function UnpackRow(v: RowVisit, owner: int -> int, recv: Recv, st: UState): (r: UState)
    requires |v.sh.origLowerRelInds| == |v.sh.origLowerStruct|
    requires CursorsOk(st, owner)
    ensures CursorsOk(r, owner) && |r.offs| == |st.offs|
  {
    var q := owner(v.i);
    OwnerIn(owner, |st.offs|, v.i);
    if st.status != Running then st
    else if !(0 <= st.offs[q] < |recv.rowLengths|) then st.(status := Overrun)
    else
      var numEntries := recv.rowLengths[st.offs[q]];
      UnpackEntries(v, q, numEntries, recv, st.(offs := st.offs[q := st.offs[q] + 1]))
  }

  /** The rows in visiting order, one after another. */
  function UnpackRows(rows: seq<RowVisit>, owner: int -> int, recv: Recv, st: UState): (r: UState)
    requires RowsOk(rows)
    requires CursorsOk(st, owner)
    ensures CursorsOk(r, owner) && |r.offs| == |st.offs|
    decreases |rows|
  {
    if |rows| == 0 then st
    else UnpackRows(rows[1..], owner, recv, UnpackRow(rows[0], owner, recv, st))
  }

  lemma {:induction false} UnpackRowsAppend(a: seq<RowVisit>, b: seq<RowVisit>, owner: int -> int, recv: Recv, st: UState)
    requires RowsOk(a) && RowsOk(b)
    requires CursorsOk(st, owner)
    ensures RowsOk(a + b)
    ensures UnpackRows(a + b, owner, recv, st) == UnpackRows(b, owner, recv, UnpackRows(a, owner, recv, st))
    decreases |a|
  {
    assert RowsOk(a + b) by {
      forall k | 0 <= k < |a + b|
        ensures |(a + b)[k].sh.origLowerRelInds| == |(a + b)[k].sh.origLowerStruct|
      {
        if k >= |a| {
          assert (a + b)[k] == b[k - |a|];
        }
      }
    }
    if |a| == 0 {
      assert a + b == b;
    } else {
      assert (a + b)[1..] == a[1..] + b;
      assert RowsOk(a[1..]);
      UnpackRowsAppend(a[1..], b, owner, recv, UnpackRow(a[0], owner, recv, st));
    }
  }

  // ---------------------------------------------------------------------
  // The rows of the tree, in the order the walk visits them.
  // ---------------------------------------------------------------------

  function LocalShape(n: Node): Shape
  {
    Shape(n.off, |n.inds|, n.origLowerStruct, n.origLowerRelInds)
  }

  function DistShape(d: DistNode): Shape
    requires d.Dist?
  {
    Shape(d.off, |d.inds|, d.origLowerStruct, d.origLowerRelInds)
  }

  /** Columns `t, t+1, ...` of a local front. */
  function OwnRows(n: Node, t: nat): (r: seq<RowVisit>)
    requires |n.origLowerRelInds| == |n.origLowerStruct|
    ensures RowsOk(r)
    decreases |n.inds| - t
  {
    if t >= |n.inds| then [] else [RowVisit(LocalShape(n), t, n.inds[t])] + OwnRows(n, t + 1)
  }

  function LocalRows(n: Node): (r: seq<RowVisit>)
    requires NodeShapes(n)
    ensures RowsOk(r)
    decreases n, 1, 0
  {
    RowsOkAppend(ChildRows(n, 0), OwnRows(n, 0));
    ChildRows(n, 0) + OwnRows(n, 0)
  }

  function ChildRows(n: Node, c: nat): (r: seq<RowVisit>)
    requires NodeShapes(n)
    ensures RowsOk(r)
    decreases n, 0, |n.children| - c
  {
    if c >= |n.children| then []
    else
      RowsOkAppend(LocalRows(n.children[c]), ChildRows(n, c + 1));
      LocalRows(n.children[c]) + ChildRows(n, c + 1)
  }

  /** Local columns `tLoc, tLoc+1, ...` of a distributed front, column `t =
      GlobalCol(tLoc)` under the `[MC,MR]` layout of the grid. */
  function ColRows(d: DistNode, tLoc: nat): (r: seq<RowVisit>)
    requires d.Dist? && GridOk(d.grid) && |d.origLowerRelInds| == |d.origLowerStruct|
    ensures RowsOk(r)
    ensures |StrideWalk(d.grid.col, d.grid.width, |d.inds|)| == LocalWidth(|d.inds|, d.grid.col, d.grid.width)
    ensures |r| == if tLoc <= LocalWidth(|d.inds|, d.grid.col, d.grid.width)
                   then LocalWidth(|d.inds|, d.grid.col, d.grid.width) - tLoc else 0
    ensures forall k :: 0 <= k < |r| ==>
              r[k].i == d.inds[StrideWalk(d.grid.col, d.grid.width, |d.inds|)[tLoc + k]]
    decreases LocalWidth(|d.inds|, d.grid.col, d.grid.width) - tLoc
  {
    var width := LocalWidth(|d.inds|, d.grid.col, d.grid.width);
    StrideWalkLength(d.grid.col, d.grid.width, |d.inds|);
    if tLoc >= width then []
    else
      var t := GlobalCol(d.grid.col, d.grid.width, tLoc);
      assert StrideWalk(d.grid.col, d.grid.width, |d.inds|)[tLoc] == t;
      [RowVisit(DistShape(d), t, d.inds[t])] + ColRows(d, tLoc + 1)
  }

  function DistRows(d: DistNode): (r: seq<RowVisit>)
    requires Grids(d) && Shapes(d)
    ensures RowsOk(r)
  {
    match d
    case Duplicate(n) => LocalRows(n)
    case Dist(_, _, _, _, _, _, _, _, child) =>
      RowsOkAppend(DistRows(child), ColRows(d, 0));
      DistRows(child) + ColRows(d, 0)
  }

  lemma RowsOkAppend(a: seq<RowVisit>, b: seq<RowVisit>)
    requires RowsOk(a) && RowsOk(b)
    ensures RowsOk(a + b)
  {
    forall k | 0 <= k < |a + b|
      ensures |(a + b)[k].sh.origLowerRelInds| == |(a + b)[k].sh.origLowerStruct|
    {
      if k >= |a| {
        assert (a + b)[k] == b[k - |a|];
      }
    }
  }

  // ---------------------------------------------------------------------
  // The walk (`unpackEntriesLocal` / `unpackEntries`).
  // ---------------------------------------------------------------------

  /** `for( t=0; t<size; ++t )` at a local front. */
  function UnpackOwn(n: Node, t: nat, owner: int -> int, recv: Recv, st: UState): (r: UState)
    requires |n.origLowerRelInds| == |n.origLowerStruct|
    requires CursorsOk(st, owner)
    ensures r == UnpackRows(OwnRows(n, t), owner, recv, st)
    decreases |n.inds| - t
  {
    if t >= |n.inds| then st
    else
      var v := RowVisit(LocalShape(n), t, n.inds[t]);
      UnpackRowsAppend([v], OwnRows(n, t + 1), owner, recv, st);
      UnpackOwn(n, t + 1, owner, recv, UnpackRow(v, owner, recv, st))
  }

  /** `unpackEntriesLocal(sep, node, front)`: children first, then the
      front's own columns. */
  function UnpackLocal(n: Node, owner: int -> int, recv: Recv, st: UState): (r: UState)
    requires NodeShapes(n)
    requires CursorsOk(st, owner)
    ensures r == UnpackRows(LocalRows(n), owner, recv, st)
    decreases n, 1, 0
  {
    var mid := UnpackChildren(n, 0, owner, recv, st);
    UnpackRowsAppend(ChildRows(n, 0), OwnRows(n, 0), owner, recv, st);
    UnpackOwn(n, 0, owner, recv, mid)
  }

  function UnpackChildren(n: Node, c: nat, owner: int -> int, recv: Recv, st: UState): (r: UState)
    requires NodeShapes(n)
    requires CursorsOk(st, owner)
    ensures r == UnpackRows(ChildRows(n, c), owner, recv, st)
    decreases n, 0, |n.children| - c
  {
    if c >= |n.children| then st
    else
      var mid := UnpackLocal(n.children[c], owner, recv, st);
      UnpackRowsAppend(LocalRows(n.children[c]), ChildRows(n, c + 1), owner, recv, st);
      UnpackChildren(n, c + 1, owner, recv, mid)
  }

  /** `for( tLoc=0; tLoc<localWidth; ++tLoc )` at a distributed front. */
  function UnpackCols(d: DistNode, tLoc: nat, owner: int -> int, recv: Recv, st: UState): (r: UState)
    requires d.Dist? && GridOk(d.grid) && |d.origLowerRelInds| == |d.origLowerStruct|
    requires CursorsOk(st, owner)
    ensures r == UnpackRows(ColRows(d, tLoc), owner, recv, st)
    decreases LocalWidth(|d.inds|, d.grid.col, d.grid.width) - tLoc
  {
    if tLoc >= LocalWidth(|d.inds|, d.grid.col, d.grid.width) then st
    else
      var t := GlobalCol(d.grid.col, d.grid.width, tLoc);
      StrideWalkLength(d.grid.col, d.grid.width, |d.inds|);
      assert StrideWalk(d.grid.col, d.grid.width, |d.inds|)[tLoc] == t;
      var v := RowVisit(DistShape(d), t, d.inds[t]);
      UnpackRowsAppend([v], ColRows(d, tLoc + 1), owner, recv, st);
      UnpackCols(d, tLoc + 1, owner, recv, UnpackRow(v, owner, recv, st))
  }

  /** `unpackEntries(sep, node, front)`. */
  function UnpackDist(d: DistNode, owner: int -> int, recv: Recv, st: UState): (r: UState)
    requires Grids(d) && Shapes(d)
    requires CursorsOk(st, owner)
    ensures r == UnpackRows(DistRows(d), owner, recv, st)
  {
    match d
    case Duplicate(n) => UnpackLocal(n, owner, recv, st)
    case Dist(_, _, _, _, _, _, _, _, child) =>
      var mid := UnpackDist(child, owner, recv, st);
      UnpackRowsAppend(DistRows(child), ColRows(d, 0), owner, recv, st);
      UnpackCols(d, 0, owner, recv, mid)
  }

  // ---------------------------------------------------------------------
  // The unpack walk visits the rows in request order.
  // ---------------------------------------------------------------------

  /** The rank and row index of each visited row. */
  function Routing(rows: seq<RowVisit>, owner: int -> int): (r: seq<Routed<int>>)
    ensures |r| == |rows|
    ensures forall k :: 0 <= k < |r| ==> r[k] == Routed(owner(rows[k].i), rows[k].i)
  {
    seq(|rows|, k requires 0 <= k < |rows| => Routed(owner(rows[k].i), rows[k].i))
  }

  lemma RoutingAppend(a: seq<RowVisit>, b: seq<RowVisit>, owner: int -> int)
    ensures Routing(a + b, owner) == Routing(a, owner) + Routing(b, owner)
  {
  }

  lemma {:induction false} OwnRowsRoute(n: Node, t: nat, owner: int -> int)
    requires |n.origLowerRelInds| == |n.origLowerStruct|
    requires t <= |n.inds|
    ensures Routing(OwnRows(n, t), owner) == Requests(n.inds[t..], owner)
    decreases |n.inds| - t
  {
    if t < |n.inds| {
      OwnRowsRoute(n, t + 1, owner);
      RoutingAppend([RowVisit(LocalShape(n), t, n.inds[t])], OwnRows(n, t + 1), owner);
      assert Requests(n.inds[t..], owner) == [Routed(owner(n.inds[t]), n.inds[t])] + Requests(n.inds[t + 1..], owner);
    } else {
      assert Requests(n.inds[t..], owner) == [];
    }
  }

  lemma {:induction false} LocalRowsRoute(n: Node, owner: int -> int)
    requires NodeShapes(n)
    ensures Routing(LocalRows(n), owner) == LocalRequests(n, owner)
    decreases n, 1, 0
  {
    ChildRowsRoute(n, 0, owner);
    OwnRowsRoute(n, 0, owner);
    assert n.inds[0..] == n.inds;
    RoutingAppend(ChildRows(n, 0), OwnRows(n, 0), owner);
  }

  lemma {:induction false} ChildRowsRoute(n: Node, c: nat, owner: int -> int)
    requires NodeShapes(n)
    ensures Routing(ChildRows(n, c), owner) == ChildRequests(n, c, owner)
    decreases n, 0, |n.children| - c
  {
    if c < |n.children| {
      LocalRowsRoute(n.children[c], owner);
      ChildRowsRoute(n, c + 1, owner);
      RoutingAppend(LocalRows(n.children[c]), ChildRows(n, c + 1), owner);
    }
  }

  /** The unpack loop over local columns `t = GlobalCol(tLoc)` meets the
      separator indices in the order the strided request loop asked for
      them. */
  lemma ColRowsRoute(d: DistNode, owner: int -> int)
    requires d.Dist? && GridOk(d.grid) && |d.origLowerRelInds| == |d.origLowerStruct|
    ensures Routing(ColRows(d, 0), owner) == Requests(StridedInds(d), owner)
  {
    StrideWalkLength(d.grid.col, d.grid.width, |d.inds|);
  }

  /** Both walks of `Pull` meet the rows in the same order: the rows the
      unpack walk visits are, rank by rank, the rows requested earlier. */
  lemma {:induction false} DistRowsRoute(d: DistNode, owner: int -> int)
    requires Grids(d) && Shapes(d)
    ensures Routing(DistRows(d), owner) == DistRequests(d, owner)
  {
    match d
    case Duplicate(n) => LocalRowsRoute(n, owner);
    case Dist(_, _, _, _, _, _, _, _, child) =>
      DistRowsRoute(child, owner);
      ColRowsRoute(d, owner);
      RoutingAppend(DistRows(child), ColRows(d, 0), owner);
  }

  // ---------------------------------------------------------------------
  // Entry conservation.
  // ---------------------------------------------------------------------

  /** `rEntriesSizes[q] += rRowLengths[off+s]` for `s < size`. */
  function RowsLength(lens: seq<int>, off: int, size: int): (r: int)
    requires 0 <= off && 0 <= size && off + size <= |lens|
    ensures r == Sum(lens[off..off + size])
    decreases size
  {
    if size == 0 then 0
    else
      assert lens[off..off + size][..size - 1] == lens[off..off + size - 1];
      RowsLength(lens, off, size - 1) + lens[off + size - 1]
  }

  /** `rEntriesSizes`: the number of entries each rank sends back, the sum of
      the lengths of the rows requested from it. */
  function EntrySizes(rRowSizes: seq<int>, rRowOffs: seq<int>, lens: seq<int>): (r: seq<int>)
    requires |rRowOffs| == |rRowSizes|
    requires forall q :: 0 <= q < |rRowSizes| ==> 0 <= rRowOffs[q] && 0 <= rRowSizes[q] && rRowOffs[q] + rRowSizes[q] <= |lens|
    ensures |r| == |rRowSizes|
    ensures forall q :: 0 <= q < |r| ==> r[q] == Sum(lens[rRowOffs[q]..rRowOffs[q] + rRowSizes[q]])
  {
    seq(|rRowSizes|, q requires 0 <= q < |rRowSizes| => RowsLength(lens, rRowOffs[q], rRowSizes[q]))
  }

  /** The entries of the first `j` rows of the segment starting at `a`. */
  ghost function Taken(lens: seq<int>, a: int, j: int): int
    requires 0 <= a && 0 <= j && a + j <= |lens|
  {
    Sum(lens[a..a + j])
  }

  /** Rank `q`'s cursors after the rows `p` have been unpacked: the row
      cursor has passed `|Bucket(p, q)|` rows and the entry cursor the
      entries of those rows. */
  ghost predicate ConsumedAt(p: seq<Routed<int>>, st: UState, rRowOffs: seq<int>, rEntriesOffs: seq<int>, lens: seq<int>, q: int)
    requires 0 <= q < |rRowOffs| && |st.offs| == |rRowOffs| && |st.entryOffs| == |rRowOffs| && |rEntriesOffs| == |rRowOffs|
  {
    0 <= rRowOffs[q] && rRowOffs[q] + |Bucket(p, q)| <= |lens| &&
    st.offs[q] == rRowOffs[q] + |Bucket(p, q)| &&
    st.entryOffs[q] == rEntriesOffs[q] + Taken(lens, rRowOffs[q], |Bucket(p, q)|)
  }

  ghost predicate Consumed(p: seq<Routed<int>>, st: UState, rRowOffs: seq<int>, rEntriesOffs: seq<int>, lens: seq<int>)
  {
    |st.offs| == |rRowOffs| && |st.entryOffs| == |rRowOffs| && |rEntriesOffs| == |rRowOffs| &&
    st.status == Running &&
    forall q :: 0 <= q < |rRowOffs| ==> ConsumedAt(p, st, rRowOffs, rEntriesOffs, lens, q)
  }

  /** Rank `q`'s segments lie inside the received buffers. */
  ghost predicate ReceivedAt(xs: seq<Routed<int>>, rRowOffs: seq<int>, rEntriesOffs: seq<int>, recv: Recv, q: int)
    requires 0 <= q < |rRowOffs| && |rEntriesOffs| == |rRowOffs|
  {
    0 <= rRowOffs[q] && rRowOffs[q] + |Bucket(xs, q)| <= |recv.rowLengths| &&
    0 <= rEntriesOffs[q] &&
    rEntriesOffs[q] + Taken(recv.rowLengths, rRowOffs[q], |Bucket(xs, q)|) <= |recv.entries| &&
    rEntriesOffs[q] + Taken(recv.rowLengths, rRowOffs[q], |Bucket(xs, q)|) <= |recv.targets|
  }

  ghost predicate Received(xs: seq<Routed<int>>, rRowOffs: seq<int>, rEntriesOffs: seq<int>, recv: Recv)
  {
    |rEntriesOffs| == |rRowOffs| && NonNegative(recv.rowLengths) &&
    forall q :: 0 <= q < |rRowOffs| ==> ReceivedAt(xs, rRowOffs, rEntriesOffs, recv, q)
  }

  /** The entry loop of one row never overruns when the row's entries fit,
      and advances only rank `q`'s entry cursor, by exactly `k`. */
  lemma {:induction false} EntriesAdvance(v: RowVisit, q: nat, k: int, recv: Recv, st: UState)
    requires |v.sh.origLowerRelInds| == |v.sh.origLowerStruct|
    requires q < |st.entryOffs|
    requires st.status == Running
    requires 0 <= k && 0 <= st.entryOffs[q]
    requires st.entryOffs[q] + k <= |recv.entries| && st.entryOffs[q] + k <= |recv.targets|
    ensures UnpackEntries(v, q, k, recv, st).status != Overrun
    ensures UnpackEntries(v, q, k, recv, st).status == Running ==>
              UnpackEntries(v, q, k, recv, st).offs == st.offs &&
              UnpackEntries(v, q, k, recv, st).entryOffs == st.entryOffs[q := st.entryOffs[q] + k]
    decreases k
  {
    if k > 0 {
      var e := st.entryOffs[q];
      var st1 := st.(entryOffs := st.entryOffs[q := e + 1]);
      var f := Classify(recv.targets[e], v.sh.off, v.t, v.sh.size, v.sh.origLowerStruct, v.sh.origLowerRelInds);
      var st2 :=
        match f
        case Discard => st1
        case Diagonal(row) => st1.(sets := st1.sets + [SetOp(v.sh.off, row, v.t, recv.entries[e])])
        case Lower(row) => st1.(sets := st1.sets + [SetOp(v.sh.off, row, v.t, recv.entries[e])])
        case Missing => st1.(status := NotFound(recv.targets[e]));
      assert UnpackEntries(v, q, k, recv, st) == UnpackEntries(v, q, k - 1, recv, st2);
      if st2.status == Running {
        EntriesAdvance(v, q, k - 1, recv, st2);
        assert st2.entryOffs[q := st2.entryOffs[q] + (k - 1)] == st.entryOffs[q := st.entryOffs[q] + k];
      }
    } else {
      assert st.entryOffs[q := st.entryOffs[q] + k] == st.entryOffs;
    }
  }

  lemma BucketSnoc(p: seq<Routed<int>>, x: Routed<int>, q: int)
    ensures Bucket(p + [x], q) == Bucket(p, q) + (if x.rank == q then [x.item] else [])
  {
    assert (p + [x])[..|p + [x]| - 1] == p;
  }

  lemma TakenSnoc(lens: seq<int>, a: int, j: int)
    requires 0 <= a && 0 <= j && a + j < |lens|
    ensures Taken(lens, a, j + 1) == Taken(lens, a, j) + lens[a + j]
  {
    assert lens[a..a + j + 1][..j] == lens[a..a + j];
  }

  lemma TakenMonotone(lens: seq<int>, a: int, j: int, m: int)
    requires NonNegative(lens)
    requires 0 <= a && 0 <= j <= m && a + m <= |lens|
    ensures Taken(lens, a, j) <= Taken(lens, a, m)
  {
    var s := lens[a..a + m];
    assert NonNegative(s);
    SumPrefixMonotone(s, j, m);
    assert s[..j] == lens[a..a + j];
    assert s[..m] == s;
  }

  /** One row keeps the bookkeeping: if the row is one of those rank `q` was
      asked for, its length and entries are in the buffers, and afterwards
      the cursors account for one more row of `q`. */
  lemma OneRow(v: RowVisit, p: seq<Routed<int>>, xs: seq<Routed<int>>, owner: int -> int,
               rRowOffs: seq<int>, rEntriesOffs: seq<int>, recv: Recv, st: UState)
    requires |v.sh.origLowerRelInds| == |v.sh.origLowerStruct|
    requires CursorsOk(st, owner)
    requires Consumed(p, st, rRowOffs, rEntriesOffs, recv.rowLengths)
    requires Received(xs, rRowOffs, rEntriesOffs, recv)
    requires |Bucket(p, owner(v.i))| < |Bucket(xs, owner(v.i))|
    ensures UnpackRow(v, owner, recv, st).status != Overrun
    ensures UnpackRow(v, owner, recv, st).status == Running ==>
              Consumed(p + [Routed(owner(v.i), v.i)], UnpackRow(v, owner, recv, st), rRowOffs, rEntriesOffs, recv.rowLengths)
  {
    var q := owner(v.i);
    var x := Routed(q, v.i);
    var lens := recv.rowLengths;
    OwnerIn(owner, |st.offs|, v.i);
    var a, j, m := rRowOffs[q], |Bucket(p, q)|, |Bucket(xs, q)|;
    assert ConsumedAt(p, st, rRowOffs, rEntriesOffs, lens, q);
    assert ReceivedAt(xs, rRowOffs, rEntriesOffs, recv, q);
    assert st.offs[q] == a + j;
    var n := lens[a + j];
    var st1 := st.(offs := st.offs[q := a + j + 1]);
    TakenMonotone(lens, a, j + 1, m);
    TakenMonotone(lens, a, 0, j);
    assert Taken(lens, a, 0) == 0 by { assert lens[a..a] == []; }
    TakenSnoc(lens, a, j);
    assert n >= 0;
    assert st1.entryOffs[q] + n == rEntriesOffs[q] + Taken(lens, a, j + 1);
    EntriesAdvance(v, q, n, recv, st1);
    var r := UnpackRow(v, owner, recv, st);
    assert r == UnpackEntries(v, q, n, recv, st1);
    if r.status == Running {
      forall q' | 0 <= q' < |rRowOffs|
        ensures ConsumedAt(p + [x], r, rRowOffs, rEntriesOffs, lens, q')
      {
        BucketSnoc(p, x, q');
        assert ConsumedAt(p, st, rRowOffs, rEntriesOffs, lens, q');
      }
    }
  }

  /** The walk over the remaining rows keeps the bookkeeping to the end. */
  lemma {:induction false} RowsConsumed(rows: seq<RowVisit>, p: seq<Routed<int>>, xs: seq<Routed<int>>, owner: int -> int,
                                        rRowOffs: seq<int>, rEntriesOffs: seq<int>, recv: Recv, st: UState)
    requires RowsOk(rows)
    requires CursorsOk(st, owner)
    requires p + Routing(rows, owner) == xs
    requires Consumed(p, st, rRowOffs, rEntriesOffs, recv.rowLengths)
    requires Received(xs, rRowOffs, rEntriesOffs, recv)
    ensures UnpackRows(rows, owner, recv, st).status != Overrun
    ensures UnpackRows(rows, owner, recv, st).status == Running ==>
              Consumed(xs, UnpackRows(rows, owner, recv, st), rRowOffs, rEntriesOffs, recv.rowLengths)
    decreases |rows|
  {
    if |rows| == 0 {
      assert p == xs;
    } else {
      var v := rows[0];
      var x := Routed(owner(v.i), v.i);
      var p' := p + [x];
      assert Routing(rows, owner) == [x] + Routing(rows[1..], owner);
      assert p' + Routing(rows[1..], owner) == xs;
      BucketConcat(p', Routing(rows[1..], owner), x.rank);
      BucketSnoc(p, x, x.rank);
      OneRow(v, p, xs, owner, rRowOffs, rEntriesOffs, recv, st);
      var st1 := UnpackRow(v, owner, recv, st);
      if st1.status == Running {
        assert RowsOk(rows[1..]);
        RowsConsumed(rows[1..], p', xs, owner, rRowOffs, rEntriesOffs, recv, st1);
      } else {
        UnpackRowsStopped(rows[1..], owner, recv, st1);
      }
    }
  }

  /** Once the walk has stopped, nothing changes. */
  lemma {:induction false} UnpackRowsStopped(rows: seq<RowVisit>, owner: int -> int, recv: Recv, st: UState)
    requires RowsOk(rows)
    requires CursorsOk(st, owner)
    requires st.status != Running
    ensures UnpackRows(rows, owner, recv, st) == st
    decreases |rows|
  {
    if |rows| > 0 {
      assert UnpackRow(rows[0], owner, recv, st) == st;
      assert RowsOk(rows[1..]);
      UnpackRowsStopped(rows[1..], owner, recv, st);
    }
  }

  /** Entry conservation (the closing check of `Pull`): started from the
      scanned offsets, the unpack walk never reads past a received buffer,
      and unless `Find` fails it leaves every row cursor at
      `rRowOffs[q] + rRowSizes[q]` and every entry cursor at
      `rEntriesOffs[q] + rEntriesSizes[q]`. */
  lemma UnpackConserves(root: DistNode, owner: int -> int, P: nat, recv: Recv,
                        rRowSizes: seq<int>, rRowOffs: seq<int>, numRecvRows: int,
                        rEntriesSizes: seq<int>, rEntriesOffs: seq<int>, numRecvEntries: int,
                        final: UState)
    requires Grids(root) && Shapes(root)
    requires OwnersIn(owner, P)
    requires rRowSizes == CountDist(root, owner, Zeros(P))
    requires (rRowOffs, numRecvRows) == Scan(rRowSizes)
    requires |recv.rowLengths| == numRecvRows && NonNegative(recv.rowLengths)
    requires forall q :: 0 <= q < P ==> 0 <= rRowOffs[q] && 0 <= rRowSizes[q] && rRowOffs[q] + rRowSizes[q] <= numRecvRows
    requires rEntriesSizes == EntrySizes(rRowSizes, rRowOffs, recv.rowLengths)
    requires (rEntriesOffs, numRecvEntries) == Scan(rEntriesSizes)
    requires |recv.entries| == numRecvEntries && |recv.targets| == numRecvEntries
    requires final == UnpackDist(root, owner, recv, UState(rRowOffs, rEntriesOffs, [], Running))
    ensures final.status != Overrun
    ensures final.status == Running ==>
              |final.offs| == P && |final.entryOffs| == P &&
              forall q :: 0 <= q < P ==>
                final.offs[q] == rRowOffs[q] + rRowSizes[q] &&
                final.entryOffs[q] == rEntriesOffs[q] + rEntriesSizes[q]
  {
    var xs := DistRequests(root, owner);
    var lens := recv.rowLengths;
    TallyFromZero(xs, P);
    InitiallyConsumed(rRowOffs, rEntriesOffs, lens);
    EntriesReceived(xs, rRowSizes, rRowOffs, rEntriesSizes, rEntriesOffs, numRecvEntries, recv);
    WalkConsumed(root, owner, rRowOffs, rEntriesOffs, recv);
    if final.status == Running {
      ConsumedLands(xs, final, rRowSizes, rRowOffs, rEntriesSizes, rEntriesOffs, lens);
    }
  }

  /** Once every requested row has been unpacked, each rank's cursors stand
      at the ends of its segments. */
  lemma ConsumedLands(xs: seq<Routed<int>>, final: UState, rRowSizes: seq<int>, rRowOffs: seq<int>,
                      rEntriesSizes: seq<int>, rEntriesOffs: seq<int>, lens: seq<int>)
    requires |rRowOffs| == |rRowSizes|
    requires forall q :: 0 <= q < |rRowSizes| ==> 0 <= rRowOffs[q] && 0 <= rRowSizes[q] && rRowOffs[q] + rRowSizes[q] <= |lens|
    requires forall q :: 0 <= q < |rRowSizes| ==> rRowSizes[q] == |Bucket(xs, q)|
    requires rEntriesSizes == EntrySizes(rRowSizes, rRowOffs, lens)
    requires Consumed(xs, final, rRowOffs, rEntriesOffs, lens)
    ensures |final.offs| == |rRowSizes| && |final.entryOffs| == |rRowSizes|
    ensures forall q :: 0 <= q < |rRowSizes| ==>
              final.offs[q] == rRowOffs[q] + rRowSizes[q] &&
              final.entryOffs[q] == rEntriesOffs[q] + rEntriesSizes[q]
  {
    forall q | 0 <= q < |rRowSizes|
      ensures final.offs[q] == rRowOffs[q] + rRowSizes[q]
      ensures final.entryOffs[q] == rEntriesOffs[q] + rEntriesSizes[q]
    {
      assert ConsumedAt(xs, final, rRowOffs, rEntriesOffs, lens, q);
    }
  }

  /** The whole walk of `Pull` keeps the bookkeeping from the first row to
      the last. */
  lemma WalkConsumed(root: DistNode, owner: int -> int, rRowOffs: seq<int>, rEntriesOffs: seq<int>, recv: Recv)
    requires Grids(root) && Shapes(root)
    requires CursorsOk(UState(rRowOffs, rEntriesOffs, [], Running), owner)
    requires Consumed([], UState(rRowOffs, rEntriesOffs, [], Running), rRowOffs, rEntriesOffs, recv.rowLengths)
    requires Received(DistRequests(root, owner), rRowOffs, rEntriesOffs, recv)
    ensures UnpackDist(root, owner, recv, UState(rRowOffs, rEntriesOffs, [], Running)).status != Overrun
    ensures UnpackDist(root, owner, recv, UState(rRowOffs, rEntriesOffs, [], Running)).status == Running ==>
              Consumed(DistRequests(root, owner), UnpackDist(root, owner, recv, UState(rRowOffs, rEntriesOffs, [], Running)),
                       rRowOffs, rEntriesOffs, recv.rowLengths)
  {
    var rs := Routing(DistRows(root), owner);
    DistRowsRoute(root, owner);
    assert [] + rs == rs;
    RowsConsumed(DistRows(root), [], DistRequests(root, owner), owner, rRowOffs, rEntriesOffs, recv,
                 UState(rRowOffs, rEntriesOffs, [], Running));
  }

  /** Before the walk no row has been unpacked. */
  lemma InitiallyConsumed(rRowOffs: seq<int>, rEntriesOffs: seq<int>, lens: seq<int>)
    requires |rEntriesOffs| == |rRowOffs|
    requires forall q :: 0 <= q < |rRowOffs| ==> 0 <= rRowOffs[q] <= |lens|
    ensures Consumed([], UState(rRowOffs, rEntriesOffs, [], Running), rRowOffs, rEntriesOffs, lens)
  {
    var st0 := UState(rRowOffs, rEntriesOffs, [], Running);
    forall q | 0 <= q < |rRowOffs|
      ensures ConsumedAt([], st0, rRowOffs, rEntriesOffs, lens, q)
    {
      BucketOfEmpty<int>(q);
      assert lens[rRowOffs[q]..rRowOffs[q]] == [];
    }
  }

  /** The scanned entry offsets place every rank's entries inside the
      received buffers. */
  lemma EntriesReceived(xs: seq<Routed<int>>, rRowSizes: seq<int>, rRowOffs: seq<int>,
                        rEntriesSizes: seq<int>, rEntriesOffs: seq<int>, numRecvEntries: int, recv: Recv)
    requires |rRowOffs| == |rRowSizes| && NonNegative(recv.rowLengths)
    requires forall q :: 0 <= q < |rRowSizes| ==>
               0 <= rRowOffs[q] && rRowSizes[q] == |Bucket(xs, q)| && rRowOffs[q] + rRowSizes[q] <= |recv.rowLengths|
    requires rEntriesSizes == EntrySizes(rRowSizes, rRowOffs, recv.rowLengths)
    requires (rEntriesOffs, numRecvEntries) == Scan(rEntriesSizes)
    requires |recv.entries| == numRecvEntries && |recv.targets| == numRecvEntries
    ensures Received(xs, rRowOffs, rEntriesOffs, recv)
  {
    var lens := recv.rowLengths;
    assert NonNegative(rEntriesSizes) by {
      forall q | 0 <= q < |rEntriesSizes|
        ensures rEntriesSizes[q] >= 0
      {
        var seg := lens[rRowOffs[q]..rRowOffs[q] + rRowSizes[q]];
        assert NonNegative(seg);
        SumNonNegative(seg);
      }
    }
    forall q | 0 <= q < |rRowOffs|
      ensures ReceivedAt(xs, rRowOffs, rEntriesOffs, recv, q)
    {
      SegmentBelowTotal(rEntriesSizes, q);
      assert Taken(lens, rRowOffs[q], |Bucket(xs, q)|) == rEntriesSizes[q];
    }
  }
}
