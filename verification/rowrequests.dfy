/** First exchange of `Pull`: each process asks every other process for the
    rows of the sparse matrix that its fronts need.

    The count pass `rRowAccumulate` bumps `rRowSizes[RowOwner(i)]` for each
    needed row `i`; `Scan` turns the sizes into offsets `rRowOffs`; the packing
    pass `rRowsPack` writes `rRows[offs[RowOwner(i)]++] = i` in the same
    walk.  Both passes visit, at a local node, the children first and then
    every separator index, and at a distributed node the child first and
    then the separator indices `t = grid.Col(), grid.Col() + grid.Width(),
    ...` (the columns of the front this process holds). */
module RowRequests {
  import opened SeqMath
  import opened Buckets
  import opened Strided
  import opened FrontTree

  /** `A.RowOwner` maps every row into the communicator. */
  ghost predicate OwnersIn(owner: int -> int, P: nat)
  {
    forall i :: 0 <= owner(i) < P
  }

  /** Every request is routed to the owner of the requested row. */
  predicate RoutedBy(xs: seq<Routed<int>>, owner: int -> int)
  {
    forall k :: 0 <= k < |xs| ==> xs[k].rank == owner(xs[k].item)
  }

  /** Requests for the rows `inds`, in order. */
  function Requests(inds: seq<int>, owner: int -> int): (r: seq<Routed<int>>)
    ensures |r| == |inds|
    ensures forall k :: 0 <= k < |r| ==> r[k] == Routed(owner(inds[k]), inds[k])
  {
    seq(|inds|, k requires 0 <= k < |inds| => Routed(owner(inds[k]), inds[k]))
  }

  /** `sep.inds[t]` for each `t` of a walk over the separator. */
  function Pick(inds: seq<int>, ts: seq<nat>): (r: seq<int>)
    requires forall k :: 0 <= k < |ts| ==> ts[k] < |inds|
    ensures |r| == |ts|
    ensures forall k :: 0 <= k < |r| ==> r[k] == inds[ts[k]]
  {
    seq(|ts|, k requires 0 <= k < |ts| => inds[ts[k]])
  }

  /** The separator indices a distributed node requests: those of the front
      columns this process holds. */
  function StridedInds(d: DistNode): (r: seq<int>)
    requires d.Dist? && GridOk(d.grid)
    ensures |r| == LocalWidth(|d.inds|, d.grid.col, d.grid.width)
  {
    StrideWalkLength(d.grid.col, d.grid.width, |d.inds|);
    Pick(d.inds, StrideWalk(d.grid.col, d.grid.width, |d.inds|))
  }

  /** The request stream of a local subtree: children first, then the node's
      own separator indices. */
  function LocalRequests(n: Node, owner: int -> int): (r: seq<Routed<int>>)
    ensures RoutedBy(r, owner)
    decreases n, 1, 0
  {
    RoutedAppend(ChildRequests(n, 0, owner), Requests(n.inds, owner), owner);
    ChildRequests(n, 0, owner) + Requests(n.inds, owner)
  }

  /** The request streams of children `c, c+1, ...`, concatenated. */
  function ChildRequests(n: Node, c: nat, owner: int -> int): (r: seq<Routed<int>>)
    ensures RoutedBy(r, owner)
    decreases n, 0, |n.children| - c
  {
    if c >= |n.children| then []
    else
      RoutedAppend(LocalRequests(n.children[c], owner), ChildRequests(n, c + 1, owner), owner);
      LocalRequests(n.children[c], owner) + ChildRequests(n, c + 1, owner)
  }

  /** The request stream of the whole distributed tree. */
  function DistRequests(d: DistNode, owner: int -> int): (r: seq<Routed<int>>)
    requires Grids(d)
    ensures RoutedBy(r, owner)
  {
    match d
    case Duplicate(n) => LocalRequests(n, owner)
    case Dist(_, _, _, _, _, _, _, _, child) =>
      RoutedAppend(DistRequests(child, owner), Requests(StridedInds(d), owner), owner);
      DistRequests(child, owner) + Requests(StridedInds(d), owner)
  }

  lemma RoutedAppend(xs: seq<Routed<int>>, ys: seq<Routed<int>>, owner: int -> int)
    requires RoutedBy(xs, owner) && RoutedBy(ys, owner)
    ensures RoutedBy(xs + ys, owner)
  {
    forall k | 0 <= k < |xs + ys|
      ensures (xs + ys)[k].rank == owner((xs + ys)[k].item)
    {
      if k >= |xs| {
        assert (xs + ys)[k] == ys[k - |xs|];
      }
    }
  }

  lemma RoutedRanks(xs: seq<Routed<int>>, owner: int -> int, P: nat)
    requires RoutedBy(xs, owner) && OwnersIn(owner, P)
    ensures RanksIn(xs, P)
  {
    forall k | 0 <= k < |xs|
      ensures 0 <= xs[k].rank < P
    {
      assert xs[k].rank == owner(xs[k].item);
      OwnerIn(owner, P, xs[k].item);
    }
  }

  lemma OwnerIn(owner: int -> int, P: nat, i: int)
    requires OwnersIn(owner, P)
    ensures 0 <= owner(i) < P
  {
  }

  /** Every row routed to rank `q` is owned by `q`. */
  lemma {:induction false} BucketOwned(xs: seq<Routed<int>>, owner: int -> int, q: int)
    requires RoutedBy(xs, owner)
    ensures forall k :: 0 <= k < |Bucket(xs, q)| ==> owner(Bucket(xs, q)[k]) == q
    decreases |xs|
  {
    if |xs| > 0 {
      assert RoutedBy(xs[..|xs| - 1], owner);
      BucketOwned(xs[..|xs| - 1], owner, q);
    }
  }

  // ---------------------------------------------------------------------
  // The count pass (`rRowLocalAccumulate` / `rRowAccumulate`).
  // ---------------------------------------------------------------------

  /** `for( i : sep.inds[k:] ) ++rRowSizes[RowOwner(i)]`. */
  function CountInds(inds: seq<int>, k: nat, owner: int -> int, sizes: seq<int>): (r: seq<int>)
    requires OwnersIn(owner, |sizes|)
    requires k <= |inds|
    ensures RanksIn(Requests(inds[k..], owner), |sizes|)
    ensures r == Tally(Requests(inds[k..], owner), sizes)
    decreases |inds| - k
  {
    RoutedRanks(Requests(inds[k..], owner), owner, |sizes|);
    if k == |inds| then
      assert Requests(inds[k..], owner) == [];
      sizes
    else
      var q := owner(inds[k]);
      var x := Routed(q, inds[k]);
      OwnerIn(owner, |sizes|, inds[k]);
      TallyOne(x, sizes);
      assert Requests(inds[k..], owner) == [x] + Requests(inds[k + 1..], owner);
      TallyAppend([x], Requests(inds[k + 1..], owner), sizes);
      CountInds(inds, k + 1, owner, sizes[q := sizes[q] + 1])
  }

  /** A strided walk that has not run off the end requests its first row,
      then the rest of the walk. */
  lemma StridedRequestsSplit(inds: seq<int>, t: nat, stride: nat, owner: int -> int)
    requires stride > 0 && t < |inds|
    ensures Requests(Pick(inds, StrideWalk(t, stride, |inds|)), owner)
         == [Routed(owner(inds[t]), inds[t])] + Requests(Pick(inds, StrideWalk(t + stride, stride, |inds|)), owner)
  {
    var ws := StrideWalk(t, stride, |inds|);
    var rest := StrideWalk(t + stride, stride, |inds|);
    assert ws == [t] + rest;
    var xs := Requests(Pick(inds, ws), owner);
    var ys := [Routed(owner(inds[t]), inds[t])] + Requests(Pick(inds, rest), owner);
    assert |xs| == |ys|;
    forall k | 0 <= k < |xs|
      ensures xs[k] == ys[k]
    {
      if k > 0 {
        assert ws[k] == rest[k - 1];
      }
    }
  }

  /** `for( t=shift; t<numInds; t+=stride ) ++rRowSizes[RowOwner(sep.inds[t])]`. */
  function CountStrided(inds: seq<int>, t: nat, stride: nat, owner: int -> int, sizes: seq<int>): (r: seq<int>)
    requires OwnersIn(owner, |sizes|)
    requires stride > 0
    ensures RanksIn(Requests(Pick(inds, StrideWalk(t, stride, |inds|)), owner), |sizes|)
    ensures r == Tally(Requests(Pick(inds, StrideWalk(t, stride, |inds|)), owner), sizes)
    decreases |inds| - t
  {
    if t >= |inds| then
      assert StrideWalk(t, stride, |inds|) == [];
      sizes
    else
      var q := owner(inds[t]);
      OwnerIn(owner, |sizes|, inds[t]);
      var r := CountStrided(inds, t + stride, stride, owner, sizes[q := sizes[q] + 1]);
      StridedStep(inds, t, stride, owner, sizes, r);
      r
  }

  /** One step of the strided count: bumping the first index's owner and
      counting the rest of the walk counts the whole walk. */
  lemma StridedStep(inds: seq<int>, t: nat, stride: nat, owner: int -> int, sizes: seq<int>, r: seq<int>)
    requires OwnersIn(owner, |sizes|) && stride > 0 && t < |inds| && 0 <= owner(inds[t]) < |sizes|
    requires RanksIn(Requests(Pick(inds, StrideWalk(t + stride, stride, |inds|)), owner), |sizes|)
    requires r == Tally(Requests(Pick(inds, StrideWalk(t + stride, stride, |inds|)), owner),
                        sizes[owner(inds[t]) := sizes[owner(inds[t])] + 1])
    ensures RanksIn(Requests(Pick(inds, StrideWalk(t, stride, |inds|)), owner), |sizes|)
    ensures r == Tally(Requests(Pick(inds, StrideWalk(t, stride, |inds|)), owner), sizes)
  {
    RoutedRanks(Requests(Pick(inds, StrideWalk(t, stride, |inds|)), owner), owner, |sizes|);
    var x := Routed(owner(inds[t]), inds[t]);
    var rest := Requests(Pick(inds, StrideWalk(t + stride, stride, |inds|)), owner);
    OwnerIn(owner, |sizes|, inds[t]);
    TallyOne(x, sizes);
    StridedRequestsSplit(inds, t, stride, owner);
    TallyAppend([x], rest, sizes);
  }

  /** `rRowLocalAccumulate(sep)`. */
  function CountLocal(n: Node, owner: int -> int, sizes: seq<int>): (r: seq<int>)
    requires OwnersIn(owner, |sizes|)
    ensures RanksIn(LocalRequests(n, owner), |sizes|)
    ensures r == Tally(LocalRequests(n, owner), sizes)
    decreases n, 1, 0
  {
    var mid := CountChildren(n, 0, owner, sizes);
    RoutedRanks(ChildRequests(n, 0, owner), owner, |sizes|);
    RoutedRanks(Requests(n.inds, owner), owner, |sizes|);
    TallyAppend(ChildRequests(n, 0, owner), Requests(n.inds, owner), sizes);
    assert n.inds[0..] == n.inds;
    CountInds(n.inds, 0, owner, mid)
  }

  /** `for( child : sep.children[c:] ) rRowLocalAccumulate(*child)`. */
  function CountChildren(n: Node, c: nat, owner: int -> int, sizes: seq<int>): (r: seq<int>)
    requires OwnersIn(owner, |sizes|)
    ensures |r| == |sizes|
    ensures RanksIn(ChildRequests(n, c, owner), |sizes|)
    ensures r == Tally(ChildRequests(n, c, owner), sizes)
    decreases n, 0, |n.children| - c
  {
    RoutedRanks(ChildRequests(n, c, owner), owner, |sizes|);
    if c >= |n.children| then
      sizes
    else
      var mid := CountLocal(n.children[c], owner, sizes);
      RoutedRanks(ChildRequests(n, c + 1, owner), owner, |sizes|);
      TallyAppend(LocalRequests(n.children[c], owner), ChildRequests(n, c + 1, owner), sizes);
      CountChildren(n, c + 1, owner, mid)
  }

  /** `rRowAccumulate(sep, node)`. */
  function CountDist(d: DistNode, owner: int -> int, sizes: seq<int>): (r: seq<int>)
    requires Grids(d)
    requires OwnersIn(owner, |sizes|)
    ensures RanksIn(DistRequests(d, owner), |sizes|)
    ensures r == Tally(DistRequests(d, owner), sizes)
  {
    RoutedRanks(DistRequests(d, owner), owner, |sizes|);
    match d
    case Duplicate(n) => CountLocal(n, owner, sizes)
    case Dist(inds, _, _, _, _, _, grid, _, child) =>
      var mid := CountDist(child, owner, sizes);
      RoutedRanks(Requests(StridedInds(d), owner), owner, |sizes|);
      TallyAppend(DistRequests(child, owner), Requests(StridedInds(d), owner), sizes);
      CountStrided(inds, grid.col, grid.width, owner, mid)
  }

  // ---------------------------------------------------------------------
  // The packing pass (`rRowsLocalPack` / `rRowsPack`).
  // ---------------------------------------------------------------------

  /** `for( i : sep.inds[k:] ) rRows[offs[RowOwner(i)]++] = i`. */
  function PackInds(inds: seq<int>, k: nat, owner: int -> int, offs: seq<int>, rRows: map<int, int>): (r: (seq<int>, map<int, int>))
    requires OwnersIn(owner, |offs|)
    requires k <= |inds|
    ensures RanksIn(Requests(inds[k..], owner), |offs|)
    ensures r == Place(Requests(inds[k..], owner), offs, rRows)
    decreases |inds| - k
  {
    RoutedRanks(Requests(inds[k..], owner), owner, |offs|);
    if k == |inds| then
      assert Requests(inds[k..], owner) == [];
      (offs, rRows)
    else
      var q := owner(inds[k]);
      var x := Routed(q, inds[k]);
      OwnerIn(owner, |offs|, inds[k]);
      PlaceOne(x, offs, rRows);
      assert Requests(inds[k..], owner) == [x] + Requests(inds[k + 1..], owner);
      PlaceAppend([x], Requests(inds[k + 1..], owner), offs, rRows);
      PackInds(inds, k + 1, owner, offs[q := offs[q] + 1], rRows[offs[q] := inds[k]])
  }

  /** `for( t=shift; t<numInds; t+=stride ) rRows[offs[RowOwner(sep.inds[t])]++] = sep.inds[t]`. */
  function PackStrided(inds: seq<int>, t: nat, stride: nat, owner: int -> int, offs: seq<int>, rRows: map<int, int>): (r: (seq<int>, map<int, int>))
    requires OwnersIn(owner, |offs|)
    requires stride > 0
    ensures RanksIn(Requests(Pick(inds, StrideWalk(t, stride, |inds|)), owner), |offs|)
    ensures r == Place(Requests(Pick(inds, StrideWalk(t, stride, |inds|)), owner), offs, rRows)
    decreases |inds| - t
  {
    var xs := Requests(Pick(inds, StrideWalk(t, stride, |inds|)), owner);
    RoutedRanks(xs, owner, |offs|);
    if t >= |inds| then
      (offs, rRows)
    else
      var q := owner(inds[t]);
      var x := Routed(q, inds[t]);
      var rest := Requests(Pick(inds, StrideWalk(t + stride, stride, |inds|)), owner);
      OwnerIn(owner, |offs|, inds[t]);
      PlaceOne(x, offs, rRows);
      StridedRequestsSplit(inds, t, stride, owner);
      PlaceAppend([x], rest, offs, rRows);
      PackStrided(inds, t + stride, stride, owner, offs[q := offs[q] + 1], rRows[offs[q] := inds[t]])
  }

  /** `rRowsLocalPack(sep)`. */
  function PackLocal(n: Node, owner: int -> int, offs: seq<int>, rRows: map<int, int>): (r: (seq<int>, map<int, int>))
    requires OwnersIn(owner, |offs|)
    ensures RanksIn(LocalRequests(n, owner), |offs|)
    ensures r == Place(LocalRequests(n, owner), offs, rRows)
    decreases n, 1, 0
  {
    var mid := PackChildren(n, 0, owner, offs, rRows);
    RoutedRanks(ChildRequests(n, 0, owner), owner, |offs|);
    RoutedRanks(Requests(n.inds, owner), owner, |offs|);
    PlaceAppend(ChildRequests(n, 0, owner), Requests(n.inds, owner), offs, rRows);
    assert n.inds[0..] == n.inds;
    PackInds(n.inds, 0, owner, mid.0, mid.1)
  }

  /** `for( childSep : sep.children[c:] ) rRowsLocalPack(*childSep)`. */
  function PackChildren(n: Node, c: nat, owner: int -> int, offs: seq<int>, rRows: map<int, int>): (r: (seq<int>, map<int, int>))
    requires OwnersIn(owner, |offs|)
    ensures |r.0| == |offs|
    ensures RanksIn(ChildRequests(n, c, owner), |offs|)
    ensures r == Place(ChildRequests(n, c, owner), offs, rRows)
    decreases n, 0, |n.children| - c
  {
    RoutedRanks(ChildRequests(n, c, owner), owner, |offs|);
    if c >= |n.children| then
      (offs, rRows)
    else
      var mid := PackLocal(n.children[c], owner, offs, rRows);
      RoutedRanks(ChildRequests(n, c + 1, owner), owner, |offs|);
      PlaceAppend(LocalRequests(n.children[c], owner), ChildRequests(n, c + 1, owner), offs, rRows);
      PackChildren(n, c + 1, owner, mid.0, mid.1)
  }

  /** `rRowsPack(sep, node)`. */
  function PackDist(d: DistNode, owner: int -> int, offs: seq<int>, rRows: map<int, int>): (r: (seq<int>, map<int, int>))
    requires Grids(d)
    requires OwnersIn(owner, |offs|)
    ensures RanksIn(DistRequests(d, owner), |offs|)
    ensures r == Place(DistRequests(d, owner), offs, rRows)
  {
    RoutedRanks(DistRequests(d, owner), owner, |offs|);
    match d
    case Duplicate(n) => PackLocal(n, owner, offs, rRows)
    case Dist(inds, _, _, _, _, _, grid, _, child) =>
      var mid := PackDist(child, owner, offs, rRows);
      RoutedRanks(Requests(StridedInds(d), owner), owner, |offs|);
      PlaceAppend(DistRequests(child, owner), Requests(StridedInds(d), owner), offs, rRows);
      PackStrided(inds, grid.col, grid.width, owner, mid.0, mid.1)
  }

  // ---------------------------------------------------------------------
  // Count, scan, pack.
  // ---------------------------------------------------------------------

  /** The two passes agree: after `rRowsPack` every cursor stands at the end
      of its rank's segment (`offs[q] == rRowOffs[q] + rRowSizes[q]`). */
  lemma RowRequestsLand(root: DistNode, owner: int -> int, P: nat,
                        rRowSizes: seq<int>, rRowOffs: seq<int>, numRecvRows: int,
                        offs: seq<int>, rRows: map<int, int>)
    requires Grids(root)
    requires OwnersIn(owner, P)
    requires rRowSizes == CountDist(root, owner, Zeros(P))
    requires (rRowOffs, numRecvRows) == Scan(rRowSizes)
    requires (offs, rRows) == PackDist(root, owner, rRowOffs, map[])
    ensures |offs| == P && |rRowOffs| == P && |rRowSizes| == P
    ensures forall q :: 0 <= q < P ==> offs[q] == rRowOffs[q] + rRowSizes[q]
  {
    TallyFromZero(DistRequests(root, owner), P);
  }

  /** The scanned total is the number of requested rows, and the segments
      tile `rRows` exactly: a slot is written if and only if it lies below
      that total. */
  lemma RowRequestsFill(root: DistNode, owner: int -> int, P: nat,
                        rRowSizes: seq<int>, rRowOffs: seq<int>, numRecvRows: int,
                        offs: seq<int>, rRows: map<int, int>)
    requires Grids(root)
    requires OwnersIn(owner, P)
    requires rRowSizes == CountDist(root, owner, Zeros(P))
    requires (rRowOffs, numRecvRows) == Scan(rRowSizes)
    requires (offs, rRows) == PackDist(root, owner, rRowOffs, map[])
    ensures numRecvRows == |DistRequests(root, owner)|
    ensures forall k :: k in rRows <==> 0 <= k < numRecvRows
  {
    PackedKeys(DistRequests(root, owner), P, rRowSizes, rRowOffs, numRecvRows, offs, rRows);
  }

  /** Slot `k` of rank `q`'s segment of `rRows` holds the `k`-th row the walk
      requests from `q`, and `q` owns that row. */
  lemma RequestedRowOwned(root: DistNode, owner: int -> int, P: nat,
                          rRowSizes: seq<int>, rRowOffs: seq<int>, numRecvRows: int,
                          offs: seq<int>, rRows: map<int, int>, q: int, k: int)
    requires Grids(root)
    requires OwnersIn(owner, P)
    requires rRowSizes == CountDist(root, owner, Zeros(P))
    requires (rRowOffs, numRecvRows) == Scan(rRowSizes)
    requires (offs, rRows) == PackDist(root, owner, rRowOffs, map[])
    requires 0 <= q < P && 0 <= k < rRowSizes[q]
    ensures Stores(rRows, rRowOffs[q] + k, Bucket(DistRequests(root, owner), q)[k])
    ensures owner(rRows[rRowOffs[q] + k]) == q
  {
    var xs := DistRequests(root, owner);
    RoutedRanks(xs, owner, P);
    CountScanPack(xs, P, rRowSizes, rRowOffs, numRecvRows, offs, rRows);
    BucketOwned(xs, owner, q);
  }
}
