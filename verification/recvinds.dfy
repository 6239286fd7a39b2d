/** `DistFront::ComputeRecvInds`: for every process `q` of the parent team,
    the local (row, column) pairs of the parent front `L2D` at which this
    process receives the updates that `q` sends from its child's update
    matrix.

    The parent team is split into the two child teams.  For child `c`, the
    process selects the update indices `iChild` whose parent row
    `childRelInds[c][iChild]` is local to it (`rowInds`), and those whose
    parent column is local (`colInds`).  For each local column `jChild` it
    skips, with `std::lower_bound`, to the first local row `iChild >=
    jChild`, and for every local row from there on it pushes the pair
    `(iLoc, jLoc)` onto the list of the child-team process that holds
    `(iChild, jChild)` of the child's update matrix. */
module RecvInds {
  import opened Buckets

  // ---------------------------------------------------------------------
  // The two child teams inside the parent team.
  // ---------------------------------------------------------------------

  /** `teamSizes`: the left team first, then the right team. */
  function TeamSizes(onLeft: bool, teamSize: int, childTeamSize: int): (r: (int, int))
    ensures r.0 + r.1 == teamSize
    ensures (if onLeft then r.0 else r.1) == childTeamSize
  {
    var left := if onLeft then childTeamSize else teamSize - childTeamSize;
    (left, teamSize - left)
  }

  /** `teamOffs`: the team that comes first in the parent team starts at 0,
      the other right after it.  The process's own team comes first exactly
      when its rank in the child team equals its rank in the parent team. */
  function TeamOffs(onLeft: bool, inFirstTeam: bool, sizes: (int, int)): (r: (int, int))
    ensures (onLeft == inFirstTeam) ==> r == (0, sizes.0)
    ensures (onLeft != inFirstTeam) ==> r == (sizes.1, 0)
  {
    var leftIsFirst := onLeft == inFirstTeam;
    (if leftIsFirst then 0 else sizes.1, if leftIsFirst then sizes.0 else 0)
  }

  /** The rank ranges of the two child teams tile the parent team: every
      rank lies in exactly one of them, and the process's own team starts at
      0 exactly when it comes first. */
  lemma TeamsTile(onLeft: bool, inFirstTeam: bool, teamSize: int, childTeamSize: int, q: int)
    requires 0 <= childTeamSize <= teamSize && 0 <= q < teamSize
    ensures var sizes := TeamSizes(onLeft, teamSize, childTeamSize);
            var offs := TeamOffs(onLeft, inFirstTeam, sizes);
            (offs.0 <= q < offs.0 + sizes.0) != (offs.1 <= q < offs.1 + sizes.1)
    ensures var sizes := TeamSizes(onLeft, teamSize, childTeamSize);
            var offs := TeamOffs(onLeft, inFirstTeam, sizes);
            var own := if onLeft then offs.0 else offs.1;
            0 <= offs.0 && 0 <= offs.1 && offs.0 + sizes.0 <= teamSize && offs.1 + sizes.1 <= teamSize &&
            (inFirstTeam ==> own == 0) && (!inFirstTeam ==> own == teamSize - childTeamSize)
  {
  }

  // ---------------------------------------------------------------------
  // Local rows and columns of the parent front.
  // ---------------------------------------------------------------------

  /** The element-cyclic distribution of one dimension of `L2D`: index `i`
      is local when `i % stride == shift`, at local position `i / stride`. */
  datatype Cyclic = Cyclic(shift: nat, stride: nat)

  predicate CyclicOk(d: Cyclic)
  {
    d.shift < d.stride
  }

  predicate IsLocal(d: Cyclic, i: nat)
    requires CyclicOk(d)
  {
    i % d.stride == d.shift
  }

  /** The update indices among the first `k` whose parent index is local,
      in increasing order (`rowInds` / `colInds`). */
  function LocalInds(rel: seq<nat>, d: Cyclic, k: nat): (r: seq<nat>)
    requires CyclicOk(d) && k <= |rel|
    ensures forall x :: 0 <= x < |r| ==> r[x] < k && IsLocal(d, rel[r[x]])
    ensures forall x, y :: 0 <= x < y < |r| ==> r[x] < r[y]
    ensures forall i :: 0 <= i < k && IsLocal(d, rel[i]) ==> i in r
  {
    if k == 0 then []
    else
      var r := LocalInds(rel, d, k - 1);
      if IsLocal(d, rel[k - 1]) then r + [k - 1] else r
  }

  // ---------------------------------------------------------------------
  // `std::lower_bound`.
  // ---------------------------------------------------------------------

  /** The first position whose value is at least `x`: in a sorted sequence
      everything before it is below `x` and everything from it on is not. */
  function FirstAtLeast(s: seq<nat>, x: int): (r: nat)
    requires forall a, b :: 0 <= a < b < |s| ==> s[a] <= s[b]
    ensures r <= |s|
    ensures forall k :: 0 <= k < r ==> s[k] < x
    ensures forall k :: r <= k < |s| ==> s[k] >= x
  {
    if |s| == 0 || s[0] >= x then 0
    else 1 + FirstAtLeast(s[1..], x)
  }

  /** `std::lower_bound( s.begin(), s.end(), x ) - s.begin()`, by bisection. */
  method LowerBound(s: seq<nat>, x: int) returns (r: nat)
    requires forall a, b :: 0 <= a < b < |s| ==> s[a] <= s[b]
    ensures r <= |s|
    ensures forall k :: 0 <= k < r ==> s[k] < x
    ensures forall k :: r <= k < |s| ==> s[k] >= x
    ensures r == FirstAtLeast(s, x)
  {
    var lo, hi := 0, |s|;
    while lo < hi
      invariant 0 <= lo <= hi <= |s|
      invariant forall k :: 0 <= k < lo ==> s[k] < x
      invariant forall k :: hi <= k < |s| ==> s[k] >= x
      decreases hi - lo
    {
      var mid := lo + (hi - lo) / 2;
      if s[mid] < x {
        lo := mid + 1;
      } else {
        hi := mid;
      }
    }
    r := lo;
    FirstAtLeastUnique(s, x, r);
  }

  /** Any split point of a sorted sequence at `x` is the first position at
      or above `x`. */
  lemma {:induction false} FirstAtLeastUnique(s: seq<nat>, x: int, r: nat)
    requires forall a, b :: 0 <= a < b < |s| ==> s[a] <= s[b]
    requires r <= |s|
    requires forall k :: 0 <= k < r ==> s[k] < x
    requires forall k :: r <= k < |s| ==> s[k] >= x
    ensures r == FirstAtLeast(s, x)
  {
    if |s| > 0 && s[0] < x {
      FirstAtLeastUnique(s[1..], x, r - 1);
    }
  }

  // ---------------------------------------------------------------------
  // The pairs pushed for one child.
  // ---------------------------------------------------------------------

  /** What the loop knows about child `c`: `childRelInds[c]`,
      `childSizes[c]` and the child grid `gridHeights[c] x gridWidths[c]`. */
  datatype Child = Child(rel: seq<nat>, size: nat, height: nat, width: nat)

  predicate ChildOk(ch: Child)
  {
    0 < ch.height && 0 < ch.width
  }

  /** One pushed pair: the update cell `(iChild, jChild)` and the local
      position `(iLoc, jLoc)` in `L2D` pushed for it. */
  datatype Recv = Recv(iChild: nat, jChild: nat, iLoc: int, jLoc: int)

  /** `q = teamOffs[c] + childRow + childCol * gridHeights[c]`: the process
      of child team `c` that holds `(iChild, jChild)`, where the child's
      update matrix starts at row and column `childSizes[c]` of its front. */
  function Target(ch: Child, off: int, iChild: nat, jChild: nat): (q: int)
    requires ChildOk(ch)
    ensures off <= q < off + ch.height * ch.width
  {
    var childRow := (iChild + ch.size) % ch.height;
    var childCol := (jChild + ch.size) % ch.width;
    GridRankBelow(childRow, childCol, ch.height, ch.width);
    off + childRow + childCol * ch.height
  }

  /** A column-major grid rank stays inside the grid. */
  lemma GridRankBelow(row: nat, col: nat, height: nat, width: nat)
    requires row < height && col < width
    ensures row + col * height < height * width
  {
    assert col * height <= (width - 1) * height;
  }

  function Push(ch: Child, off: int, rows: Cyclic, cols: Cyclic, iChild: nat, jChild: nat): Routed<Recv>
    requires ChildOk(ch) && CyclicOk(rows) && CyclicOk(cols)
    requires iChild < |ch.rel| && jChild < |ch.rel|
  {
    Routed(Target(ch, off, iChild, jChild),
           Recv(iChild, jChild, ch.rel[iChild] / rows.stride, ch.rel[jChild] / cols.stride))
  }

  /** The inner loop over `iPre` in `[start, e)` for column `jChild`. */
  function RowPairs(ch: Child, off: int, rows: Cyclic, cols: Cyclic, rowInds: seq<nat>, jChild: nat, start: nat, e: nat)
    : seq<Routed<Recv>>
    requires ChildOk(ch) && CyclicOk(rows) && CyclicOk(cols)
    requires jChild < |ch.rel| && start <= e <= |rowInds|
    requires forall x :: 0 <= x < |rowInds| ==> rowInds[x] < |ch.rel|
    decreases e - start
  {
    if e == start then []
    else RowPairs(ch, off, rows, cols, rowInds, jChild, start, e - 1) + [Push(ch, off, rows, cols, rowInds[e - 1], jChild)]
  }

  function RowIndsOf(ch: Child, rows: Cyclic): seq<nat>
    requires CyclicOk(rows)
  {
    LocalInds(ch.rel, rows, |ch.rel|)
  }

  function ColIndsOf(ch: Child, cols: Cyclic): seq<nat>
    requires CyclicOk(cols)
  {
    LocalInds(ch.rel, cols, |ch.rel|)
  }

  /** The pairs pushed for local column `colInds[jPre]`: from the first
      local row at or below the diagonal to the last local row. */
  function ColumnPairs(ch: Child, off: int, rows: Cyclic, cols: Cyclic, jPre: nat): seq<Routed<Recv>>
    requires ChildOk(ch) && CyclicOk(rows) && CyclicOk(cols) && jPre < |ColIndsOf(ch, cols)|
  {
    var rowInds := RowIndsOf(ch, rows);
    var jChild := ColIndsOf(ch, cols)[jPre];
    RowPairs(ch, off, rows, cols, rowInds, jChild, FirstAtLeast(rowInds, jChild), |rowInds|)
  }

  /** The pairs pushed for the first `m` local columns of child `c`. */
  function ChildPairs(ch: Child, off: int, rows: Cyclic, cols: Cyclic, m: nat): seq<Routed<Recv>>
    requires ChildOk(ch) && CyclicOk(rows) && CyclicOk(cols) && m <= |ColIndsOf(ch, cols)|
  {
    if m == 0 then []
    else ChildPairs(ch, off, rows, cols, m - 1) + ColumnPairs(ch, off, rows, cols, m - 1)
  }

  /** Everything pushed for child `c`. */
  function AllPairs(ch: Child, off: int, rows: Cyclic, cols: Cyclic): seq<Routed<Recv>>
    requires ChildOk(ch) && CyclicOk(rows) && CyclicOk(cols)
  {
    ChildPairs(ch, off, rows, cols, |ColIndsOf(ch, cols)|)
  }

  // ---------------------------------------------------------------------
  // What gets pushed.
  // ---------------------------------------------------------------------

  /** A pushed pair: a lower-triangle cell `iChild >= jChild` of the child
      update whose parent row and column are both local, with the local
      positions of that row and column, sent to its holder. */
  ghost predicate Pushed(ch: Child, off: int, rows: Cyclic, cols: Cyclic, x: Routed<Recv>)
    requires ChildOk(ch) && CyclicOk(rows) && CyclicOk(cols)
  {
    var v := x.item;
    v.jChild <= v.iChild < |ch.rel| &&
    IsLocal(rows, ch.rel[v.iChild]) && IsLocal(cols, ch.rel[v.jChild]) &&
    x == Push(ch, off, rows, cols, v.iChild, v.jChild)
  }

  lemma {:induction false} RowPairsPushed(ch: Child, off: int, rows: Cyclic, cols: Cyclic, rowInds: seq<nat>, jChild: nat,
                                          start: nat, e: nat)
    requires ChildOk(ch) && CyclicOk(rows) && CyclicOk(cols)
    requires jChild < |ch.rel| && start <= e <= |rowInds|
    requires forall x :: 0 <= x < |rowInds| ==> rowInds[x] < |ch.rel| && IsLocal(rows, ch.rel[rowInds[x]])
    requires forall x :: start <= x < |rowInds| ==> rowInds[x] >= jChild
    requires IsLocal(cols, ch.rel[jChild])
    ensures forall k :: 0 <= k < |RowPairs(ch, off, rows, cols, rowInds, jChild, start, e)| ==>
              Pushed(ch, off, rows, cols, RowPairs(ch, off, rows, cols, rowInds, jChild, start, e)[k]) &&
              RowPairs(ch, off, rows, cols, rowInds, jChild, start, e)[k].item.jChild == jChild
    decreases e - start
  {
    if e > start {
      RowPairsPushed(ch, off, rows, cols, rowInds, jChild, start, e - 1);
    }
  }

  /** Every pair pushed for a child is a local lower-triangle cell: the
      `iChild < jChild` error check can never fire. */
  lemma {:induction false} ChildPairsPushed(ch: Child, off: int, rows: Cyclic, cols: Cyclic, m: nat)
    requires ChildOk(ch) && CyclicOk(rows) && CyclicOk(cols) && m <= |ColIndsOf(ch, cols)|
    ensures forall k :: 0 <= k < |ChildPairs(ch, off, rows, cols, m)| ==> Pushed(ch, off, rows, cols, ChildPairs(ch, off, rows, cols, m)[k])
  {
    if m > 0 {
      ChildPairsPushed(ch, off, rows, cols, m - 1);
      var rowInds := RowIndsOf(ch, rows);
      var jChild := ColIndsOf(ch, cols)[m - 1];
      RowPairsPushed(ch, off, rows, cols, rowInds, jChild, FirstAtLeast(rowInds, jChild), |rowInds|);
    }
  }

  /** Entry `x - start` of the inner loop is the pair for `rowInds[x]`. */
  lemma {:induction false} RowPairsAt(ch: Child, off: int, rows: Cyclic, cols: Cyclic, rowInds: seq<nat>, jChild: nat,
                                      start: nat, e: nat, x: nat)
    requires ChildOk(ch) && CyclicOk(rows) && CyclicOk(cols)
    requires jChild < |ch.rel| && start <= x < e <= |rowInds|
    requires forall y :: 0 <= y < |rowInds| ==> rowInds[y] < |ch.rel|
    ensures |RowPairs(ch, off, rows, cols, rowInds, jChild, start, e)| == e - start
    ensures RowPairs(ch, off, rows, cols, rowInds, jChild, start, e)[x - start]
            == Push(ch, off, rows, cols, rowInds[x], jChild)
    decreases e - start
  {
    if x < e - 1 {
      RowPairsAt(ch, off, rows, cols, rowInds, jChild, start, e - 1, x);
    } else if e - 1 > start {
      RowPairsAt(ch, off, rows, cols, rowInds, jChild, start, e - 1, start);
    }
  }

  /** The pairs of column `jPre` are among those of the first `m` columns. */
  lemma {:induction false} ChildPairsHas(ch: Child, off: int, rows: Cyclic, cols: Cyclic, m: nat, jPre: nat, k: nat)
    requires ChildOk(ch) && CyclicOk(rows) && CyclicOk(cols) && jPre < m <= |ColIndsOf(ch, cols)|
    requires k < |ColumnPairs(ch, off, rows, cols, jPre)|
    ensures ColumnPairs(ch, off, rows, cols, jPre)[k] in ChildPairs(ch, off, rows, cols, m)
  {
    var prev := ChildPairs(ch, off, rows, cols, m - 1);
    var col := ColumnPairs(ch, off, rows, cols, m - 1);
    if jPre < m - 1 {
      ChildPairsHas(ch, off, rows, cols, m - 1, jPre, k);
    }
    InConcat(prev, col, ColumnPairs(ch, off, rows, cols, jPre)[k]);
  }

  /** Anything in a child's pair list was pushed for one of its cells. */
  lemma AllPairsMember(ch: Child, off: int, rows: Cyclic, cols: Cyclic, x: Routed<Recv>)
    requires ChildOk(ch) && CyclicOk(rows) && CyclicOk(cols)
    requires x in AllPairs(ch, off, rows, cols)
    ensures Pushed(ch, off, rows, cols, x)
  {
    ChildPairsPushed(ch, off, rows, cols, |ColIndsOf(ch, cols)|);
  }

  lemma InConcat<T>(a: seq<T>, b: seq<T>, x: T)
    ensures (x in a || x in b) ==> x in a + b
  {
    if x in b {
      var i :| 0 <= i < |b| && b[i] == x;
      assert (a + b)[|a| + i] == x;
    }
  }

  /** Every local lower-triangle cell of the child update is pushed: for
      each local column, `lower_bound` skips only rows above the diagonal. */
  lemma AllPairsComplete(ch: Child, off: int, rows: Cyclic, cols: Cyclic, iChild: nat, jChild: nat)
    requires ChildOk(ch) && CyclicOk(rows) && CyclicOk(cols)
    requires jChild <= iChild < |ch.rel|
    requires IsLocal(rows, ch.rel[iChild]) && IsLocal(cols, ch.rel[jChild])
    ensures Push(ch, off, rows, cols, iChild, jChild) in AllPairs(ch, off, rows, cols)
  {
    var rowInds := RowIndsOf(ch, rows);
    var colInds := ColIndsOf(ch, cols);
    var jPre :| 0 <= jPre < |colInds| && colInds[jPre] == jChild;
    var x :| 0 <= x < |rowInds| && rowInds[x] == iChild;
    var start := FirstAtLeast(rowInds, jChild);
    assert start <= x;
    RowPairsAt(ch, off, rows, cols, rowInds, jChild, start, |rowInds|, x);
    ChildPairsHas(ch, off, rows, cols, |colInds|, jPre, x - start);
  }

  // ---------------------------------------------------------------------
  // The per-process lists `childRecvInds`.
  // ---------------------------------------------------------------------

  /** The positions pushed for a run of pairs: `iLoc`, then `jLoc`. */
  function Flatten(vs: seq<Recv>): (r: seq<int>)
    ensures |r| == 2 * |vs|
    ensures forall k :: 0 <= k < |vs| ==> r[2 * k] == vs[k].iLoc && r[2 * k + 1] == vs[k].jLoc
  {
    if |vs| == 0 then []
    else
      var init := vs[..|vs| - 1];
      Flatten(init) + [vs[|vs| - 1].iLoc, vs[|vs| - 1].jLoc]
  }

  lemma FlattenSnoc(vs: seq<Recv>, v: Recv)
    ensures Flatten(vs + [v]) == Flatten(vs) + [v.iLoc, v.jLoc]
  {
    assert (vs + [v])[..|vs|] == vs;
  }

  /** `childRecvInds[q].push_back(iLoc); childRecvInds[q].push_back(jLoc)`
      for every pair in visiting order: each process's list gains the
      positions of exactly the pairs sent to it, in order. */
  function Distribute(xs: seq<Routed<Recv>>, lists: seq<seq<int>>): (r: seq<seq<int>>)
    requires RanksIn(xs, |lists|)
    ensures |r| == |lists|
    ensures forall q :: 0 <= q < |lists| ==> r[q] == lists[q] + Flatten(Bucket(xs, q))
  {
    if |xs| == 0 then lists
    else
      var init := xs[..|xs| - 1];
      var x := xs[|xs| - 1];
      assert RanksIn(init, |lists|);
      var r := Distribute(init, lists);
      assert xs == init + [x];
      DistributeStep(init, x, lists, r);
      r[x.rank := r[x.rank] + [x.item.iLoc, x.item.jLoc]]
  }

  lemma DistributeStep(init: seq<Routed<Recv>>, x: Routed<Recv>, lists: seq<seq<int>>, r: seq<seq<int>>)
    requires |r| == |lists| && 0 <= x.rank < |lists|
    requires forall q :: 0 <= q < |lists| ==> r[q] == lists[q] + Flatten(Bucket(init, q))
    ensures forall q :: 0 <= q < |lists| ==>
              r[x.rank := r[x.rank] + [x.item.iLoc, x.item.jLoc]][q] == lists[q] + Flatten(Bucket(init + [x], q))
  {
    var xs := init + [x];
    assert xs[..|xs| - 1] == init;
    forall q | 0 <= q < |lists|
      ensures r[x.rank := r[x.rank] + [x.item.iLoc, x.item.jLoc]][q] == lists[q] + Flatten(Bucket(xs, q))
    {
      if q == x.rank {
        assert Bucket(xs, q) == Bucket(init, q) + [x.item];
        FlattenSnoc(Bucket(init, q), x.item);
        assert lists[q] + Flatten(Bucket(init, q)) + [x.item.iLoc, x.item.jLoc]
               == lists[q] + (Flatten(Bucket(init, q)) + [x.item.iLoc, x.item.jLoc]);
      } else {
        assert Bucket(xs, q) == Bucket(init, q) + [];
        assert Bucket(init, q) + [] == Bucket(init, q);
      }
    }
  }

  /** `vector<vector<int>>(teamSize)` after `clear()`. */
  function EmptyLists(n: nat): (r: seq<seq<int>>)
    ensures |r| == n && forall q :: 0 <= q < n ==> r[q] == []
  {
    seq(n, _ => [])
  }

  /** The team-offset and grid arithmetic of the source, for the two
      children. */
  predicate TeamsOk(onLeft: bool, inFirstTeam: bool, teamSize: nat, childTeamSize: int, left: Child, right: Child)
  {
    0 <= childTeamSize <= teamSize && ChildOk(left) && ChildOk(right) &&
    TeamSizes(onLeft, teamSize, childTeamSize) == (left.height * left.width, right.height * right.width)
  }

  /** Everything pushed, child 0 (left) first, then child 1 (right). */
  function RecvStream(onLeft: bool, inFirstTeam: bool, teamSize: nat, childTeamSize: int,
                      left: Child, right: Child, rows: Cyclic, cols: Cyclic): seq<Routed<Recv>>
    requires TeamsOk(onLeft, inFirstTeam, teamSize, childTeamSize, left, right)
    requires CyclicOk(rows) && CyclicOk(cols)
  {
    var offs := TeamOffs(onLeft, inFirstTeam, TeamSizes(onLeft, teamSize, childTeamSize));
    AllPairs(left, offs.0, rows, cols) + AllPairs(right, offs.1, rows, cols)
  }

  /** Every pair pushed for a child is sent into that child's team. */
  lemma AllPairsRanked(ch: Child, off: int, rows: Cyclic, cols: Cyclic, teamSize: nat)
    requires ChildOk(ch) && CyclicOk(rows) && CyclicOk(cols)
    requires 0 <= off && off + ch.height * ch.width <= teamSize
    ensures RanksIn(AllPairs(ch, off, rows, cols), teamSize)
  {
    var xs := AllPairs(ch, off, rows, cols);
    ChildPairsPushed(ch, off, rows, cols, |ColIndsOf(ch, cols)|);
    forall k | 0 <= k < |xs| ensures 0 <= xs[k].rank < teamSize {
      assert Pushed(ch, off, rows, cols, xs[k]);
    }
  }

  lemma RanksAppend<T>(a: seq<Routed<T>>, b: seq<Routed<T>>, P: nat)
    requires RanksIn(a, P) && RanksIn(b, P)
    ensures RanksIn(a + b, P)
  {
    forall k | 0 <= k < |a + b| ensures 0 <= (a + b)[k].rank < P {
      if k >= |a| {
        assert (a + b)[k] == b[k - |a|];
      }
    }
  }

  /** Every pair is sent to a process of the parent team. */
  lemma StreamRanked(onLeft: bool, inFirstTeam: bool, teamSize: nat, childTeamSize: int,
                     left: Child, right: Child, rows: Cyclic, cols: Cyclic)
    requires TeamsOk(onLeft, inFirstTeam, teamSize, childTeamSize, left, right)
    requires CyclicOk(rows) && CyclicOk(cols)
    ensures RanksIn(RecvStream(onLeft, inFirstTeam, teamSize, childTeamSize, left, right, rows, cols), teamSize)
  {
    var offs := TeamOffs(onLeft, inFirstTeam, TeamSizes(onLeft, teamSize, childTeamSize));
    TeamsTile(onLeft, inFirstTeam, teamSize, childTeamSize, 0);
    AllPairsRanked(left, offs.0, rows, cols, teamSize);
    AllPairsRanked(right, offs.1, rows, cols, teamSize);
    RanksAppend(AllPairs(left, offs.0, rows, cols), AllPairs(right, offs.1, rows, cols), teamSize);
  }

  /** `ComputeRecvInds`: `childRecvInds` has one list per process of the
      parent team, and process `q`'s list holds, two entries per pair, the
      local positions of the pairs sent to `q`, in visiting order. */
  function ComputeRecvInds(onLeft: bool, inFirstTeam: bool, teamSize: nat, childTeamSize: int,
                           left: Child, right: Child, rows: Cyclic, cols: Cyclic): (r: seq<seq<int>>)
    requires TeamsOk(onLeft, inFirstTeam, teamSize, childTeamSize, left, right)
    requires CyclicOk(rows) && CyclicOk(cols)
    ensures |r| == teamSize
    ensures forall q :: 0 <= q < teamSize ==>
              var pairs := Bucket(RecvStream(onLeft, inFirstTeam, teamSize, childTeamSize, left, right, rows, cols), q);
              |r[q]| == 2 * |pairs| &&
              forall k :: 0 <= k < |pairs| ==> r[q][2 * k] == pairs[k].iLoc && r[q][2 * k + 1] == pairs[k].jLoc
  {
    StreamRanked(onLeft, inFirstTeam, teamSize, childTeamSize, left, right, rows, cols);
    Distribute(RecvStream(onLeft, inFirstTeam, teamSize, childTeamSize, left, right, rows, cols), EmptyLists(teamSize))
  }

  /** What process `q`'s list holds: every pair in it is a local
      lower-triangle cell of the left or the right child's update, sent to
      `q` by the process holding it. */
  lemma RecvIndsSound(onLeft: bool, inFirstTeam: bool, teamSize: nat, childTeamSize: int,
                      left: Child, right: Child, rows: Cyclic, cols: Cyclic, q: int, k: nat)
    requires TeamsOk(onLeft, inFirstTeam, teamSize, childTeamSize, left, right)
    requires CyclicOk(rows) && CyclicOk(cols) && 0 <= q < teamSize
    requires k < |Bucket(RecvStream(onLeft, inFirstTeam, teamSize, childTeamSize, left, right, rows, cols), q)|
    ensures var offs := TeamOffs(onLeft, inFirstTeam, TeamSizes(onLeft, teamSize, childTeamSize));
            var v := Bucket(RecvStream(onLeft, inFirstTeam, teamSize, childTeamSize, left, right, rows, cols), q)[k];
            Pushed(left, offs.0, rows, cols, Routed(q, v)) || Pushed(right, offs.1, rows, cols, Routed(q, v))
  {
    var offs := TeamOffs(onLeft, inFirstTeam, TeamSizes(onLeft, teamSize, childTeamSize));
    var a := AllPairs(left, offs.0, rows, cols);
    var b := AllPairs(right, offs.1, rows, cols);
    BucketMembers(a + b, q);
    var x := Routed(q, Bucket(a + b, q)[k]);
    assert x in a + b;
    if x in a {
      AllPairsMember(left, offs.0, rows, cols, x);
    } else {
      AllPairsMember(right, offs.1, rows, cols, x);
    }
  }

  /** Every local lower-triangle cell of the left child's update reaches
      the list of the process that holds it. */
  lemma RecvIndsCompleteLeft(onLeft: bool, inFirstTeam: bool, teamSize: nat, childTeamSize: int,
                             left: Child, right: Child, rows: Cyclic, cols: Cyclic, iChild: nat, jChild: nat)
    requires TeamsOk(onLeft, inFirstTeam, teamSize, childTeamSize, left, right)
    requires CyclicOk(rows) && CyclicOk(cols)
    requires jChild <= iChild < |left.rel|
    requires IsLocal(rows, left.rel[iChild]) && IsLocal(cols, left.rel[jChild])
    ensures var offs := TeamOffs(onLeft, inFirstTeam, TeamSizes(onLeft, teamSize, childTeamSize));
            var x := Push(left, offs.0, rows, cols, iChild, jChild);
            0 <= x.rank < teamSize &&
            x.item in Bucket(RecvStream(onLeft, inFirstTeam, teamSize, childTeamSize, left, right, rows, cols), x.rank)
  {
    var offs := TeamOffs(onLeft, inFirstTeam, TeamSizes(onLeft, teamSize, childTeamSize));
    var a := AllPairs(left, offs.0, rows, cols);
    var b := AllPairs(right, offs.1, rows, cols);
    var x := Push(left, offs.0, rows, cols, iChild, jChild);
    TeamsTile(onLeft, inFirstTeam, teamSize, childTeamSize, 0);
    AllPairsComplete(left, offs.0, rows, cols, iChild, jChild);
    InConcat(a, b, x);
    BucketMembers(a + b, x.rank);
  }

  /** The same for the right child. */
  lemma RecvIndsCompleteRight(onLeft: bool, inFirstTeam: bool, teamSize: nat, childTeamSize: int,
                              left: Child, right: Child, rows: Cyclic, cols: Cyclic, iChild: nat, jChild: nat)
    requires TeamsOk(onLeft, inFirstTeam, teamSize, childTeamSize, left, right)
    requires CyclicOk(rows) && CyclicOk(cols)
    requires jChild <= iChild < |right.rel|
    requires IsLocal(rows, right.rel[iChild]) && IsLocal(cols, right.rel[jChild])
    ensures var offs := TeamOffs(onLeft, inFirstTeam, TeamSizes(onLeft, teamSize, childTeamSize));
            var x := Push(right, offs.1, rows, cols, iChild, jChild);
            0 <= x.rank < teamSize &&
            x.item in Bucket(RecvStream(onLeft, inFirstTeam, teamSize, childTeamSize, left, right, rows, cols), x.rank)
  {
    var offs := TeamOffs(onLeft, inFirstTeam, TeamSizes(onLeft, teamSize, childTeamSize));
    var a := AllPairs(left, offs.0, rows, cols);
    var b := AllPairs(right, offs.1, rows, cols);
    var x := Push(right, offs.1, rows, cols, iChild, jChild);
    TeamsTile(onLeft, inFirstTeam, teamSize, childTeamSize, 0);
    AllPairsComplete(right, offs.1, rows, cols, iChild, jChild);
    InConcat(a, b, x);
    BucketMembers(a + b, x.rank);
  }
}
