/** `DistFront::ComputeCommMeta`: how many entries of the child's update
    matrix this process sends to each process of the parent front.

    The child's update matrix `FBR` (`childFront.work`) is distributed; the
    process walks its local part column by column (`jChildLoc`), and within a
    column row by row (`iChildLoc`).  A cell `(iChild, jChild)` in the lower
    triangle, `iChild >= jChild`, is an update of the parent-front entry
    `(childRelInds[iChild], childRelInds[jChild])`, and is counted once for
    the owner `L2D.Owner(i, j)` of that entry.  Without a child there is
    nothing to send and the metadata stays empty. */
module CommMeta {
  import opened SeqMath
  import opened Buckets

  /** A local cell of `FBR`: local row `iLoc`, local column `jLoc`. */
  datatype Cell = Cell(iLoc: nat, jLoc: nat)

  /** `FactorCommMeta`: the per-process send counts and (optionally) the
      receive indices of the child update. */
  datatype Meta = Meta(numChildSendInds: seq<int>, childRecvInds: seq<seq<int>>)

  /** `commMeta.Empty()`. */
  const Empty := Meta([], [])

  /** The local part of `FBR`: `rows[iLoc]` is `FBR.GlobalRow(iLoc)` and
      `cols[jLoc]` is `FBR.GlobalCol(jLoc)`.  Every column, and every row
      used for a lower-triangle cell, indexes `childRelInds`. */
  predicate Relative(childRelInds: seq<int>, rows: seq<nat>, cols: seq<nat>)
  {
    (forall b :: 0 <= b < |cols| ==> cols[b] < |childRelInds|) &&
    (forall a, b :: 0 <= a < |rows| && 0 <= b < |cols| && rows[a] >= cols[b] ==> rows[a] < |childRelInds|)
  }

  /** `L2D.Owner(i, j)` lies in the parent team. */
  ghost predicate OwnersIn(owner: (int, int) -> int, teamSize: nat)
  {
    forall i, j :: 0 <= owner(i, j) < teamSize
  }

  lemma OwnerInTeam(owner: (int, int) -> int, teamSize: nat, i: int, j: int)
    requires OwnersIn(owner, teamSize)
    ensures 0 <= owner(i, j) < teamSize
  {
  }

  /** A lower-triangle cell, routed to the owner of its parent-front entry. */
  function Route(childRelInds: seq<int>, rows: seq<nat>, cols: seq<nat>, owner: (int, int) -> int,
                 a: nat, b: nat): Routed<Cell>
    requires Relative(childRelInds, rows, cols)
    requires a < |rows| && b < |cols| && rows[a] >= cols[b]
  {
    Routed(owner(childRelInds[rows[a]], childRelInds[cols[b]]), Cell(a, b))
  }

  /** The inner loop over the first `k` local rows of column `b`: the cells
      with `iChild >= jChild`. */
  function ColumnCells(childRelInds: seq<int>, rows: seq<nat>, cols: seq<nat>, owner: (int, int) -> int,
                       b: nat, k: nat): seq<Routed<Cell>>
    requires Relative(childRelInds, rows, cols)
    requires b < |cols| && k <= |rows|
  {
    if k == 0 then []
    else
      ColumnCells(childRelInds, rows, cols, owner, b, k - 1)
      + (if rows[k - 1] >= cols[b] then [Route(childRelInds, rows, cols, owner, k - 1, b)] else [])
  }

  /** The outer loop over the first `m` local columns. */
  function Cells(childRelInds: seq<int>, rows: seq<nat>, cols: seq<nat>, owner: (int, int) -> int,
                 m: nat): seq<Routed<Cell>>
    requires Relative(childRelInds, rows, cols)
    requires m <= |cols|
  {
    if m == 0 then []
    else
      Cells(childRelInds, rows, cols, owner, m - 1)
      + ColumnCells(childRelInds, rows, cols, owner, m - 1, |rows|)
  }

  /** `ComputeCommMeta(info, false)`: empty without a child, otherwise one
      `++numChildSendInds[q]` per visited lower-triangle cell. */
  function ComputeCommMeta(hasChild: bool, teamSize: nat, childRelInds: seq<int>,
                           rows: seq<nat>, cols: seq<nat>, owner: (int, int) -> int): (r: Meta)
    requires hasChild ==> Relative(childRelInds, rows, cols) && OwnersIn(owner, teamSize)
    ensures !hasChild ==> r == Empty
    ensures hasChild ==> |r.numChildSendInds| == teamSize && r.childRecvInds == []
    ensures hasChild ==> forall q :: 0 <= q < teamSize ==>
              r.numChildSendInds[q] == |Bucket(Cells(childRelInds, rows, cols, owner, |cols|), q)|
  {
    if !hasChild then Empty
    else
      var cells := Cells(childRelInds, rows, cols, owner, |cols|);
      CellsRanked(teamSize, childRelInds, rows, cols, owner);
      TallyFromZero(cells, teamSize);
      Meta(Tally(cells, Zeros(teamSize)), [])
  }

  // ---------------------------------------------------------------------
  // The walk visits each lower-triangle cell exactly once.
  // ---------------------------------------------------------------------

  /** Column-major order of local cells. */
  predicate Before(c: Cell, d: Cell)
  {
    c.jLoc < d.jLoc || (c.jLoc == d.jLoc && c.iLoc < d.iLoc)
  }

  /** The lower-triangle cells of the local part of `FBR`. */
  function LowerSet(rows: seq<nat>, cols: seq<nat>): set<Cell>
  {
    set a, b | 0 <= a < |rows| && 0 <= b < |cols| && rows[a] >= cols[b] :: Cell(a, b)
  }

  /** Every visited cell is a lower-triangle cell among the first `m`
      columns, routed to the owner of its parent-front entry. */
  ghost predicate Visits(childRelInds: seq<int>, rows: seq<nat>, cols: seq<nat>, owner: (int, int) -> int,
                         m: nat, xs: seq<Routed<Cell>>)
    requires Relative(childRelInds, rows, cols) && m <= |cols|
  {
    forall k :: 0 <= k < |xs| ==>
      xs[k].item.iLoc < |rows| && xs[k].item.jLoc < m && rows[xs[k].item.iLoc] >= cols[xs[k].item.jLoc] &&
      xs[k] == Route(childRelInds, rows, cols, owner, xs[k].item.iLoc, xs[k].item.jLoc)
  }

  /** The cells are visited in strictly increasing column-major order. */
  ghost predicate Increasing(xs: seq<Routed<Cell>>)
  {
    forall x, y :: 0 <= x < y < |xs| ==> Before(xs[x].item, xs[y].item)
  }

  /** Every lower-triangle cell among the first `m` columns is visited. */
  ghost predicate Covers(rows: seq<nat>, cols: seq<nat>, m: nat, xs: seq<Routed<Cell>>)
    requires m <= |cols|
  {
    forall a, b :: 0 <= a < |rows| && 0 <= b < m && rows[a] >= cols[b] ==>
      exists k :: 0 <= k < |xs| && xs[k].item == Cell(a, b)
  }

  /** Every lower-triangle cell of column `b` among the first `k` rows is
      visited. */
  ghost predicate CoversColumn(rows: seq<nat>, cols: seq<nat>, b: nat, k: nat, xs: seq<Routed<Cell>>)
    requires b < |cols| && k <= |rows|
  {
    forall a :: 0 <= a < k && rows[a] >= cols[b] ==> exists x :: 0 <= x < |xs| && xs[x].item == Cell(a, b)
  }

  /** The inner loop visits lower-triangle cells of column `b` among the
      first `k` rows only. */
  lemma {:induction false} ColumnVisits(childRelInds: seq<int>, rows: seq<nat>, cols: seq<nat>,
                                        owner: (int, int) -> int, b: nat, k: nat)
    requires Relative(childRelInds, rows, cols)
    requires b < |cols| && k <= |rows|
    ensures forall x :: 0 <= x < |ColumnCells(childRelInds, rows, cols, owner, b, k)| ==>
              ColumnCells(childRelInds, rows, cols, owner, b, k)[x].item.jLoc == b &&
              ColumnCells(childRelInds, rows, cols, owner, b, k)[x].item.iLoc < k
    ensures Visits(childRelInds, rows, cols, owner, b + 1, ColumnCells(childRelInds, rows, cols, owner, b, k))
  {
    if k > 0 {
      ColumnVisits(childRelInds, rows, cols, owner, b, k - 1);
    }
  }

  /** ... in increasing row order ... */
  lemma {:induction false} ColumnIncreasing(childRelInds: seq<int>, rows: seq<nat>, cols: seq<nat>,
                                            owner: (int, int) -> int, b: nat, k: nat)
    requires Relative(childRelInds, rows, cols)
    requires b < |cols| && k <= |rows|
    ensures Increasing(ColumnCells(childRelInds, rows, cols, owner, b, k))
  {
    if k > 0 {
      ColumnIncreasing(childRelInds, rows, cols, owner, b, k - 1);
      ColumnVisits(childRelInds, rows, cols, owner, b, k - 1);
    }
  }

  /** ... and every one of them. */
  lemma {:induction false} ColumnCovers(childRelInds: seq<int>, rows: seq<nat>, cols: seq<nat>,
                                        owner: (int, int) -> int, b: nat, k: nat)
    requires Relative(childRelInds, rows, cols)
    requires b < |cols| && k <= |rows|
    ensures CoversColumn(rows, cols, b, k, ColumnCells(childRelInds, rows, cols, owner, b, k))
  {
    if k > 0 {
      var prev := ColumnCells(childRelInds, rows, cols, owner, b, k - 1);
      ColumnCovers(childRelInds, rows, cols, owner, b, k - 1);
      var xs := ColumnCells(childRelInds, rows, cols, owner, b, k);
      var last := if rows[k - 1] >= cols[b] then [Route(childRelInds, rows, cols, owner, k - 1, b)] else [];
      assert xs == prev + last;
      forall a | 0 <= a < k && rows[a] >= cols[b]
        ensures exists x :: 0 <= x < |xs| && xs[x].item == Cell(a, b)
      {
        if a == k - 1 {
          assert xs[|prev|] == last[0];
        } else {
          var x :| 0 <= x < |prev| && prev[x].item == Cell(a, b);
          assert xs[x] == prev[x];
        }
      }
      assert CoversColumn(rows, cols, b, k, xs);
    }
  }

  lemma {:induction false} CellsVisit(childRelInds: seq<int>, rows: seq<nat>, cols: seq<nat>,
                                      owner: (int, int) -> int, m: nat)
    requires Relative(childRelInds, rows, cols) && m <= |cols|
    ensures Visits(childRelInds, rows, cols, owner, m, Cells(childRelInds, rows, cols, owner, m))
  {
    if m > 0 {
      CellsVisit(childRelInds, rows, cols, owner, m - 1);
      ColumnVisits(childRelInds, rows, cols, owner, m - 1, |rows|);
    }
  }

  lemma {:induction false} CellsIncreasing(childRelInds: seq<int>, rows: seq<nat>, cols: seq<nat>,
                                           owner: (int, int) -> int, m: nat)
    requires Relative(childRelInds, rows, cols) && m <= |cols|
    ensures Increasing(Cells(childRelInds, rows, cols, owner, m))
  {
    if m > 0 {
      var prev := Cells(childRelInds, rows, cols, owner, m - 1);
      var col := ColumnCells(childRelInds, rows, cols, owner, m - 1, |rows|);
      CellsIncreasing(childRelInds, rows, cols, owner, m - 1);
      CellsVisit(childRelInds, rows, cols, owner, m - 1);
      ColumnVisits(childRelInds, rows, cols, owner, m - 1, |rows|);
      ColumnIncreasing(childRelInds, rows, cols, owner, m - 1, |rows|);
      IncreasingAppend(prev, col, m - 1);
    }
  }

  /** Cells of columns before `b`, then increasing cells of column `b`. */
  lemma IncreasingAppend(prev: seq<Routed<Cell>>, col: seq<Routed<Cell>>, b: nat)
    requires Increasing(prev) && Increasing(col)
    requires forall x :: 0 <= x < |prev| ==> prev[x].item.jLoc < b
    requires forall x :: 0 <= x < |col| ==> col[x].item.jLoc == b
    ensures Increasing(prev + col)
  {
    var xs := prev + col;
    forall x, y | 0 <= x < y < |xs| ensures Before(xs[x].item, xs[y].item) {
      if y < |prev| {
        assert Before(prev[x].item, prev[y].item);
      } else if x >= |prev| {
        assert Before(col[x - |prev|].item, col[y - |prev|].item);
      } else {
        assert xs[x].item.jLoc < b == xs[y].item.jLoc;
      }
    }
  }

  lemma {:induction false} CellsCover(childRelInds: seq<int>, rows: seq<nat>, cols: seq<nat>,
                                      owner: (int, int) -> int, m: nat)
    requires Relative(childRelInds, rows, cols) && m <= |cols|
    ensures Covers(rows, cols, m, Cells(childRelInds, rows, cols, owner, m))
  {
    if m > 0 {
      CellsCover(childRelInds, rows, cols, owner, m - 1);
      ColumnCovers(childRelInds, rows, cols, owner, m - 1, |rows|);
      CoversAppend(rows, cols, m, Cells(childRelInds, rows, cols, owner, m - 1),
                   ColumnCells(childRelInds, rows, cols, owner, m - 1, |rows|));
    }
  }

  /** The cells of the first `m - 1` columns, then all of column `m - 1`. */
  lemma CoversAppend(rows: seq<nat>, cols: seq<nat>, m: nat, prev: seq<Routed<Cell>>, col: seq<Routed<Cell>>)
    requires 0 < m <= |cols|
    requires Covers(rows, cols, m - 1, prev)
    requires CoversColumn(rows, cols, m - 1, |rows|, col)
    ensures Covers(rows, cols, m, prev + col)
  {
    var xs := prev + col;
    forall a, b | 0 <= a < |rows| && 0 <= b < m && rows[a] >= cols[b]
      ensures exists k :: 0 <= k < |xs| && xs[k].item == Cell(a, b)
    {
      if b == m - 1 {
        var x :| 0 <= x < |col| && col[x].item == Cell(a, b);
        assert xs[|prev| + x] == col[x];
      } else {
        var k :| 0 <= k < |prev| && prev[k].item == Cell(a, b);
        assert xs[k] == prev[k];
      }
    }
  }

  /** The walk routes every cell into the team. */
  lemma CellsRanked(teamSize: nat, childRelInds: seq<int>, rows: seq<nat>, cols: seq<nat>,
                    owner: (int, int) -> int)
    requires Relative(childRelInds, rows, cols) && OwnersIn(owner, teamSize)
    ensures RanksIn(Cells(childRelInds, rows, cols, owner, |cols|), teamSize)
  {
    var xs := Cells(childRelInds, rows, cols, owner, |cols|);
    CellsVisit(childRelInds, rows, cols, owner, |cols|);
    forall k | 0 <= k < |xs| ensures 0 <= xs[k].rank < teamSize {
      var c := xs[k].item;
      OwnerInTeam(owner, teamSize, childRelInds[rows[c.iLoc]], childRelInds[cols[c.jLoc]]);
    }
  }

  /** A sequence without repeats has as many distinct elements as entries. */
  lemma {:induction false} DistinctCount<T>(s: seq<T>)
    requires forall x, y :: 0 <= x < y < |s| ==> s[x] != s[y]
    ensures |set k | 0 <= k < |s| :: s[k]| == |s|
  {
    if |s| > 0 {
      var t := s[..|s| - 1];
      DistinctCount(t);
      var st := set k | 0 <= k < |t| :: t[k];
      var ss := set k | 0 <= k < |s| :: s[k];
      assert ss == st + {s[|s| - 1]};
      assert s[|s| - 1] !in st;
    }
  }

  /** The send counts add up to the number of local lower-triangle cells of
      `FBR`: each is counted exactly once. */
  lemma CommMetaTotal(teamSize: nat, childRelInds: seq<int>, rows: seq<nat>, cols: seq<nat>,
                      owner: (int, int) -> int)
    requires Relative(childRelInds, rows, cols) && OwnersIn(owner, teamSize)
    ensures Sum(ComputeCommMeta(true, teamSize, childRelInds, rows, cols, owner).numChildSendInds)
            == |LowerSet(rows, cols)|
  {
    var xs := Cells(childRelInds, rows, cols, owner, |cols|);
    CellsRanked(teamSize, childRelInds, rows, cols, owner);
    SumTally(xs, Zeros(teamSize));
    SumZeros(teamSize);
    CellsCount(childRelInds, rows, cols, owner);
  }

  /** The walk visits as many cells as there are lower-triangle cells. */
  lemma CellsCount(childRelInds: seq<int>, rows: seq<nat>, cols: seq<nat>, owner: (int, int) -> int)
    requires Relative(childRelInds, rows, cols)
    ensures |Cells(childRelInds, rows, cols, owner, |cols|)| == |LowerSet(rows, cols)|
  {
    var xs := Cells(childRelInds, rows, cols, owner, |cols|);
    var S := LowerSet(rows, cols);
    CellsVisit(childRelInds, rows, cols, owner, |cols|);
    CellsIncreasing(childRelInds, rows, cols, owner, |cols|);
    CellsCover(childRelInds, rows, cols, owner, |cols|);
    forall k | 0 <= k < |xs| ensures xs[k].item in S {
      var c := xs[k].item;
      assert c == Cell(c.iLoc, c.jLoc);
    }
    forall c | c in S ensures exists k :: 0 <= k < |xs| && xs[k].item == c {
      assert rows[c.iLoc] >= cols[c.jLoc];
    }
    EnumeratesCount(xs, S);
  }

  /** A walk in strictly increasing order that visits exactly the cells of
      `S` visits each once, so it is as long as `S` is large. */
  lemma EnumeratesCount(xs: seq<Routed<Cell>>, S: set<Cell>)
    requires Increasing(xs)
    requires forall k :: 0 <= k < |xs| ==> xs[k].item in S
    requires forall c :: c in S ==> exists k :: 0 <= k < |xs| && xs[k].item == c
    ensures |xs| == |S|
  {
    var items := seq(|xs|, k requires 0 <= k < |xs| => xs[k].item);
    forall x, y | 0 <= x < y < |items| ensures items[x] != items[y] {
      assert Before(xs[x].item, xs[y].item);
    }
    DistinctCount(items);
    var seen := set k | 0 <= k < |items| :: items[k];
    forall c | c in S ensures c in seen {
      var k :| 0 <= k < |xs| && xs[k].item == c;
      assert items[k] == c;
    }
    assert seen == S;
  }

  /** Each counted cell is counted for the owner of its parent-front entry. */
  lemma CountedForOwner(teamSize: nat, childRelInds: seq<int>, rows: seq<nat>, cols: seq<nat>,
                        owner: (int, int) -> int, k: nat)
    requires Relative(childRelInds, rows, cols) && OwnersIn(owner, teamSize)
    requires k < |Cells(childRelInds, rows, cols, owner, |cols|)|
    ensures var c := Cells(childRelInds, rows, cols, owner, |cols|)[k];
            c.item in LowerSet(rows, cols) &&
            c.rank == owner(childRelInds[rows[c.item.iLoc]], childRelInds[cols[c.item.jLoc]])
  {
    CellsVisit(childRelInds, rows, cols, owner, |cols|);
  }
}
