/** The filtered payload of `Pull`: for every row another process asked for,
    the sender ships only the connections whose reordered target is not
    above the row's reordered source (the lower triangle of the transposed
    matrix), counting them per row and per rank first and then packing the
    values and targets into one buffer segment per rank. */
module Payload {
  import opened SeqMath
  import opened Buckets
  import opened ComplexArith

  /** The process's rows of the distributed sparse matrix.  Local row `iLoc`
      is global row `firstLocalRow + iLoc`; its connections are the local
      entries `entryOffsets[iLoc] .. entryOffsets[iLoc] + numConnections[iLoc]`
      (`A.EntryOffset`, `A.NumConnections`), with values `values[e]`. */
  datatype LocalMatrix = LocalMatrix(
    firstLocalRow: int,
    entryOffsets: seq<int>,
    numConnections: seq<int>,
    values: seq<Complex>)

  /** What the reordering phase left behind: `mappedSources[iLoc]` is the
      reordered index of local row `iLoc`, `mappedTargets[u]` that of unique
      column `u`, and `colOffs[e]` the unique column of local entry `e`. */
  datatype Reordered = Reordered(mappedSources: seq<int>, mappedTargets: seq<int>, colOffs: seq<int>)

  predicate Wf(A: LocalMatrix, R: Reordered)
  {
    |A.numConnections| == |A.entryOffsets| &&
    |R.mappedSources| == |A.entryOffsets| &&
    |R.colOffs| == |A.values| &&
    (forall iLoc :: 0 <= iLoc < |A.entryOffsets| ==>
       0 <= A.entryOffsets[iLoc] && 0 <= A.numConnections[iLoc] &&
       A.entryOffsets[iLoc] + A.numConnections[iLoc] <= |A.values|) &&
    (forall e :: 0 <= e < |R.colOffs| ==> 0 <= R.colOffs[e] < |R.mappedTargets|)
  }

  /** Every requested row is one of this process's rows. */
  predicate AllLocal(A: LocalMatrix, rows: seq<int>)
  {
    forall k :: 0 <= k < |rows| ==> A.firstLocalRow <= rows[k] < A.firstLocalRow + |A.entryOffsets|
  }

  /** `mappedTargets[colOffs[e]]`: the reordered target of local entry `e`
      (0 off the matrix, where the source never looks). */
  function Target(A: LocalMatrix, R: Reordered, e: int): int
  {
    if 0 <= e < |R.colOffs| && 0 <= R.colOffs[e] < |R.mappedTargets| then R.mappedTargets[R.colOffs[e]] else 0
  }

  /** The value shipped for local entry `e`, conjugated on request (0 off the
      matrix, where the source never looks). */
  function Sent(A: LocalMatrix, conjugate: bool, e: int): Complex
  {
    if 0 <= e < |A.values| then (if conjugate then Conj(A.values[e]) else A.values[e]) else Zero
  }

  /** The local entries kept among the first `m` connections of local row
      `iLoc`, in connection order. */
  function Kept(A: LocalMatrix, R: Reordered, iLoc: int, m: int): (r: seq<int>)
    requires Wf(A, R) && 0 <= iLoc < |A.entryOffsets| && 0 <= m <= A.numConnections[iLoc]
    ensures |r| <= m
    decreases m
  {
    if m == 0 then []
    else
      var e := A.entryOffsets[iLoc] + m - 1;
      Kept(A, R, iLoc, m - 1) + (if Target(A, R, e) >= R.mappedSources[iLoc] then [e] else [])
  }

  /** The entries sent for requested (global) row `i`. */
  function RowPayload(A: LocalMatrix, R: Reordered, i: int): (r: seq<int>)
    requires Wf(A, R) && A.firstLocalRow <= i < A.firstLocalRow + |A.entryOffsets|
  {
    Kept(A, R, i - A.firstLocalRow, A.numConnections[i - A.firstLocalRow])
  }

  /** The entries sent for requested rows `rows[lo..hi]`, row after row. */
  function PayloadRange(A: LocalMatrix, R: Reordered, rows: seq<int>, lo: int, hi: int): (r: seq<int>)
    requires Wf(A, R) && AllLocal(A, rows) && 0 <= lo <= hi <= |rows|
    decreases hi - lo
  {
    if lo == hi then []
    else PayloadRange(A, R, rows, lo, hi - 1) + RowPayload(A, R, rows[hi - 1])
  }

  /** The entries sent for all requested rows. */
  function Payload(A: LocalMatrix, R: Reordered, rows: seq<int>): (r: seq<int>)
    requires Wf(A, R) && AllLocal(A, rows)
  {
    PayloadRange(A, R, rows, 0, |rows|)
  }

  /** The shipped values of entries `es`, in order. */
  function Values(A: LocalMatrix, conjugate: bool, es: seq<int>): seq<Complex>
  {
    seq(|es|, k requires 0 <= k < |es| => Sent(A, conjugate, es[k]))
  }

  /** The reordered targets of entries `es`, in order. */
  function Targets(A: LocalMatrix, R: Reordered, es: seq<int>): seq<int>
  {
    seq(|es|, k requires 0 <= k < |es| => Target(A, R, es[k]))
  }

  /** The entries rank `q` is sent: those of its segment of requested rows. */
  function SegmentPayload(A: LocalMatrix, R: Reordered, sRows: seq<int>, sRowSizes: seq<int>, sRowOffs: seq<int>, q: int): seq<int>
    requires Wf(A, R) && AllLocal(A, sRows) && Segments(sRowSizes, sRowOffs, |sRows|)
    requires 0 <= q < |sRowSizes|
  {
    PayloadRange(A, R, sRows, sRowOffs[q], sRowOffs[q] + sRowSizes[q])
  }

  /** `sEntriesSizes[q]` counts the entries rank `q` is sent, for the first
      `n` ranks. */
  predicate SizesCounted(A: LocalMatrix, R: Reordered, sRows: seq<int>, sRowSizes: seq<int>, sRowOffs: seq<int>,
                         sEntriesSizes: seq<int>, n: int)
    requires Wf(A, R) && AllLocal(A, sRows) && Segments(sRowSizes, sRowOffs, |sRows|)
    requires 0 <= n <= |sRowSizes|
  {
    |sEntriesSizes| == n &&
    forall q {:trigger sEntriesSizes[q]} :: 0 <= q < n ==> sEntriesSizes[q] == |SegmentPayload(A, R, sRows, sRowSizes, sRowOffs, q)|
  }

  // ---------------------------------------------------------------------
  // The filter.
  // ---------------------------------------------------------------------

  /** A connection is shipped exactly when its reordered target is not above
      the reordered source of its row. */
  lemma {:induction false} KeptMembers(A: LocalMatrix, R: Reordered, iLoc: int, m: int, e: int)
    requires Wf(A, R) && 0 <= iLoc < |A.entryOffsets| && 0 <= m <= A.numConnections[iLoc]
    ensures e in Kept(A, R, iLoc, m) <==>
              A.entryOffsets[iLoc] <= e < A.entryOffsets[iLoc] + m && Target(A, R, e) >= R.mappedSources[iLoc]
    decreases m
  {
    if m > 0 {
      KeptMembers(A, R, iLoc, m - 1, e);
    }
  }

  /** Each connection is shipped at most once, in connection order. */
  lemma {:induction false} KeptIncreasing(A: LocalMatrix, R: Reordered, iLoc: int, m: int)
    requires Wf(A, R) && 0 <= iLoc < |A.entryOffsets| && 0 <= m <= A.numConnections[iLoc]
    ensures forall a, b :: 0 <= a < b < |Kept(A, R, iLoc, m)| ==> Kept(A, R, iLoc, m)[a] < Kept(A, R, iLoc, m)[b]
    decreases m
  {
    if m > 0 {
      KeptIncreasing(A, R, iLoc, m - 1);
      var prev := Kept(A, R, iLoc, m - 1);
      forall a | 0 <= a < |prev|
        ensures prev[a] < A.entryOffsets[iLoc] + m - 1
      {
        KeptMembers(A, R, iLoc, m - 1, prev[a]);
      }
    }
  }

  /** Concatenating the payloads of adjacent row ranges. */
  lemma {:induction false} PayloadSplit(A: LocalMatrix, R: Reordered, rows: seq<int>, lo: int, mid: int, hi: int)
    requires Wf(A, R) && AllLocal(A, rows) && 0 <= lo <= mid <= hi <= |rows|
    ensures PayloadRange(A, R, rows, lo, hi) == PayloadRange(A, R, rows, lo, mid) + PayloadRange(A, R, rows, mid, hi)
    decreases hi - mid
  {
    if mid < hi {
      PayloadSplit(A, R, rows, lo, mid, hi - 1);
    }
  }

  lemma ValuesAppend(A: LocalMatrix, R: Reordered, conjugate: bool, a: seq<int>, b: seq<int>)
    ensures Values(A, conjugate, a + b) == Values(A, conjugate, a) + Values(A, conjugate, b)
    ensures Targets(A, R, a + b) == Targets(A, R, a) + Targets(A, R, b)
  {
  }

  // ---------------------------------------------------------------------
  // The count pass.
  //
  // Both passes visit the ranks in order and each rank's rows in order, so
  // the positions `s + off` (and, in the packing pass, `index`) they write run
  // through their buffers contiguously from 0: the buffers are modelled as
  // growing at the end, and the methods prove that every write position is
  // the current end.
  // ---------------------------------------------------------------------

  /** The inner loop of the count pass: the number of connections of local
      row `iLoc` that pass the filter. */
  method CountRow(A: LocalMatrix, R: Reordered, iLoc: int) returns (n: int)
    requires Wf(A, R) && 0 <= iLoc < |A.entryOffsets|
    ensures n == |Kept(A, R, iLoc, A.numConnections[iLoc])|
  {
    var jReord := R.mappedSources[iLoc];
    var rowOff := A.entryOffsets[iLoc];
    n := 0;
    for e := 0 to A.numConnections[iLoc]
      invariant n == |Kept(A, R, iLoc, e)|
    {
      var iReord := R.mappedTargets[R.colOffs[rowOff + e]];
      if iReord >= jReord {
        n := n + 1;
      }
    }
  }

  /** The rows `off .. off + size` requested by one rank: each row's length,
      and the rank's total. */
  method CountSegment(A: LocalMatrix, R: Reordered, sRows: seq<int>, off: int, size: int)
    returns (lengths: seq<int>, total: int)
    requires Wf(A, R) && AllLocal(A, sRows)
    requires 0 <= off && 0 <= size && off + size <= |sRows|
    ensures |lengths| == size
    ensures forall s :: 0 <= s < size ==> lengths[s] == |RowPayload(A, R, sRows[off + s])|
    ensures total == |PayloadRange(A, R, sRows, off, off + size)|
  {
    lengths := [];
    total := 0;
    for s := 0 to size
      invariant |lengths| == s
      invariant forall s' :: 0 <= s' < s ==> lengths[s'] == |RowPayload(A, R, sRows[off + s'])|
      invariant total == |PayloadRange(A, R, sRows, off, off + s)|
    {
      var i := sRows[s + off];
      var n := CountRow(A, R, i - A.firstLocalRow);
      lengths := lengths + [n];
      total := total + n;
    }
  }

  /** `sRowLengths` and `sEntriesSizes`: walk rank by rank over the requested
      rows and count the connections that pass the filter. */
  method CountPayload(A: LocalMatrix, R: Reordered, sRows: seq<int>, sRowSizes: seq<int>, sRowOffs: seq<int>)
    returns (sRowLengths: seq<int>, sEntriesSizes: seq<int>)
    requires Wf(A, R) && AllLocal(A, sRows)
    requires NonNegative(sRowSizes) && Chained(sRowSizes, sRowOffs, |sRows|)
    ensures |sRowLengths| == |sRows|
    ensures forall k {:trigger sRowLengths[k]} :: 0 <= k < |sRows| ==> sRowLengths[k] == |RowPayload(A, R, sRows[k])|
    ensures Segments(sRowSizes, sRowOffs, |sRows|)
    ensures SizesCounted(A, R, sRows, sRowSizes, sRowOffs, sEntriesSizes, |sRowSizes|)
  {
    var P := |sRowSizes|;
    ChainedSegments(sRowSizes, sRowOffs, |sRows|);
    sRowLengths := [];
    sEntriesSizes := [];
    for q := 0 to P
      invariant |sRowLengths| == SegmentStart(sRowOffs, |sRows|, q)
      invariant forall k {:trigger sRowLengths[k]} :: 0 <= k < |sRowLengths| ==> k < |sRows| && sRowLengths[k] == |RowPayload(A, R, sRows[k])|
      invariant SizesCounted(A, R, sRows, sRowSizes, sRowOffs, sEntriesSizes, q)
    {
      var size := sRowSizes[q];
      var off := sRowOffs[q];
      var lengths, total := CountSegment(A, R, sRows, off, size);
      RowLengthsAppend(A, R, sRows, sRowLengths, lengths, off);
      sRowLengths := sRowLengths + lengths;
      SizesCountedSnoc(A, R, sRows, sRowSizes, sRowOffs, sEntriesSizes, q, total);
      sEntriesSizes := sEntriesSizes + [total];
    }
  }

  lemma SizesCountedSnoc(A: LocalMatrix, R: Reordered, sRows: seq<int>, sRowSizes: seq<int>, sRowOffs: seq<int>,
                         sEntriesSizes: seq<int>, q: int, total: int)
    requires Wf(A, R) && AllLocal(A, sRows) && Segments(sRowSizes, sRowOffs, |sRows|)
    requires 0 <= q < |sRowSizes|
    requires SizesCounted(A, R, sRows, sRowSizes, sRowOffs, sEntriesSizes, q)
    requires total == |PayloadRange(A, R, sRows, sRowOffs[q], sRowOffs[q] + sRowSizes[q])|
    ensures SizesCounted(A, R, sRows, sRowSizes, sRowOffs, sEntriesSizes + [total], q + 1)
  {
    var sizes := sEntriesSizes + [total];
    forall q' | 0 <= q' < q + 1
      ensures sizes[q'] == |SegmentPayload(A, R, sRows, sRowSizes, sRowOffs, q')|
    {
      if q' < q {
        assert sizes[q'] == sEntriesSizes[q'];
      }
    }
  }

  lemma SegmentSize(A: LocalMatrix, R: Reordered, sRows: seq<int>, sRowSizes: seq<int>, sRowOffs: seq<int>,
                    sEntriesSizes: seq<int>, q: int)
    requires Wf(A, R) && AllLocal(A, sRows) && Segments(sRowSizes, sRowOffs, |sRows|)
    requires SizesCounted(A, R, sRows, sRowSizes, sRowOffs, sEntriesSizes, |sRowSizes|)
    requires 0 <= q < |sRowSizes|
    ensures sEntriesSizes[q] == |PayloadRange(A, R, sRows, sRowOffs[q], sRowOffs[q] + sRowSizes[q])|
  {
  }

  lemma RowLengthsAppend(A: LocalMatrix, R: Reordered, sRows: seq<int>, done: seq<int>, lengths: seq<int>, off: int)
    requires Wf(A, R) && AllLocal(A, sRows)
    requires off == |done| && off + |lengths| <= |sRows|
    requires forall k {:trigger done[k]} :: 0 <= k < |done| ==> k < |sRows| && done[k] == |RowPayload(A, R, sRows[k])|
    requires forall s :: 0 <= s < |lengths| ==> lengths[s] == |RowPayload(A, R, sRows[off + s])|
    ensures forall k {:trigger (done + lengths)[k]} :: 0 <= k < |done + lengths| ==> k < |sRows| && (done + lengths)[k] == |RowPayload(A, R, sRows[k])|
  {
    forall k | 0 <= k < |done + lengths|
      ensures k < |sRows| && (done + lengths)[k] == |RowPayload(A, R, sRows[k])|
    {
      if k >= off {
        assert (done + lengths)[k] == lengths[k - off];
      }
    }
  }

  // ---------------------------------------------------------------------
  // The packing pass.
  // ---------------------------------------------------------------------

  /** The inner loop of the packing pass: the value (conjugated on request) and
      the reordered target of every shipped connection of local row `iLoc`. */
  method PackRow(A: LocalMatrix, R: Reordered, conjugate: bool, iLoc: int)
    returns (entries: seq<Complex>, targets: seq<int>)
    requires Wf(A, R) && 0 <= iLoc < |A.entryOffsets|
    ensures entries == Values(A, conjugate, Kept(A, R, iLoc, A.numConnections[iLoc]))
    ensures targets == Targets(A, R, Kept(A, R, iLoc, A.numConnections[iLoc]))
  {
    var jReord := R.mappedSources[iLoc];
    var rowOff := A.entryOffsets[iLoc];
    entries, targets := [], [];
    for e := 0 to A.numConnections[iLoc]
      invariant entries == Values(A, conjugate, Kept(A, R, iLoc, e))
      invariant targets == Targets(A, R, Kept(A, R, iLoc, e))
    {
      var iReord := R.mappedTargets[R.colOffs[rowOff + e]];
      var kept := Kept(A, R, iLoc, e);
      if iReord >= jReord {
        var value := A.values[rowOff + e];
        ValuesAppend(A, R, conjugate, kept, [rowOff + e]);
        entries := entries + [if conjugate then Conj(value) else value];
        targets := targets + [iReord];
        assert Kept(A, R, iLoc, e + 1) == kept + [rowOff + e];
      } else {
        assert Kept(A, R, iLoc, e + 1) == kept + [];
      }
    }
  }

  /** The rows `off .. off + size` requested by one rank, row after row. */
  method PackSegment(A: LocalMatrix, R: Reordered, conjugate: bool, sRows: seq<int>, off: int, size: int)
    returns (entries: seq<Complex>, targets: seq<int>)
    requires Wf(A, R) && AllLocal(A, sRows)
    requires 0 <= off && 0 <= size && off + size <= |sRows|
    ensures entries == Values(A, conjugate, PayloadRange(A, R, sRows, off, off + size))
    ensures targets == Targets(A, R, PayloadRange(A, R, sRows, off, off + size))
  {
    entries, targets := [], [];
    for s := 0 to size
      invariant entries == Values(A, conjugate, PayloadRange(A, R, sRows, off, off + s))
      invariant targets == Targets(A, R, PayloadRange(A, R, sRows, off, off + s))
    {
      var i := sRows[s + off];
      var es, ts := PackRow(A, R, conjugate, i - A.firstLocalRow);
      ValuesAppend(A, R, conjugate, PayloadRange(A, R, sRows, off, off + s), RowPayload(A, R, i));
      entries, targets := entries + es, targets + ts;
    }
  }

  /** The packing pass: rank by rank, write the shipped values and targets at
      the rank's running `index`, then compare `index` with the end of the
      rank's segment.  `ok` is false exactly when that comparison would
      raise the logic error. */
  method PackPayload(A: LocalMatrix, R: Reordered, conjugate: bool, sRows: seq<int>, sRowSizes: seq<int>, sRowOffs: seq<int>,
                     sEntriesSizes: seq<int>, sEntriesOffs: seq<int>, numSendEntries: int)
    returns (sEntries: seq<Complex>, sTargets: seq<int>, ok: bool)
    requires Wf(A, R) && AllLocal(A, sRows)
    requires NonNegative(sRowSizes) && Chained(sRowSizes, sRowOffs, |sRows|)
    requires Segments(sRowSizes, sRowOffs, |sRows|)
    requires SizesCounted(A, R, sRows, sRowSizes, sRowOffs, sEntriesSizes, |sRowSizes|)
    requires Chained(sEntriesSizes, sEntriesOffs, numSendEntries)
    ensures ok
    ensures |sEntries| == numSendEntries
    ensures sEntries == Values(A, conjugate, Payload(A, R, sRows))
    ensures sTargets == Targets(A, R, Payload(A, R, sRows))
  {
    var P := |sRowSizes|;
    sEntries, sTargets := [], [];
    ok := true;
    ghost var rowsDone := 0;
    for q := 0 to P
      invariant ok
      invariant rowsDone == SegmentStart(sRowOffs, |sRows|, q)
      invariant |sEntries| == SegmentStart(sEntriesOffs, numSendEntries, q)
      invariant 0 <= rowsDone <= |sRows|
      invariant sEntries == Values(A, conjugate, PayloadRange(A, R, sRows, 0, rowsDone))
      invariant sTargets == Targets(A, R, PayloadRange(A, R, sRows, 0, rowsDone))
    {
      var index := sEntriesOffs[q];
      var size := sRowSizes[q];
      var off := sRowOffs[q];
      var es, ts := PackSegment(A, R, conjugate, sRows, off, size);
      SegmentSize(A, R, sRows, sRowSizes, sRowOffs, sEntriesSizes, q);
      PackExtend(A, R, conjugate, sRows, off, off + size, sEntries, sTargets, es, ts);
      sEntries, sTargets := sEntries + es, sTargets + ts;
      rowsDone := off + size;
      index := index + |es|;
      if index != sEntriesOffs[q] + sEntriesSizes[q] {
        ok := false;
      }
    }
  }

  /** Packing the rows `lo .. hi` after the rows `0 .. lo` packs the rows
      `0 .. hi`. */
  lemma PackExtend(A: LocalMatrix, R: Reordered, conjugate: bool, sRows: seq<int>, lo: int, hi: int,
                   done: seq<Complex>, doneTargets: seq<int>, es: seq<Complex>, ts: seq<int>)
    requires Wf(A, R) && AllLocal(A, sRows) && 0 <= lo <= hi <= |sRows|
    requires done == Values(A, conjugate, PayloadRange(A, R, sRows, 0, lo))
    requires doneTargets == Targets(A, R, PayloadRange(A, R, sRows, 0, lo))
    requires es == Values(A, conjugate, PayloadRange(A, R, sRows, lo, hi))
    requires ts == Targets(A, R, PayloadRange(A, R, sRows, lo, hi))
    ensures done + es == Values(A, conjugate, PayloadRange(A, R, sRows, 0, hi))
    ensures doneTargets + ts == Targets(A, R, PayloadRange(A, R, sRows, 0, hi))
  {
    PayloadSplit(A, R, sRows, 0, lo, hi);
    ValuesAppend(A, R, conjugate, PayloadRange(A, R, sRows, 0, lo), PayloadRange(A, R, sRows, lo, hi));
  }
}
