/** The two-pass "count, prefix-sum, pack with a per-rank cursor" pattern that
    every exchange of the multifrontal code is built from (row requests, the
    filtered payload, Unpack).

    A walk is abstracted as the sequence of items it visits, each tagged with
    the rank it is routed to.  The count pass is `Tally`, the exclusive prefix
    sum is `Scan` and the packing pass is `Place`, which writes every item at its
    rank's cursor and advances the cursor.  The reference for both passes is
    `Bucket`: the items routed to one rank, in visiting order. */
module Buckets {
  import opened SeqMath

  datatype Routed<T> = Routed(rank: int, item: T)

  predicate RanksIn<T>(xs: seq<Routed<T>>, P: nat)
  {
    forall k :: 0 <= k < |xs| ==> 0 <= xs[k].rank < P
  }

  /** The items routed to rank `q`, in the order they are visited. */
  function Bucket<T>(xs: seq<Routed<T>>, q: int): seq<T>
  {
    if |xs| == 0 then []
    else Bucket(xs[..|xs| - 1], q) + (if xs[|xs| - 1].rank == q then [xs[|xs| - 1].item] else [])
  }

  /** The count pass: `++sizes[rank]` for every visited item. */
  function Tally<T>(xs: seq<Routed<T>>, sizes: seq<int>): (r: seq<int>)
    requires RanksIn(xs, |sizes|)
    ensures |r| == |sizes|
    ensures forall q {:trigger Bucket(xs, q)} :: 0 <= q < |sizes| ==> r[q] == sizes[q] + |Bucket(xs, q)|
  {
    if |xs| == 0 then sizes
    else
      var r := Tally(xs[..|xs| - 1], sizes);
      var q := xs[|xs| - 1].rank;
      r[q := r[q] + 1]
  }

  /** Counting from zero gives each rank's bucket size. */
  lemma TallyFromZero<T>(xs: seq<Routed<T>>, P: nat)
    requires RanksIn(xs, P)
    ensures |Tally(xs, Zeros(P))| == P
    ensures forall q :: 0 <= q < P ==> Tally(xs, Zeros(P))[q] == |Bucket(xs, q)|
  {
  }

  /** Exclusive prefix sum: the offsets of each rank's segment, and the total. */
  function Scan(sizes: seq<int>): (r: (seq<int>, int))
    ensures |r.0| == |sizes|
    ensures r.1 == Sum(sizes)
  {
    if |sizes| == 0 then ([], 0)
    else
      var (offs, total) := Scan(sizes[..|sizes| - 1]);
      (offs + [total], total + sizes[|sizes| - 1])
  }

  /** The packing pass: `buf[offs[rank]++] = item` for every visited item. */
  function Place<T>(xs: seq<Routed<T>>, offs: seq<int>, buf: map<int, T>): (r: (seq<int>, map<int, T>))
    requires RanksIn(xs, |offs|)
    ensures |r.0| == |offs|
    ensures forall q :: 0 <= q < |offs| ==> r.0[q] == offs[q] + |Bucket(xs, q)|
  {
    if |xs| == 0 then (offs, buf)
    else
      var (cur, b) := Place(xs[..|xs| - 1], offs, buf);
      var x := xs[|xs| - 1];
      (cur[x.rank := cur[x.rank] + 1], b[cur[x.rank] := x.item])
  }

  /** Slot `k` of the buffer holds `v`. */
  ghost predicate Stores<T>(buf: map<int, T>, k: int, v: T)
  {
    k in buf && buf[k] == v
  }

  /** Rank segments `[offs[q], offs[q] + |Bucket(xs, q)|)` do not overlap. */
  predicate Disjoint<T>(xs: seq<Routed<T>>, offs: seq<int>)
  {
    forall q, q' :: 0 <= q < q' < |offs| ==> offs[q] + |Bucket(xs, q)| <= offs[q']
  }

  /** Position `k` lies inside the segment of some rank. */
  predicate InSomeSegment<T>(xs: seq<Routed<T>>, offs: seq<int>, k: int)
  {
    exists q :: 0 <= q < |offs| && offs[q] <= k < offs[q] + |Bucket(xs, q)|
  }

  lemma {:induction false} BucketOfEmpty<T>(q: int)
    ensures Bucket<T>([], q) == []
  {
  }

  lemma BucketConcat<T>(xs: seq<Routed<T>>, ys: seq<Routed<T>>, q: int)
    ensures Bucket(xs + ys, q) == Bucket(xs, q) + Bucket(ys, q)
    decreases |ys|
  {
    if |ys| == 0 {
      assert xs + ys == xs;
    } else {
      assert (xs + ys)[..|xs + ys| - 1] == xs + ys[..|ys| - 1];
      BucketConcat(xs, ys[..|ys| - 1], q);
    }
  }

  /** A rank's bucket holds exactly the items routed to it: each of its
      entries comes from a visited item with that rank, and each visited item
      lands in its rank's bucket. */
  lemma {:induction false} BucketMembers<T>(xs: seq<Routed<T>>, q: int)
    ensures forall k :: 0 <= k < |Bucket(xs, q)| ==> Routed(q, Bucket(xs, q)[k]) in xs
    ensures forall x :: x in xs && x.rank == q ==> x.item in Bucket(xs, q)
    decreases |xs|
  {
    if |xs| > 0 {
      var init := xs[..|xs| - 1];
      BucketMembers(init, q);
      assert xs == init + [xs[|xs| - 1]];
    }
  }

  /** Every slot of every rank's segment holds that rank's bucket, in order:
      the packing pass writes each item at its rank's cursor, and the cursors of
      different ranks never meet. */
  lemma PlaceFillsSegments<T>(xs: seq<Routed<T>>, offs: seq<int>, buf: map<int, T>)
    requires RanksIn(xs, |offs|)
    requires Disjoint(xs, offs)
    ensures forall q, k :: 0 <= q < |offs| && 0 <= k < |Bucket(xs, q)| ==>
              Stores(Place(xs, offs, buf).1, offs[q] + k, Bucket(xs, q)[k])
  {
    forall q, k | 0 <= q < |offs| && 0 <= k < |Bucket(xs, q)|
      ensures Stores(Place(xs, offs, buf).1, offs[q] + k, Bucket(xs, q)[k])
    {
      PlaceSlot(xs, offs, buf, q, k);
    }
  }

  /** Slot `k` of rank `q`'s segment holds the `k`-th item routed to `q`. */
  lemma {:induction false} PlaceSlot<T>(xs: seq<Routed<T>>, offs: seq<int>, buf: map<int, T>, q: int, k: int)
    requires RanksIn(xs, |offs|)
    requires Disjoint(xs, offs)
    requires 0 <= q < |offs| && 0 <= k < |Bucket(xs, q)|
    ensures offs[q] + k in Place(xs, offs, buf).1
    ensures Place(xs, offs, buf).1[offs[q] + k] == Bucket(xs, q)[k]
    decreases |xs|
  {
    var ys := xs[..|xs| - 1];
    var x := xs[|xs| - 1];
    var r := x.rank;
    assert RanksIn(ys, |offs|);
    var pos := Place(ys, offs, buf).0[r];
    assert pos == offs[r] + |Bucket(ys, r)|;
    assert Place(xs, offs, buf).1 == Place(ys, offs, buf).1[pos := x.item];
    if q == r && k == |Bucket(ys, r)| {
      assert Bucket(xs, q)[k] == x.item;
    } else {
      assert forall q' :: 0 <= q' < |offs| ==> |Bucket(ys, q')| <= |Bucket(xs, q')|;
      assert Disjoint(ys, offs);
      assert k < |Bucket(ys, q)|;
      assert Bucket(xs, q)[k] == Bucket(ys, q)[k];
      PlaceSlot(ys, offs, buf, q, k);
      SlotAvoidsCursor(xs, offs, q, r, k, |Bucket(ys, q)|, |Bucket(ys, r)|);
    }
  }

  /** The packing pass writes nothing outside the rank segments. */
  lemma {:induction false} PlaceKeys<T>(xs: seq<Routed<T>>, offs: seq<int>, buf: map<int, T>)
    requires RanksIn(xs, |offs|)
    ensures forall k :: k in Place(xs, offs, buf).1 ==> k in buf || InSomeSegment(xs, offs, k)
    decreases |xs|
  {
    if |xs| > 0 {
      var ys := xs[..|xs| - 1];
      var r := xs[|xs| - 1].rank;
      assert RanksIn(ys, |offs|);
      PlaceKeys(ys, offs, buf);
      var pos := Place(ys, offs, buf).0[r];
      forall k | k in Place(xs, offs, buf).1
        ensures k in buf || InSomeSegment(xs, offs, k)
      {
        if k == pos {
          assert offs[r] <= k < offs[r] + |Bucket(xs, r)|;
        } else if !(k in buf) {
          assert InSomeSegment(ys, offs, k);
          var q :| 0 <= q < |offs| && offs[q] <= k < offs[q] + |Bucket(ys, q)|;
          assert offs[q] <= k < offs[q] + |Bucket(xs, q)|;
        }
      }
    }
  }

  /** A slot already written for rank `q` is never the cursor of rank `r`. */
  lemma SlotAvoidsCursor<T>(xs: seq<Routed<T>>, offs: seq<int>, q: int, r: int, k: int, bq: int, br: int)
    requires Disjoint(xs, offs)
    requires 0 <= q < |offs| && 0 <= r < |offs|
    requires 0 <= k < bq <= |Bucket(xs, q)|
    requires 0 <= br < |Bucket(xs, r)|
    requires q == r ==> bq == br
    ensures offs[q] + k != offs[r] + br
  {
    if q < r {
      assert offs[q] + |Bucket(xs, q)| <= offs[r];
    } else if q > r {
      assert offs[r] + |Bucket(xs, r)| <= offs[q];
    }
  }

  /** Counts are never negative. */
  lemma TallyNonNegative<T>(xs: seq<Routed<T>>, P: nat)
    requires RanksIn(xs, P)
    ensures NonNegative(Tally(xs, Zeros(P)))
  {
    var sizes := Tally(xs, Zeros(P));
    forall q | 0 <= q < |sizes|
      ensures sizes[q] >= 0
    {
      assert sizes[q] == Zeros(P)[q] + |Bucket(xs, q)|;
    }
  }

  /** Scan offsets leave room for every segment when the sizes are the tallies. */
  lemma ScanDisjoint<T>(xs: seq<Routed<T>>, P: nat)
    requires RanksIn(xs, P)
    ensures Disjoint(xs, Scan(Tally(xs, Zeros(P))).0)
  {
    var sizes := Tally(xs, Zeros(P));
    var (offs, total) := Scan(sizes);
    TallyNonNegative(xs, P);
    ScanChained(sizes);
    forall q, q' | 0 <= q < q' < P
      ensures offs[q] + |Bucket(xs, q)| <= offs[q']
    {
      assert offs[q] + sizes[q] == SegmentStart(offs, total, q + 1);
      ChainedMonotone(sizes, offs, total, q + 1, q');
    }
  }

  /** Every position below the total lies in the segment the scan gives it. */
  lemma ScanCovers(sizes: seq<int>, k: int)
    requires NonNegative(sizes)
    requires 0 <= k < Scan(sizes).1
    ensures exists q :: 0 <= q < |sizes| && Scan(sizes).0[q] <= k < Scan(sizes).0[q] + sizes[q]
  {
    ScanChained(sizes);
    ChainedCovers(sizes, Scan(sizes).0, Scan(sizes).1, k);
  }

  lemma {:induction false} ChainedCovers(sizes: seq<int>, offs: seq<int>, total: int, k: int)
    requires NonNegative(sizes) && Chained(sizes, offs, total)
    requires 0 <= k < total
    ensures exists q :: 0 <= q < |sizes| && offs[q] <= k < offs[q] + sizes[q]
    decreases |sizes|
  {
    var n := |sizes|;
    if n == 0 {
      assert false;
    } else if offs[n - 1] <= k {
      assert offs[n - 1] + sizes[n - 1] == SegmentStart(offs, total, n);
    } else {
      ChainedPrefix(sizes, offs, total);
      assert NonNegative(sizes[..n - 1]);
      ChainedCovers(sizes[..n - 1], offs[..n - 1], offs[n - 1], k);
      var q :| 0 <= q < n - 1 && offs[..n - 1][q] <= k < offs[..n - 1][q] + sizes[..n - 1][q];
      assert offs[q] <= k < offs[q] + sizes[q];
    }
  }

  lemma {:induction false} SumTally<T>(xs: seq<Routed<T>>, sizes: seq<int>)
    requires RanksIn(xs, |sizes|)
    ensures Sum(Tally(xs, sizes)) == Sum(sizes) + |xs|
    decreases |xs|
  {
    if |xs| > 0 {
      var ys := xs[..|xs| - 1];
      assert RanksIn(ys, |sizes|);
      var t := Tally(ys, sizes);
      var q := xs[|xs| - 1].rank;
      assert Tally(xs, sizes) == t[q := t[q] + 1];
      SumTally(ys, sizes);
      SumIncrement(t, q, 1);
    }
  }

  /** The whole pattern, for one walk visiting `xs` over `P` ranks: count
      (`sizes`), scan (`offs`, `total`), then pack from the scanned offsets
      (`ends`, `buf`).  The cursors land exactly on `offs[q] + sizes[q]`,
      segment `q` of the buffer holds rank `q`'s items in visiting order, and
      the buffer is filled exactly on `[0, total)`, with `total` the number of
      visited items. */
  lemma CountScanPack<T>(xs: seq<Routed<T>>, P: nat, sizes: seq<int>, offs: seq<int>, total: int,
                         ends: seq<int>, buf: map<int, T>)
    requires RanksIn(xs, P)
    requires sizes == Tally(xs, Zeros(P))
    requires (offs, total) == Scan(sizes)
    requires (ends, buf) == Place(xs, offs, map[])
    ensures |sizes| == P && |offs| == P && |ends| == P
    ensures forall q :: 0 <= q < P ==> sizes[q] == |Bucket(xs, q)|
    ensures forall q :: 0 <= q < P ==> ends[q] == offs[q] + sizes[q]
    ensures forall q, k :: 0 <= q < P && 0 <= k < sizes[q] ==> Stores(buf, offs[q] + k, Bucket(xs, q)[k])
    ensures total == |xs|
    ensures forall k :: k in buf <==> 0 <= k < total
  {
    PackedSegments(xs, P, sizes, offs, total, ends, buf);
    PackedKeys(xs, P, sizes, offs, total, ends, buf);
  }

  lemma PackedSegments<T>(xs: seq<Routed<T>>, P: nat, sizes: seq<int>, offs: seq<int>, total: int,
                          ends: seq<int>, buf: map<int, T>)
    requires RanksIn(xs, P)
    requires sizes == Tally(xs, Zeros(P))
    requires (offs, total) == Scan(sizes)
    requires (ends, buf) == Place(xs, offs, map[])
    ensures forall q, k :: 0 <= q < P && 0 <= k < sizes[q] ==> Stores(buf, offs[q] + k, Bucket(xs, q)[k])
  {
    ScanDisjoint(xs, P);
    PlaceFillsSegments(xs, offs, map[]);
  }

  lemma PackedKeys<T>(xs: seq<Routed<T>>, P: nat, sizes: seq<int>, offs: seq<int>, total: int,
                      ends: seq<int>, buf: map<int, T>)
    requires RanksIn(xs, P)
    requires sizes == Tally(xs, Zeros(P))
    requires (offs, total) == Scan(sizes)
    requires (ends, buf) == Place(xs, offs, map[])
    ensures total == |xs|
    ensures forall k :: k in buf <==> 0 <= k < total
  {
    SumTally(xs, Zeros(P));
    SumZeros(P);
    forall k
      ensures k in buf <==> 0 <= k < total
    {
      if 0 <= k < total {
        PackedKeyWritten(xs, P, sizes, offs, total, ends, buf, k);
      }
      if k in buf {
        PackedKeyInRange(xs, P, sizes, offs, total, ends, buf, k);
      }
    }
  }

  lemma PackedKeyWritten<T>(xs: seq<Routed<T>>, P: nat, sizes: seq<int>, offs: seq<int>, total: int,
                            ends: seq<int>, buf: map<int, T>, k: int)
    requires RanksIn(xs, P)
    requires sizes == Tally(xs, Zeros(P))
    requires (offs, total) == Scan(sizes)
    requires (ends, buf) == Place(xs, offs, map[])
    requires 0 <= k < total
    ensures k in buf
  {
    TallyNonNegative(xs, P);
    ScanCovers(sizes, k);
    var q :| 0 <= q < P && offs[q] <= k < offs[q] + sizes[q];
    PackedSegments(xs, P, sizes, offs, total, ends, buf);
    assert Stores(buf, offs[q] + (k - offs[q]), Bucket(xs, q)[k - offs[q]]);
  }

  lemma PackedKeyInRange<T>(xs: seq<Routed<T>>, P: nat, sizes: seq<int>, offs: seq<int>, total: int,
                            ends: seq<int>, buf: map<int, T>, k: int)
    requires RanksIn(xs, P)
    requires sizes == Tally(xs, Zeros(P))
    requires (offs, total) == Scan(sizes)
    requires (ends, buf) == Place(xs, offs, map[])
    requires k in buf
    ensures 0 <= k < total
  {
    TallyNonNegative(xs, P);
    PlaceKeys(xs, offs, map[]);
    assert InSomeSegment(xs, offs, k);
    var q :| 0 <= q < P && offs[q] <= k < offs[q] + |Bucket(xs, q)|;
    SegmentBelowTotal(sizes, q);
  }

  /** Each scanned segment ends at or before the total. */
  lemma SegmentBelowTotal(sizes: seq<int>, q: nat)
    requires NonNegative(sizes)
    requires q < |sizes|
    ensures 0 <= Scan(sizes).0[q] && Scan(sizes).0[q] + sizes[q] <= Scan(sizes).1
  {
    ScanChained(sizes);
    ChainedSegments(sizes, Scan(sizes).0, Scan(sizes).1);
  }

  /** Where segment `q` starts: `offs[q]`, or the total past the last rank. */
  function SegmentStart(offs: seq<int>, total: int, q: int): int
  {
    if 0 <= q < |offs| then offs[q] else total
  }

  /** Scanned segments follow one another: segment `q` ends where segment
      `q + 1` starts, and the last one ends at the total. */
  lemma ScanStep(sizes: seq<int>, q: nat)
    requires NonNegative(sizes)
    requires q < |sizes|
    ensures 0 <= Scan(sizes).0[q]
    ensures Scan(sizes).0[q] + sizes[q] == SegmentStart(Scan(sizes).0, Scan(sizes).1, q + 1) <= Scan(sizes).1
  {
    ScanChained(sizes);
    SegmentBelowTotal(sizes, q);
  }

  lemma ScanStart(sizes: seq<int>)
    ensures SegmentStart(Scan(sizes).0, Scan(sizes).1, 0) == 0
  {
    ScanChained(sizes);
  }

  /** The exclusive scan described locally: the first segment starts at 0
      and each segment ends where the next one starts (the last one at the
      total). */
  predicate Chained(sizes: seq<int>, offs: seq<int>, total: int)
  {
    |offs| == |sizes| && SegmentStart(offs, total, 0) == 0 &&
    forall q {:trigger sizes[q]} :: 0 <= q < |sizes| ==> offs[q] + sizes[q] == SegmentStart(offs, total, q + 1)
  }

  /** The requested rows (or entries) split into consecutive per-rank
      segments inside `[0, n)`. */
  predicate Segments(sizes: seq<int>, offs: seq<int>, n: int)
  {
    |offs| == |sizes| &&
    forall q :: 0 <= q < |sizes| ==> 0 <= offs[q] && 0 <= sizes[q] && offs[q] + sizes[q] <= n
  }

  /** The scan is chained. */
  lemma {:induction false} ScanChained(sizes: seq<int>)
    ensures Chained(sizes, Scan(sizes).0, Scan(sizes).1)
    decreases |sizes|
  {
    var n := |sizes|;
    if n > 0 {
      var pre := sizes[..n - 1];
      ScanChained(pre);
      var (offs, t) := Scan(pre);
      var (offs1, t1) := Scan(sizes);
      assert offs1 == offs + [t] && t1 == t + sizes[n - 1];
      forall q | 0 <= q < n
        ensures offs1[q] + sizes[q] == SegmentStart(offs1, t1, q + 1)
      {
        if q < n - 1 {
          assert offs[q] + pre[q] == SegmentStart(offs, t, q + 1);
        }
      }
      if n == 1 {
        assert SegmentStart(offs, t, 0) == t;
      } else {
        assert SegmentStart(offs, t, 0) == offs[0];
      }
    }
  }

  /** Dropping the last segment leaves a chain ending where it started. */
  lemma ChainedPrefix(sizes: seq<int>, offs: seq<int>, total: int)
    requires Chained(sizes, offs, total) && |sizes| > 0
    ensures Chained(sizes[..|sizes| - 1], offs[..|sizes| - 1], offs[|sizes| - 1])
  {
    var n := |sizes|;
    var pre, offs', last := sizes[..n - 1], offs[..n - 1], offs[n - 1];
    forall q | 0 <= q < n - 1
      ensures offs'[q] + pre[q] == SegmentStart(offs', last, q + 1)
    {
      assert offs[q] + sizes[q] == SegmentStart(offs, total, q + 1);
    }
  }

  /** The local description determines the offsets: it is the scan. */
  lemma {:induction false} ChainedScan(sizes: seq<int>, offs: seq<int>, total: int)
    requires Chained(sizes, offs, total)
    ensures (offs, total) == Scan(sizes)
    decreases |sizes|
  {
    var n := |sizes|;
    if n > 0 {
      ChainedPrefix(sizes, offs, total);
      ChainedScan(sizes[..n - 1], offs[..n - 1], offs[n - 1]);
      assert offs == offs[..n - 1] + [offs[n - 1]];
      assert offs[n - 1] + sizes[n - 1] == SegmentStart(offs, total, n);
    }
  }

  /** With nonnegative sizes, segment starts never decrease. */
  lemma {:induction false} ChainedMonotone(sizes: seq<int>, offs: seq<int>, total: int, q: int, r: int)
    requires NonNegative(sizes) && Chained(sizes, offs, total)
    requires 0 <= q <= r <= |sizes|
    ensures SegmentStart(offs, total, q) <= SegmentStart(offs, total, r)
    decreases r - q
  {
    if q < r {
      ChainedMonotone(sizes, offs, total, q + 1, r);
      assert offs[q] + sizes[q] == SegmentStart(offs, total, q + 1);
    }
  }

  /** With nonnegative sizes the chained segments lie inside `[0, total)`. */
  lemma ChainedSegments(sizes: seq<int>, offs: seq<int>, total: int)
    requires NonNegative(sizes) && Chained(sizes, offs, total)
    ensures Segments(sizes, offs, total)
  {
    forall q | 0 <= q < |sizes|
      ensures 0 <= offs[q] && offs[q] + sizes[q] <= total
    {
      ChainedMonotone(sizes, offs, total, 0, q);
      ChainedMonotone(sizes, offs, total, q + 1, |sizes|);
      assert offs[q] + sizes[q] == SegmentStart(offs, total, q + 1);
    }
  }

  lemma RanksInAppend<T>(xs: seq<Routed<T>>, ys: seq<Routed<T>>, P: nat)
    ensures RanksIn(xs + ys, P) <==> RanksIn(xs, P) && RanksIn(ys, P)
  {
    if RanksIn(xs, P) && RanksIn(ys, P) {
      forall k | 0 <= k < |xs + ys|
        ensures 0 <= (xs + ys)[k].rank < P
      {
        if k >= |xs| {
          assert (xs + ys)[k] == ys[k - |xs|];
        }
      }
    }
    if RanksIn(xs + ys, P) {
      forall k | 0 <= k < |xs|
        ensures 0 <= xs[k].rank < P
      {
        assert (xs + ys)[k] == xs[k];
      }
      forall k | 0 <= k < |ys|
        ensures 0 <= ys[k].rank < P
      {
        assert (xs + ys)[|xs| + k] == ys[k];
      }
    }
  }

  /** Counting a walk in two pieces is counting it at once: the count pass
      of a tree is the count of its first subtree continued over the rest. */
  lemma TallyAppend<T>(xs: seq<Routed<T>>, ys: seq<Routed<T>>, sizes: seq<int>)
    requires RanksIn(xs, |sizes|) && RanksIn(ys, |sizes|)
    ensures RanksIn(xs + ys, |sizes|)
    ensures Tally(xs + ys, sizes) == Tally(ys, Tally(xs, sizes))
  {
    RanksInAppend(xs, ys, |sizes|);
    forall q | 0 <= q < |sizes|
      ensures Tally(xs + ys, sizes)[q] == Tally(ys, Tally(xs, sizes))[q]
    {
      BucketConcat(xs, ys, q);
    }
  }

  /** Packing a walk in two pieces is packing it at once, the second piece
      starting from the cursors and buffer the first leaves behind. */
  lemma PlaceAppend<T>(xs: seq<Routed<T>>, ys: seq<Routed<T>>, offs: seq<int>, buf: map<int, T>)
    requires RanksIn(xs, |offs|) && RanksIn(ys, |offs|)
    ensures RanksIn(xs + ys, |offs|)
    ensures Place(xs + ys, offs, buf) == Place(ys, Place(xs, offs, buf).0, Place(xs, offs, buf).1)
  {
    RanksInAppend(xs, ys, |offs|);
    forall q | 0 <= q < |offs|
      ensures Place(xs + ys, offs, buf).0[q] == Place(ys, Place(xs, offs, buf).0, Place(xs, offs, buf).1).0[q]
    {
      BucketConcat(xs, ys, q);
    }
    assert Place(xs + ys, offs, buf).0 == Place(ys, Place(xs, offs, buf).0, Place(xs, offs, buf).1).0;
    PlaceAppendBuffer(xs, ys, offs, buf);
  }

  lemma {:induction false} PlaceAppendBuffer<T>(xs: seq<Routed<T>>, ys: seq<Routed<T>>, offs: seq<int>, buf: map<int, T>)
    requires RanksIn(xs, |offs|) && RanksIn(ys, |offs|) && RanksIn(xs + ys, |offs|)
    ensures Place(xs + ys, offs, buf).1 == Place(ys, Place(xs, offs, buf).0, Place(xs, offs, buf).1).1
    decreases |ys|
  {
    if |ys| == 0 {
      assert xs + ys == xs;
    } else {
      var ys', y := ys[..|ys| - 1], ys[|ys| - 1];
      var zs := xs + ys;
      assert zs[..|zs| - 1] == xs + ys';
      assert zs[|zs| - 1] == y;
      assert RanksIn(ys', |offs|);
      RanksInAppend(xs, ys', |offs|);
      PlaceAppendBuffer(xs, ys', offs, buf);
      var mid := Place(xs, offs, buf);
      var left := Place(xs + ys', offs, buf);
      var right := Place(ys', mid.0, mid.1);
      assert left.0[y.rank] == right.0[y.rank] by {
        BucketConcat(xs, ys', y.rank);
      }
      PlaceLast(zs, offs, buf);
      PlaceLast(ys, mid.0, mid.1);
    }
  }

  /** One step of the packing pass: the last item goes to its rank's cursor. */
  lemma PlaceLast<T>(xs: seq<Routed<T>>, offs: seq<int>, buf: map<int, T>)
    requires RanksIn(xs, |offs|) && |xs| > 0
    ensures RanksIn(xs[..|xs| - 1], |offs|)
    ensures var p := Place(xs[..|xs| - 1], offs, buf); var x := xs[|xs| - 1];
      Place(xs, offs, buf) == (p.0[x.rank := p.0[x.rank] + 1], p.1[p.0[x.rank] := x.item])
  {
    assert RanksIn(xs[..|xs| - 1], |offs|);
  }

  /** Counting a run of items all routed to rank `q` bumps `q` by the
      length of the run and leaves the other ranks alone. */
  lemma {:induction false} TallyOneRank<T>(xs: seq<Routed<T>>, q: int, sizes: seq<int>)
    requires 0 <= q < |sizes|
    requires forall k :: 0 <= k < |xs| ==> xs[k].rank == q
    ensures RanksIn(xs, |sizes|)
    ensures Tally(xs, sizes) == sizes[q := sizes[q] + |xs|]
    decreases |xs|
  {
    if |xs| > 0 {
      var ys := xs[..|xs| - 1];
      TallyOneRank(ys, q, sizes);
    }
  }

  /** Continuing a count over a run of `m` items all routed to `q` bumps
      `q` by `m`: if `counted` is the count of `xs`, then `bumped` is the
      count of `xs + run`. */
  lemma TallyAppendRun<T>(whole: seq<Routed<T>>, xs: seq<Routed<T>>, run: seq<Routed<T>>, q: int, m: int,
                          sizes: seq<int>, counted: seq<int>, bumped: seq<int>)
    requires whole == xs + run && |run| == m
    requires RanksIn(xs, |sizes|) && 0 <= q < |sizes|
    requires forall k :: 0 <= k < |run| ==> run[k].rank == q
    requires counted == Tally(xs, sizes) && bumped == counted[q := counted[q] + m]
    ensures RanksIn(whole, |sizes|)
    ensures bumped == Tally(whole, sizes)
  {
    TallyOneRank(run, q, sizes);
    TallyAppend(xs, run, sizes);
    assert Tally(xs + run, sizes) == Tally(run, counted);
    TallyOneRank(run, q, counted);
    assert Tally(run, counted) == counted[q := counted[q] + |run|];
  }

  /** Counting one item bumps its rank. */
  lemma TallyOne<T>(x: Routed<T>, sizes: seq<int>)
    requires 0 <= x.rank < |sizes|
    ensures RanksIn([x], |sizes|)
    ensures Tally([x], sizes) == sizes[x.rank := sizes[x.rank] + 1]
  {
    assert [x][..0] == [];
  }

  /** Packing one item writes it at its rank's cursor and advances that cursor. */
  lemma PlaceOne<T>(x: Routed<T>, offs: seq<int>, buf: map<int, T>)
    requires 0 <= x.rank < |offs|
    ensures RanksIn([x], |offs|)
    ensures Place([x], offs, buf) == (offs[x.rank := offs[x.rank] + 1], buf[offs[x.rank] := x.item])
  {
    assert [x][..0] == [];
  }
}
