/** Column de-duplication at the start of `Pull`: the targets (column
    indices) of the process's local entries are tagged with their entry
    number, sorted by value, and compacted in place to one record per
    distinct column, while `colOffs[e]` records which unique column local
    entry `e` refers to.  The reordering's `Translate` then maps every unique
    column once, and the payload reads `mappedTargets[colOffs[e]]`. */
module ColumnDedup {
  import opened Payload

  /** `ValueInt<Int>`: a column index and the local entry it came from. */
  datatype ValueInt = ValueInt(value: int, index: int)

  /** `uniqueCols[e] = {colBuffer[e], e}`, before the sort. */
  function Tagged(colBuffer: seq<int>): (r: seq<ValueInt>)
    ensures |r| == |colBuffer|
    ensures forall e :: 0 <= e < |r| ==> r[e] == ValueInt(colBuffer[e], e)
  {
    seq(|colBuffer|, e requires 0 <= e < |colBuffer| => ValueInt(colBuffer[e], e))
  }

  /** Ordered by `ValueInt<Int>::Lesser`, which compares values only. */
  predicate SortedByValue(s: seq<ValueInt>)
  {
    forall i, j :: 0 <= i < j < |s| ==> s[i].value <= s[j].value
  }

  /** What `std::sort` leaves behind: a reordering of the tagged entries,
      sorted by value.  Entries with equal values may come in any order. */
  predicate SortOf(s: seq<ValueInt>, colBuffer: seq<int>)
  {
    multiset(s) == multiset(Tagged(colBuffer)) && SortedByValue(s)
  }

  /** The values of a sequence of records, as a set. */
  function ValueSet(s: seq<ValueInt>): set<int>
  {
    set k | 0 <= k < |s| :: s[k].value
  }

  /** The distinct column indices the local entries touch. */
  function Columns(colBuffer: seq<int>): set<int>
  {
    set e | 0 <= e < |colBuffer| :: colBuffer[e]
  }

  predicate StrictlyIncreasing(s: seq<ValueInt>)
  {
    forall i, j :: 0 <= i < j < |s| ==> s[i].value < s[j].value
  }

  /** Column indices of a sparse matrix are nonnegative; the compaction loop
      relies on this, as its "last value seen" starts at -1. */
  predicate ColumnIndices(colBuffer: seq<int>)
  {
    forall e :: 0 <= e < |colBuffer| ==> colBuffer[e] >= 0
  }

  /** Insertion of one record into a value-sorted sequence, after every
      record of smaller or equal value. */
  function Insert(x: ValueInt, s: seq<ValueInt>): (r: seq<ValueInt>)
    ensures multiset(r) == multiset(s) + multiset{x}
  {
    if |s| == 0 then [x]
    else if x.value < s[0].value then [x] + s
    else
      assert s == [s[0]] + s[1..];
      [s[0]] + Insert(x, s[1..])
  }

  /** Insertion keeps a sequence sorted by value. */
  lemma {:induction false} InsertSorted(x: ValueInt, s: seq<ValueInt>)
    requires SortedByValue(s)
    ensures SortedByValue(Insert(x, s))
  {
    if |s| > 0 && x.value >= s[0].value {
      var rest := Insert(x, s[1..]);
      InsertSorted(x, s[1..]);
      forall k | 0 <= k < |rest|
        ensures s[0].value <= rest[k].value
      {
        assert rest[k] in multiset(rest);
        if rest[k] != x {
          assert rest[k] in multiset(s[1..]);
          var j :| 0 <= j < |s[1..]| && s[1..][j] == rest[k];
          assert s[j + 1] == rest[k];
        }
      }
    }
  }

  /** A sort by value (insertion sort); one of the orders `std::sort` may
      produce. */
  function SortByValue(s: seq<ValueInt>): (r: seq<ValueInt>)
    ensures multiset(r) == multiset(s)
  {
    if |s| == 0 then []
    else
      assert s == [s[0]] + s[1..];
      Insert(s[0], SortByValue(s[1..]))
  }

  /** Insertion sort sorts. */
  lemma {:induction false} SortByValueSorted(s: seq<ValueInt>)
    ensures SortedByValue(SortByValue(s))
  {
    if |s| > 0 {
      SortByValueSorted(s[1..]);
      InsertSorted(s[0], SortByValue(s[1..]));
    }
  }

  /** The sort step: `SortByValue` is a legitimate outcome of `std::sort`. */
  lemma SortByValueIsSort(colBuffer: seq<int>)
    ensures SortOf(SortByValue(Tagged(colBuffer)), colBuffer)
  {
    SortByValueSorted(Tagged(colBuffer));
  }

  /** Every record names a local entry and carries that entry's column. */
  predicate Records(u: seq<ValueInt>, colBuffer: seq<int>)
  {
    forall p :: 0 <= p < |u| ==> 0 <= u[p].index < |colBuffer| && u[p].value == colBuffer[u[p].index]
  }

  /** A sort of the tagged entries has one record per local entry, each a
      tagged entry. */
  lemma SortedRecords(s: seq<ValueInt>, colBuffer: seq<int>)
    requires SortOf(s, colBuffer)
    ensures |s| == |colBuffer| && Records(s, colBuffer)
  {
    var t := Tagged(colBuffer);
    assert |multiset(s)| == |multiset(t)|;
    forall k | 0 <= k < |s|
      ensures 0 <= s[k].index < |colBuffer| && s[k].value == colBuffer[s[k].index]
    {
      assert s[k] in multiset(t);
      var e :| 0 <= e < |t| && t[e] == s[k];
    }
  }

  /** Every local entry appears somewhere in a sort of the tagged entries. */
  lemma SortedCovers(s: seq<ValueInt>, colBuffer: seq<int>, e: int)
    requires SortOf(s, colBuffer) && 0 <= e < |colBuffer|
    ensures exists k :: 0 <= k < |s| && s[k].index == e
  {
    var t := Tagged(colBuffer);
    assert t[e] in multiset(s);
    var k :| 0 <= k < |s| && s[k] == t[e];
  }

  /** The state of the compaction loop before iteration `e`: records past
      `e` are still the sorted ones, the kept prefix `u[..uniqueOff+1]`
      increases strictly and ends with `lastUnique`, the value of the last
      record visited, and every entry visited so far (`seen`) points into the
      kept prefix at a record of its own column. */
  predicate Compacting(s: seq<ValueInt>, colBuffer: seq<int>, e: int, u: seq<ValueInt>, uniqueOff: int,
                       lastUnique: int, colOffs: seq<int>, seen: set<int>)
  {
    KeptPrefix(s, colBuffer, e, u, uniqueOff, lastUnique) && Pointing(s, colBuffer, e, u, uniqueOff, colOffs, seen)
  }

  predicate KeptPrefix(s: seq<ValueInt>, colBuffer: seq<int>, e: int, u: seq<ValueInt>, uniqueOff: int, lastUnique: int)
  {
    var n := |s|;
    0 <= e <= n && |u| == n && |colBuffer| == n && Records(u, colBuffer) &&
    -1 <= uniqueOff < e && (uniqueOff == -1 <==> e == 0) &&
    (forall k :: e <= k < n ==> u[k] == s[k]) &&
    (forall i, j :: 0 <= i < j <= uniqueOff ==> u[i].value < u[j].value) &&
    (e == 0 ==> lastUnique == -1) &&
    (e > 0 ==> lastUnique == u[uniqueOff].value == s[e - 1].value)
  }

  predicate Pointing(s: seq<ValueInt>, colBuffer: seq<int>, e: int, u: seq<ValueInt>, uniqueOff: int,
                     colOffs: seq<int>, seen: set<int>)
  {
    var n := |s|;
    0 <= e <= n && |u| == n && |colOffs| == n && |colBuffer| == n && uniqueOff < n &&
    (forall k :: 0 <= k < e ==> s[k].index in seen) &&
    (forall i :: i in seen ==>
       0 <= i < n && 0 <= colOffs[i] <= uniqueOff && u[colOffs[i]].value == colBuffer[i])
  }

  /** The kept prefix after one iteration: either the visited record starts
      a new run and is copied to the next kept slot, or it repeats the last
      kept value and nothing moves. */
  lemma StepKept(s: seq<ValueInt>, colBuffer: seq<int>, e: int,
                 u: seq<ValueInt>, uniqueOff: int, lastUnique: int,
                 u': seq<ValueInt>, uniqueOff': int, lastUnique': int)
    requires SortedByValue(s) && ColumnIndices(colBuffer)
    requires KeptPrefix(s, colBuffer, e, u, uniqueOff, lastUnique) && e < |s|
    requires if lastUnique != u[e].value
             then uniqueOff' == uniqueOff + 1 && lastUnique' == u[e].value && u' == u[uniqueOff' := u[e]]
             else uniqueOff' == uniqueOff && lastUnique' == lastUnique && u' == u
    ensures KeptPrefix(s, colBuffer, e + 1, u', uniqueOff', lastUnique')
    ensures u'[e] == s[e] && u'[uniqueOff'].value == s[e].value
    ensures forall p :: 0 <= p <= uniqueOff ==> u'[p] == u[p]
  {
    var n := |s|;
    assert u[e] == s[e];
    if e > 0 {
      assert s[e - 1].value <= s[e].value;
    }
    assert Records(u', colBuffer) by {
      forall p | 0 <= p < n
        ensures 0 <= u'[p].index < n && u'[p].value == colBuffer[u'[p].index]
      {
        assert u'[p] == u[p] || u'[p] == u[e];
      }
    }
  }

  /** The back-index after one iteration: the visited entry now points at
      the last kept slot, which holds its column; other entries keep their
      slots, which did not move. */
  lemma StepPointing(s: seq<ValueInt>, colBuffer: seq<int>, e: int,
                     u: seq<ValueInt>, uniqueOff: int, colOffs: seq<int>, seen: set<int>,
                     u': seq<ValueInt>, uniqueOff': int, colOffs': seq<int>, seen': set<int>)
    requires Pointing(s, colBuffer, e, u, uniqueOff, colOffs, seen) && e < |s|
    requires |u'| == |s| && uniqueOff <= uniqueOff' < |s| && 0 <= uniqueOff'
    requires u'[e] == s[e] && u'[uniqueOff'].value == s[e].value
    requires forall p :: 0 <= p <= uniqueOff ==> u'[p] == u[p]
    requires 0 <= s[e].index < |s| && s[e].value == colBuffer[s[e].index]
    requires colOffs' == colOffs[s[e].index := uniqueOff'] && seen' == seen + {s[e].index}
    ensures Pointing(s, colBuffer, e + 1, u', uniqueOff', colOffs', seen')
  {
    forall i | i in seen'
      ensures 0 <= i < |s| && 0 <= colOffs'[i] <= uniqueOff' && u'[colOffs'[i]].value == colBuffer[i]
    {
      if i != s[e].index {
        assert i in seen && colOffs'[i] == colOffs[i];
      }
    }
  }

  /** The in-place compaction loop of `Pull` (`uniqueOff`, `lastUnique`),
      run on the sorted records `s`, before the final `resize`: it copies
      the first record of every run of equal values to the next kept slot
      and points every local entry at the slot of its run. */
  method CompactLoop(s: seq<ValueInt>, ghost colBuffer: seq<int>)
      returns (u: seq<ValueInt>, uniqueOff: int, colOffs: seq<int>, ghost seen: set<int>)
    requires SortedByValue(s) && |s| == |colBuffer| && Records(s, colBuffer) && ColumnIndices(colBuffer)
    ensures exists lastUnique :: Compacting(s, colBuffer, |s|, u, uniqueOff, lastUnique, colOffs, seen)
  {
    var n := |s|;
    u := s;
    colOffs := seq(n, _ => 0);
    uniqueOff := -1;
    var lastUnique := -1;
    seen := {};
    for e := 0 to n
      invariant Compacting(s, colBuffer, e, u, uniqueOff, lastUnique, colOffs, seen)
    {
      ghost var (u0, off0, last0, offs0, seen0) := (u, uniqueOff, lastUnique, colOffs, seen);
      if lastUnique != u[e].value {
        uniqueOff := uniqueOff + 1;
        lastUnique := u[e].value;
        u := u[uniqueOff := u[e]];
      }
      colOffs := colOffs[u[e].index := uniqueOff];
      seen := seen + {s[e].index};
      StepKept(s, colBuffer, e, u0, off0, last0, u, uniqueOff, lastUnique);
      StepPointing(s, colBuffer, e, u0, off0, offs0, seen0, u, uniqueOff, colOffs, seen);
    }
  }

  /** The de-duplication after the sort: the compaction loop, then
      `uniqueCols.resize(uniqueOff+1)`.  The kept records increase strictly,
      hold exactly the columns of the local entries, and every local entry
      points at the record of its own column. */
  method Compact(s: seq<ValueInt>, ghost colBuffer: seq<int>) returns (uniqueCols: seq<ValueInt>, colOffs: seq<int>)
    requires SortOf(s, colBuffer) && ColumnIndices(colBuffer)
    ensures StrictlyIncreasing(uniqueCols)
    ensures ValueSet(uniqueCols) == Columns(colBuffer)
    ensures |colOffs| == |colBuffer|
    ensures forall e :: 0 <= e < |colOffs| ==>
              0 <= colOffs[e] < |uniqueCols| && uniqueCols[colOffs[e]].value == colBuffer[e]
  {
    SortedRecords(s, colBuffer);
    var u, uniqueOff;
    ghost var seen;
    u, uniqueOff, colOffs, seen := CompactLoop(s, colBuffer);
    uniqueCols := u[..uniqueOff + 1];
    forall e | 0 <= e < |s|
      ensures e in seen
    {
      SortedCovers(s, colBuffer, e);
    }
    KeptColumns(uniqueCols, colBuffer, colOffs);
  }

  /** When every entry points at a record of its column, and every record
      carries some entry's column, the records hold exactly the columns. */
  lemma KeptColumns(uniqueCols: seq<ValueInt>, colBuffer: seq<int>, colOffs: seq<int>)
    requires Records(uniqueCols, colBuffer) && |colOffs| == |colBuffer|
    requires forall e :: 0 <= e < |colOffs| ==>
               0 <= colOffs[e] < |uniqueCols| && uniqueCols[colOffs[e]].value == colBuffer[e]
    ensures ValueSet(uniqueCols) == Columns(colBuffer)
  {
    forall c | c in Columns(colBuffer)
      ensures c in ValueSet(uniqueCols)
    {
      var e :| 0 <= e < |colBuffer| && colBuffer[e] == c;
      assert uniqueCols[colOffs[e]].value == c;
    }
    forall c | c in ValueSet(uniqueCols)
      ensures c in Columns(colBuffer)
    {
      var p :| 0 <= p < |uniqueCols| && uniqueCols[p].value == c;
      assert colBuffer[uniqueCols[p].index] == c;
    }
  }

  /** The whole de-duplication: tag, sort, compact. */
  method Dedup(colBuffer: seq<int>) returns (uniqueCols: seq<ValueInt>, colOffs: seq<int>)
    requires ColumnIndices(colBuffer)
    ensures StrictlyIncreasing(uniqueCols)
    ensures ValueSet(uniqueCols) == Columns(colBuffer)
    ensures |colOffs| == |colBuffer|
    ensures forall e :: 0 <= e < |colOffs| ==>
              0 <= colOffs[e] < |uniqueCols| && uniqueCols[colOffs[e]].value == colBuffer[e]
  {
    var s := SortByValue(Tagged(colBuffer));
    SortByValueIsSort(colBuffer);
    uniqueCols, colOffs := Compact(s, colBuffer);
  }

  /** A strictly increasing sequence holds each of its values exactly once,
      so there are as many unique columns as distinct column indices. */
  lemma {:induction false} IncreasingCount(s: seq<ValueInt>)
    requires StrictlyIncreasing(s)
    ensures |ValueSet(s)| == |s|
  {
    if |s| > 0 {
      var rest := s[..|s| - 1];
      IncreasingCount(rest);
      assert ValueSet(s) == ValueSet(rest) + {s[|s| - 1].value};
      assert s[|s| - 1].value !in ValueSet(rest);
    }
  }

  /** `mappedTargets[u] = reorder(uniqueCols[u].value)` (`Translate`). */
  function MappedTargets(reorder: int -> int, uniqueCols: seq<ValueInt>): (r: seq<int>)
    ensures |r| == |uniqueCols|
  {
    seq(|uniqueCols|, u requires 0 <= u < |uniqueCols| => reorder(uniqueCols[u].value))
  }

  /** What the payload reads for local entry `e`, `mappedTargets[colOffs[e]]`,
      is the reordered column of that entry: translating each unique column
      once is as good as translating every entry. */
  lemma DedupTargets(A: LocalMatrix, colBuffer: seq<int>, reorder: int -> int,
                     uniqueCols: seq<ValueInt>, colOffs: seq<int>, mappedSources: seq<int>)
    requires |colOffs| == |colBuffer|
    requires forall e :: 0 <= e < |colOffs| ==>
               0 <= colOffs[e] < |uniqueCols| && uniqueCols[colOffs[e]].value == colBuffer[e]
    ensures forall e :: 0 <= e < |colBuffer| ==>
              Target(A, Reordered(mappedSources, MappedTargets(reorder, uniqueCols), colOffs), e) == reorder(colBuffer[e])
  {
  }
}
