/** Where `Pull` puts one received nonzero of column `t` of a front.

    A received entry of row `i = sep.inds[t]` carries its reordered target
    index.  Targets above the diagonal (`target < off + t`) are dropped;
    targets inside the separator land in the diagonal block at row
    `target - off`; all others are looked up in the original lower structure
    of the node and land at row `origLowerRelInds[Find(origLowerStruct,
    target)]`. */
module Placement {

  predicate Increasing(s: seq<int>)
  {
    forall a, b :: 0 <= a < b < |s| ==> s[a] < s[b]
  }

  /** `std::lower_bound`: the first position whose value is not below `x`. */
  function LowerBound(s: seq<int>, x: int): (p: nat)
    ensures p <= |s|
    ensures forall k :: 0 <= k < p ==> s[k] < x
    ensures p < |s| ==> s[p] >= x
  {
    if |s| == 0 || s[0] >= x then 0 else 1 + LowerBound(s[1..], x)
  }

  /** `Find(sortedInds, index)`: the position of `index` in a sorted vector,
      or `None` where the source raises a logic error. */
  function Find(s: seq<int>, x: int): (r: Option<nat>)
    ensures r.Some? ==> r.value < |s| && s[r.value] == x
  {
    var p := LowerBound(s, x);
    if p < |s| && s[p] == x then Some(p) else None
  }

  datatype Option<T> = None | Some(value: T)

  /** On a sorted vector `Find` fails exactly when the index is absent. */
  lemma FindComplete(s: seq<int>, x: int)
    requires Increasing(s)
    ensures Find(s, x).None? <==> x !in s
  {
    var p := LowerBound(s, x);
    if x in s {
      var k :| 0 <= k < |s| && s[k] == x;
      assert p <= k;
    }
  }

  /** The fate of one received entry. */
  datatype Fate = Discard | Diagonal(row: int) | Lower(row: int) | Missing

  /** The placement rule of the unpack loop for column `t` of a front with
      offset `off` and `size` columns. */
  function Classify(target: int, off: int, t: int, size: int,
                    origLowerStruct: seq<int>, origLowerRelInds: seq<int>): (f: Fate)
    requires |origLowerRelInds| == |origLowerStruct|
    ensures f == Discard <==> target < off + t
    ensures f.Diagonal? <==> off + t <= target < off + size
    ensures f.Diagonal? ==> f.row == target - off && t <= f.row < size
    ensures f.Lower? ==>
              (target >= off + size && target >= off + t &&
               exists k :: 0 <= k < |origLowerStruct| && origLowerStruct[k] == target && f.row == origLowerRelInds[k])
    ensures f.Missing? ==> target >= off + size && target >= off + t && Find(origLowerStruct, target).None?
  {
    if target < off + t then Discard
    else if target < off + size then Diagonal(target - off)
    else
      match Find(origLowerStruct, target)
      case Some(k) => Lower(origLowerRelInds[k])
      case None => Missing
  }

  /** With a sorted original structure, an entry is lost only when its target
      lies below the separator and outside the structure. */
  lemma ClassifyMissing(target: int, off: int, t: int, size: int,
                        origLowerStruct: seq<int>, origLowerRelInds: seq<int>)
    requires |origLowerRelInds| == |origLowerStruct|
    requires Increasing(origLowerStruct)
    requires 0 <= t < size
    ensures Classify(target, off, t, size, origLowerStruct, origLowerRelInds).Missing?
        <==> target >= off + size && target !in origLowerStruct
  {
    FindComplete(origLowerStruct, target);
  }
}
