/** A local column-major matrix (`Matrix<T>`): `height x width` entries in a
    buffer whose columns are `ldim` slots apart.  The buffer is held column by
    column: slot `i` of column `j` is `buffer[i + j*ldim]`, and the slots
    `height <= i < ldim` are padding that belongs to no entry. */
module DenseMatrix {

  datatype Matrix<T> = Matrix(height: nat, width: nat, ldim: nat, cols: seq<seq<T>>)

  /** A buffer of `width` columns of `ldim >= max(height, 1)` slots. */
  predicate Ok<T>(a: Matrix<T>)
  {
    1 <= a.ldim && a.height <= a.ldim && |a.cols| == a.width &&
    forall j :: 0 <= j < |a.cols| ==> |a.cols[j]| == a.ldim
  }

  /** `b` is a well-formed matrix with `a`'s height, width and leading
      dimension. */
  predicate SameShape<T>(a: Matrix<T>, b: Matrix<T>)
  {
    Ok(b) && a.height == b.height && a.width == b.width && a.ldim == b.ldim
  }

  /** Two matrices of one shape that agree in every slot are equal. */
  lemma SlotsEqual<T>(a: Matrix<T>, b: Matrix<T>)
    requires Ok(a) && SameShape(a, b)
    requires forall j, i :: 0 <= j < a.width && 0 <= i < a.ldim ==> a.cols[j][i] == b.cols[j][i]
    ensures a == b
  {
    forall j | 0 <= j < a.width
      ensures a.cols[j] == b.cols[j]
    {
    }
  }

  /** One pass over the slots `[lo, hi)` of a column, replacing each by `f` of
      itself (`blas::Scal`, or `col[i] *= alpha` in a loop). */
  method MapSlots<T>(f: T -> T, col: seq<T>, lo: int, hi: int) returns (c: seq<T>)
    requires 0 <= lo && hi <= |col|
    ensures |c| == |col|
    ensures forall i :: 0 <= i < |col| ==> c[i] == if lo <= i < hi then f(col[i]) else col[i]
  {
    c := col;
    var i := lo;
    while i < hi
      invariant |c| == |col| && lo <= i && (if lo < hi then i <= hi else i == lo)
      invariant forall k :: 0 <= k < |col| ==> c[k] == if lo <= k < i then f(col[k]) else col[k]
    {
      c := c[i := f(c[i])];
      i := i + 1;
    }
  }

  /** Replaces every entry (not the padding) by `f` of itself, column by
      column. */
  method MapEntries<T>(f: T -> T, a: Matrix<T>) returns (r: Matrix<T>)
    requires Ok(a)
    ensures SameShape(a, r)
    ensures forall j, i :: 0 <= j < a.width && 0 <= i < a.ldim ==>
      r.cols[j][i] == if i < a.height then f(a.cols[j][i]) else a.cols[j][i]
  {
    r := a;
    var j := 0;
    while j < a.width
      invariant 0 <= j <= a.width && SameShape(a, r)
      invariant forall jj, i :: 0 <= jj < a.width && 0 <= i < a.ldim ==>
        r.cols[jj][i] == if jj < j && i < a.height then f(a.cols[jj][i]) else a.cols[jj][i]
    {
      var col := MapSlots(f, r.cols[j], 0, a.height);
      r := r.(cols := r.cols[j := col]);
      j := j + 1;
    }
  }
}
