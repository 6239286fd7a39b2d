/** `ScaleTrapezoid` on a local matrix: multiply the upper or lower trapezoid
    bounded by diagonal `offset` by `alpha`, in place in the column-major
    buffer. */
module TrapezoidScaling {
  import opened ComplexArith
  import opened DenseMatrix
  import opened Scaling

  function Max(a: int, b: int): int
  {
    if a < b then b else a
  }

  function Min(a: int, b: int): int
  {
    if a < b then a else b
  }

  /** `ScaleTrapezoid(alpha, uplo, A, offset)`.  Upper walks the columns
      from `max(0, offset - 1)` and scales rows `[0, min(j - offset + 1,
      height))`, with the clamp to the height that the distributed overload
      applies.  Lower scales rows `[max(j - offset, 0), height)` of every
      column. */
  method ScaleTrapezoid(alpha: Complex, uplo: UpperOrLower, a: Matrix<Complex>, offset: int) returns (r: Matrix<Complex>)
    requires Ok(a)
    ensures ScaledOn(a, r, alpha, Trapezoid(uplo, offset))
  {
    r := a;
    if uplo == Upper {
      var j := Max(0, offset - 1);
      while j < a.width
        invariant Max(0, offset - 1) <= j && SameShape(a, r)
        invariant forall jj, i :: 0 <= jj < a.width && 0 <= i < a.ldim ==>
          r.cols[jj][i] == if jj < j && i <= jj - offset && i < a.height then Mul(alpha, a.cols[jj][i]) else a.cols[jj][i]
      {
        var numRows := Min(j - offset + 1, a.height);
        var col := MapSlots(z => Mul(alpha, z), r.cols[j], 0, numRows);
        r := r.(cols := r.cols[j := col]);
        j := j + 1;
      }
    } else {
      var j := 0;
      while j < a.width
        invariant 0 <= j <= a.width && SameShape(a, r)
        invariant forall jj, i :: 0 <= jj < a.width && 0 <= i < a.ldim ==>
          r.cols[jj][i] == if jj < j && jj - offset <= i < a.height then Mul(alpha, a.cols[jj][i]) else a.cols[jj][i]
      {
        var numZeroRows := Max(j - offset, 0);
        var col := MapSlots(z => Mul(alpha, z), r.cols[j], numZeroRows, a.height);
        r := r.(cols := r.cols[j := col]);
        j := j + 1;
      }
    }
  }

  /** What the local Upper branch does as written: every slot with
      `i <= j - offset` is scaled, padding below row `height` included, and
      every other slot keeps its value. */
  predicate UpperAsWritten(a: Matrix<Complex>, r: Matrix<Complex>, alpha: Complex, offset: int)
  {
    Ok(a) && SameShape(a, r) &&
    forall j, i :: 0 <= j < a.width && 0 <= i < a.ldim ==>
      r.cols[j][i] == if i <= j - offset then Mul(alpha, a.cols[j][i]) else a.cols[j][i]
  }

  /** The local Upper branch as the source writes it: the row count
      `j - offset + 1` is not clamped to the height.  Only counts that stay
      inside a column's `ldim` slots are modelled.  When every count is at
      most the height it agrees with the clamped `ScaleTrapezoid`. */
  method ScaleUpperAsWritten(alpha: Complex, a: Matrix<Complex>, offset: int) returns (r: Matrix<Complex>)
    requires Ok(a)
    requires a.width == 0 || a.width - offset <= a.ldim
    ensures UpperAsWritten(a, r, alpha, offset)
    ensures a.width == 0 || a.width - offset <= a.height ==> ScaledOn(a, r, alpha, Trapezoid(Upper, offset))
  {
    r := a;
    var j := Max(0, offset - 1);
    while j < a.width
      invariant Max(0, offset - 1) <= j && SameShape(a, r)
      invariant forall jj, i :: 0 <= jj < a.width && 0 <= i < a.ldim ==>
        r.cols[jj][i] == if jj < j && i <= jj - offset then Mul(alpha, a.cols[jj][i]) else a.cols[jj][i]
    {
      var numRows := j - offset + 1;
      var col := MapSlots(z => Mul(alpha, z), r.cols[j], 0, numRows);
      r := r.(cols := r.cols[j := col]);
      j := j + 1;
    }
  }

  /** A slot outside the region that has changed rules out a scaling of
      that region. */
  lemma ChangedOutside(a: Matrix<Complex>, r: Matrix<Complex>, alpha: Complex, reg: Region, i: int, j: int)
    requires 0 <= j < a.width && 0 <= i < a.ldim && !InRegion(reg, a.height, i, j)
    requires |r.cols| > j && |r.cols[j]| > i && |a.cols| > j && |a.cols[j]| > i
    requires r.cols[j][i] != a.cols[j][i]
    ensures !ScaledOn(a, r, alpha, reg)
  {
  }

  /** The padding slot of column 1 under the as-written branch at offset 0
      on a `1 x 2` matrix with leading dimension 2. */
  lemma PaddingSlot(alpha: Complex, a: Matrix<Complex>, r: Matrix<Complex>)
    requires Ok(a) && a.height == 1 && a.width == 2 && a.ldim == 2
    requires UpperAsWritten(a, r, alpha, 0)
    ensures r.cols[1][1] == Mul(alpha, a.cols[1][1])
  {
  }

  /** A `1 x 2` matrix held with leading dimension 2 (a view, say): at
      offset 0 the unclamped count of column 1 is 2, so the as-written branch
      scales the padding slot below the entry, which belongs to no entry of
      the matrix.  Any `alpha` that changes that slot's value (2, on a slot
      holding 1) shows the difference. */
  lemma AsWrittenScalesPadding(alpha: Complex, a: Matrix<Complex>, r: Matrix<Complex>)
    requires Ok(a) && a.height == 1 && a.width == 2 && a.ldim == 2
    requires Mul(alpha, a.cols[1][1]) != a.cols[1][1]
    requires UpperAsWritten(a, r, alpha, 0)
    ensures r.cols[1][1] != a.cols[1][1]
    ensures !ScaledOn(a, r, alpha, Trapezoid(Upper, 0))
  {
    PaddingSlot(alpha, a, r);
    ChangedOutside(a, r, alpha, Trapezoid(Upper, 0), 1, 1);
  }

  /** An Upper scaling leaves the columns left of diagonal `offset` as they
      were, so starting the walk at `max(0, offset - 1)` skips nothing. */
  lemma UpperSkipsLeft(alpha: Complex, a: Matrix<Complex>, r: Matrix<Complex>, offset: int, j: int)
    requires ScaledOn(a, r, alpha, Trapezoid(Upper, offset))
    requires 0 <= j < a.width && j < offset
    ensures r.cols[j] == a.cols[j]
  {
    assert forall i :: 0 <= i < a.ldim ==> r.cols[j][i] == a.cols[j][i];
  }

  /** With the default offset 0, Upper is the upper triangle and Lower the
      lower triangle, both including the diagonal. */
  lemma DefaultOffset(height: int, i: int, j: int)
    requires 0 <= i < height
    ensures InRegion(Trapezoid(Upper, 0), height, i, j) <==> i <= j
    ensures InRegion(Trapezoid(Lower, 0), height, i, j) <==> j <= i
  {
  }

  /** The upper trapezoid at `offset` and the lower one at `offset - 1` split
      the matrix: scaling one and then the other scales every entry exactly
      once, as `Scale` does. */
  lemma UpperThenLower(alpha: Complex, a: Matrix<Complex>, b: Matrix<Complex>, c: Matrix<Complex>, offset: int)
    requires ScaledOn(a, b, alpha, Trapezoid(Upper, offset))
    requires ScaledOn(b, c, alpha, Trapezoid(Lower, offset - 1))
    ensures ScaledOn(a, c, alpha, Whole)
  {
    forall j, i | 0 <= j < a.width && 0 <= i < a.ldim
      ensures c.cols[j][i] == if InRegion(Whole, a.height, i, j) then Mul(alpha, a.cols[j][i]) else a.cols[j][i]
    {
    }
  }
}
