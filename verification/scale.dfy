/** `Scale` on a local matrix: multiply every entry by `alpha`, with the two
    shortcuts `alpha == 1` (nothing to do) and `alpha == 0` (set to zero), and
    the split form that scales a complex matrix held as separate real and
    imaginary parts. */
module Scaling {
  import opened ComplexArith
  import opened DenseMatrix

  /** The triangle or trapezoid a `ScaleTrapezoid` call works on. */
  datatype UpperOrLower = Upper | Lower

  /** The entries a scaling touches: the whole matrix, or a trapezoid with a
      diagonal offset (`offset > 0` moves the boundary to the right). */
  datatype Region = Whole | Trapezoid(uplo: UpperOrLower, offset: int)

  /** Whether slot `i` of column `j` is an entry of the region of a matrix
      of `height` rows.  Upper: on or above diagonal `offset`.  Lower: on or
      below diagonal `offset`.  Both stay inside the matrix. */
  predicate InRegion(reg: Region, height: int, i: int, j: int)
  {
    match reg
    case Whole => i < height
    case Trapezoid(Upper, offset) => i <= j - offset && i < height
    case Trapezoid(Lower, offset) => j - offset <= i && i < height
  }

  /** `r` is `a` with exactly the entries of `reg` multiplied by `alpha`:
      every slot in the region is scaled once and every other slot, padding
      included, is left as it was. */
  predicate ScaledOn(a: Matrix<Complex>, r: Matrix<Complex>, alpha: Complex, reg: Region)
  {
    Ok(a) && SameShape(a, r) &&
    forall j, i :: 0 <= j < a.width && 0 <= i < a.ldim ==>
      r.cols[j][i] == if InRegion(reg, a.height, i, j) then Mul(alpha, a.cols[j][i]) else a.cols[j][i]
  }

  /** `Scale(alpha, A)`. */
  method Scale(alpha: Complex, a: Matrix<Complex>) returns (r: Matrix<Complex>)
    requires Ok(a)
    ensures ScaledOn(a, r, alpha, Whole)
    ensures alpha == One ==> r == a
    ensures alpha == Zero ==> forall j, i :: 0 <= j < a.width && 0 <= i < a.height ==> r.cols[j][i] == Zero
  {
    if alpha != One {
      if alpha == Zero {
        r := MapEntries(z => Zero, a);
      } else {
        r := MapEntries(z => Mul(alpha, z), a);
      }
    } else {
      r := a;
    }
  }

  /** The same template at a real type: `Scale(alpha, A)` for `Matrix<Real>`. */
  method ScaleReal(alpha: int, a: Matrix<int>) returns (r: Matrix<int>)
    requires Ok(a)
    ensures SameShape(a, r)
    ensures forall j, i :: 0 <= j < a.width && 0 <= i < a.ldim ==>
      r.cols[j][i] == if i < a.height then alpha * a.cols[j][i] else a.cols[j][i]
    ensures alpha == 1 ==> r == a
  {
    if alpha != 1 {
      if alpha == 0 {
        r := MapEntries(x => 0, a);
      } else {
        r := MapEntries(x => alpha * x, a);
      }
    } else {
      r := a;
    }
  }

  /** `Scale(Base<T> alpha, A)`: a real factor scales both parts of every
      entry. */
  method ScaleBase(alpha: int, a: Matrix<Complex>) returns (r: Matrix<Complex>)
    requires Ok(a)
    ensures ScaledOn(a, r, FromReal(alpha), Whole)
    ensures forall j, i :: 0 <= j < a.width && 0 <= i < a.height ==>
      r.cols[j][i] == Complex(alpha * a.cols[j][i].re, alpha * a.cols[j][i].im)
  {
    r := Scale(FromReal(alpha), a);
  }

  // ---------------------------------------------------------------------
  // The split complex form.
  // ---------------------------------------------------------------------

  /** The real and imaginary parts of one complex matrix: two matrices of
      the same height and width (their leading dimensions may differ). */
  predicate SplitOk(re: Matrix<int>, im: Matrix<int>)
  {
    Ok(re) && Ok(im) && re.height == im.height && re.width == im.width
  }

  /** What the split scaling is meant to compute: each entry `re + i im` of
      the leading `height x width` block is replaced by `alpha * (re + i im)`,
      written out in its two real parts. */
  function SplitProduct(alpha: Complex, re: Matrix<int>, im: Matrix<int>): (r: (Matrix<int>, Matrix<int>))
    requires SplitOk(re, im)
    ensures SameShape(re, r.0) && SameShape(im, r.1)
    ensures forall j, i :: 0 <= j < re.width && 0 <= i < re.height ==>
      Complex(r.0.cols[j][i], r.1.cols[j][i]) == Mul(alpha, Complex(re.cols[j][i], im.cols[j][i]))
    ensures forall j, i :: 0 <= j < re.width && 0 <= i < re.ldim && re.height <= i ==> r.0.cols[j][i] == re.cols[j][i]
    ensures forall j, i :: 0 <= j < im.width && 0 <= i < im.ldim && im.height <= i ==> r.1.cols[j][i] == im.cols[j][i]
  {
    var a := alpha.re;
    var b := alpha.im;
    (re.(cols := seq(re.width, j requires 0 <= j < re.width =>
           seq(re.ldim, i requires 0 <= i < re.ldim =>
             if i < re.height then a * re.cols[j][i] - b * im.cols[j][i] else re.cols[j][i]))),
     im.(cols := seq(im.width, j requires 0 <= j < im.width =>
           seq(im.ldim, i requires 0 <= i < im.ldim =>
             if i < im.height then a * im.cols[j][i] + b * re.cols[j][i] else im.cols[j][i]))))
  }

  /** `blas::Axpy` on the first `m` slots of a column: `col[i] += beta * x[i]`. */
  method AxpySlots(beta: int, x: seq<int>, col: seq<int>, m: nat) returns (c: seq<int>)
    requires m <= |x| && m <= |col|
    ensures |c| == |col|
    ensures forall i :: 0 <= i < |col| ==> c[i] == if i < m then col[i] + beta * x[i] else col[i]
  {
    c := col;
    var i := 0;
    while i < m
      invariant 0 <= i <= m && |c| == |col|
      invariant forall k :: 0 <= k < |col| ==> c[k] == if k < i then col[k] + beta * x[k] else col[k]
    {
      c := c[i := c[i] + beta * x[i]];
      i := i + 1;
    }
  }

  /** One column of the split scaling, from copies taken before the update:
      the real part becomes `a re - b im` and the imaginary part
      `a im + b re`. */
  method SplitColumn(a: int, b: int, reCol: seq<int>, imCol: seq<int>, m: nat) returns (re2: seq<int>, im2: seq<int>)
    requires m <= |reCol| && m <= |imCol|
    ensures |re2| == |reCol| && |im2| == |imCol|
    ensures forall i :: 0 <= i < |reCol| ==> re2[i] == if i < m then a * reCol[i] - b * imCol[i] else reCol[i]
    ensures forall i :: 0 <= i < |imCol| ==> im2[i] == if i < m then a * imCol[i] + b * reCol[i] else imCol[i]
  {
    var reCopy := reCol;
    var imCopy := imCol;
    re2 := MapSlots(x => a * x, reCol, 0, m);
    re2 := AxpySlots(-b, imCopy, re2, m);
    im2 := MapSlots(x => a * x, imCol, 0, m);
    im2 := AxpySlots(b, reCopy, im2, m);
  }

  /** `Scale(Complex alpha, AReal, AImag)` with each column viewed in the
      arguments themselves: the split form computes the complex product. */
  method ScaleSplit(alpha: Complex, re: Matrix<int>, im: Matrix<int>) returns (re2: Matrix<int>, im2: Matrix<int>)
    requires SplitOk(re, im)
    ensures (re2, im2) == SplitProduct(alpha, re, im)
  {
    var m := re.height;
    var n := re.width;
    var want := SplitProduct(alpha, re, im);
    if alpha != One {
      if alpha == Zero {
        re2 := ScaleReal(0, re);
        im2 := ScaleReal(0, im);
      } else {
        re2, im2 := re, im;
        var j := 0;
        while j < n
          invariant 0 <= j <= n && SameShape(re, re2) && SameShape(im, im2)
          invariant forall jj, i :: 0 <= jj < n && 0 <= i < re.ldim ==>
            re2.cols[jj][i] == if jj < j then want.0.cols[jj][i] else re.cols[jj][i]
          invariant forall jj, i :: 0 <= jj < n && 0 <= i < im.ldim ==>
            im2.cols[jj][i] == if jj < j then want.1.cols[jj][i] else im.cols[jj][i]
        {
          var reCol, imCol := SplitColumn(alpha.re, alpha.im, re2.cols[j], im2.cols[j], m);
          re2 := re2.(cols := re2.cols[j := reCol]);
          im2 := im2.(cols := im2.cols[j := imCol]);
          j := j + 1;
        }
      }
    } else {
      re2, im2 := re, im;
    }
    SlotsEqual(re2, want.0);
    SlotsEqual(im2, want.1);
  }

  /** The split scaling as the source writes it: the column views are taken
      of the empty locals `aReal` and `aImag` instead of the arguments `AReal`
      and `AImag`, so outside the two shortcuts the arguments are never
      updated. */
  method ScaleSplitAsWritten(alpha: Complex, re: Matrix<int>, im: Matrix<int>) returns (re2: Matrix<int>, im2: Matrix<int>)
    requires SplitOk(re, im)
    ensures alpha != Zero ==> re2 == re && im2 == im
    ensures alpha == Zero ==> (re2, im2) == SplitProduct(alpha, re, im)
  {
    if alpha != One {
      if alpha == Zero {
        re2 := ScaleReal(0, re);
        im2 := ScaleReal(0, im);
        SlotsEqual(re2, SplitProduct(alpha, re, im).0);
        SlotsEqual(im2, SplitProduct(alpha, re, im).1);
      } else {
        re2, im2 := re, im;
      }
    } else {
      re2, im2 := re, im;
    }
  }

  /** Scaling the entry `1 + 0i` of a `1 x 1` matrix by `i` must give
      `0 + 1i`, but the code as written leaves the real part at `1`. */
  lemma AsWrittenMissesProduct(re: Matrix<int>, im: Matrix<int>, alpha: Complex)
    requires SplitOk(re, im) && re.height == 1 && re.width == 1
    requires re.cols[0][0] == 1 && im.cols[0][0] == 0 && alpha == Complex(0, 1)
    ensures SplitProduct(alpha, re, im).0.cols[0][0] == 0 != re.cols[0][0]
  {
  }
}
