/** The Trefethen test matrix: the `n x n` Toeplitz matrix of the symbol
        f(z) = 2 z^-3 - z^-2 + 2i z^-1 - 4 z^2 - 2i z^3,
    from the start of Chapter II of Trefethen and Embree's "Spectra and
    Pseudospectra".  A Toeplitz matrix of a symbol `sum_k c_k z^k` holds
    `c_(i-j)` at entry `(i, j)`, so diagonal `d = j - i` holds the coefficient
    of `z^-d`. */
module TrefethenMatrix {
  import opened ComplexArith
  import opened DenseMatrix

  datatype Outcome<T> = Built(value: T) | LogicError(msg: string)

  /** The symbol's coefficients, power by power. */
  const Symbol: map<int, Complex> :=
    map[-3 := Complex(2, 0), -2 := Complex(-1, 0), -1 := Complex(0, 2), 2 := Complex(-4, 0), 3 := Complex(0, -2)]

  /** The coefficient of `z^k` in the symbol. */
  function Coefficient(k: int): Complex
  {
    if k in Symbol then Symbol[k] else Zero
  }

  /** `Zeros(A, m, n)`: an `m x n` matrix of zeros with leading dimension
      `max(m, 1)`. */
  method Zeros(m: nat, n: nat) returns (r: Matrix<Complex>)
    ensures Ok(r) && r.height == m && r.width == n && r.ldim == if m < 1 then 1 else m
    ensures forall j, i :: 0 <= j < n && 0 <= i < r.ldim ==> r.cols[j][i] == Zero
  {
    var ldim := if m < 1 then 1 else m;
    var cols: seq<seq<Complex>> := [];
    var j := 0;
    while j < n
      invariant 0 <= j <= n && |cols| == j
      invariant forall jj :: 0 <= jj < j ==> |cols[jj]| == ldim
      invariant forall jj, i :: 0 <= jj < j && 0 <= i < ldim ==> cols[jj][i] == Zero
    {
      cols := cols + [seq(ldim, i => Zero)];
      j := j + 1;
    }
    r := Matrix(m, n, ldim, cols);
  }

  /** `SetDiagonal(A, alpha, offset)`: every entry `(i, j)` of the matrix with
      `j - i == offset` becomes `alpha`; every other slot keeps its value. */
  method SetDiagonal(a: Matrix<Complex>, alpha: Complex, offset: int) returns (r: Matrix<Complex>)
    requires Ok(a)
    ensures SameShape(a, r)
    ensures forall j, i :: 0 <= j < a.width && 0 <= i < a.ldim ==>
      r.cols[j][i] == if i < a.height && j - i == offset then alpha else a.cols[j][i]
  {
    r := a;
    var j := 0;
    while j < a.width
      invariant 0 <= j <= a.width && SameShape(a, r)
      invariant forall jj, i :: 0 <= jj < a.width && 0 <= i < a.ldim ==>
        r.cols[jj][i] == if jj < j && i < a.height && jj - i == offset then alpha else a.cols[jj][i]
    {
      var i := j - offset;
      if 0 <= i < a.height {
        r := r.(cols := r.cols[j := r.cols[j][i := alpha]]);
      }
      j := j + 1;
    }
  }

  /** `Trefethen(A, n)`: rejects `n < 4`, which cannot hold a third-order
      symbol; otherwise builds the `n x n` Toeplitz matrix of the symbol. */
  method Trefethen(n: int) returns (r: Outcome<Matrix<Complex>>)
    ensures r.LogicError? <==> n < 4
    ensures r.Built? ==> Ok(r.value) && r.value.height == n && r.value.width == n
    ensures r.Built? ==> forall j, i :: 0 <= j < n && 0 <= i < n ==> r.value.cols[j][i] == Coefficient(i - j)
    ensures r.Built? ==> forall j, i, j', i' :: 0 <= j < n && 0 <= i < n && 0 <= j' < n && 0 <= i' < n && i - j == i' - j' ==>
      r.value.cols[j][i] == r.value.cols[j'][i']
  {
    if n < 4 {
      return LogicError("Must be at least 4x4 to have a third-order symbol");
    }
    var a := Zeros(n, n);
    a := SetDiagonal(a, Complex(2, 0), 3);
    a := SetDiagonal(a, Complex(-1, 0), 2);
    a := SetDiagonal(a, Complex(0, 2), 1);
    a := SetDiagonal(a, Complex(-4, 0), -2);
    a := SetDiagonal(a, Complex(0, -2), -3);
    r := Built(a);
  }

  /** The five diagonals the symbol fills, and the zeros everywhere else:
      offsets 3, 2, 1, -2, -3 hold 2, -1, 2i, -4, -2i, and the main diagonal,
      offset -1 and everything further out hold zero. */
  lemma Diagonals(d: int)
    ensures Coefficient(-d) == (if d == 3 then Complex(2, 0)
                                else if d == 2 then Complex(-1, 0)
                                else if d == 1 then Complex(0, 2)
                                else if d == -2 then Complex(-4, 0)
                                else if d == -3 then Complex(0, -2)
                                else Zero)
  {
  }
}
