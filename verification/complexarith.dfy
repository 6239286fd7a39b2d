/** Complex scalars with integer parts: the field `F` of the factorization and
    `Complex<Real>` of the dense kernels, with exact integer arithmetic in
    place of floating point. */
module ComplexArith {

  datatype Complex = Complex(re: int, im: int)

  const Zero: Complex := Complex(0, 0)
  const One: Complex := Complex(1, 0)

  /** `T(alpha)` for a real `alpha`. */
  function FromReal(a: int): (z: Complex)
    ensures z.re == a && z.im == 0
  {
    Complex(a, 0)
  }

  function Mul(a: Complex, b: Complex): Complex
  {
    Complex(a.re * b.re - a.im * b.im, a.re * b.im + a.im * b.re)
  }

  function Conj(a: Complex): Complex
  {
    Complex(a.re, -a.im)
  }
}
