/** The strided index walk `for( t=shift; t<n; t+=stride )` that a process
    uses at a distributed front to request the separator indices of the
    columns it owns (stride = grid width, shift = grid column), and the
    element-cyclic column layout of a 2D-distributed front that the unpack
    loop `t = GlobalCol(tLoc)` relies on. */
module Strided {
  import opened SeqMath

  /** Element-cyclic distribution: local column `tLoc` of a process whose
      column shift is `shift` holds global column `shift + tLoc*stride`.
      (An assumption about the 2D distributed matrix, which is not part of
      this model; it holds for a matrix aligned at column 0.) */
  function GlobalCol(shift: nat, stride: nat, tLoc: nat): nat
  {
    shift + tLoc * stride
  }

  /** Number of the first `n` global columns that land on a process with the
      given shift: its local width under the element-cyclic layout. */
  function LocalWidth(n: int, shift: nat, stride: nat): nat
    requires stride > 0
  {
    if shift >= n then 0 else (n - shift - 1) / stride + 1
  }

  /** The indices `t` visited by `for( t=shift; t<n; t+=stride )`, in order:
      the `k`-th visited index is `shift + k*stride`, and all lie below `n`. */
  function StrideWalk(shift: nat, stride: nat, n: int): (ts: seq<nat>)
    requires stride > 0
    ensures forall k :: 0 <= k < |ts| ==> ts[k] == GlobalCol(shift, stride, k) && ts[k] < n
    decreases n - shift
  {
    if shift >= n then []
    else
      var rest := StrideWalk(shift + stride, stride, n);
      GlobalColShift(shift + stride, shift, stride);
      [shift] + rest
  }

  lemma GlobalColShift(next: nat, shift: nat, stride: nat)
    requires next == shift + stride
    ensures forall k: nat :: GlobalCol(next, stride, k) == GlobalCol(shift, stride, k + 1)
  {
    forall k: nat
      ensures GlobalCol(next, stride, k) == GlobalCol(shift, stride, k + 1)
    {
      assert (k + 1) * stride == k * stride + stride;
    }
  }

  lemma DivStep(a: int, m: int)
    requires m > 0 && a >= m
    ensures a / m == (a - m) / m + 1
  {
    DivModUnique(a, m, (a - m) / m + 1, (a - m) % m);
  }

  /** Euclidean division is unique: `a == d*m + r` with `0 <= r < m` fixes
      both quotient and remainder. */
  lemma DivModUnique(a: int, m: int, d: int, r: int)
    requires m > 0 && 0 <= r < m && a == d * m + r
    ensures a / m == d && a % m == r
  {
    var d', r' := a / m, a % m;
    assert a == d' * m + r';
    assert (d - d') * m == r' - r;
    if d - d' >= 1 {
      MulAtLeast(d - d', m);
    } else if d' - d >= 1 {
      MulAtLeast(d' - d, m);
    }
  }

  lemma MulAtLeast(x: int, m: int)
    requires x >= 1 && m > 0
    ensures x * m >= m
  {
    assert x * m == (x - 1) * m + m;
    if x > 1 {
      MulAtLeast(x - 1, m);
    }
  }

  /** The request loop visits as many columns as the element-cyclic layout
      stores locally. */
  lemma {:induction false} StrideWalkLength(shift: nat, stride: nat, n: int)
    requires stride > 0
    ensures |StrideWalk(shift, stride, n)| == LocalWidth(n, shift, stride)
    decreases n - shift
  {
    if shift < n {
      StrideWalkLength(shift + stride, stride, n);
      if shift + stride < n {
        DivStep(n - shift - 1, stride);
      } else {
        DivModUnique(n - shift - 1, stride, 0, n - shift - 1);
      }
    }
  }

  /** The strided request loop visits exactly the columns the element-cyclic
      layout stores locally, in local order: `t = GlobalCol(tLoc)` for
      `tLoc < LocalWidth`. */
  lemma StrideWalkIsLocalColumns(shift: nat, stride: nat, n: int)
    requires stride > 0
    ensures StrideWalk(shift, stride, n) == seq(LocalWidth(n, shift, stride), tLoc requires 0 <= tLoc => GlobalCol(shift, stride, tLoc))
  {
    StrideWalkLength(shift, stride, n);
  }

  /** Membership: the walk visits `t` exactly when `t` lies in `[shift, n)`
      and is congruent to `shift` modulo the stride. */
  lemma {:induction false} StrideWalkMembers(shift: nat, stride: nat, n: int, t: int)
    requires stride > 0
    ensures t in StrideWalk(shift, stride, n) <==> shift <= t < n && (t - shift) % stride == 0
    decreases n - shift
  {
    if shift < n {
      var rest := StrideWalk(shift + stride, stride, n);
      StrideWalkMembers(shift + stride, stride, n, t);
      assert StrideWalk(shift, stride, n) == [shift] + rest;
      assert t in StrideWalk(shift, stride, n) <==> t == shift || t in rest;
      if shift + stride <= t {
        ModSub(t - shift, stride);
      } else if shift < t {
        DivModUnique(t - shift, stride, 0, t - shift);
      } else if shift == t {
        DivModUnique(0, stride, 0, 0);
      }
    }
  }

  lemma ModSub(a: int, m: int)
    requires m > 0 && a >= m
    ensures a % m == (a - m) % m
  {
    DivModUnique(a, m, (a - m) / m + 1, (a - m) % m);
  }

  /** For a shift below the stride, the walk visits exactly the `t` in
      `[0, n)` whose residue modulo the stride is the shift. */
  lemma StrideClass(shift: nat, stride: nat, n: int, t: int)
    requires shift < stride
    ensures t in StrideWalk(shift, stride, n) <==> 0 <= t < n && t % stride == shift
  {
    StrideWalkMembers(shift, stride, n, t);
    if 0 <= t {
      var d, r := t / stride, t % stride;
      if shift <= t {
        if r >= shift {
          DivModUnique(t - shift, stride, d, r - shift);
        } else {
          DivModUnique(t - shift, stride, d - 1, r - shift + stride);
        }
      } else {
        DivModUnique(t, stride, 0, t);
      }
    }
  }

  /** The stride classes of a process row partition `[0, n)`: every index is
      visited by exactly one grid column, namely `t % stride`. */
  lemma StrideClassesPartition(stride: nat, n: int, t: int)
    requires stride > 0
    requires 0 <= t < n
    ensures t in StrideWalk(t % stride, stride, n)
    ensures forall shift :: 0 <= shift < stride && t in StrideWalk(shift, stride, n) ==> shift == t % stride
  {
    StrideClass(t % stride, stride, n, t);
    forall shift | 0 <= shift < stride && t in StrideWalk(shift, stride, n)
      ensures shift == t % stride
    {
      StrideClass(shift, stride, n, t);
    }
  }

  /** Extending the range by one index appends it to the walk of the shift
      it is congruent to, and leaves the other walks alone. */
  lemma {:induction false} StrideWalkExtend(shift: nat, stride: nat, n: nat)
    requires stride > 0
    ensures StrideWalk(shift, stride, n + 1)
         == StrideWalk(shift, stride, n) + (if shift <= n && (n - shift) % stride == 0 then [n] else [])
    decreases n - shift
  {
    if shift < n {
      StrideWalkExtend(shift + stride, stride, n);
      if shift + stride <= n {
        ModSub(n - shift, stride);
      } else {
        DivModUnique(n - shift, stride, 0, n - shift);
      }
    } else if shift == n {
      DivModUnique(0, stride, 0, 0);
    }
  }

  /** Number of columns each grid column requests, `|StrideWalk(shift, ...)|`
      for `shift` in `[0, stride)`. */
  function Widths(stride: nat, n: int): (w: seq<int>)
    requires stride > 0
    ensures |w| == stride
  {
    seq(stride, shift requires 0 <= shift => |StrideWalk(shift, stride, n)|)
  }

  /** The requests of one process row cover `[0, n)` without overlap: their
      counts add up to `n`. */
  lemma {:induction false} WidthsSum(stride: nat, n: nat)
    requires stride > 0
    ensures Sum(Widths(stride, n)) == n
  {
    if n == 0 {
      assert Widths(stride, 0) == Zeros(stride);
      SumZeros(stride);
    } else {
      WidthsSum(stride, n - 1);
      var w := Widths(stride, n - 1);
      var q := (n - 1) % stride;
      forall shift | 0 <= shift < stride
        ensures Widths(stride, n)[shift] == w[q := w[q] + 1][shift]
      {
        StrideWalkExtend(shift, stride, n - 1);
        StrideWalkMembers(shift, stride, n, n - 1);
        StrideClass(shift, stride, n, n - 1);
      }
      assert Widths(stride, n) == w[q := w[q] + 1];
      SumIncrement(w, q, 1);
    }
  }
}
