/** Sums and zero vectors over integer sequences: the per-rank size vectors
    (`rRowSizes`, `sendSizes`, ...) that the exchange code keeps. */
module SeqMath {

  /** Sum of a sequence, accumulated left to right. */
  function Sum(s: seq<int>): int
  {
    if |s| == 0 then 0 else Sum(s[..|s| - 1]) + s[|s| - 1]
  }

  /** `vector<int>(n, 0)`. */
  function Zeros(n: nat): (z: seq<int>)
    ensures |z| == n
    ensures forall q :: 0 <= q < n ==> z[q] == 0
  {
    seq(n, _ => 0)
  }

  predicate NonNegative(s: seq<int>)
  {
    forall q :: 0 <= q < |s| ==> s[q] >= 0
  }

  lemma {:induction false} SumAppend(a: seq<int>, b: seq<int>)
    ensures Sum(a + b) == Sum(a) + Sum(b)
    decreases |b|
  {
    if |b| == 0 {
      assert a + b == a;
    } else {
      var b' := b[..|b| - 1];
      assert (a + b)[..|a + b| - 1] == a + b';
      SumAppend(a, b');
    }
  }

  lemma {:induction false} SumZeros(n: nat)
    ensures Sum(Zeros(n)) == 0
  {
    if n > 0 {
      assert Zeros(n)[..n - 1] == Zeros(n - 1);
      SumZeros(n - 1);
    }
  }

  /** Incrementing one slot raises the sum by one. */
  lemma {:induction false} SumIncrement(s: seq<int>, q: nat, d: int)
    requires q < |s|
    ensures Sum(s[q := s[q] + d]) == Sum(s) + d
    decreases |s|
  {
    var t := s[q := s[q] + d];
    if q == |s| - 1 {
      assert t[..|t| - 1] == s[..|s| - 1];
    } else {
      assert t[..|t| - 1] == s[..|s| - 1][q := s[q] + d];
      SumIncrement(s[..|s| - 1], q, d);
    }
  }

  /** A prefix of a non-negative sequence sums to no more than a longer prefix. */
  lemma {:induction false} SumPrefixMonotone(s: seq<int>, i: nat, j: nat)
    requires NonNegative(s)
    requires i <= j <= |s|
    ensures Sum(s[..i]) <= Sum(s[..j])
    decreases j - i
  {
    if i < j {
      assert s[..j][..j - 1] == s[..j - 1];
      SumPrefixMonotone(s, i, j - 1);
    }
  }

  lemma {:induction false} SumNonNegative(s: seq<int>)
    requires NonNegative(s)
    ensures Sum(s) >= 0
  {
    SumPrefixMonotone(s, 0, |s|);
    assert s[..|s|] == s;
  }
}
