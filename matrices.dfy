/** Dense real matrices and vectors: the index-level meaning of the numpy operations
    the polynomial core uses (shapes, columns, sums, vector Kronecker products and
    the coefficient-weighted sum of matrix rows). */
module Matrices {

  /** A matrix as a sequence of rows. */
  type Matrix = seq<seq<real>>

  /** `a` has `rows` rows of `cols` entries each. */
  predicate IsMatrix(a: Matrix, rows: nat, cols: nat) {
    |a| == rows && forall i :: 0 <= i < rows ==> |a[i]| == cols
  }

  /** A matrix of the given shape filled with zeros. */
  function Zeros(rows: nat, cols: nat): (z: Matrix)
    ensures IsMatrix(z, rows, cols)
    ensures forall i, j :: 0 <= i < rows && 0 <= j < cols ==> z[i][j] == 0.0
  {
    seq(rows, _ => seq(cols, _ => 0.0))
  }

  /** Column `k` of `a`. */
  function Column(a: Matrix, k: nat): (c: seq<real>)
    requires forall i :: 0 <= i < |a| ==> k < |a[i]|
    ensures |c| == |a|
    ensures forall i :: 0 <= i < |a| ==> c[i] == a[i][k]
  {
    seq(|a|, i requires 0 <= i < |a| => a[i][k])
  }

  /** The sum of the first n entries of s. */
  function SumTo(s: seq<real>, n: nat): real
    requires n <= |s|
  {
    if n == 0 then 0.0 else SumTo(s, n - 1) + s[n - 1]
  }

  /** The sum of the entries of a vector. */
  function Sum(s: seq<real>): real {
    SumTo(s, |s|)
  }

  /** Vectors that agree on their first n entries have the same partial sum. */
  lemma {:induction false} SumToAgree(s: seq<real>, t: seq<real>, n: nat)
    requires n <= |s| && n <= |t|
    requires forall i :: 0 <= i < n ==> s[i] == t[i]
    ensures SumTo(s, n) == SumTo(t, n)
  {
    if n > 0 {
      SumToAgree(s, t, n - 1);
    }
  }

  lemma {:induction false} SumToAppend(s: seq<real>, t: seq<real>, k: nat)
    requires k <= |t|
    ensures SumTo(s + t, |s| + k) == Sum(s) + SumTo(t, k)
  {
    if k == 0 {
      SumToAgree(s + t, s, |s|);
    } else {
      SumToAppend(s, t, k - 1);
    }
  }

  /** The sum of a concatenation is the sum of the sums. */
  lemma SumAppend(s: seq<real>, t: seq<real>)
    ensures Sum(s + t) == Sum(s) + Sum(t)
  {
    SumToAppend(s, t, |t|);
  }

  lemma {:induction false} SumToConstant(n: nat, c: real, k: nat)
    requires k <= n
    ensures SumTo(seq(n, _ => c), k) == k as real * c
  {
    if k > 0 {
      SumToConstant(n, c, k - 1);
    }
  }

  /** A constant vector of length n sums to n times its entry. */
  lemma SumConstant(n: nat, c: real)
    ensures Sum(seq(n, _ => c)) == n as real * c
  {
    SumToConstant(n, c, n);
  }

  /** Every entry of b multiplied by x. */
  function ScaleVec(x: real, b: seq<real>): (s: seq<real>)
    ensures |s| == |b|
  {
    seq(|b|, t requires 0 <= t < |b| => x * b[t])
  }

  lemma {:induction false} SumToScaled(x: real, b: seq<real>, n: nat)
    requires n <= |b|
    ensures SumTo(ScaleVec(x, b), n) == x * SumTo(b, n)
  {
    if n > 0 {
      SumToScaled(x, b, n - 1);
      MulAdd(SumTo(b, n), SumTo(b, n - 1), b[n - 1], x);
    }
  }

  /** Multiplying every entry by x multiplies the sum by x. */
  lemma SumScaled(x: real, b: seq<real>)
    ensures Sum(ScaleVec(x, b)) == x * Sum(b)
  {
    SumToScaled(x, b, |b|);
  }

  /** Multiplication distributes over a sum already given a name. */
  lemma MulAdd(u: real, p: real, y: real, q: real)
    requires u == p + y
    ensures q * u == q * p + q * y
  {
  }

  /** Equal factors give equal products. */
  lemma MulCongruence(u: real, v: real, q: real)
    requires u == v
    ensures u * q == v * q
  {
  }

  lemma DivModBounds(r: nat, p: nat, q: nat)
    requires r < p * q
    ensures q > 0 && r / q < p && r % q < q
  {
  }

  lemma DivModSplit(r: nat, q: nat)
    requires q > 0
    ensures r == (r / q) * q + r % q
  {
  }

  /** Division and remainder of p * q + t by q, for t < q. */
  lemma DivModShift(p: nat, q: nat, t: nat)
    requires t < q
    ensures (p * q + t) / q == p && (p * q + t) % q == t
  {
    var r := p * q + t;
    var k, s := r / q, r % q;
    assert q * (k - p) == t - s;
    SmallMultiple(q, k - p);
  }

  lemma SmallMultiple(q: int, z: int)
    requires q > 0 && -q < q * z < q
    ensures z == 0
  {
  }

  /** Row i of p rows of q entries, entry t, lies inside the p * q entries. */
  lemma IndexBound(i: nat, p: nat, q: nat, t: nat)
    requires i < p && t < q
    ensures i * q + t < p * q
  {
    assert i * q <= (p - 1) * q == p * q - q;
  }

  /** The Kronecker product of the first n entries of a with b: one copy of b per
      entry of a, scaled by that entry, in the order of a. */
  function KronTo(a: seq<real>, b: seq<real>, n: nat): seq<real>
    requires n <= |a|
  {
    if n == 0 then [] else KronTo(a, b, n - 1) + ScaleVec(a[n - 1], b)
  }

  /** The Kronecker product of two vectors (numpy's kron on 1-d arrays). */
  function Kron(a: seq<real>, b: seq<real>): seq<real> {
    KronTo(a, b, |a|)
  }

  lemma {:induction false} KronToLength(a: seq<real>, b: seq<real>, n: nat)
    requires n <= |a|
    ensures |KronTo(a, b, n)| == n * |b|
  {
    if n > 0 {
      KronToLength(a, b, n - 1);
      MulPred(n, |b|);
    }
  }

  lemma MulPred(n: nat, q: nat)
    requires n > 0
    ensures n * q == (n - 1) * q + q
  {
  }

  /** Entry i * |b| + t of the (partial) Kronecker product is a[i] * b[t]. */
  lemma {:induction false} KronToPair(a: seq<real>, b: seq<real>, n: nat, i: nat, t: nat)
    requires n <= |a| && i < n && t < |b|
    ensures i * |b| + t < |KronTo(a, b, n)|
    ensures KronTo(a, b, n)[i * |b| + t] == a[i] * b[t]
  {
    var q := |b|;
    var X := KronTo(a, b, n - 1);
    IndexBound(i, n, q, t);
    KronToLength(a, b, n);
    KronToLength(a, b, n - 1);
    var r := i * q + t;
    if i < n - 1 {
      KronToPair(a, b, n - 1, i, t);
      assert r < |X|;
    } else {
      assert r == |X| + t;
    }
  }

  /** The Kronecker product has |a| * |b| entries, and entry i * |b| + t is
      a[i] * b[t]: the entry of b varies fastest. */
  lemma KronPair(a: seq<real>, b: seq<real>, k: seq<real>, i: nat, t: nat)
    requires k == Kron(a, b) && i < |a| && t < |b|
    ensures |k| == |a| * |b|
    ensures i * |b| + t < |k| && k[i * |b| + t] == a[i] * b[t]
  {
    KronToLength(a, b, |a|);
    KronToPair(a, b, |a|, i, t);
  }

  lemma KronLength(a: seq<real>, b: seq<real>)
    ensures |Kron(a, b)| == |a| * |b|
  {
    KronToLength(a, b, |a|);
  }

  lemma {:induction false} SumKronTo(a: seq<real>, b: seq<real>, n: nat)
    requires n <= |a|
    ensures Sum(KronTo(a, b, n)) == SumTo(a, n) * Sum(b)
  {
    if n > 0 {
      SumKronTo(a, b, n - 1);
      SumAppend(KronTo(a, b, n - 1), ScaleVec(a[n - 1], b));
      SumScaled(a[n - 1], b);
      MulAdd(SumTo(a, n), SumTo(a, n - 1), a[n - 1], Sum(b));
    }
  }

  /** The sum of a Kronecker product is the product of the sums. */
  lemma SumKron(a: seq<real>, b: seq<real>)
    ensures Sum(Kron(a, b)) == Sum(a) * Sum(b)
  {
    SumKronTo(a, b, |a|);
  }

  /** The coefficient-weighted sum of the first m rows of P at column j:
      sum over i < m of c[i] * P[i][j]. */
  function WeightedSum(c: seq<real>, P: Matrix, j: nat, m: nat): real
    requires m <= |c| && m <= |P|
    requires forall i :: 0 <= i < m ==> j < |P[i]|
  {
    if m == 0 then 0.0 else WeightedSum(c, P, j, m - 1) + c[m - 1] * P[m - 1][j]
  }

  /** The row vector c^T P of a length-|c| coefficient vector and a |c| x n matrix:
      one coefficient-weighted sum of the rows of P per column. */
  function Combine(c: seq<real>, P: Matrix, n: nat): (r: seq<real>)
    requires IsMatrix(P, |c|, n)
    ensures |r| == n
  {
    seq(n, j requires 0 <= j < n => WeightedSum(c, P, j, |c|))
  }

  /** a * c1 + c2, entry by entry. */
  function AddScaled(a: real, c1: seq<real>, c2: seq<real>): (c: seq<real>)
    requires |c1| == |c2|
    ensures |c| == |c1|
    ensures forall i :: 0 <= i < |c| ==> c[i] == a * c1[i] + c2[i]
  {
    seq(|c1|, i requires 0 <= i < |c1| => a * c1[i] + c2[i])
  }

  lemma {:induction false} WeightedSumLinear(a: real, c1: seq<real>, c2: seq<real>, P: Matrix, j: nat, m: nat)
    requires |c1| == |c2| && m <= |c1| && m <= |P|
    requires forall i :: 0 <= i < m ==> j < |P[i]|
    ensures WeightedSum(AddScaled(a, c1, c2), P, j, m)
         == a * WeightedSum(c1, P, j, m) + WeightedSum(c2, P, j, m)
  {
    if m > 0 {
      WeightedSumLinear(a, c1, c2, P, j, m - 1);
    }
  }

  /** The weighted row sum is linear in the coefficients. */
  lemma CombineLinear(a: real, c1: seq<real>, c2: seq<real>, P: Matrix, n: nat)
    requires |c1| == |c2| && IsMatrix(P, |c1|, n)
    ensures Combine(AddScaled(a, c1, c2), P, n)
         == AddScaled(a, Combine(c1, P, n), Combine(c2, P, n))
  {
    forall j | 0 <= j < n
      ensures Combine(AddScaled(a, c1, c2), P, n)[j]
           == a * Combine(c1, P, n)[j] + Combine(c2, P, n)[j]
    {
      WeightedSumLinear(a, c1, c2, P, j, |c1|);
    }
  }

  /** The unit coefficient vector e_k selects row k. */
  lemma {:induction false} WeightedSumUnit(c: seq<real>, P: Matrix, j: nat, m: nat, k: nat)
    requires m <= |c| && m <= |P| && k < |c|
    requires forall i :: 0 <= i < m ==> j < |P[i]|
    requires forall i :: 0 <= i < |c| ==> c[i] == if i == k then 1.0 else 0.0
    ensures WeightedSum(c, P, j, m) == if k < m then P[k][j] else 0.0
  {
    if m > 0 {
      WeightedSumUnit(c, P, j, m - 1, k);
    }
  }
}
