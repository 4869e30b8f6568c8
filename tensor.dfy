/** The combinatorics of tensor products: the product of one univariate factor per
    dimension that makes a multivariate basis term, and the mixed-radix numbering
    of the rows of a tensor (Kronecker) product of one-dimensional rules, with
    the last dimension varying fastest. */
module TensorProducts {
  import opened Matrices

  /* ---------------- Products of univariate factors ---------------- */

  /** Factor tables F[t] (one per dimension, rows indexed by degree) have a row
      b[t] with a column j, for every dimension t < k. */
  predicate Covers(F: seq<Matrix>, b: seq<nat>, j: nat, k: nat) {
    && k <= |F| && k <= |b|
    && forall t :: 0 <= t < k ==> b[t] < |F[t]| && j < |F[t][b[t]]|
  }

  /** The tensor-product term F[k-1][b[k-1]][j] * ... * F[0][b[0]][j] * 1, in the
      order in which a running product over the dimensions builds it. */
  function Term(F: seq<Matrix>, b: seq<nat>, j: nat, k: nat): real
    requires Covers(F, b, j, k)
  {
    if k == 0 then 1.0 else F[k - 1][b[k - 1]][j] * Term(F, b, j, k - 1)
  }

  /** The same product with the factor of dimension v left out. */
  function TermExcept(F: seq<Matrix>, b: seq<nat>, j: nat, k: nat, v: nat): real
    requires Covers(F, b, j, k)
  {
    if k == 0 then 1.0
    else (if k - 1 == v then 1.0 else F[k - 1][b[k - 1]][j]) * TermExcept(F, b, j, k - 1, v)
  }

  /** Leaving out a dimension the product does not reach changes nothing. */
  lemma {:induction false} TermExceptBeyond(F: seq<Matrix>, b: seq<nat>, j: nat, k: nat, v: nat)
    requires Covers(F, b, j, k) && k <= v
    ensures TermExcept(F, b, j, k, v) == Term(F, b, j, k)
  {
    if k > 0 {
      TermExceptBeyond(F, b, j, k - 1, v);
    }
  }

  /** A term is the factor of dimension v times the product of all the others. */
  lemma {:induction false} TermSplit(F: seq<Matrix>, b: seq<nat>, j: nat, k: nat, v: nat)
    requires Covers(F, b, j, k) && v < k
    ensures Term(F, b, j, k) == F[v][b[v]][j] * TermExcept(F, b, j, k, v)
  {
    if k - 1 == v {
      TermExceptBeyond(F, b, j, k - 1, v);
    } else {
      TermSplit(F, b, j, k - 1, v);
    }
  }

  lemma {:induction false} TermExceptAgree(F: seq<Matrix>, G: seq<Matrix>, b: seq<nat>, j: nat, k: nat, v: nat)
    requires Covers(F, b, j, k) && Covers(G, b, j, k)
    requires forall t :: 0 <= t < k && t != v ==> F[t][b[t]][j] == G[t][b[t]][j]
    ensures TermExcept(F, b, j, k, v) == TermExcept(G, b, j, k, v)
  {
    if k > 0 {
      TermExceptAgree(F, G, b, j, k - 1, v);
    }
  }

  /** Swapping the table of dimension v for D changes only the factor of
      dimension v: the term becomes D[b[v]][j] times the product of the other
      factors, which are those of F. */
  lemma TermReplace(F: seq<Matrix>, D: Matrix, b: seq<nat>, j: nat, k: nat, v: nat)
    requires Covers(F, b, j, k) && v < k && b[v] < |D| && j < |D[b[v]]|
    ensures Covers(F[v := D], b, j, k)
    ensures Term(F[v := D], b, j, k) == D[b[v]][j] * TermExcept(F, b, j, k, v)
    ensures Term(F, b, j, k) == F[v][b[v]][j] * TermExcept(F, b, j, k, v)
  {
    var G := F[v := D];
    assert Covers(G, b, j, k);
    TermSplit(G, b, j, k, v);
    TermSplit(F, b, j, k, v);
    TermExceptAgree(G, F, b, j, k, v);
  }

  /* ---------------- Mixed-radix numbering ---------------- */

  predicate Positive(qs: seq<nat>) {
    forall t :: 0 <= t < |qs| ==> qs[t] > 0
  }

  /** The product of the first n radices: the number of rows of a tensor
      product over the first n dimensions. */
  function Prod(qs: seq<nat>, n: nat): nat
    requires n <= |qs|
  {
    if n == 0 then 1 else Prod(qs, n - 1) * qs[n - 1]
  }

  /** The first n entries of ds are digits for the radices qs. */
  predicate InBox(ds: seq<nat>, qs: seq<nat>, n: nat) {
    n <= |ds| && n <= |qs| && forall t :: 0 <= t < n ==> ds[t] < qs[t]
  }

  /** The mixed-radix digits of r for the first n radices, the last digit varying
      fastest. */
  function Digits(r: nat, qs: seq<nat>, n: nat): (ds: seq<nat>)
    requires n <= |qs| && Positive(qs)
    ensures |ds| == n
    decreases n
  {
    if n == 0 then [] else Digits(r / qs[n - 1], qs, n - 1) + [r % qs[n - 1]]
  }

  /** The row number of the first n digits of ds. */
  function Encode(ds: seq<nat>, qs: seq<nat>, n: nat): nat
    requires n <= |ds| && n <= |qs|
  {
    if n == 0 then 0 else Encode(ds, qs, n - 1) * qs[n - 1] + ds[n - 1]
  }

  /** The digits of a row number below the product lie in the box. */
  lemma {:induction false} DigitsInBox(r: nat, qs: seq<nat>, n: nat)
    requires n <= |qs| && Positive(qs) && r < Prod(qs, n)
    ensures InBox(Digits(r, qs, n), qs, n)
    decreases n
  {
    if n > 0 {
      var q := qs[n - 1];
      DivModBounds(r, Prod(qs, n - 1), q);
      DigitsInBox(r / q, qs, n - 1);
      var ds := Digits(r, qs, n);
      forall t | 0 <= t < n
        ensures ds[t] < qs[t]
      {
        if t < n - 1 {
          assert ds[t] == Digits(r / q, qs, n - 1)[t];
        }
      }
    }
  }

  /** Digit tuples that agree on their first n entries encode the same row. */
  lemma {:induction false} EncodeAgree(ds: seq<nat>, es: seq<nat>, qs: seq<nat>, n: nat)
    requires n <= |ds| && n <= |es| && n <= |qs|
    requires forall t :: 0 <= t < n ==> ds[t] == es[t]
    ensures Encode(ds, qs, n) == Encode(es, qs, n)
  {
    if n > 0 {
      EncodeAgree(ds, es, qs, n - 1);
    }
  }

  /** Every row number is the encoding of its digits. */
  lemma {:induction false} EncodeDigits(r: nat, qs: seq<nat>, n: nat)
    requires n <= |qs| && Positive(qs) && r < Prod(qs, n)
    ensures Encode(Digits(r, qs, n), qs, n) == r
    decreases n
  {
    if n > 0 {
      var q := qs[n - 1];
      var front := Digits(r / q, qs, n - 1);
      DivModBounds(r, Prod(qs, n - 1), q);
      EncodeDigits(r / q, qs, n - 1);
      EncodeAgree(Digits(r, qs, n), front, qs, n - 1);
      DivModSplit(r, q);
    }
  }

  /** Every digit tuple in the box encodes a row below the product, whose digits
      are that tuple. */
  lemma {:induction false} DigitsEncode(ds: seq<nat>, qs: seq<nat>, n: nat)
    requires Positive(qs) && InBox(ds, qs, n)
    ensures Encode(ds, qs, n) < Prod(qs, n)
    ensures Digits(Encode(ds, qs, n), qs, n) == ds[..n]
  {
    if n > 0 {
      var q := qs[n - 1];
      DigitsEncode(ds, qs, n - 1);
      var e := Encode(ds, qs, n - 1);
      IndexBound(e, Prod(qs, n - 1), q, ds[n - 1]);
      DivModShift(e, q, ds[n - 1]);
      assert ds[..n] == ds[..n - 1] + [ds[n - 1]];
    }
  }

  /* ---------------- Tensor grids of one-dimensional rules ---------------- */

  /** The number of nodes per dimension. */
  function Sizes(ps: seq<seq<real>>): (qs: seq<nat>)
    ensures |qs| == |ps|
    ensures forall k :: 0 <= k < |ps| ==> qs[k] == |ps[k]|
  {
    seq(|ps|, k requires 0 <= k < |ps| => |ps[k]|)
  }

  /** The first n rows of G, each followed by every node of pts in turn. */
  function StepTo(G: Matrix, pts: seq<real>, n: nat): Matrix
    requires n <= |G|
  {
    if n == 0 then []
    else StepTo(G, pts, n - 1) + seq(|pts|, t requires 0 <= t < |pts| => G[n - 1] + [pts[t]])
  }

  /** One step of growing a grid by a dimension: every row of G extended by
      every node of pts, the node varying fastest. */
  function TensorStep(G: Matrix, pts: seq<real>): Matrix {
    StepTo(G, pts, |G|)
  }

  lemma {:induction false} StepToAt(G: Matrix, pts: seq<real>, n: nat, i: nat, t: nat)
    requires n <= |G| && i < n && t < |pts|
    ensures |StepTo(G, pts, n)| == n * |pts|
    ensures i * |pts| + t < |StepTo(G, pts, n)|
    ensures StepTo(G, pts, n)[i * |pts| + t] == G[i] + [pts[t]]
  {
    var q := |pts|;
    StepToLength(G, pts, n);
    StepToLength(G, pts, n - 1);
    IndexBound(i, n, q, t);
    if i < n - 1 {
      StepToAt(G, pts, n - 1, i, t);
    } else {
      assert i * q + t == |StepTo(G, pts, n - 1)| + t;
    }
  }

  lemma {:induction false} StepToLength(G: Matrix, pts: seq<real>, n: nat)
    requires n <= |G|
    ensures |StepTo(G, pts, n)| == n * |pts|
  {
    if n > 0 {
      StepToLength(G, pts, n - 1);
      MulPred(n, |pts|);
    }
  }

  /** A step has |G| * |pts| rows, and row i * |pts| + t is row i of G extended
      by node t. */
  lemma TensorStepAt(G: Matrix, pts: seq<real>, H: Matrix, i: nat, t: nat)
    requires H == TensorStep(G, pts) && i < |G| && t < |pts|
    ensures |H| == |G| * |pts|
    ensures i * |pts| + t < |H| && H[i * |pts| + t] == G[i] + [pts[t]]
  {
    StepToAt(G, pts, |G|, i, t);
  }

  /** The cartesian grid of the node lists of the first n dimensions: one row per
      combination of one node from each, the last dimension varying fastest. */
  function GridTo(ps: seq<seq<real>>, n: nat): Matrix
    requires n <= |ps|
  {
    if n == 0 then [[]] else TensorStep(GridTo(ps, n - 1), ps[n - 1])
  }

  /** The grid has one row per combination, each row of length n, and the row
      numbered by a digit tuple holds, in each dimension k, the node that digit
      k selects. */
  lemma {:induction false} GridToAt(ps: seq<seq<real>>, n: nat, ds: seq<nat>)
    requires n <= |ps| && InBox(ds, Sizes(ps), n)
    ensures |GridTo(ps, n)| == Prod(Sizes(ps), n)
    ensures Encode(ds, Sizes(ps), n) < |GridTo(ps, n)|
    ensures |GridTo(ps, n)[Encode(ds, Sizes(ps), n)]| == n
    ensures forall k :: 0 <= k < n ==> GridTo(ps, n)[Encode(ds, Sizes(ps), n)][k] == ps[k][ds[k]]
  {
    if n > 0 {
      var G := GridTo(ps, n - 1);
      GridToAt(ps, n - 1, ds);
      var e := Encode(ds, Sizes(ps), n - 1);
      TensorStepAt(G, ps[n - 1], GridTo(ps, n), e, ds[n - 1]);
    }
  }

  /** The grid has one row per combination of nodes. */
  lemma {:induction false} GridToLength(ps: seq<seq<real>>, n: nat)
    requires n <= |ps|
    ensures |GridTo(ps, n)| == Prod(Sizes(ps), n)
  {
    if n > 0 {
      var G := GridTo(ps, n - 1);
      GridToLength(ps, n - 1);
      StepToLength(G, ps[n - 1], |G|);
    }
  }

  /** Coordinate k of grid row r is the node of dimension k that digit k of r
      selects: the rows enumerate all combinations in mixed-radix order. */
  lemma GridAt(ps: seq<seq<real>>, n: nat, r: nat)
    requires n <= |ps| && Positive(Sizes(ps)) && r < Prod(Sizes(ps), n)
    ensures InBox(Digits(r, Sizes(ps), n), Sizes(ps), n)
    ensures r < |GridTo(ps, n)| && |GridTo(ps, n)[r]| == n
    ensures forall k :: 0 <= k < n ==> GridTo(ps, n)[r][k] == ps[k][Digits(r, Sizes(ps), n)[k]]
  {
    DigitsInBox(r, Sizes(ps), n);
    EncodeDigits(r, Sizes(ps), n);
    GridToAt(ps, n, Digits(r, Sizes(ps), n));
  }

  /* ---------------- Tensor products of one-dimensional weights ---------------- */

  /** The Kronecker product of the weight vectors of the first n dimensions, the
      last varying fastest. */
  function KronAllTo(ws: seq<seq<real>>, n: nat): seq<real>
    requires n <= |ws|
  {
    if n == 0 then [1.0] else Kron(KronAllTo(ws, n - 1), ws[n - 1])
  }

  /** The product over the first n dimensions of the weight each digit selects. */
  function WeightProduct(ws: seq<seq<real>>, ds: seq<nat>, n: nat): real
    requires InBox(ds, Sizes(ws), n)
  {
    if n == 0 then 1.0 else WeightProduct(ws, ds, n - 1) * ws[n - 1][ds[n - 1]]
  }

  /** The product rule has one weight per grid row, and the weight numbered by a
      digit tuple is the product of the one-dimensional weights the digits
      select. */
  lemma {:induction false} KronAllToAt(ws: seq<seq<real>>, n: nat, ds: seq<nat>)
    requires n <= |ws| && InBox(ds, Sizes(ws), n)
    ensures Encode(ds, Sizes(ws), n) < |KronAllTo(ws, n)|
    ensures KronAllTo(ws, n)[Encode(ds, Sizes(ws), n)] == WeightProduct(ws, ds, n)
  {
    if n > 0 {
      var A, w := KronAllTo(ws, n - 1), ws[n - 1];
      KronAllToAt(ws, n - 1, ds);
      var e, d := Encode(ds, Sizes(ws), n - 1), ds[n - 1];
      assert Encode(ds, Sizes(ws), n) == e * |w| + d;
      KronPair(A, w, KronAllTo(ws, n), e, d);
      MulCongruence(A[e], WeightProduct(ws, ds, n - 1), w[d]);
    }
  }

  /** The product rule has one weight per grid row. */
  lemma {:induction false} KronAllToLength(ws: seq<seq<real>>, n: nat)
    requires n <= |ws|
    ensures |KronAllTo(ws, n)| == Prod(Sizes(ws), n)
  {
    if n > 0 {
      var A, w := KronAllTo(ws, n - 1), ws[n - 1];
      KronAllToLength(ws, n - 1);
      KronLength(A, w);
    }
  }

  /** Weight r of the product rule is the product of the one-dimensional
      weights that the digits of r select. */
  lemma KronAllAt(ws: seq<seq<real>>, n: nat, r: nat)
    requires n <= |ws| && Positive(Sizes(ws)) && r < Prod(Sizes(ws), n)
    ensures InBox(Digits(r, Sizes(ws), n), Sizes(ws), n)
    ensures r < |KronAllTo(ws, n)|
    ensures KronAllTo(ws, n)[r] == WeightProduct(ws, Digits(r, Sizes(ws), n), n)
  {
    DigitsInBox(r, Sizes(ws), n);
    EncodeDigits(r, Sizes(ws), n);
    KronAllToLength(ws, n);
    KronAllToAt(ws, n, Digits(r, Sizes(ws), n));
  }

  /** The product of the sums of the weight vectors of the first n dimensions. */
  function ProductOfSums(ws: seq<seq<real>>, n: nat): real
    requires n <= |ws|
  {
    if n == 0 then 1.0 else ProductOfSums(ws, n - 1) * Sum(ws[n - 1])
  }

  /** The weights of the product rule sum to the product of the one-dimensional
      sums. */
  lemma {:induction false} SumKronAll(ws: seq<seq<real>>, n: nat)
    requires n <= |ws|
    ensures Sum(KronAllTo(ws, n)) == ProductOfSums(ws, n)
  {
    if n == 0 {
      assert SumTo([1.0], 0) == 0.0;
    } else {
      var A := KronAllTo(ws, n - 1);
      SumKron(A, ws[n - 1]);
      SumKronAll(ws, n - 1);
      MulCongruence(Sum(A), ProductOfSums(ws, n - 1), Sum(ws[n - 1]));
    }
  }

  /** Normalised one-dimensional rules give a normalised product rule. */
  lemma {:induction false} ProductOfUnitSums(ws: seq<seq<real>>, n: nat)
    requires n <= |ws|
    requires forall k :: 0 <= k < n ==> Sum(ws[k]) == 1.0
    ensures ProductOfSums(ws, n) == 1.0
  {
    if n > 0 {
      ProductOfUnitSums(ws, n - 1);
    }
  }
}
