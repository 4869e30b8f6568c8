/** Evaluation of a polynomial over a list of parameters and a multi-index
    basis: input scaling, the basis matrix, its gradient, and the fitted values
    and gradients once coefficients are known. Each operation is stated for the
    configuration a Poly object holds (its parameters and its basis rows). */
module Evaluation {
  import opened Errors
  import opened Matrices
  import opened Parameters
  import opened TensorProducts

  /** What getPolynomialGradient returns: one matrix per direction, or, for a
      one-dimensional basis, the univariate table itself. */
  datatype Gradient = PerDirection(matrices: seq<Matrix>) | Univariate(values: Matrix)

  /* ---------------- Basis columns and univariate tables ---------------- */

  /** The largest degree in column k among the first n basis rows. */
  function MaxDegreeTo(elements: seq<seq<nat>>, k: nat, n: nat): (r: nat)
    requires 0 < n <= |elements|
    requires forall i :: 0 <= i < n ==> k < |elements[i]|
    ensures forall i :: 0 <= i < n ==> elements[i][k] <= r
    ensures exists i :: 0 <= i < n && elements[i][k] == r
  {
    if n == 1 then elements[0][k]
    else
      var m := MaxDegreeTo(elements, k, n - 1);
      if elements[n - 1][k] > m then elements[n - 1][k] else m
  }

  /** np.max of column k of a non-empty basis. */
  function MaxDegree(elements: seq<seq<nat>>, k: nat): (r: nat)
    requires 0 < |elements|
    requires forall i :: 0 <= i < |elements| ==> k < |elements[i]|
    ensures forall i :: 0 <= i < |elements| ==> elements[i][k] <= r
    ensures exists i :: 0 <= i < |elements| && elements[i][k] == r
  {
    MaxDegreeTo(elements, k, |elements|)
  }

  /** d tables whose rows all have n entries. */
  predicate TablesOf(F: seq<Matrix>, d: nat, n: nat) {
    |F| == d && forall k :: 0 <= k < d ==> IsMatrix(F[k], |F[k]|, n)
  }

  /** Every basis row has d degrees, each naming a row of its dimension's table. */
  predicate Indexes(elements: seq<seq<nat>>, F: seq<Matrix>, d: nat) {
    && |F| == d
    && forall i :: 0 <= i < |elements| ==>
         |elements[i]| == d && forall k :: 0 <= k < d ==> elements[i][k] < |F[k]|
  }

  /** The matrix of tensor-product terms: row i, column j is the product over the
      dimensions k of F[k][elements[i][k]][j]. */
  function TermMatrix(F: seq<Matrix>, elements: seq<seq<nat>>, d: nat, n: nat): (P: Matrix)
    requires TablesOf(F, d, n) && Indexes(elements, F, d)
    ensures IsMatrix(P, |elements|, n)
    ensures forall i, j :: 0 <= i < |elements| && 0 <= j < n ==> P[i][j] == Term(F, elements[i], j, d)
  {
    seq(|elements|, i requires 0 <= i < |elements| =>
      seq(n, j requires 0 <= j < n => Term(F, elements[i], j, d)))
  }

  /** The entry-by-entry product of two vectors. */
  function Times(a: seq<real>, b: seq<real>): (c: seq<real>)
    requires |a| == |b|
    ensures |c| == |a|
    ensures forall j :: 0 <= j < |a| ==> c[j] == a[j] * b[j]
  {
    seq(|a|, j requires 0 <= j < |a| => a[j] * b[j])
  }

  /** The row loop shared by getPolynomial and getPolynomialGradient: for each
      basis row a running product `temp`, started at ones, is multiplied by the
      table row of each dimension in turn and stored as the matrix row. With no
      dimensions no row is ever stored, so the matrix stays zero. */
  method ProductRows(F: seq<Matrix>, elements: seq<seq<nat>>, d: nat, n: nat) returns (P: Matrix)
    requires TablesOf(F, d, n) && Indexes(elements, F, d)
    ensures d == 0 ==> P == Zeros(|elements|, n)
    ensures d > 0 ==> P == TermMatrix(F, elements, d, n)
  {
    var m := |elements|;
    P := Zeros(m, n);
    for i := 0 to m
      invariant IsMatrix(P, m, n)
      invariant forall r :: i <= r < m ==> P[r] == Zeros(m, n)[r]
      invariant d > 0 ==> forall r :: 0 <= r < i ==> P[r] == TermMatrix(F, elements, d, n)[r]
      invariant d == 0 ==> P == Zeros(m, n)
    {
      var b := elements[i];
      var temp := seq(n, _ => 1.0);
      ghost var before := P;
      for k := 0 to d
        invariant |temp| == n
        invariant forall j :: 0 <= j < n ==> temp[j] == Term(F, b, j, k)
        invariant IsMatrix(P, m, n)
        invariant forall r :: 0 <= r < m && r != i ==> P[r] == before[r]
        invariant k == 0 ==> P == before
        invariant k > 0 ==> P[i] == temp
      {
        var row := Times(F[k][b[k]], temp);
        P := P[i := row];
        temp := row;
      }
      if d > 0 {
        assert P[i] == TermMatrix(F, elements, d, n)[i];
      }
    }
  }

  /** Value tables V and derivative tables D of the same shapes, d of them,
      rows of n entries, indexed by every basis row. */
  predicate Paired(V: seq<Matrix>, D: seq<Matrix>, elements: seq<seq<nat>>, d: nat, n: nat) {
    && TablesOf(V, d, n) && TablesOf(D, d, n) && Indexes(elements, V, d)
    && forall k :: 0 <= k < d ==> |D[k]| == |V[k]|
  }

  lemma PairedReplace(V: seq<Matrix>, D: seq<Matrix>, elements: seq<seq<nat>>, d: nat, n: nat, v: nat)
    requires Paired(V, D, elements, d, n) && v < d
    ensures TablesOf(V[v := D[v]], d, n) && Indexes(elements, V[v := D[v]], d)
  {
  }

  /** The gradient matrices: for each direction v, the term matrix of the value
      tables with the table of dimension v replaced by its derivative table. */
  function GradientMatrices(V: seq<Matrix>, D: seq<Matrix>, elements: seq<seq<nat>>, d: nat, n: nat): (R: seq<Matrix>)
    requires Paired(V, D, elements, d, n)
    ensures |R| == d
    ensures forall v :: 0 <= v < d ==> IsMatrix(R[v], |elements|, n)
  {
    seq(d, v requires 0 <= v < d =>
      PairedReplace(V, D, elements, d, n, v);
      TermMatrix(V[v := D[v]], elements, d, n))
  }

  /** Entry (i, j) of gradient matrix v is the derivative factor of dimension v
      times the product of the value factors of the other dimensions. */
  lemma GradientMatricesFactor(V: seq<Matrix>, D: seq<Matrix>, elements: seq<seq<nat>>, d: nat, n: nat,
                               v: nat, i: nat, j: nat)
    requires Paired(V, D, elements, d, n) && v < d && i < |elements| && j < n
    ensures GradientMatrices(V, D, elements, d, n)[v][i][j]
         == D[v][elements[i][v]][j] * TermExcept(V, elements[i], j, d, v)
  {
    PairedReplace(V, D, elements, d, n, v);
    TermReplace(V, D[v], elements[i], j, d, v);
  }

  /** The direction loop of getPolynomialGradient: one product loop per
      direction, the derivative table standing in for dimension v. */
  method GradientRows(V: seq<Matrix>, D: seq<Matrix>, elements: seq<seq<nat>>, d: nat, n: nat) returns (R: seq<Matrix>)
    requires Paired(V, D, elements, d, n) && d > 0
    ensures R == GradientMatrices(V, D, elements, d, n)
  {
    R := [];
    for v := 0 to d
      invariant |R| == v
      invariant forall w :: 0 <= w < v ==> R[w] == GradientMatrices(V, D, elements, d, n)[w]
    {
      var G := V[v := D[v]];
      PairedReplace(V, D, elements, d, n, v);
      var P := ProductRows(G, elements, d, n);
      R := R + [P];
    }
  }

  /* ---------------- The object's configuration ---------------- */

  /** The parameters keep the contracts of their own evaluators, and every basis
      row has one degree per parameter. */
  ghost predicate Configured(ps: seq<Parameter>, elements: seq<seq<nat>>) {
    && AllWellFormed(ps)
    && (forall i :: 0 <= i < |elements| ==> |elements[i]| == |ps|)
  }

  /* ---------------- scaleInputs ---------------- */

  /** The rescaled copy of an input matrix with `cols` columns. Column c of a
      Uniform or Beta parameter goes through that parameter's affine map; every
      other column is copied. A Uniform or Beta dimension without a column of the
      input is an index error, unless there are no rows. */
  function ScaledOf(ps: seq<Parameter>, x: Matrix, cols: nat): (r: Result<Matrix>)
    requires AllWellFormed(ps) && IsMatrix(x, |x|, cols)
    ensures r.Err? <==> |x| > 0 && exists c :: cols <= c < |ps| && Rescaled(ps[c])
    ensures r.Err? ==> r.error == ShapeMismatch
    ensures r.Ok? ==> IsMatrix(r.value, |x|, cols)
    ensures r.Ok? ==> forall j, c :: 0 <= j < |x| && 0 <= c < cols && c < |ps| && Rescaled(ps[c])
                        ==> r.value[j][c] == ScaleValue(ps[c], x[j][c])
    ensures r.Ok? ==> forall j, c :: 0 <= j < |x| && 0 <= c < cols && (|ps| <= c || !Rescaled(ps[c]))
                        ==> r.value[j][c] == x[j][c]
  {
    if |x| > 0 && exists c :: cols <= c < |ps| && Rescaled(ps[c]) then Err(ShapeMismatch)
    else Ok(seq(|x|, j requires 0 <= j < |x| =>
              seq(cols, c requires 0 <= c < cols =>
                if c < |ps| then ScaleValue(ps[c], x[j][c]) else x[j][c])))
  }

  /** Scaling loses nothing: mapping every scaled entry back through its
      parameter's inverse map gives the input again. */
  lemma ScaledInvertible(ps: seq<Parameter>, x: Matrix, cols: nat, j: nat, c: nat)
    requires AllWellFormed(ps) && IsMatrix(x, |x|, cols) && ScaledOf(ps, x, cols).Ok?
    requires j < |x| && c < cols && c < |ps|
    ensures UnscaleValue(ps[c], ScaledOf(ps, x, cols).value[j][c]) == x[j][c]
  {
    if Rescaled(ps[c]) {
      UnscaleAfterScale(ps[c], x[j][c]);
    }
  }

  /** The loop of scaleInputs: copies the input, then rewrites it cell by cell,
      dimension by dimension. */
  method ScaleMatrix(ps: seq<Parameter>, x: Matrix, cols: nat) returns (r: Result<Matrix>)
    requires AllWellFormed(ps) && IsMatrix(x, |x|, cols)
    ensures r == ScaledOf(ps, x, cols)
  {
    var rows := |x|;
    var points := x;
    for i := 0 to |ps|
      invariant IsMatrix(points, rows, cols)
      invariant rows > 0 ==> forall c :: cols <= c < i ==> !Rescaled(ps[c])
      invariant forall j, c :: 0 <= j < rows && 0 <= c < cols && c < i ==>
                  points[j][c] == ScaleValue(ps[c], x[j][c])
      invariant forall j, c :: 0 <= j < rows && i <= c < cols ==> points[j][c] == x[j][c]
    {
      for j := 0 to rows
        invariant IsMatrix(points, rows, cols)
        invariant j > 0 ==> i < cols || !Rescaled(ps[i])
        invariant forall j', c :: 0 <= j' < rows && 0 <= c < cols && (c < i || (c == i && j' < j)) ==>
                    points[j'][c] == ScaleValue(ps[c], x[j'][c])
        invariant forall j', c :: 0 <= j' < rows && i <= c < cols && (c != i || j <= j') ==>
                    points[j'][c] == x[j'][c]
      {
        if Rescaled(ps[i]) {
          if i >= cols {
            return Err(ShapeMismatch);
          }
          points := points[j := points[j][i := ScaleValue(ps[i], points[j][i])]];
        }
      }
    }
    ghost var expected := ScaledOf(ps, x, cols);
    assert expected.Ok?;
    forall j | 0 <= j < rows
      ensures expected.value[j] == points[j]
    {
      assert forall c :: 0 <= c < cols ==> expected.value[j][c] == points[j][c];
    }
    assert expected.value == points;
    return Ok(points);
  }

  /* ---------------- getPolynomial ---------------- */

  /** The univariate tables of every dimension at its own column of the points,
      up to the largest degree of that dimension in the basis plus `extra`:
      values, or derivatives when `derivative` holds. */
  function Tables(ps: seq<Parameter>, elements: seq<seq<nat>>, x: Matrix, cols: nat,
                  extra: nat, derivative: bool): (F: seq<Matrix>)
    requires Configured(ps, elements) && IsMatrix(x, |x|, cols) && |ps| <= cols && |elements| > 0
    ensures TablesOf(F, |ps|, |x|) && Indexes(elements, F, |ps|)
    ensures forall k :: 0 <= k < |ps| ==> |F[k]| == MaxDegree(elements, k) + extra + 1
    ensures forall k :: 0 <= k < |ps| ==>
              F[k] == Table(ps[k], Column(x, k), MaxDegree(elements, k) + extra, derivative)
  {
    TablesTo(ps, x, cols, Degrees(elements, |ps|, extra), derivative, |ps|)
  }

  /** The degree each dimension's table goes up to: the largest degree of that
      dimension in the basis, plus `extra`. */
  function Degrees(elements: seq<seq<nat>>, d: nat, extra: nat): (ds: seq<nat>)
    requires 0 < |elements| && forall i :: 0 <= i < |elements| ==> |elements[i]| == d
    ensures |ds| == d && forall k :: 0 <= k < d ==> ds[k] == MaxDegree(elements, k) + extra
  {
    seq(d, k requires 0 <= k < d => MaxDegree(elements, k) + extra)
  }

  /** The tables of the first n dimensions, dimension k up to degree ds[k]. */
  function TablesTo(ps: seq<Parameter>, x: Matrix, cols: nat, ds: seq<nat>, derivative: bool, n: nat)
    : (F: seq<Matrix>)
    requires AllWellFormed(ps) && IsMatrix(x, |x|, cols) && |ps| <= cols && |ds| == |ps| && n <= |ps|
    ensures |F| == n
    ensures forall k :: 0 <= k < n ==> F[k] == Table(ps[k], Column(x, k), ds[k], derivative)
  {
    if n == 0 then []
    else TablesTo(ps, x, cols, ds, derivative, n - 1) + [Table(ps[n - 1], Column(x, n - 1), ds[n - 1], derivative)]
  }

  /** One parameter's value table, or its derivative table, at the given points
      up to degree deg. */
  function Table(p: Parameter, pts: seq<real>, deg: nat, derivative: bool): (T: Matrix)
    requires WellFormed(p)
    ensures IsMatrix(T, deg + 1, |pts|)
  {
    var table := p.orthoPoly(pts, deg);
    if derivative then table.derivatives else table.values
  }

  /** The basis evaluated at the (already scaled) points x.
      - One dimension (the source's shortcut): the parameter's raw table up to
        the basis' largest degree, one row per degree 0..max rather than one row
        per basis term. The table is taken at the first column of x, and an input
        without columns fails here; the source hands the whole point matrix to
        the parameter's evaluator instead.
      - No dimensions: the zero matrix the product loop never writes to.
      - Otherwise: one row per basis term and one column per point, entry (i, j)
        the product over the dimensions k of the table value at degree
        elements[i][k] and point j. Missing columns and an empty basis fail in
        the order the loop over the dimensions meets them. */
  function PolynomialOf(ps: seq<Parameter>, elements: seq<seq<nat>>, x: Matrix, cols: nat): (r: Result<Matrix>)
    requires Configured(ps, elements) && IsMatrix(x, |x|, cols)
    ensures r.Ok? ==> IsMatrix(r.value, |r.value|, |x|)
    ensures |ps| == 1 ==>
      && (r == Err(EmptyBasis) <==> |elements| == 0)
      && (r == Err(ShapeMismatch) <==> 0 < |elements| && cols == 0)
    ensures |ps| == 1 && r.Ok? ==> |r.value| == MaxDegree(elements, 0) + 1
    ensures |ps| == 0 ==> r == Ok(Zeros(|elements|, |x|))
    ensures |ps| >= 2 ==>
      && (r.Ok? <==> |ps| <= cols && 0 < |elements|)
      && (r == Err(EmptyBasis) <==> 0 < cols && |elements| == 0)
      && (r == Err(ShapeMismatch) <==> cols < |ps| && (cols == 0 || 0 < |elements|))
    ensures |ps| >= 2 && r.Ok? ==>
      && |r.value| == |elements|
      && forall i, j :: 0 <= i < |elements| && 0 <= j < |x| ==>
           r.value[i][j] == Term(Tables(ps, elements, x, cols, 0, false), elements[i], j, |ps|)
  {
    var d, m := |ps|, |elements|;
    if d == 1 then
      if m == 0 then Err(EmptyBasis)
      else if cols == 0 then Err(ShapeMismatch)
      else Ok(ps[0].orthoPoly(Column(x, 0), MaxDegree(elements, 0)).values)
    else if d == 0 then Ok(Zeros(m, |x|))
    else if cols == 0 then Err(ShapeMismatch)
    else if m == 0 then Err(EmptyBasis)
    else if cols < d then Err(ShapeMismatch)
    else Ok(TermMatrix(Tables(ps, elements, x, cols, 0, false), elements, d, |x|))
  }

  /** The body of getPolynomial: collects one value table per dimension, then
      runs the product loop. */
  method Polynomial(ps: seq<Parameter>, elements: seq<seq<nat>>, x: Matrix, cols: nat) returns (r: Result<Matrix>)
    requires Configured(ps, elements) && IsMatrix(x, |x|, cols)
    ensures r == PolynomialOf(ps, elements, x, cols)
  {
    var d, m := |ps|, |elements|;
    if d == 1 {
      if m == 0 {
        return Err(EmptyBasis);
      }
      if cols == 0 {
        return Err(ShapeMismatch);
      }
      return Ok(ps[0].orthoPoly(Column(x, 0), MaxDegree(elements, 0)).values);
    }
    var F: seq<Matrix> := [];
    for k := 0 to d
      invariant |F| == k
      invariant k > 0 ==> k <= cols && 0 < m
      invariant forall t :: 0 <= t < k ==> F[t] == ps[t].orthoPoly(Column(x, t), MaxDegree(elements, t)).values
    {
      if k >= cols {
        return Err(ShapeMismatch);
      }
      if m == 0 {
        return Err(EmptyBasis);
      }
      F := F + [ps[k].orthoPoly(Column(x, k), MaxDegree(elements, k)).values];
    }
    if d > 0 {
      assert F == Tables(ps, elements, x, cols, 0, false);
    }
    var P := ProductRows(F, elements, d, |x|);
    return Ok(P);
  }

  /** The one-dimensional shortcut agrees with the general product formula when
      the basis is exactly the degrees 0, 1, ..., m - 1 in order: row i of the
      raw table is then the term of basis row i. */
  lemma UnivariateShortcut(ps: seq<Parameter>, elements: seq<seq<nat>>, x: Matrix, cols: nat)
    requires Configured(ps, elements) && IsMatrix(x, |x|, cols)
    requires |ps| == 1 && 0 < cols && 0 < |elements|
    requires forall i :: 0 <= i < |elements| ==> elements[i] == [i]
    ensures PolynomialOf(ps, elements, x, cols).Ok?
    ensures IsMatrix(PolynomialOf(ps, elements, x, cols).value, |elements|, |x|)
    ensures forall i, j :: 0 <= i < |elements| && 0 <= j < |x| ==>
      PolynomialOf(ps, elements, x, cols).value[i][j]
        == Term(Tables(ps, elements, x, cols, 0, false), elements[i], j, 1)
  {
    var m := |elements|;
    var top := MaxDegree(elements, 0);
    assert elements[m - 1][0] == m - 1;
    var w :| 0 <= w < m && elements[w][0] == top;
    assert elements[w] == [w];
    assert top == m - 1;
  }

  /* ---------------- getPolynomialGradient ---------------- */

  /** The gradient has d directions, each an m x n matrix, or it is a univariate
      table of at least one row of n entries for a single dimension. */
  predicate Shaped(g: Gradient, d: nat, m: nat, n: nat) {
    match g
    case Univariate(V) => d == 1 && 0 < |V| && IsMatrix(V, |V|, n)
    case PerDirection(R) => |R| == d && forall v :: 0 <= v < d ==> IsMatrix(R[v], m, n)
  }

  /** The gradient of the basis at the (already scaled) points x.
      - One dimension (kept as written): the parameter's VALUE table at its
        default degree, taken here to be its order; no derivative is taken.
      - No dimensions: no matrices.
      - Otherwise: one m x n matrix per direction v, built like the basis
        matrix from tables one degree longer, with the derivative table in place
        of the value table for dimension v. Errors as for the basis. */
  function GradientOf(ps: seq<Parameter>, elements: seq<seq<nat>>, x: Matrix, cols: nat): (r: Result<Gradient>)
    requires Configured(ps, elements) && IsMatrix(x, |x|, cols)
    ensures r.Ok? ==> Shaped(r.value, |ps|, |elements|, |x|)
    ensures |ps| == 1 ==>
      && (r.Err? <==> cols == 0) && (r.Err? ==> r.error == ShapeMismatch)
      && (r.Ok? ==> r.value.Univariate? && |r.value.values| == ps[0].order + 1)
    ensures |ps| == 0 ==> r == Ok(PerDirection([]))
    ensures |ps| >= 2 ==>
      && (r.Ok? <==> |ps| <= cols && 0 < |elements|)
      && (r == Err(EmptyBasis) <==> 0 < cols && |elements| == 0)
      && (r == Err(ShapeMismatch) <==> cols < |ps| && (cols == 0 || 0 < |elements|))
    ensures |ps| >= 2 && r.Ok? ==> r.value.PerDirection?
  {
    var d, m := |ps|, |elements|;
    if d == 1 then
      if cols == 0 then Err(ShapeMismatch)
      else Ok(Univariate(ps[0].orthoPoly(Column(x, 0), ps[0].order).values))
    else if d == 0 then Ok(PerDirection([]))
    else if cols == 0 then Err(ShapeMismatch)
    else if m == 0 then Err(EmptyBasis)
    else if cols < d then Err(ShapeMismatch)
    else
      Ok(PerDirection(GradientMatrices(Tables(ps, elements, x, cols, 1, false),
                                       Tables(ps, elements, x, cols, 1, true), elements, d, |x|)))
  }

  /** For two or more dimensions and enough columns, getPolynomialGradient's
      matrices are the gradient matrices of the value and derivative tables one
      degree longer than the basis needs. */
  lemma GradientOfMatrices(ps: seq<Parameter>, elements: seq<seq<nat>>, x: Matrix, cols: nat)
    requires Configured(ps, elements) && IsMatrix(x, |x|, cols)
    requires 2 <= |ps| <= cols && 0 < |elements|
    ensures Paired(Tables(ps, elements, x, cols, 1, false), Tables(ps, elements, x, cols, 1, true),
                   elements, |ps|, |x|)
    ensures GradientOf(ps, elements, x, cols)
         == Ok(PerDirection(GradientMatrices(Tables(ps, elements, x, cols, 1, false),
                                             Tables(ps, elements, x, cols, 1, true), elements, |ps|, |x|)))
  {
  }

  /** V1 keeps every row of V0: each table of V1 extends the one of V0. */
  predicate Extends(V0: seq<Matrix>, V1: seq<Matrix>, d: nat) {
    && |V0| == d && |V1| == d
    && forall k :: 0 <= k < d ==> |V0[k]| <= |V1[k]| && forall r :: 0 <= r < |V0[k]| ==> V1[k][r] == V0[k][r]
  }

  /** When the longer value tables V1 extend the value tables V0, entry (i, j) of
      gradient matrix v is the entry of the term matrix of V0 with the factor of
      dimension v replaced by the derivative: both are that factor times the
      same product of the other dimensions' values. */
  lemma ReplacedFactor(V0: seq<Matrix>, V1: seq<Matrix>, D: seq<Matrix>, elements: seq<seq<nat>>,
                       d: nat, n: nat, v: nat, i: nat, j: nat)
    requires Paired(V1, D, elements, d, n) && TablesOf(V0, d, n) && Indexes(elements, V0, d)
    requires Extends(V0, V1, d)
    requires v < d && i < |elements| && j < n
    ensures GradientMatrices(V1, D, elements, d, n)[v][i][j]
         == D[v][elements[i][v]][j] * TermExcept(V0, elements[i], j, d, v)
    ensures TermMatrix(V0, elements, d, n)[i][j]
         == V0[v][elements[i][v]][j] * TermExcept(V0, elements[i], j, d, v)
  {
    GradientFactorAgrees(V0, V1, D, elements, d, n, v, i, j);
    TermMatrixFactor(V0, elements, d, n, v, i, j);
  }

  lemma GradientFactorAgrees(V0: seq<Matrix>, V1: seq<Matrix>, D: seq<Matrix>, elements: seq<seq<nat>>,
                             d: nat, n: nat, v: nat, i: nat, j: nat)
    requires Paired(V1, D, elements, d, n) && TablesOf(V0, d, n) && Indexes(elements, V0, d)
    requires Extends(V0, V1, d)
    requires v < d && i < |elements| && j < n
    ensures GradientMatrices(V1, D, elements, d, n)[v][i][j]
         == D[v][elements[i][v]][j] * TermExcept(V0, elements[i], j, d, v)
  {
    var b := elements[i];
    forall t | 0 <= t < d && t != v
      ensures V1[t][b[t]][j] == V0[t][b[t]][j]
    {
    }
    TermExceptAgree(V1, V0, b, j, d, v);
    GradientMatricesFactor(V1, D, elements, d, n, v, i, j);
  }

  /** Entry (i, j) of the term matrix is the factor of dimension v times the
      product of the other factors. */
  lemma TermMatrixFactor(F: seq<Matrix>, elements: seq<seq<nat>>, d: nat, n: nat, v: nat, i: nat, j: nat)
    requires TablesOf(F, d, n) && Indexes(elements, F, d)
    requires v < d && i < |elements| && j < n
    ensures TermMatrix(F, elements, d, n)[i][j] == F[v][elements[i][v]][j] * TermExcept(F, elements[i], j, d, v)
  {
    assert TermMatrix(F, elements, d, n)[i][j] == Term(F, elements[i], j, d);
    TermSplit(F, elements[i], j, d, v);
  }

  /** When every parameter's evaluator extends its value table as the degree
      grows (as a three-term recurrence does), the value tables getPolynomialGradient
      reads extend the ones getPolynomial reads. */
  lemma TablesExtend(ps: seq<Parameter>, elements: seq<seq<nat>>, x: Matrix, cols: nat)
    requires Configured(ps, elements) && IsMatrix(x, |x|, cols)
    requires |ps| <= cols && 0 < |elements|
    requires forall k :: 0 <= k < |ps| ==> ExtendsAt(ps[k], Column(x, k), MaxDegree(elements, k))
    ensures Extends(Tables(ps, elements, x, cols, 0, false), Tables(ps, elements, x, cols, 1, false), |ps|)
  {
    var V0, V1 := Tables(ps, elements, x, cols, 0, false), Tables(ps, elements, x, cols, 1, false);
    forall k | 0 <= k < |ps|
      ensures |V0[k]| <= |V1[k]| && forall r :: 0 <= r < |V0[k]| ==> V1[k][r] == V0[k][r]
    {
      TableExtends(ps[k], Column(x, k), MaxDegree(elements, k));
    }
  }

  lemma TableExtends(p: Parameter, pts: seq<real>, deg: nat)
    requires WellFormed(p) && ExtendsAt(p, pts, deg)
    ensures var lo, hi := Table(p, pts, deg, false), Table(p, pts, deg + 1, false);
            |lo| <= |hi| && forall r :: 0 <= r < |lo| ==> hi[r] == lo[r]
  {
  }

  /** For two or more dimensions and enough columns, getPolynomial's matrix is the
      term matrix of the value tables. */
  lemma PolynomialOfMatrix(ps: seq<Parameter>, elements: seq<seq<nat>>, x: Matrix, cols: nat)
    requires Configured(ps, elements) && IsMatrix(x, |x|, cols)
    requires 2 <= |ps| <= cols && 0 < |elements|
    ensures PolynomialOf(ps, elements, x, cols)
         == Ok(TermMatrix(Tables(ps, elements, x, cols, 0, false), elements, |ps|, |x|))
  {
  }

  /** The body of getPolynomialGradient: collects the value and derivative
      tables, then runs one product loop per direction. */
  method PolynomialGradient(ps: seq<Parameter>, elements: seq<seq<nat>>, x: Matrix, cols: nat)
    returns (r: Result<Gradient>)
    requires Configured(ps, elements) && IsMatrix(x, |x|, cols)
    ensures r == GradientOf(ps, elements, x, cols)
  {
    var d, m := |ps|, |elements|;
    if d == 1 {
      if cols == 0 {
        return Err(ShapeMismatch);
      }
      return Ok(Univariate(ps[0].orthoPoly(Column(x, 0), ps[0].order).values));
    }
    var V: seq<Matrix> := [];
    var D: seq<Matrix> := [];
    for k := 0 to d
      invariant |V| == k && |D| == k
      invariant k > 0 ==> k <= cols && 0 < m
      invariant forall t :: 0 <= t < k ==>
                  && V[t] == ps[t].orthoPoly(Column(x, t), MaxDegree(elements, t) + 1).values
                  && D[t] == ps[t].orthoPoly(Column(x, t), MaxDegree(elements, t) + 1).derivatives
    {
      if k >= cols {
        return Err(ShapeMismatch);
      }
      if m == 0 {
        return Err(EmptyBasis);
      }
      var table := ps[k].orthoPoly(Column(x, k), MaxDegree(elements, k) + 1);
      V := V + [table.values];
      D := D + [table.derivatives];
    }
    if d == 0 {
      return Ok(PerDirection([]));
    }
    assert V == Tables(ps, elements, x, cols, 1, false);
    assert D == Tables(ps, elements, x, cols, 1, true);
    var R := GradientRows(V, D, elements, d, |x|);
    return Ok(PerDirection(R));
  }

  /* ---------------- evaluatePolyFit and evaluatePolyGradFit ---------------- */

  /** The fitted polynomial at the points x: the basis matrix at the scaled
      points, transposed and multiplied by the coefficient column, so that entry
      j is the coefficient-weighted sum of column j of the basis matrix. Scaling
      and basis errors come first; then a missing coefficient vector, and one
      whose length is not the number of basis-matrix rows, fail. */
  function FitOf(ps: seq<Parameter>, elements: seq<seq<nat>>, x: Matrix, cols: nat,
                 c: Option<seq<real>>): (r: Result<seq<real>>)
    requires Configured(ps, elements) && IsMatrix(x, |x|, cols)
    ensures r.Ok? ==> |r.value| == |x|
    ensures c.None? ==> r.Err?
  {
    var s := ScaledOf(ps, x, cols);
    if s.Err? then Err(s.error)
    else
      var P := PolynomialOf(ps, elements, s.value, cols);
      if P.Err? then Err(P.error)
      else if c.None? then Err(NotFitted)
      else if |c.value| != |P.value| then Err(ShapeMismatch)
      else Ok(Combine(c.value, P.value, |x|))
  }

  /** The body of evaluatePolyFit. */
  method Fit(ps: seq<Parameter>, elements: seq<seq<nat>>, x: Matrix, cols: nat,
             c: Option<seq<real>>) returns (r: Result<seq<real>>)
    requires Configured(ps, elements) && IsMatrix(x, |x|, cols)
    ensures r == FitOf(ps, elements, x, cols, c)
  {
    var s := ScaleMatrix(ps, x, cols);
    if s.Err? {
      return Err(s.error);
    }
    var P := Polynomial(ps, elements, s.value, cols);
    if P.Err? {
      return Err(P.error);
    }
    if c.None? {
      return Err(NotFitted);
    }
    if |c.value| != |P.value| {
      return Err(ShapeMismatch);
    }
    return Ok(Combine(c.value, P.value, |x|));
  }

  /** The fit is linear in the coefficients: the fit of a * c1 + c2 is a times
      the fit of c1 plus the fit of c2. */
  lemma FitLinear(ps: seq<Parameter>, elements: seq<seq<nat>>, x: Matrix, cols: nat,
                  a: real, c1: seq<real>, c2: seq<real>)
    requires Configured(ps, elements) && IsMatrix(x, |x|, cols)
    requires FitOf(ps, elements, x, cols, Some(c1)).Ok? && |c2| == |c1|
    ensures FitOf(ps, elements, x, cols, Some(c2)).Ok?
    ensures FitOf(ps, elements, x, cols, Some(AddScaled(a, c1, c2)))
         == Ok(AddScaled(a, FitOf(ps, elements, x, cols, Some(c1)).value,
                            FitOf(ps, elements, x, cols, Some(c2)).value))
  {
    var s := ScaledOf(ps, x, cols).value;
    var P := PolynomialOf(ps, elements, s, cols).value;
    CombineLinear(a, c1, c2, P, |x|);
  }

  /** The coefficient vector that is 1 at k and 0 elsewhere fits row k of the
      basis matrix at the scaled points; without coefficients the fit fails as
      not fitted. */
  lemma FitUnitCoefficients(ps: seq<Parameter>, elements: seq<seq<nat>>, x: Matrix, cols: nat,
                            c: seq<real>, k: nat)
    requires Configured(ps, elements) && IsMatrix(x, |x|, cols)
    requires ScaledOf(ps, x, cols).Ok?
    requires PolynomialOf(ps, elements, ScaledOf(ps, x, cols).value, cols).Ok?
    requires |c| == |PolynomialOf(ps, elements, ScaledOf(ps, x, cols).value, cols).value|
    requires k < |c| && forall i :: 0 <= i < |c| ==> c[i] == if i == k then 1.0 else 0.0
    ensures FitOf(ps, elements, x, cols, Some(c))
         == Ok(PolynomialOf(ps, elements, ScaledOf(ps, x, cols).value, cols).value[k])
    ensures FitOf(ps, elements, x, cols, None) == Err(NotFitted)
  {
    var s := ScaledOf(ps, x, cols).value;
    var P := PolynomialOf(ps, elements, s, cols).value;
    var f := Combine(c, P, |x|);
    forall j | 0 <= j < |x|
      ensures f[j] == P[k][j]
    {
      WeightedSumUnit(c, P, j, |c|, k);
    }
    assert f == P[k];
  }

  /** The matrix the gradient fit multiplies for direction v: the row-v matrix
      numpy makes of the univariate table, or matrix v of the per-direction
      matrices. */
  function DirectionRows(g: Gradient, d: nat, m: nat, n: nat, v: nat): (D: Matrix)
    requires Shaped(g, d, m, n) && v < d
    ensures IsMatrix(D, if g.Univariate? then 1 else m, n)
  {
    match g
    case Univariate(V) => [V[v]]
    case PerDirection(R) => R[v]
  }

  /** The coefficient row vector times the gradient matrix of every direction,
      one row per direction; a coefficient vector that does not conform fails. */
  function FitRowsOf(g: Gradient, d: nat, m: nat, n: nat, c: seq<real>): (r: Result<Matrix>)
    requires Shaped(g, d, m, n) && 0 < d
    ensures r.Ok? <==> |c| == |DirectionRows(g, d, m, n, 0)|
    ensures r.Ok? ==> IsMatrix(r.value, d, n)
    ensures r.Ok? ==> forall v :: 0 <= v < d ==> r.value[v] == Combine(c, DirectionRows(g, d, m, n, v), n)
  {
    if |c| != |DirectionRows(g, d, m, n, 0)| then Err(ShapeMismatch)
    else Ok(seq(d, v requires 0 <= v < d => Combine(c, DirectionRows(g, d, m, n, v), n)))
  }

  /** The loop of evaluatePolyGradFit: a zero matrix of one row per direction,
      filled row by row. */
  method FitRows(g: Gradient, d: nat, m: nat, n: nat, c: seq<real>) returns (r: Result<Matrix>)
    requires Shaped(g, d, m, n) && 0 < d
    ensures r == FitRowsOf(g, d, m, n, c)
  {
    var grads := Zeros(d, n);
    for i := 0 to d
      invariant IsMatrix(grads, d, n)
      invariant 0 < i ==> |c| == |DirectionRows(g, d, m, n, 0)|
      invariant forall w :: 0 <= w < i ==> grads[w] == Combine(c, DirectionRows(g, d, m, n, w), n)
    {
      var H := DirectionRows(g, d, m, n, i);
      if |c| != |H| {
        return Err(ShapeMismatch);
      }
      grads := grads[i := Combine(c, H, n)];
    }
    assert grads == FitRowsOf(g, d, m, n, c).value;
    return Ok(grads);
  }

  /** The fitted gradient at the points x: one row per dimension, row v the
      coefficient row vector times the gradient matrix of direction v (for a
      single dimension, times the first row of its table). Scaling and
      gradient errors come first; with no dimensions there are no rows; then a
      missing coefficient vector, and one that does not conform, fail. */
  function GradFitOf(ps: seq<Parameter>, elements: seq<seq<nat>>, x: Matrix, cols: nat,
                     c: Option<seq<real>>): (r: Result<Matrix>)
    requires Configured(ps, elements) && IsMatrix(x, |x|, cols)
    ensures r.Ok? ==> IsMatrix(r.value, |ps|, |x|)
    ensures c.None? && 0 < |ps| ==> r.Err?
  {
    var s := ScaledOf(ps, x, cols);
    if s.Err? then Err(s.error)
    else
      var g := GradientOf(ps, elements, s.value, cols);
      if g.Err? then Err(g.error)
      else if |ps| == 0 then Ok([])
      else if c.None? then Err(NotFitted)
      else FitRowsOf(g.value, |ps|, |elements|, |x|, c.value)
  }

  /** The body of evaluatePolyGradFit. */
  method GradFit(ps: seq<Parameter>, elements: seq<seq<nat>>, x: Matrix, cols: nat,
                 c: Option<seq<real>>) returns (r: Result<Matrix>)
    requires Configured(ps, elements) && IsMatrix(x, |x|, cols)
    ensures r == GradFitOf(ps, elements, x, cols, c)
  {
    var s := ScaleMatrix(ps, x, cols);
    if s.Err? {
      return Err(s.error);
    }
    var g := PolynomialGradient(ps, elements, s.value, cols);
    if g.Err? {
      return Err(g.error);
    }
    if |ps| == 0 {
      return Ok([]);
    }
    if c.None? {
      return Err(NotFitted);
    }
    r := FitRows(g.value, |ps|, |elements|, |x|, c.value);
  }

  /** The gradient fit is linear in the coefficients, row by row. */
  lemma GradFitLinear(ps: seq<Parameter>, elements: seq<seq<nat>>, x: Matrix, cols: nat,
                      a: real, c1: seq<real>, c2: seq<real>)
    requires Configured(ps, elements) && IsMatrix(x, |x|, cols)
    requires GradFitOf(ps, elements, x, cols, Some(c1)).Ok? && |c2| == |c1|
    ensures GradFitOf(ps, elements, x, cols, Some(c2)).Ok?
    ensures GradFitOf(ps, elements, x, cols, Some(AddScaled(a, c1, c2))).Ok?
    ensures forall v :: 0 <= v < |ps| ==>
      GradFitOf(ps, elements, x, cols, Some(AddScaled(a, c1, c2))).value[v]
        == AddScaled(a, GradFitOf(ps, elements, x, cols, Some(c1)).value[v],
                        GradFitOf(ps, elements, x, cols, Some(c2)).value[v])
  {
    if 0 < |ps| {
      var s := ScaledOf(ps, x, cols).value;
      var g := GradientOf(ps, elements, s, cols).value;
      forall v | 0 <= v < |ps|
        ensures Combine(AddScaled(a, c1, c2), DirectionRows(g, |ps|, |elements|, |x|, v), |x|)
             == AddScaled(a, Combine(c1, DirectionRows(g, |ps|, |elements|, |x|, v), |x|),
                             Combine(c2, DirectionRows(g, |ps|, |elements|, |x|, v), |x|))
      {
        CombineLinear(a, c1, c2, DirectionRows(g, |ps|, |elements|, |x|, v), |x|);
      }
    }
  }
}
