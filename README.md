# A Dafny model of the `Poly` class of Effective Quadratures

`Poly` (equadratures/poly.py) is the parent class of the polynomial
approximations in Effective Quadratures. An object holds a list of univariate
parameters and a multi-index basis. It

- rescales physical inputs into each parameter's canonical domain (`scaleInputs`),
- evaluates the multivariate basis at a set of points as the product of the
  parameters' univariate orthogonal polynomials (`getPolynomial`), and its
  gradient one direction at a time (`getPolynomialGradient`),
- builds quadrature rules: the tensor grid of the parameters' one-dimensional
  rules (`getTensorQuadratureRule`), and either that grid or a quasi-Monte
  Carlo sample rule (`getQuadratureRule`),
- evaluates the fitted polynomial and its gradient once coefficients are set
  (`evaluatePolyFit`, `evaluatePolyGradFit`).

The model is laid out in these modules:

- `Errors` (errors.dfy): the `Result`/`Option` wrappers and the ways an
  operation can fail.
- `Matrices` (matrices.dfy): dense real matrices. It holds the index-level
  meaning of the numpy operations used: columns, sums, `np.kron` on vectors,
  and the product of a coefficient row with a matrix.
- `Parameters` (parameters.dfy): the parameter as the core sees it, and the
  affine scaling map. The parameter's own evaluator, one-dimensional rule and
  sampler are carried as given functions. `WellFormed` states the shapes they
  promise.
- `TensorProducts` (tensor.dfy): products of table factors over the
  dimensions, mixed-radix numbering, cartesian grids and Kronecker products of
  many weight vectors.
- `RuleSelection` (selection.dfy): the rule-choice policy of
  `getQuadratureRule`.
- `Evaluation` (evaluation.dfy): scaling, the basis matrix, the gradient and
  the two fits. Each has a specification function (`…Of`) and a method, with
  the source's loops where it has them, proved equal to it.
- `Quadrature` (quadrature.dfy): the tensor rule, the quasi-Monte Carlo rule
  and the choice between them, again as a function plus a looping method.
- `PolyModel` (poly.dfy): the class `Poly`. The configuration fields are
  `const`; `coefficients` and `designMatrix` are mutable and unset (`None`)
  until a setter runs. Its methods pass the object's state to the modules above.

Floating point is modelled by `real`. numpy arrays are sequences of rows.
Index errors and missing attributes that the Python raises become `Err` values:

- `ShapeMismatch`: a column index out of range, or coefficients that do not conform.
- `EmptyBasis`: `np.max` of an empty array.
- `NotFitted`: reading `coefficients` before it is set.
- `NoDefaultRule`: `options.lower()` on `None`, at exactly eight dimensions.
- `NoTensorColumns`: slicing the seed column off a zero-dimensional grid.

## Model

| member | source | states |
|---|---|---|
| PolyModel.Poly.constructor | equadratures/poly.py:16-23 | collects one order per parameter, in order; the basis records those orders; dimensions is the parameter count; no coefficients or design matrix are set |
| PolyModel.Poly.SetCoefficients | equadratures/poly.py:25-35 | only the coefficients change, to the given vector |
| PolyModel.Poly.SetDesignMatrix | equadratures/poly.py:37-47 | only the design matrix changes, to the given matrix |
| PolyModel.Poly.Clone | equadratures/poly.py:49-58 | a fresh object with the same parameters, basis, dimensions and orders, and no coefficients or design matrix |
| PolyModel.FitsOfClone | equadratures/poly.py:49-58 | neither fit of a clone can be evaluated: no coefficients are set (the gradient fit, once there is a dimension); when the points scale and the basis (or its gradient) evaluates, the error is NotFitted |
| PolyModel.Poly.ScaleInputs | equadratures/poly.py:60-80 | returns exactly `Evaluation.ScaledOf` of the object's parameters |
| PolyModel.Poly.GetPolynomial | equadratures/poly.py:82-106 | returns exactly `Evaluation.PolynomialOf` of the object's parameters and basis |
| PolyModel.Poly.GetPolynomialGradient | equadratures/poly.py:108-141 | returns exactly `Evaluation.GradientOf` of the object's parameters and basis |
| PolyModel.Poly.GetTensorQuadratureRule | equadratures/poly.py:143-171 | returns `Quadrature.TensorRuleOf` at the given orders, or at the object's own orders when none are given |
| PolyModel.Poly.GetQuadratureRule | equadratures/poly.py:178-194 | returns `Quadrature.QuadratureRuleOf` with the basis orders |
| PolyModel.Poly.EvaluatePolyFit | equadratures/poly.py:206-207 | returns `Evaluation.FitOf` with the coefficients currently set |
| PolyModel.Poly.EvaluatePolyGradFit | equadratures/poly.py:196-201 | returns `Evaluation.GradFitOf` with the coefficients currently set |
| Parameters.ScaleValue | equadratures/poly.py:76-79 | Uniform maps lower to -1 and upper to 1; Beta maps lower to 0 and upper to 1; every other kind is left unchanged |
| Parameters.ScaleStrictlyIncreasing | equadratures/poly.py:76-79 | for increasing bounds the scaling map is strictly increasing |
| Parameters.UnscaleAfterScale | equadratures/poly.py:76-79 | the inverse affine map undoes scaling |
| Parameters.ScaleAfterUnscale | equadratures/poly.py:76-79 | scaling undoes the inverse map, so scaling is a bijection |
| Evaluation.ScaledOf | equadratures/poly.py:60-80 | fails (index error) exactly when there are rows and a Uniform or Beta dimension has no column; otherwise the same shape, rescaled cells are mapped and all other cells copied |
| Evaluation.ScaledInvertible | equadratures/poly.py:60-80 | every scaled cell maps back to the input cell |
| Evaluation.ScaleMatrix | equadratures/poly.py:70-80 | the cell-by-cell loop computes `ScaledOf` |
| Evaluation.MaxDegree | equadratures/poly.py:91 | the largest degree of a basis column: an upper bound attained by some row |
| Evaluation.Tables | equadratures/poly.py:94-97 | one table per dimension at its own column, up to that dimension's largest basis degree (plus one for the gradient), and every basis degree names a row of it |
| Evaluation.ProductRows | equadratures/poly.py:99-106 | the row loop computes the term matrix: entry (i, j) is the product over the dimensions of the table value at degree elements[i][k] and point j; with no dimensions the matrix stays zero |
| Evaluation.PolynomialOf | equadratures/poly.py:82-106 | for one dimension: the raw table up to the largest degree, failing without a basis or without an input column; for none: the zero matrix; for two or more: ok exactly when there are enough columns and a non-empty basis, then one row per basis term, each entry the product formula, with every error case characterised |
| Evaluation.Polynomial | equadratures/poly.py:82-106 | the table and product loops compute `PolynomialOf` |
| Evaluation.UnivariateShortcut | equadratures/poly.py:90-92 | the one-dimensional shortcut agrees with the product formula when the basis is the degrees 0..m-1 in order |
| Evaluation.PolynomialOfMatrix | equadratures/poly.py:94-106 | for two or more dimensions with enough columns and a non-empty basis, the basis matrix is the term matrix of the value tables |
| Evaluation.GradientMatricesFactor | equadratures/poly.py:128-140 | entry (i, j) of gradient matrix v is the derivative factor of dimension v times the product of the other dimensions' value factors |
| Evaluation.GradientRows | equadratures/poly.py:127-141 | the direction loop computes one gradient matrix per direction |
| Evaluation.GradientOf | equadratures/poly.py:108-141 | for one dimension: the value table (no derivative), failing only without a column; for none: no matrices; for two or more: d matrices of m rows and n columns, exactly when there are enough columns and a basis, and with the same error cases as the basis matrix |
| Evaluation.GradientOfMatrices | equadratures/poly.py:120-141 | for two or more dimensions the gradient is the gradient matrices of the value and derivative tables one degree longer |
| Evaluation.ReplacedFactor | equadratures/poly.py:133-138 | when the longer value tables extend the shorter ones, gradient entry (i, j) of direction v and basis entry (i, j) share all factors except dimension v: derivative against value |
| Evaluation.TablesExtend | equadratures/poly.py:97 | when each evaluator extends its table as the degree grows, the gradient's value tables extend the basis matrix's |
| Evaluation.PolynomialGradient | equadratures/poly.py:108-141 | the table and direction loops compute `GradientOf` |
| Evaluation.FitOf | equadratures/poly.py:206-207 | one value per point; without coefficients the fit fails |
| Evaluation.Fit | equadratures/poly.py:206-207 | the body computes `FitOf` |
| Evaluation.FitLinear | equadratures/poly.py:207 | the fit of a*c1 + c2 is a times the fit of c1 plus the fit of c2 |
| Evaluation.FitUnitCoefficients | equadratures/poly.py:207 | unit coefficients e_k fit row k of the basis matrix; no coefficients give NotFitted |
| Evaluation.FitRowsOf | equadratures/poly.py:198-201 | ok exactly when the coefficients conform; then one row per direction, row v the coefficient row times gradient matrix v |
| Evaluation.FitRows | equadratures/poly.py:198-201 | the row-filling loop computes `FitRowsOf` |
| Evaluation.GradFitOf | equadratures/poly.py:196-201 | one row per dimension and one column per point; without coefficients it fails once there is a dimension |
| Evaluation.GradFit | equadratures/poly.py:196-201 | the body computes `GradFitOf` |
| Evaluation.GradFitLinear | equadratures/poly.py:200 | the gradient fit is linear in the coefficients, row by row |
| TensorProducts.GridAt | equadratures/poly.py:159-164 | coordinate k of grid row r is the local node that the mixed-radix digit k of r selects, with the last dimension fastest |
| TensorProducts.KronAllAt | equadratures/poly.py:157 | weight r of the repeated Kronecker product is the product of the local weights the digits of r select |
| TensorProducts.SumKronAll | equadratures/poly.py:157 | the Kronecker weights sum to the product of the local sums |
| Quadrature.TensorRuleOf | equadratures/poly.py:143-171 | ok exactly when there is a dimension and an order for each; no dimensions fail at the seed-column slice; too few orders is an index error |
| Quadrature.TensorRule | equadratures/poly.py:143-171 | the loop grows the seeded grid and the weight product and drops the seed column, computing `TensorRuleOf` |
| Quadrature.LocalSizes | equadratures/poly.py:156 | order o gives o + 1 local nodes, as many as local weights |
| Quadrature.TensorRuleShape | equadratures/poly.py:143-171 | as many points as weights, the product of the local node counts; each point has one coordinate per dimension |
| Quadrature.TensorRuleComplete | equadratures/poly.py:153-168 | every combination of one local node per dimension is the point at the row its digits encode, and no other row has those digits |
| Quadrature.TensorRuleLayout | equadratures/poly.py:153-168 | point r holds the local nodes its digits select and its weight is the product of the matching local weights |
| Quadrature.TensorWeightSum | equadratures/poly.py:157 | the weights sum to the product of the local sums, so to one when every local rule is normalised |
| Quadrature.QmcRuleOf | equadratures/poly.py:184-190 | 20000 points of d coordinates, coordinate i being parameter i's samples; each weight is 1/20000 |
| Quadrature.QmcWeightSum | equadratures/poly.py:187 | the quasi-Monte Carlo weights sum to one |
| Quadrature.QmcRule | equadratures/poly.py:184-190 | the column loop computes `QmcRuleOf` |
| Quadrature.QuadratureRuleOf | equadratures/poly.py:178-194 | with no option: above eight dimensions the quasi-Monte Carlo rule, below eight the tensor grid at doubled basis orders, at eight an error; with an option: chosen by name ignoring case, and a name matching neither gives no rule |
| Quadrature.DefaultTensorGrid | equadratures/poly.py:182-193 | the default grid below eight dimensions has 2o + 1 nodes in a dimension of order o, as many points as weights, and weights summing to one for normalised local rules |
| Quadrature.QuadratureRule | equadratures/poly.py:178-194 | the body computes `QuadratureRuleOf` |
| RuleSelection.DefaultOption | equadratures/poly.py:179-183 | "qmc" above eight dimensions, "tensor grid" below, none at eight, each if and only if |
| RuleSelection.LowerMatches | equadratures/poly.py:184 | comparing the lower-cased name with a lower-case name is comparing up to case |
| RuleSelection.SelectRule | equadratures/poly.py:178-194 | the rule kind chosen: each default and each name match, in both directions, with the eight-dimension error |

## Left out

- Floating point: numbers are `real`, so rounding is not modelled. A division by a zero-width Uniform or Beta range is ruled out by `WellFormed` instead of producing inf or nan.
- The parameter's `_getOrthoPoly`, `_getLocalQuadrature` and `getSamples` belong to the Parameter class, which is not part of this model. They are given functions, trusted for the shapes `WellFormed` states.
- `getSamples` draws fresh random samples on every call. The model's given function returns the same samples for the same request, so two quasi-Monte Carlo rules of one object are equal in the model.
- PolyModel.Poly.constructor: the model assumes every basis row has one degree per parameter. The source takes the dimension count from the basis shape and never checks it against the number of parameters.
- `Basis.setOrders` is modelled as recording the orders in the basis value. The basis is a value, not a shared object.
- The model lower-cases ASCII letters only when it reads an option name; Python's other case mappings in `lower()` are not modelled.
- Evaluation.GradientOf: for one dimension the source passes the whole point matrix to `_getOrthoPoly` with its default degree. The model uses the first column and takes the default degree to be the parameter's order.
- Evaluation.PolynomialOf: for one dimension the source passes the whole point matrix to `_getOrthoPoly`. The model evaluates the table at the first column only. Its `ShapeMismatch` for an input with rows of no columns comes from that column read, not from the source, whose outcome there is up to the evaluator.
- Evaluation.PolynomialOf: `int(np.max(...))` of a float basis is modelled by natural-number degrees. The reshape of a one-dimensional point array is not modelled, because points are always a matrix.
- Evaluation.ReplacedFactor: the relation between a gradient entry and the basis entry is stated over value tables that extend one another. `TablesExtend` and `GradientOfMatrices` tie those tables to the ones the two operations read, under the assumption that each evaluator extends its own table.
- PolyModel.Poly.Clone: `type(self)` builds an object of the caller's subclass. The subclasses are not part of this model, so the clone is a `Poly`.
- `getStatistics` builds a `Statistics` object, and that class is not part of this model.
- `getFunctionPDF` draws samples and plots a histogram, which is I/O and randomness.
- `getPolyFitFunction` and `getPolyGradFitFunction` only wrap `evaluatePolyFit` and `evaluatePolyGradFit` in lambdas, so they add nothing to model.
