/** The Poly class: a multivariate polynomial over a list of parameters and a
    multi-index basis. It rescales inputs, assembles the basis values and their
    gradients from the parameters' univariate tables, builds quadrature rules and
    evaluates a fit once coefficients are set. The work is done by the Evaluation
    and Quadrature modules; the class holds the state and passes it in. */
module PolyModel {
  import opened Errors
  import opened Matrices
  import opened Parameters
  import opened Evaluation
  import opened Quadrature

  /** The multi-index set: one row of per-dimension degrees per basis term, and
      the per-dimension orders recorded by setOrders. */
  datatype Basis = Basis(elements: seq<seq<nat>>, orders: seq<nat>)

  class Poly {
    const parameters: seq<Parameter>
    const basis: Basis
    const dimensions: nat
    const orders: seq<nat>
    /** Unset (None) until a fitting routine sets it. */
    var coefficients: Option<seq<real>>
    var designMatrix: Option<Matrix>

    /** One order per parameter, taken from it; the basis records the same
        orders and has one degree per dimension in every row; the parameters
        keep the contracts of their own evaluators. */
    ghost predicate Valid() {
      && dimensions == |parameters| == |orders|
      && (forall i :: 0 <= i < dimensions ==> orders[i] == parameters[i].order)
      && basis.orders == orders
      && Configured(parameters, basis.elements)
    }

    /** The orders are collected from the parameters one at a time and handed
        to the basis (setOrders, modelled as recording them). No coefficients
        and no design matrix are set. */
    constructor (parameters: seq<Parameter>, basis: Basis)
      requires Configured(parameters, basis.elements)
      ensures Valid()
      ensures this.parameters == parameters && dimensions == |parameters|
      ensures |orders| == |parameters| && forall i :: 0 <= i < |parameters| ==> orders[i] == parameters[i].order
      ensures this.basis == basis.(orders := orders)
      ensures coefficients == None && designMatrix == None
    {
      var collected: seq<nat> := [];
      for i := 0 to |parameters|
        invariant |collected| == i
        invariant forall k :: 0 <= k < i ==> collected[k] == parameters[k].order
      {
        collected := collected + [parameters[i].order];
      }
      this.parameters := parameters;
      this.basis := basis.(orders := collected);
      dimensions := |parameters|;
      orders := collected;
      coefficients := None;
      designMatrix := None;
    }

    method SetCoefficients(c: seq<real>)
      modifies this`coefficients
      ensures coefficients == Some(c)
    {
      coefficients := Some(c);
    }

    method SetDesignMatrix(a: Matrix)
      modifies this`designMatrix
      ensures designMatrix == Some(a)
    {
      designMatrix := Some(a);
    }

    /** A new object built from the same parameters and basis: same
        configuration, no coefficients, no design matrix. */
    method Clone() returns (q: Poly)
      requires Valid()
      ensures fresh(q) && q.Valid()
      ensures q.parameters == parameters && q.basis == basis
      ensures q.dimensions == dimensions && q.orders == orders
      ensures q.coefficients == None && q.designMatrix == None
    {
      q := new Poly(parameters, basis);
    }

    /** scaleInputs on an input matrix with `cols` columns. */
    method ScaleInputs(x: Matrix, cols: nat) returns (r: Result<Matrix>)
      requires Valid() && IsMatrix(x, |x|, cols)
      ensures r == ScaledOf(parameters, x, cols)
    {
      r := ScaleMatrix(parameters, x, cols);
    }

    /** getPolynomial at (already scaled) points with `cols` columns. */
    method GetPolynomial(x: Matrix, cols: nat) returns (r: Result<Matrix>)
      requires Valid() && IsMatrix(x, |x|, cols)
      ensures r == PolynomialOf(parameters, basis.elements, x, cols)
    {
      r := Polynomial(parameters, basis.elements, x, cols);
    }

    /** getPolynomialGradient at (already scaled) points with `cols` columns. */
    method GetPolynomialGradient(x: Matrix, cols: nat) returns (r: Result<Gradient>)
      requires Valid() && IsMatrix(x, |x|, cols)
      ensures r == GradientOf(parameters, basis.elements, x, cols)
    {
      r := PolynomialGradient(parameters, basis.elements, x, cols);
    }

    /** getTensorQuadratureRule: the orders default to the object's own. */
    method GetTensorQuadratureRule(overrideOrders: Option<seq<nat>>) returns (r: Result<Rule>)
      requires Valid()
      ensures r == TensorRuleOf(parameters, if overrideOrders.None? then orders else overrideOrders.value)
    {
      var ords := if overrideOrders.None? then orders else overrideOrders.value;
      r := TensorRule(parameters, ords);
    }

    /** getQuadratureRule: the tensor grid is taken at twice the basis orders. */
    method GetQuadratureRule(options: Option<string>) returns (r: Result<Option<Rule>>)
      requires Valid()
      ensures r == QuadratureRuleOf(parameters, basis.orders, options)
    {
      r := QuadratureRule(parameters, basis.orders, options);
    }

    /** evaluatePolyFit: the fit at the points x (scaled first) with the
        coefficients set so far. */
    method EvaluatePolyFit(x: Matrix, cols: nat) returns (r: Result<seq<real>>)
      requires Valid() && IsMatrix(x, |x|, cols)
      ensures r == FitOf(parameters, basis.elements, x, cols, coefficients)
    {
      r := Fit(parameters, basis.elements, x, cols, coefficients);
    }

    /** evaluatePolyGradFit: the fitted gradient at the points x (scaled first)
        with the coefficients set so far. */
    method EvaluatePolyGradFit(x: Matrix, cols: nat) returns (r: Result<Matrix>)
      requires Valid() && IsMatrix(x, |x|, cols)
      ensures r == GradFitOf(parameters, basis.elements, x, cols, coefficients)
    {
      r := GradFit(parameters, basis.elements, x, cols, coefficients);
    }
  }

  /** A clone has no coefficients, so neither fit can be evaluated on it (the
      gradient fit as soon as there is a dimension); once the points scale and
      the basis or its gradient evaluates, the failure is NotFitted. */
  method FitsOfClone(p: Poly, x: Matrix, cols: nat) returns (fit: Result<seq<real>>, grad: Result<Matrix>)
    requires p.Valid() && IsMatrix(x, |x|, cols)
    ensures fit.Err?
    ensures 0 < p.dimensions ==> grad.Err?
    ensures ScaledOf(p.parameters, x, cols).Ok? &&
            PolynomialOf(p.parameters, p.basis.elements, ScaledOf(p.parameters, x, cols).value, cols).Ok?
            ==> fit == Err(NotFitted)
    ensures 0 < p.dimensions && ScaledOf(p.parameters, x, cols).Ok? &&
            GradientOf(p.parameters, p.basis.elements, ScaledOf(p.parameters, x, cols).value, cols).Ok?
            ==> grad == Err(NotFitted)
  {
    var q := p.Clone();
    fit := q.EvaluatePolyFit(x, cols);
    grad := q.EvaluatePolyGradFit(x, cols);
  }
}
