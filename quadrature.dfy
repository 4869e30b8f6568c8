/** The quadrature rules of the polynomial core: the tensor grid of the
    parameters' one-dimensional rules, the quasi-Monte Carlo sample rule, and the
    choice between them. */
module Quadrature {
  import opened Errors
  import opened Matrices
  import opened Parameters
  import opened TensorProducts
  import opened RuleSelection

  /** A quadrature rule: one row of coordinates per node, one weight per node. */
  datatype Rule = Rule(points: Matrix, weights: seq<real>)

  /** The number of quasi-Monte Carlo nodes. */
  const QmcSize: nat := 20000

  /* ---------------- The tensor grid's seed column ---------------- */

  /** Each row of P is the matching row of G behind a leading 1.0. */
  predicate Seeds(P: Matrix, G: Matrix) {
    |P| == |G| && forall r :: 0 <= r < |P| ==> P[r] == [1.0] + G[r]
  }

  /** Growing a seeded grid by a dimension keeps the seed in front. */
  lemma {:induction false} SeedsStepTo(P: Matrix, G: Matrix, pts: seq<real>, n: nat)
    requires Seeds(P, G) && n <= |P|
    ensures Seeds(StepTo(P, pts, n), StepTo(G, pts, n))
  {
    if n > 0 {
      SeedsStepTo(P, G, pts, n - 1);
      var A, B := StepTo(P, pts, n - 1), StepTo(G, pts, n - 1);
      var a := seq(|pts|, t requires 0 <= t < |pts| => P[n - 1] + [pts[t]]);
      var b := seq(|pts|, t requires 0 <= t < |pts| => G[n - 1] + [pts[t]]);
      forall t | 0 <= t < |pts|
        ensures a[t] == [1.0] + b[t]
      {
        assert P[n - 1] + [pts[t]] == [1.0] + (G[n - 1] + [pts[t]]);
      }
      assert StepTo(P, pts, n) == A + a;
      assert StepTo(G, pts, n) == B + b;
    }
  }

  /** The rows of P with their first entry dropped. */
  function DropFirstColumn(P: Matrix): (Q: Matrix)
    requires forall r :: 0 <= r < |P| ==> |P[r]| > 0
    ensures |Q| == |P|
    ensures forall r :: 0 <= r < |P| ==> Q[r] == P[r][1..]
  {
    seq(|P|, r requires 0 <= r < |P| => P[r][1..])
  }

  /** Every order doubled, as getQuadratureRule asks of the tensor grid. */
  function Doubled(os: seq<nat>): (ds: seq<nat>)
    ensures |ds| == |os|
    ensures forall i :: 0 <= i < |os| ==> ds[i] == 2 * os[i]
  {
    seq(|os|, i requires 0 <= i < |os| => 2 * os[i])
  }

  /** Column i of P replaced by the entries of s. */
  function SetColumn(P: Matrix, i: nat, s: seq<real>): (Q: Matrix)
    requires |s| == |P| && forall r :: 0 <= r < |P| ==> i < |P[r]|
    ensures |Q| == |P|
    ensures forall r :: 0 <= r < |P| ==> Q[r] == P[r][i := s[r]]
  {
    seq(|P|, r requires 0 <= r < |P| => P[r][i := s[r]])
  }

  /** One step of the tensor rule: widening the seeded grid and the weight
      product by the next dimension's local rule keeps them the seeded grid and
      the weight product of one more dimension. */
  lemma GrowStep(pp: Matrix, ww: seq<real>, ps: seq<seq<real>>, ws: seq<seq<real>>, u: nat, rule: LocalRule)
    requires u < |ps| && u < |ws| && rule.points == ps[u] && rule.weights == ws[u]
    requires Seeds(pp, GridTo(ps, u)) && ww == KronAllTo(ws, u)
    ensures Seeds(TensorStep(pp, rule.points), GridTo(ps, u + 1))
    ensures Kron(ww, rule.weights) == KronAllTo(ws, u + 1)
  {
    SeedsStepTo(pp, GridTo(ps, u), rule.points, |pp|);
  }

  /** Dropping the seed column of a seeded grid gives the grid. */
  lemma DropSeed(P: Matrix, G: Matrix)
    requires Seeds(P, G)
    ensures forall r :: 0 <= r < |P| ==> |P[r]| > 0
    ensures DropFirstColumn(P) == G
  {
    var Q := DropFirstColumn(P);
    forall r | 0 <= r < |P|
      ensures Q[r] == G[r]
    {
      assert P[r] == [1.0] + G[r];
    }
  }


  /* ---------------- The tensor quadrature rule ---------------- */

  /** The nodes of each dimension's local rule for the given orders: order o
      asks for o + 1 nodes. */
  function LocalPoints(parameters: seq<Parameter>, ords: seq<nat>): (ps: seq<seq<real>>)
    requires |parameters| <= |ords|
    ensures |ps| == |parameters|
    ensures forall u :: 0 <= u < |parameters| ==> ps[u] == parameters[u].localQuadrature(ords[u] + 1).points
  {
    seq(|parameters|, u requires 0 <= u < |parameters| => parameters[u].localQuadrature(ords[u] + 1).points)
  }

  /** The weights of each dimension's local rule for the given orders. */
  function LocalWeights(parameters: seq<Parameter>, ords: seq<nat>): (ws: seq<seq<real>>)
    requires |parameters| <= |ords|
    ensures |ws| == |parameters|
    ensures forall u :: 0 <= u < |parameters| ==> ws[u] == parameters[u].localQuadrature(ords[u] + 1).weights
  {
    seq(|parameters|, u requires 0 <= u < |parameters| => parameters[u].localQuadrature(ords[u] + 1).weights)
  }

  /** The tensor rule of the parameters' local rules at the given orders: the
      cartesian grid of the local nodes and the Kronecker product of the local
      weights, the last dimension varying fastest. Too few orders is an index
      error; with no dimensions the seed column is all there is, and dropping
      it fails. */
  function TensorRuleOf(parameters: seq<Parameter>, ords: seq<nat>): (r: Result<Rule>)
    ensures r.Ok? <==> 0 < |parameters| <= |ords|
    ensures |parameters| == 0 ==> r == Err(NoTensorColumns)
    ensures 0 < |parameters| && |ords| < |parameters| ==> r == Err(ShapeMismatch)
  {
    var d := |parameters|;
    if 0 < d && |ords| < d then Err(ShapeMismatch)
    else if d == 0 then Err(NoTensorColumns)
    else Ok(Rule(GridTo(LocalPoints(parameters, ords), d), KronAllTo(LocalWeights(parameters, ords), d)))
  }

  /** The loop of getTensorQuadratureRule: the points and weights grow one
      dimension at a time from a seed column of ones and a weight of one, and
      the seed column is dropped at the end. */
  method TensorRule(parameters: seq<Parameter>, ords: seq<nat>) returns (r: Result<Rule>)
    ensures r == TensorRuleOf(parameters, ords)
  {
    var d := |parameters|;
    ghost var fits := d <= |ords|;
    ghost var ps := if fits then LocalPoints(parameters, ords) else [];
    ghost var ws := if fits then LocalWeights(parameters, ords) else [];
    var pp: Matrix := [[1.0]];
    var ww: seq<real> := [1.0];
    for u := 0 to d
      invariant u <= |ords|
      invariant fits ==> Seeds(pp, GridTo(ps, u)) && ww == KronAllTo(ws, u)
    {
      if u >= |ords| {
        return Err(ShapeMismatch);
      }
      var rule := parameters[u].localQuadrature(ords[u] + 1);
      if fits {
        GrowStep(pp, ww, ps, ws, u, rule);
      }
      ww := Kron(ww, rule.weights);
      pp := TensorStep(pp, rule.points);
    }
    if d == 0 {
      return Err(NoTensorColumns);
    }
    DropSeed(pp, GridTo(ps, d));
    var points := DropFirstColumn(pp);
    return Ok(Rule(points, ww));
  }


  /** Order o of a well-formed parameter gives a local rule of o + 1 nodes, so
      the grid has a positive number of nodes in every dimension, and the
      weight vectors have the sizes of the node vectors. */
  lemma LocalSizes(parameters: seq<Parameter>, ords: seq<nat>)
    requires AllWellFormed(parameters) && |parameters| <= |ords|
    ensures Sizes(LocalWeights(parameters, ords)) == Sizes(LocalPoints(parameters, ords))
    ensures forall u :: 0 <= u < |parameters| ==> Sizes(LocalPoints(parameters, ords))[u] == ords[u] + 1
    ensures Positive(Sizes(LocalPoints(parameters, ords)))
  {
    var qs, vs := Sizes(LocalPoints(parameters, ords)), Sizes(LocalWeights(parameters, ords));
    forall u | 0 <= u < |parameters|
      ensures qs[u] == ords[u] + 1 && vs[u] == qs[u]
    {
      assert WellFormed(parameters[u]);
    }
  }

  /** The tensor rule has as many points as weights: the product over the
      dimensions of the local node counts, each order o contributing o + 1; each
      point has one coordinate per dimension. */
  lemma TensorRuleShape(parameters: seq<Parameter>, ords: seq<nat>)
    requires AllWellFormed(parameters) && 0 < |parameters| <= |ords|
    ensures TensorRuleOf(parameters, ords).Ok?
    ensures var rule, d := TensorRuleOf(parameters, ords).value, |parameters|;
            && |rule.points| == |rule.weights| == Prod(Sizes(LocalPoints(parameters, ords)), d)
            && IsMatrix(rule.points, |rule.points|, d)
  {
    var d, ps, ws := |parameters|, LocalPoints(parameters, ords), LocalWeights(parameters, ords);
    var rule := TensorRuleOf(parameters, ords).value;
    LocalSizes(parameters, ords);
    KronAllToLength(ws, d);
    GridToLength(ps, d);
    forall r | 0 <= r < |rule.points|
      ensures |rule.points[r]| == d
    {
      GridAt(ps, d, r);
    }
  }

  /** Node r of the tensor rule, read as mixed-radix digits with the last
      dimension fastest, has in each dimension k the local node that digit k
      selects, and its weight is the product of the local weights the digits
      select. */
  lemma TensorRuleLayout(parameters: seq<Parameter>, ords: seq<nat>, r: nat)
    requires AllWellFormed(parameters) && 0 < |parameters| <= |ords|
    requires r < Prod(Sizes(LocalPoints(parameters, ords)), |parameters|)
    ensures TensorRuleOf(parameters, ords).Ok?
    ensures var rule, d := TensorRuleOf(parameters, ords).value, |parameters|;
            var ps, ds := LocalPoints(parameters, ords), Digits(r, Sizes(LocalPoints(parameters, ords)), |parameters|);
            && InBox(ds, Sizes(ps), d)
            && r < |rule.points| && r < |rule.weights| && |rule.points[r]| == d
            && (forall k :: 0 <= k < d ==> rule.points[r][k] == ps[k][ds[k]])
            && rule.weights[r] == WeightProduct(LocalWeights(parameters, ords), ds, d)
  {
    var d, ps, ws := |parameters|, LocalPoints(parameters, ords), LocalWeights(parameters, ords);
    LocalSizes(parameters, ords);
    GridAt(ps, d, r);
    KronAllAt(ws, d, r);
  }

  /** Every combination of one local node per dimension is a point of the
      tensor rule, at the row its digits number, and that row is the only one
      whose digits are that combination. */
  lemma TensorRuleComplete(parameters: seq<Parameter>, ords: seq<nat>, ds: seq<nat>)
    requires AllWellFormed(parameters) && 0 < |parameters| <= |ords|
    requires |ds| == |parameters| && InBox(ds, Sizes(LocalPoints(parameters, ords)), |parameters|)
    ensures TensorRuleOf(parameters, ords).Ok?
    ensures var rule, d := TensorRuleOf(parameters, ords).value, |parameters|;
            var qs, r := Sizes(LocalPoints(parameters, ords)), Encode(ds, Sizes(LocalPoints(parameters, ords)), |parameters|);
            && r < |rule.points| && Digits(r, qs, d) == ds && |rule.points[r]| == d
            && (forall k :: 0 <= k < d ==> rule.points[r][k] == LocalPoints(parameters, ords)[k][ds[k]])
            && forall r' :: 0 <= r' < |rule.points| && Digits(r', qs, d) == ds ==> r' == r
  {
    var d, ps := |parameters|, LocalPoints(parameters, ords);
    var qs := Sizes(ps);
    LocalSizes(parameters, ords);
    TensorRuleShape(parameters, ords);
    GridToAt(ps, d, ds);
    DigitsEncode(ds, qs, d);
    assert ds[..d] == ds;
    forall r' | 0 <= r' < Prod(qs, d) && Digits(r', qs, d) == ds
      ensures r' == Encode(ds, qs, d)
    {
      EncodeDigits(r', qs, d);
    }
  }

  /** The tensor rule's weights sum to the product of the local weight sums, so
      to one when every local rule is normalised. */
  lemma TensorWeightSum(parameters: seq<Parameter>, ords: seq<nat>)
    requires 0 < |parameters| <= |ords|
    ensures TensorRuleOf(parameters, ords).Ok?
    ensures Sum(TensorRuleOf(parameters, ords).value.weights)
         == ProductOfSums(LocalWeights(parameters, ords), |parameters|)
    ensures (forall u :: 0 <= u < |parameters| ==> Sum(parameters[u].localQuadrature(ords[u] + 1).weights) == 1.0)
         ==> Sum(TensorRuleOf(parameters, ords).value.weights) == 1.0
  {
    var ws := LocalWeights(parameters, ords);
    SumKronAll(ws, |parameters|);
    if forall u :: 0 <= u < |parameters| ==> Sum(parameters[u].localQuadrature(ords[u] + 1).weights) == 1.0 {
      ProductOfUnitSums(ws, |parameters|);
    }
  }

  /* ---------------- The quasi-Monte Carlo rule ---------------- */

  /** The samples each parameter draws, one column per dimension. */
  function Samples(parameters: seq<Parameter>): (S: Matrix)
    requires AllWellFormed(parameters)
    ensures IsMatrix(S, |parameters|, QmcSize)
    ensures forall i :: 0 <= i < |parameters| ==> S[i] == parameters[i].getSamples(QmcSize)
  {
    seq(|parameters|, i requires 0 <= i < |parameters| && WellFormed(parameters[i]) =>
      parameters[i].getSamples(QmcSize))
  }

  /** The rows of S side by side as columns: entry (r, i) is S[i][r]. */
  function Transpose(S: Matrix, n: nat): (P: Matrix)
    requires IsMatrix(S, |S|, n)
    ensures IsMatrix(P, n, |S|)
    ensures forall r, i :: 0 <= r < n && 0 <= i < |S| ==> P[r][i] == S[i][r]
  {
    seq(n, r requires 0 <= r < n => seq(|S|, i requires 0 <= i < |S| => S[i][r]))
  }

  /** The quasi-Monte Carlo rule: QmcSize nodes whose coordinate in dimension i
      is that parameter's sample, each weighted 1 / QmcSize. */
  function QmcRuleOf(parameters: seq<Parameter>): (rule: Rule)
    requires AllWellFormed(parameters)
    ensures IsMatrix(rule.points, QmcSize, |parameters|) && |rule.weights| == QmcSize
    ensures forall r, i :: 0 <= r < QmcSize && 0 <= i < |parameters| ==>
              rule.points[r][i] == parameters[i].getSamples(QmcSize)[r]
    ensures forall r :: 0 <= r < QmcSize ==> rule.weights[r] == 1.0 / QmcSize as real
  {
    Rule(Transpose(Samples(parameters), QmcSize), seq(QmcSize, _ => 1.0 / QmcSize as real))
  }

  /** The quasi-Monte Carlo weights sum to one. */
  lemma QmcWeightSum(parameters: seq<Parameter>)
    requires AllWellFormed(parameters)
    ensures Sum(QmcRuleOf(parameters).weights) == 1.0
  {
    SumConstant(QmcSize, 1.0 / QmcSize as real);
  }

  /** The quasi-Monte Carlo branch of getQuadratureRule: a zero matrix whose
      columns are filled with each parameter's samples in turn. */
  method QmcRule(parameters: seq<Parameter>) returns (rule: Rule)
    requires AllWellFormed(parameters)
    ensures rule == QmcRuleOf(parameters)
  {
    var d := |parameters|;
    var p := Zeros(QmcSize, d);
    var w := seq(QmcSize, _ => 1.0 / QmcSize as real);
    for i := 0 to d
      invariant IsMatrix(p, QmcSize, d)
      invariant forall r, k :: 0 <= r < QmcSize && 0 <= k < i ==>
                  p[r][k] == parameters[k].getSamples(QmcSize)[r]
    {
      assert WellFormed(parameters[i]);
      p := SetColumn(p, i, parameters[i].getSamples(QmcSize));
    }
    ghost var expected := QmcRuleOf(parameters);
    forall r | 0 <= r < QmcSize
      ensures p[r] == expected.points[r]
    {
    }
    return Rule(p, w);
  }

  /* ---------------- getQuadratureRule ---------------- */

  /** A tensor rule result as an optional rule. */
  function Chosen(r: Result<Rule>): (c: Result<Option<Rule>>)
    ensures c.Ok? <==> r.Ok?
    ensures r.Ok? ==> c.value == Some(r.value)
    ensures r.Err? ==> c.error == r.error
  {
    if r.Err? then Err(r.error) else Ok(Some(r.value))
  }

  /** The rule getQuadratureRule returns. With no option, more than eight
      dimensions take the quasi-Monte Carlo rule, fewer take the tensor grid at
      twice the basis orders, and exactly eight is an error; a named option
      picks by its name up to case, and a name that picks nothing gives no rule. */
  function QuadratureRuleOf(parameters: seq<Parameter>, basisOrders: seq<nat>, options: Option<string>)
    : (r: Result<Option<Rule>>)
    requires AllWellFormed(parameters)
    ensures options.None? && |parameters| > NoDefaultDimension ==> r == Ok(Some(QmcRuleOf(parameters)))
    ensures options.None? && |parameters| < NoDefaultDimension ==>
              r == Chosen(TensorRuleOf(parameters, Doubled(basisOrders)))
    ensures options.None? && |parameters| == NoDefaultDimension ==> r == Err(NoDefaultRule)
    ensures options.Some? && SameIgnoringCase(options.value, "qmc") ==> r == Ok(Some(QmcRuleOf(parameters)))
    ensures options.Some? && SameIgnoringCase(options.value, "tensor grid") ==>
              r == Chosen(TensorRuleOf(parameters, Doubled(basisOrders)))
    ensures options.Some? ==>
              (!SameIgnoringCase(options.value, "qmc") && !SameIgnoringCase(options.value, "tensor grid")
               ==> r == Ok(None))
  {
    var kind := SelectRule(|parameters|, options);
    if kind.Err? then Err(kind.error)
    else if kind.value == Some(Qmc) then Ok(Some(QmcRuleOf(parameters)))
    else if kind.value == Some(TensorGrid) then Chosen(TensorRuleOf(parameters, Doubled(basisOrders)))
    else Ok(None)
  }

  /** The default tensor grid of fewer than eight dimensions, with enough basis
      orders, exists; order o contributes 2 * o + 1 nodes to its dimension and
      normalised local rules give weights summing to one. */
  lemma DefaultTensorGrid(parameters: seq<Parameter>, basisOrders: seq<nat>)
    requires AllWellFormed(parameters)
    requires 0 < |parameters| < NoDefaultDimension && |parameters| <= |basisOrders|
    requires forall u :: 0 <= u < |parameters| ==>
               Sum(parameters[u].localQuadrature(2 * basisOrders[u] + 1).weights) == 1.0
    ensures QuadratureRuleOf(parameters, basisOrders, None).Ok?
    ensures QuadratureRuleOf(parameters, basisOrders, None).value.Some?
    ensures var rule := QuadratureRuleOf(parameters, basisOrders, None).value.value;
            && |rule.points| == |rule.weights|
               == Prod(Sizes(LocalPoints(parameters, Doubled(basisOrders))), |parameters|)
            && (forall u :: 0 <= u < |parameters| ==>
                  Sizes(LocalPoints(parameters, Doubled(basisOrders)))[u] == 2 * basisOrders[u] + 1)
            && Sum(rule.weights) == 1.0
  {
    var ords := Doubled(basisOrders);
    LocalSizes(parameters, ords);
    TensorRuleShape(parameters, ords);
    TensorWeightSum(parameters, ords);
  }

  /** The body of getQuadratureRule. */
  method QuadratureRule(parameters: seq<Parameter>, basisOrders: seq<nat>, options: Option<string>)
    returns (r: Result<Option<Rule>>)
    requires AllWellFormed(parameters)
    ensures r == QuadratureRuleOf(parameters, basisOrders, options)
  {
    var kind := SelectRule(|parameters|, options);
    if kind.Err? {
      return Err(kind.error);
    }
    if kind.value == Some(Qmc) {
      var rule := QmcRule(parameters);
      return Ok(Some(rule));
    }
    if kind.value == Some(TensorGrid) {
      var t := TensorRule(parameters, Doubled(basisOrders));
      return Chosen(t);
    }
    return Ok(None);
  }
}
