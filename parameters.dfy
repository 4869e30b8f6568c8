/** The per-dimension input parameters as the polynomial core sees them, and the
    affine map that takes a physical input value into its parameter's canonical
    orthogonality domain. */
module Parameters {
  import opened Matrices

  /** What a parameter's orthogonal-polynomial evaluator returns for a vector of
      points and a highest degree: row r of each table holds degree r, one
      column per point. */
  datatype OrthoPoly = OrthoPoly(values: Matrix, derivatives: Matrix)

  /** A one-dimensional quadrature rule, already scaled to the canonical domain. */
  datatype LocalRule = LocalRule(points: seq<real>, weights: seq<real>)

  /** A univariate parameter. Its distribution kind, bounds and order are data;
      its orthogonal-polynomial evaluator, its one-dimensional quadrature
      generator and its sampler belong to the parameter and are taken here as
      given functions. */
  datatype Parameter = Parameter(
    paramType: string,
    lower: real,
    upper: real,
    order: nat,
    orthoPoly: (seq<real>, nat) -> OrthoPoly,
    localQuadrature: nat -> LocalRule,
    getSamples: nat -> seq<real>)

  /** The shapes the parameter's own functions promise: degree tables with one
      row per degree 0..deg and one column per point, an n-point local rule for
      a request of n points, n samples for a request of n. A Uniform or Beta
      parameter has distinct bounds, so its scaling map is defined. */
  ghost predicate WellFormed(p: Parameter) {
    && ScaleDefined(p)
    && (forall pts: seq<real>, deg: nat ::
          IsMatrix(p.orthoPoly(pts, deg).values, deg + 1, |pts|)
          && IsMatrix(p.orthoPoly(pts, deg).derivatives, deg + 1, |pts|))
    && (forall n: nat ::
          |p.localQuadrature(n).points| == n && |p.localQuadrature(n).weights| == n)
    && (forall n: nat :: |p.getSamples(n)| == n)
  }

  /** Every parameter of a list is well formed. */
  ghost predicate AllWellFormed(ps: seq<Parameter>) {
    forall k :: 0 <= k < |ps| ==> WellFormed(ps[k])
  }

  /** Raising the requested degree by one keeps the value rows already there:
      what a three-term recurrence does. */
  ghost predicate ExtendsAt(p: Parameter, pts: seq<real>, deg: nat) {
    var lo, hi := p.orthoPoly(pts, deg).values, p.orthoPoly(pts, deg + 1).values;
    |lo| <= |hi| && forall r :: 0 <= r < |lo| ==> hi[r] == lo[r]
  }

  /** The kinds whose inputs are rescaled. */
  predicate Rescaled(p: Parameter) {
    p.paramType == "Uniform" || p.paramType == "Beta"
  }

  /** The kinds whose values are rescaled have distinct bounds. */
  predicate ScaleDefined(p: Parameter) {
    Rescaled(p) ==> p.upper != p.lower
  }

  /** The position of x in [lo, hi] as a fraction of the width: 0 at lo, 1 at hi. */
  function Fraction(lo: real, hi: real, x: real): (t: real)
    requires lo != hi
    ensures x == lo ==> t == 0.0
    ensures x == hi ==> t == 1.0
  {
    DivideSelf(hi - lo);
    (x - lo) / (hi - lo)
  }

  lemma DivideSelf(w: real)
    requires w != 0.0
    ensures w / w == 1.0 && 0.0 / w == 0.0
  {
  }

  /** The canonical value of physical value x: Uniform maps [lower, upper] onto
      [-1, 1], Beta maps it onto [0, 1], every other kind is left as it is. */
  function ScaleValue(p: Parameter, x: real): (s: real)
    requires ScaleDefined(p)
    ensures p.paramType == "Uniform" && x == p.lower ==> s == -1.0
    ensures p.paramType == "Uniform" && x == p.upper ==> s == 1.0
    ensures p.paramType == "Beta" && x == p.lower ==> s == 0.0
    ensures p.paramType == "Beta" && x == p.upper ==> s == 1.0
    ensures p.paramType != "Uniform" && p.paramType != "Beta" ==> s == x
  {
    if p.paramType == "Uniform" then 2.0 * Fraction(p.lower, p.upper, x) - 1.0
    else if p.paramType == "Beta" then Fraction(p.lower, p.upper, x)
    else x
  }

  /** Fraction and the affine map t |-> lo + t * (hi - lo) are inverse. */
  lemma FractionRoundTrip(lo: real, hi: real, x: real, t: real)
    requires lo != hi
    ensures lo + Fraction(lo, hi, x) * (hi - lo) == x
    ensures Fraction(lo, hi, lo + t * (hi - lo)) == t
  {
    var w := hi - lo;
    assert ((x - lo) / w) * w == x - lo;
    assert (t * w) / w == t;
  }

  /** The physical value whose canonical value is s: the inverse map. */
  function UnscaleValue(p: Parameter, s: real): (x: real)
    requires ScaleDefined(p)
  {
    if p.paramType == "Uniform" then p.lower + ((s + 1.0) / 2.0) * (p.upper - p.lower)
    else if p.paramType == "Beta" then p.lower + s * (p.upper - p.lower)
    else s
  }

  /** UnscaleValue undoes scaling. */
  lemma UnscaleAfterScale(p: Parameter, x: real)
    requires ScaleDefined(p)
    ensures UnscaleValue(p, ScaleValue(p, x)) == x
  {
    if p.paramType == "Uniform" {
      UniformRoundTrip(p.lower, p.upper, x, 0.0);
    } else if p.paramType == "Beta" {
      FractionRoundTrip(p.lower, p.upper, x, 0.0);
    }
  }

  /** Scaling undoes UnscaleValue: together, scaling is a bijection. */
  lemma ScaleAfterUnscale(p: Parameter, s: real)
    requires ScaleDefined(p)
    ensures ScaleValue(p, UnscaleValue(p, s)) == s
  {
    if p.paramType == "Uniform" {
      UniformRoundTrip(p.lower, p.upper, p.lower, s);
    } else if p.paramType == "Beta" {
      FractionRoundTrip(p.lower, p.upper, p.lower, s);
    }
  }

  lemma UniformRoundTrip(lo: real, hi: real, x: real, s: real)
    requires lo != hi
    ensures lo + (((2.0 * Fraction(lo, hi, x) - 1.0) + 1.0) / 2.0) * (hi - lo) == x
    ensures 2.0 * Fraction(lo, hi, lo + ((s + 1.0) / 2.0) * (hi - lo)) - 1.0 == s
  {
    var t := Fraction(lo, hi, x);
    var u := (s + 1.0) / 2.0;
    assert ((2.0 * t - 1.0) + 1.0) / 2.0 == t;
    FractionRoundTrip(lo, hi, x, u);
    assert Fraction(lo, hi, lo + u * (hi - lo)) == u;
    assert 2.0 * u - 1.0 == s;
  }

  /** For increasing bounds the map is strictly increasing. */
  lemma ScaleStrictlyIncreasing(p: Parameter, x: real, y: real)
    requires ScaleDefined(p) && p.lower < p.upper && x < y
    ensures ScaleValue(p, x) < ScaleValue(p, y)
  {
    if Rescaled(p) {
      FractionIncreasing(p.lower, p.upper, x, y);
    }
  }

  lemma FractionIncreasing(lo: real, hi: real, x: real, y: real)
    requires lo < hi && x < y
    ensures Fraction(lo, hi, x) < Fraction(lo, hi, y)
  {
    var w := hi - lo;
    assert (y - lo) / w - (x - lo) / w == (y - x) / w;
    assert (y - x) / w > 0.0;
  }
}
