/** The policy that picks a quadrature rule from the number of dimensions and an
    optional, case-insensitive rule name. */
module RuleSelection {
  import opened Errors

  /** The rules the policy can pick. */
  datatype RuleKind = Qmc | TensorGrid

  /** The dimension count at which neither default applies. */
  const NoDefaultDimension: nat := 8

  /** Lower-casing of one character, for the ASCII letters. */
  function LowerChar(c: char): (l: char)
    ensures 'A' <= c <= 'Z' ==> 'a' <= l <= 'z' && l as int - c as int == 32
    ensures !('A' <= c <= 'Z') ==> l == c
  {
    if 'A' <= c <= 'Z' then (c as int + 32) as char else c
  }

  /** Lower-casing of a string, character by character. */
  function Lower(s: string): (l: string)
    ensures |l| == |s|
    ensures forall i :: 0 <= i < |s| ==> l[i] == LowerChar(s[i])
  {
    seq(|s|, i requires 0 <= i < |s| => LowerChar(s[i]))
  }

  /** s and t are the same string up to the case of their letters. */
  predicate SameIgnoringCase(s: string, t: string) {
    |s| == |t| && forall i :: 0 <= i < |s| ==> LowerChar(s[i]) == LowerChar(t[i])
  }

  /** Comparing the lower-cased name with a lower-case name is comparing the two
      names up to case. */
  lemma LowerMatches(s: string, t: string)
    requires Lower(t) == t
    ensures Lower(s) == t <==> SameIgnoringCase(s, t)
  {
    if SameIgnoringCase(s, t) {
      assert forall i :: 0 <= i < |s| ==> Lower(s)[i] == Lower(t)[i];
    }
  }

  /** The rule name to use when the caller names none: quasi-Monte Carlo above
      eight dimensions, the tensor grid below, none at exactly eight. */
  function DefaultOption(d: nat): (o: Option<string>)
    ensures d > NoDefaultDimension <==> o == Some("qmc")
    ensures d < NoDefaultDimension <==> o == Some("tensor grid")
    ensures d == NoDefaultDimension <==> o == None
  {
    if d > NoDefaultDimension then Some("qmc")
    else if d < NoDefaultDimension then Some("tensor grid")
    else None
  }

  /** The rule getQuadratureRule builds for d dimensions and the given option:
      the default when no option is given (an error at exactly eight dimensions,
      where there is none), the rule the lower-cased name selects, and nothing
      for a name that selects no rule. */
  function SelectRule(d: nat, options: Option<string>): (r: Result<Option<RuleKind>>)
    ensures options.None? ==>
      && (r == Ok(Some(Qmc)) <==> d > NoDefaultDimension)
      && (r == Ok(Some(TensorGrid)) <==> d < NoDefaultDimension)
      && (r == Err(NoDefaultRule) <==> d == NoDefaultDimension)
    ensures options.Some? ==> r.Ok?
    ensures options.Some? ==>
      && (r.value == Some(Qmc) <==> SameIgnoringCase(options.value, "qmc"))
      && (r.value == Some(TensorGrid) <==> SameIgnoringCase(options.value, "tensor grid"))
      && (r.value == None <==>
            !SameIgnoringCase(options.value, "qmc") && !SameIgnoringCase(options.value, "tensor grid"))
  {
    var chosen := if options.None? then DefaultOption(d) else options;
    if chosen.None? then Err(NoDefaultRule)
    else
      LowerMatches(chosen.value, "qmc");
      LowerMatches(chosen.value, "tensor grid");
      if Lower(chosen.value) == "qmc" then Ok(Some(Qmc))
      else if Lower(chosen.value) == "tensor grid" then Ok(Some(TensorGrid))
      else Ok(None)
  }
}
