/** Offer validation: rules, the ordered short-circuit chain, and its construction. */
module Validation {
  import opened Wrappers
  import opened Messages

  /** A validation rule, checking one offer: `Pass` for a nil error, or the error message. */
  type Rule = Offer -> Outcome<string>

  const NotProfitableError: string := "offer must be greater than demand"
  const NilRuleError: string := "validator rules can not be nil"

  /** The shipped rule: an offer must strictly exceed its demand. */
  function EnsureProfitRule(o: Offer): (r: Outcome<string>)
    ensures r.Fail? <==> o.offer <= o.demand
    ensures r.Fail? ==> r.error == NotProfitableError
  {
    if o.offer <= o.demand then Fail(NotProfitableError) else Pass
  }

  /** The rule looks at the offer and the demand only, never at the request code. */
  lemma EnsureProfitIgnoresCode(o: Offer, code: string)
    ensures EnsureProfitRule(o.(code := code)) == EnsureProfitRule(o)
  {
  }

  /** An ordered chain of rules. */
  datatype Validator = Validator(rules: seq<Rule>)

  /** The rules with every entry present, or None when some entry is nil. */
  function CollectRules(rules: seq<Option<Rule>>): (r: Option<seq<Rule>>)
    ensures r.None? <==> exists i :: 0 <= i < |rules| && rules[i].None?
    ensures r.Some? ==> |r.value| == |rules|
    ensures r.Some? ==> forall i :: 0 <= i < |rules| ==> rules[i] == Some(r.value[i])
    decreases |rules|
  {
    if |rules| == 0 then Some([])
    else match rules[0]
      case None => None
      case Some(rule) =>
        match CollectRules(rules[1..])
        case None => None
        case Some(rest) => Some([rule] + rest)
  }

  /** Builds a validator; fails, with no validator, if any entry is nil, wherever it sits.
      Otherwise the rules are kept in the order given. */
  function NewValidator(rules: seq<Option<Rule>>): (r: Result<Validator, string>)
    ensures r.Failure? <==> exists i :: 0 <= i < |rules| && rules[i].None?
    ensures r.Failure? ==> r.error == NilRuleError
    ensures r.Success? ==> |r.value.rules| == |rules|
    ensures r.Success? ==> forall i :: 0 <= i < |rules| ==> rules[i] == Some(r.value.rules[i])
  {
    match CollectRules(rules)
    case None => Failure(NilRuleError)
    case Some(rs) => Success(Validator(rs))
  }

  /** Runs the rules in order and stops at the first failure, returning its error.
      An offer passes exactly when every rule passes it. */
  function Validate(v: Validator, o: Offer): (r: Outcome<string>)
    ensures r.Pass? <==> forall i :: 0 <= i < |v.rules| ==> v.rules[i](o).Pass?
    ensures r.Fail? ==> exists k :: 0 <= k < |v.rules| && v.rules[k](o) == r && forall i :: 0 <= i < k ==> v.rules[i](o).Pass?
    decreases |v.rules|
  {
    if |v.rules| == 0 then Pass
    else
      var first := v.rules[0](o);
      if first.Fail? then first else Validate(Validator(v.rules[1..]), o)
  }

  /** Short-circuit: once rule `k` is the first to fail, the chain returns its error, and
      whatever rules follow it are never consulted. */
  lemma {:induction false} ValidateStopsAtFirstFailure(rules: seq<Rule>, k: nat, later: seq<Rule>, o: Offer)
    requires k < |rules| && rules[k](o).Fail?
    requires forall i :: 0 <= i < k ==> rules[i](o).Pass?
    ensures Validate(Validator(rules[..k + 1] + later), o) == rules[k](o)
    decreases k
  {
    var chain := rules[..k + 1] + later;
    if k > 0 {
      assert chain[0] == rules[0];
      assert chain[1..] == rules[1..][..k] + later;
      ValidateStopsAtFirstFailure(rules[1..], k - 1, later, o);
    } else {
      assert chain[0] == rules[0];
    }
  }
}
