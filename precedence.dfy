/** Search dispatch as a precedence table: the first rule whose criterion is
    present chooses the query, and every later criterion is ignored. */
module Precedence {

  datatype Rule<!Q, P> = Rule(applies: Q -> bool, path: Q -> P)

  /** `k` is the first rule of the table that applies to `q`. */
  ghost predicate FirstApplies<Q, P>(rules: seq<Rule<Q, P>>, q: Q, k: int) {
    0 <= k < |rules| && rules[k].applies(q) && forall j :: 0 <= j < k ==> !rules[j].applies(q)
  }

  /** The path of the first applicable rule, or `fallback` when none applies. */
  function FirstMatch<Q, P>(rules: seq<Rule<Q, P>>, q: Q, fallback: P): (p: P)
    ensures (forall j :: 0 <= j < |rules| ==> !rules[j].applies(q)) ==> p == fallback
    ensures forall k :: FirstApplies(rules, q, k) ==> p == rules[k].path(q)
  {
    if rules == [] then fallback
    else if rules[0].applies(q) then rules[0].path(q)
    else
      var p := FirstMatch(rules[1..], q, fallback);
      assert forall k :: FirstApplies(rules, q, k) ==> FirstApplies(rules[1..], q, k - 1) by {
        forall k | FirstApplies(rules, q, k) ensures FirstApplies(rules[1..], q, k - 1) {
          assert k != 0;
          forall j | 0 <= j < k - 1 ensures !rules[1..][j].applies(q) {
            assert rules[1..][j] == rules[j + 1];
          }
        }
      }
      p
  }
}
