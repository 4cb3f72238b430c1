/** The ordered validator chain that options and operands run a candidate value through.
    A validator is a total predicate on the raw text. */
module Validation {

  type Validator = string -> bool

  /** Every validator of the chain accepts `value`; the empty chain accepts everything. */
  predicate Accepts(chain: seq<Validator>, value: string)
  {
    forall i :: 0 <= i < |chain| ==> chain[i](value)
  }

  /** The loop of `isValid`: the validators are asked in order, and the loop stops at the
      first one that rejects. `consulted` is the number of validators asked. */
  method Check(chain: seq<Validator>, value: string) returns (ok: bool, ghost consulted: nat)
    ensures ok <==> Accepts(chain, value)
    ensures consulted <= |chain|
    ensures forall i :: 0 <= i < consulted - 1 ==> chain[i](value)
    ensures ok ==> consulted == |chain|
    ensures !ok ==> consulted >= 1 && !chain[consulted - 1](value)
  {
    ok := true;
    consulted := 0;
    var i := 0;
    while i < |chain|
      invariant 0 <= i <= |chain|
      invariant consulted == i
      invariant ok && forall j :: 0 <= j < i ==> chain[j](value)
    {
      ok := chain[i](value);
      consulted := consulted + 1;
      if !ok {
        return;
      }
      i := i + 1;
    }
  }
}
