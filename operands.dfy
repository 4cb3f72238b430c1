/** A positional operand of a command: how many values it takes, the name shown in usage
    texts, its default values and the validators a value must pass. */
module Operands {
  import opened Wrappers
  import opened Validation

  type Positive = n: int | n > 0 witness 1

  /** The first argument of `new operand(num, ...)`: a number or a string. */
  datatype NumSpec = Count(n: int) | Symbol(s: string)

  /** The accepted specifications: exactly `n` values, or one of `?`, `*`, `+`. */
  datatype Arity = Exactly(n: Positive) | ZeroOrOne | ZeroOrMore | OneOrMore

  /** An upper bound that may be infinite. */
  datatype Bound = Finite(n: nat) | Unbounded

  /** The constructor's check of `num`: a positive integer, or exactly `?`, `*` or `+`;
      anything else is rejected and returned as the error. */
  function ParseArity(num: NumSpec): (r: Result<Arity, NumSpec>)
    ensures r.Err? ==> r.error == num
  {
    match num
    case Count(n) => if n > 0 then Ok(Exactly(n)) else Err(num)
    case Symbol(s) =>
      if s == "?" then Ok(ZeroOrOne)
      else if s == "*" then Ok(ZeroOrMore)
      else if s == "+" then Ok(OneOrMore)
      else Err(num)
  }

  /** The specification an arity is written as. */
  function SpecOf(a: Arity): NumSpec
  {
    match a
    case Exactly(n) => Count(n)
    case ZeroOrOne => Symbol("?")
    case ZeroOrMore => Symbol("*")
    case OneOrMore => Symbol("+")
  }

  /** Exactly the positive integers and the three symbols are accepted. */
  lemma ParseArityAccepts(num: NumSpec)
    ensures ParseArity(num).Ok? <==>
      (num.Count? && num.n > 0) || (num.Symbol? && num.s in {"?", "*", "+"})
  {
  }

  /** Parsing recovers every arity from its specification, and every accepted specification
      is the one its arity is written as. */
  lemma ParseArityRoundTrip(a: Arity, num: NumSpec)
    ensures ParseArity(SpecOf(a)) == Ok(a)
    ensures ParseArity(num).Ok? ==> SpecOf(ParseArity(num).value) == num
  {
  }

  /** `getExpected()`: the least and the greatest number of values. */
  function Expected(a: Arity): (r: (nat, Bound))
    ensures r.1.Finite? ==> r.0 <= r.1.n
    ensures r.1.Unbounded? <==> a == ZeroOrMore || a == OneOrMore
    ensures r.0 == 0 <==> a == ZeroOrOne || a == ZeroOrMore
    ensures a.Exactly? ==> r == (a.n, Finite(a.n))
    ensures a == ZeroOrOne ==> r == (0, Finite(1))
    ensures a == OneOrMore ==> r.0 == 1
  {
    match a
    case ZeroOrOne => (0, Finite(1))
    case ZeroOrMore => (0, Unbounded)
    case OneOrMore => (1, Unbounded)
    case Exactly(n) => (n as nat, Finite(n))
  }

  /** The pair determines the arity: no two arities expect the same numbers of values. */
  lemma ExpectedInjective(a: Arity, b: Arity)
    requires Expected(a) == Expected(b)
    ensures a == b
  {
  }

  class Operand {
    const arity: Arity
    const metavar: Optional<string>
    const values: Optional<seq<string>>
    var description: string
    var validators: seq<Validator>

    /** The part of the constructor that runs once `num` is accepted. */
    constructor (arity: Arity, metavar: Optional<string>, values: Optional<seq<string>>)
      ensures this.arity == arity && this.metavar == metavar && this.values == values
      ensures description == "" && validators == []
    {
      this.arity := arity;
      this.metavar := metavar;
      this.values := values;
      description := "";
      validators := [];
    }

    /** `new operand(num, metavar, values)`: an operand, or the rejected `num`. */
    static method Create(num: NumSpec, metavar: Optional<string>, values: Optional<seq<string>>)
      returns (r: Result<Operand, NumSpec>)
      ensures r.Ok? <==> ParseArity(num).Ok?
      ensures r.Err? ==> r.error == num
      ensures r.Ok? ==> fresh(r.value) && r.value.arity == ParseArity(num).value
      ensures r.Ok? ==> r.value.metavar == metavar && r.value.values == values
      ensures r.Ok? ==> r.value.validators == [] && r.value.description == ""
    {
      var a := ParseArity(num);
      if a.Err? {
        return Err(num);
      }
      var o := new Operand(a.value, metavar, values);
      return Ok(o);
    }

    /** `setHelp(description)`. */
    method SetHelp(description: string)
      modifies this`description
      ensures this.description == description
    {
      this.description := description;
    }

    /** `addValidator(fn)`: the validator joins the end of the chain. */
    method AddValidator(fn: Validator)
      modifies this`validators
      ensures validators == old(validators) + [fn]
    {
      validators := validators + [fn];
    }

    /** `isValid(v)`: every validator accepts `v`, asked in order until the first rejection. */
    method IsValid(v: string) returns (ok: bool)
      ensures ok <==> forall i :: 0 <= i < |validators| ==> validators[i](v)
    {
      ghost var consulted;
      ok, consulted := Check(validators, v);
    }
  }
}
