/** An option of a command: its flags, the type and required bit decoded from a settings
    bit-field, its current value and the validators a candidate value must pass. */
module Options {
  import opened Strings
  import opened Wrappers
  import opened Validation

  /** The JavaScript values an option holds: numbers (integers here), booleans, strings and
      arrays of strings. */
  datatype Val = Num(n: int) | Bool(b: bool) | Str(s: string) | List(items: seq<string>)

  /** The settings bits. */
  const T_SWITCH: bv32 := 1
  const T_VALUE: bv32 := 3
  const T_LIST: bv32 := 7
  const T_COUNT: bv32 := 31
  const T_REQUIRED: bv32 := 256

  /** `settings || T_SWITCH`: absent (zero) settings mean a switch. */
  function Effective(settings: bv32): bv32
  {
    if settings == 0 then T_SWITCH else settings
  }

  /** The type code: the low byte of the effective settings. */
  function TypeOf(settings: bv32): (t: int)
    ensures 0 <= t < 256
  {
    (Effective(settings) & 0xff) as int
  }

  /** The required flag: bit 256 of the effective settings. */
  predicate RequiredOf(settings: bv32)
  {
    Effective(settings) & T_REQUIRED == T_REQUIRED
  }

  /** How an option reacts to a match, by type code: value-taking types 3 and 7, the counter
      31, and every other code behaves as a switch. */
  datatype Kind = Switch | Scalar | Collect | Counter

  function KindOf(t: int): Kind
  {
    if t == 3 then Scalar
    else if t == 7 then Collect
    else if t == 31 then Counter
    else Switch
  }

  /** Setting the required bit never changes what kind of option the settings describe, and
      it changes the type code only for the otherwise empty settings (a switch either way). */
  lemma RequiredBitKeepsKind(settings: bv32)
    ensures RequiredOf(settings | T_REQUIRED)
    ensures settings != 0 ==> TypeOf(settings | T_REQUIRED) == TypeOf(settings)
    ensures KindOf(TypeOf(settings | T_REQUIRED)) == KindOf(TypeOf(settings))
    ensures RequiredOf(settings) <==> settings & T_REQUIRED != 0
  {
  }

  /** `takesValue()`: a scalar (type 3) or a list (type 7) consumes the next token. */
  predicate TakesValue(t: int)
  {
    t == 3 || t == 7
  }

  /** `String(v)`, the text JavaScript converts a value to. */
  function Text(v: Val): string
  {
    match v
    case Num(n) => Decimal(n)
    case Bool(b) => if b then "true" else "false"
    case Str(s) => s
    case List(items) => Join(items, ",")
  }

  function Digit(d: nat): (c: char)
    requires d < 10
    ensures '0' <= c <= '9' && (c - '0') as int == d
  {
    ('0' as int + d) as char
  }

  /** The decimal text of an integer. */
  function Decimal(n: int): (r: string)
    ensures r != []
    ensures forall i :: 0 <= i < |r| ==> r[i] == '-' || '0' <= r[i] <= '9'
    ensures n >= 0 ==> AllDigits(r)
    decreases if n < 0 then 1 - n else n
  {
    if n < 0 then "-" + Decimal(-n)
    else if n < 10 then [Digit(n)]
    else Decimal(n / 10) + [Digit(n % 10)]
  }

  /** `word` occurs in `s`. */
  predicate Contains(s: string, word: string)
    decreases |s|
  {
    if |s| < |word| then false
    else s[..|word|] == word || Contains(s[1..], word)
  }

  /** `/boolean|number|string/.test(v)`: the text of `v` names one of the three types. No
      boolean passes, nor any text shorter than the shortest type name, while each type name
      passes. */
  function NamesType(v: Val): (b: bool)
    ensures v.Bool? ==> !b
    ensures v.Str? && |v.s| < 6 ==> !b
    ensures v in {Str("boolean"), Str("number"), Str("string")} ==> b
  {
    var t := Text(v);
    Contains(t, "boolean") || Contains(t, "number") || Contains(t, "string")
  }

  /** The characters JavaScript's number conversion skips around a numeral: white space and
      line terminators. */
  predicate JsSpace(c: char)
  {
    || c == ' ' || '\t' <= c <= '\r' || c == '\U{a0}' || c == '\U{1680}'
    || '\U{2000}' <= c <= '\U{200a}' || c == '\U{2028}' || c == '\U{2029}' || c == '\U{202f}'
    || c == '\U{205f}' || c == '\U{3000}' || c == '\U{feff}'
  }

  /** `s` without the white space around it. */
  function TrimJs(s: string): (r: string)
    ensures |r| <= |s|
    ensures r == [] || (!JsSpace(r[0]) && !JsSpace(r[|r| - 1]))
    decreases |s|
  {
    if s == [] then s
    else if JsSpace(s[0]) then TrimJs(s[1..])
    else if JsSpace(s[|s| - 1]) then TrimJs(s[..|s| - 1])
    else s
  }

  /** `r` sits in `s` at `a`, with only white space before and after it. */
  predicate Framed(s: string, r: string, a: nat)
  {
    && a + |r| <= |s| && r == s[a..a + |r|]
    && (forall i :: 0 <= i < a ==> JsSpace(s[i]))
    && (forall i :: a + |r| <= i < |s| ==> JsSpace(s[i]))
  }

  lemma FramedFront(s: string, r: string, b: nat)
    requires s != [] && JsSpace(s[0]) && Framed(s[1..], r, b)
    ensures Framed(s, r, b + 1)
  {
    var t := s[1..];
    assert forall i :: 1 <= i < |s| ==> s[i] == t[i - 1];
    assert t[b..b + |r|] == s[b + 1..b + 1 + |r|];
  }

  lemma FramedBack(s: string, r: string, a: nat)
    requires s != [] && JsSpace(s[|s| - 1]) && Framed(s[..|s| - 1], r, a)
    ensures Framed(s, r, a)
  {
    assert s[..|s| - 1][a..a + |r|] == s[a..a + |r|];
  }

  /** Trimming removes white space only, and only at the ends: the result is the text
      between a run of white space before it and a run after it. */
  lemma {:induction false} TrimJsRemovesOnlySpace(s: string) returns (a: nat)
    ensures Framed(s, TrimJs(s), a)
    decreases |s|
  {
    if s == [] {
      a := 0;
    } else if JsSpace(s[0]) {
      var b := TrimJsRemovesOnlySpace(s[1..]);
      FramedFront(s, TrimJs(s), b);
      a := b + 1;
    } else if JsSpace(s[|s| - 1]) {
      a := TrimJsRemovesOnlySpace(s[..|s| - 1]);
      FramedBack(s, TrimJs(s), a);
    } else {
      a := 0;
      assert s[0..|s|] == s;
    }
  }

  predicate AllDigits(s: string)
  {
    forall i :: 0 <= i < |s| ==> '0' <= s[i] <= '9'
  }

  /** The number a string of decimal digits denotes. */
  function DigitsValue(s: string): nat
    requires AllDigits(s)
  {
    if s == [] then 0 else DigitsValue(s[..|s| - 1]) * 10 + (s[|s| - 1] - '0') as nat
  }

  /** A numeral this model recognises: an optionally signed run of decimal digits, or
      nothing at all (which JavaScript converts to 0). */
  predicate Numeral(t: string)
  {
    t == [] || (AllDigits(t) ) || (t[0] in "+-" && |t| > 1 && AllDigits(t[1..]))
  }

  /** The value of a numeral. */
  function NumeralValue(t: string): int
    requires Numeral(t)
  {
    if t == [] then 0
    else if AllDigits(t) then DigitsValue(t)
    else if t[0] == '-' then -(DigitsValue(t[1..]) as int)
    else DigitsValue(t[1..])
  }

  /** `!isNaN(v)`: numbers and booleans convert to numbers, strings and lists convert through
      their text. Every number, boolean and digit string passes, as do the empty text and the
      empty list (both convert to 0); a text without white space at its ends passes exactly
      when it is a numeral. */
  function IsNumeric(v: Val): (b: bool)
    ensures v.Num? || v.Bool? ==> b
    ensures v.Str? && AllDigits(v.s) ==> b
    ensures v == List([]) ==> b
    ensures v.Str? && v.s != [] && !JsSpace(v.s[0]) && !JsSpace(v.s[|v.s| - 1]) ==> (b <==> Numeral(v.s))
  {
    v.Num? || v.Bool? || Numeral(TrimJs(Text(v)))
  }

  /** The number `v` converts to, as `++` reads it. */
  function NumberOf(v: Val): int
    requires IsNumeric(v)
  {
    match v
    case Num(n) => n
    case Bool(b) => if b then 1 else 0
    case _ => NumeralValue(TrimJs(Text(v)))
  }

  /** The text of every integer is a numeral that converts back to that integer. */
  lemma DecimalRoundTrip(n: int)
    ensures IsNumeric(Str(Decimal(n))) && NumberOf(Str(Decimal(n))) == n
  {
    var d := Decimal(n);
    assert !JsSpace(d[0]) && !JsSpace(d[|d| - 1]);
    assert TrimJs(d) == d;
    DecimalNumeral(n);
  }

  /** The text of every integer is a numeral denoting it. */
  lemma DecimalNumeral(n: int)
    ensures Numeral(Decimal(n)) && NumeralValue(Decimal(n)) == n
  {
    var d := Decimal(n);
    if n < 0 {
      assert d == "-" + Decimal(-n) && d[1..] == Decimal(-n);
      DigitsOfDecimal(-n);
      assert d[0] == '-' && !AllDigits(d);
    } else {
      DigitsOfDecimal(n);
    }
  }

  /** A non-negative integer's text is its digits. */
  lemma {:induction false} DigitsOfDecimal(n: nat)
    ensures AllDigits(Decimal(n)) && DigitsValue(Decimal(n)) == n
    decreases n
  {
    var d := Decimal(n);
    if n >= 10 {
      DigitsOfDecimal(n / 10);
      assert d[..|d| - 1] == Decimal(n / 10);
      assert (d[|d| - 1] - '0') as nat == n % 10;
      assert DigitsValue(d) == (n / 10) * 10 + n % 10;
    } else {
      assert d[..0] == [];
    }
  }

  /** `setDefaultValue(v)`: a counter keeps a value that converts to a number (else 0), a list
      keeps an array (else the empty list), any other type keeps `v` only when its text passes
      the type-name test (else `true`). */
  function DefaultFor(t: int, v: Val): (r: Val)
    ensures Fits(t, r)
    ensures r == v || r == Num(0) || r == List([]) || r == Bool(true)
  {
    if t == 31 then (if IsNumeric(v) then v else Num(0))
    else if t == 7 then (if v.List? then v else List([]))
    else if NamesType(v) then v
    else Bool(true)
  }

  /** `setDefaultValue` keeps a value exactly when it suits the type (a number for a counter,
      a list for a list, a type-name text or `true` otherwise), and replaces any other value by
      the value the option starts with when no default is given. */
  lemma DefaultKeepsOrFallsBack(t: int, v: Val)
    ensures DefaultFor(t, v) == v <==>
      if KindOf(t) == Counter then IsNumeric(v)
      else if KindOf(t) == Collect then v.List?
      else NamesType(v) || v == Bool(true)
    ensures DefaultFor(t, v) != v ==> DefaultFor(t, v) == InitialValue(t, None)
  {
    if t == 31 && !IsNumeric(v) {
      assert IsNumeric(Num(0));
    }
  }

  /** The value an option starts with: from the given default through `DefaultFor`, or,
      when none is given, 0 for a counter, the empty list for a list, `true` otherwise. */
  function InitialValue(t: int, initial: Optional<Val>): (r: Val)
    ensures Fits(t, r)
    ensures initial.Some? ==> r == DefaultFor(t, initial.value)
    ensures initial.None? && KindOf(t) == Counter ==> r == Num(0)
    ensures initial.None? && KindOf(t) == Collect ==> r == List([])
    ensures initial.None? && KindOf(t) != Counter && KindOf(t) != Collect ==> r == Bool(true)
  {
    if initial.Some? then DefaultFor(t, initial.value)
    else if t == 31 then Num(0)
    else if t == 7 then List([])
    else Bool(true)
  }

  /** The value suits the type: a counter holds something that converts to a number, a list
      holds a list. */
  predicate Fits(t: int, v: Val)
  {
    (t == 31 ==> IsNumeric(v)) && (t == 7 ==> v.List?)
  }

  /** JavaScript truthiness, as `!` reads it: among the modelled values, exactly 0, `false`
      and the empty text are falsy. */
  function Truthy(v: Val): (b: bool)
    ensures b <==> v !in {Num(0), Bool(false), Str("")}
  {
    match v
    case Num(n) => n != 0
    case Bool(b) => b
    case Str(s) => s != ""
    case List(_) => true
  }

  /** The value after `updateValue(arg, validate)`: a counter is incremented, a switch is set
      to the negation of its default, a value-taking option that is asked to validate and
      whose validators accept `arg` stores it (a scalar) or appends it (a list); otherwise the
      value stays. */
  function Updated(t: int, value: Val, default: Val, validators: seq<Validator>, arg: string, validate: bool): (r: Val)
    requires Fits(t, value)
    ensures Fits(t, r)
    ensures TakesValue(t) && r != value ==> validate && Accepts(validators, arg)
    ensures KindOf(t) == Collect ==> r.items == value.items || r.items == value.items + [arg]
    ensures KindOf(t) == Switch ==> r.Bool?
  {
    if !TakesValue(t) then
      if t == 31 then Num(NumberOf(value) + 1) else Bool(!Truthy(default))
    else if validate && Accepts(validators, arg) then
      if t == 3 then Str(arg) else List(value.items + [arg])
    else value
  }

  class Option {
    const flags: seq<string>
    const metavar: string
    const typeCode: int
    const required: bool
    var description: string
    var default: Val
    var value: Val
    var validators: seq<Validator>

    /** A counter holds a number and a list holds a list. */
    ghost predicate Valid()
      reads this
    {
      Fits(typeCode, value)
    }

    /** `new option(flags, settings, metavar, value)`. */
    constructor (flags: seq<string>, settings: bv32, metavar: Optional<string>, initial: Optional<Val>)
      ensures this.flags == flags
      ensures typeCode == TypeOf(settings) && required == RequiredOf(settings)
      ensures this.metavar == if metavar.None? || metavar.value == "" then "arg" else metavar.value
      ensures value == InitialValue(typeCode, initial) && default == value
      ensures validators == [] && description == "" && Valid()
    {
      this.flags := flags;
      this.metavar := if metavar.None? || metavar.value == "" then "arg" else metavar.value;
      typeCode := TypeOf(settings);
      required := RequiredOf(settings);
      description := "";
      validators := [];
      new;
      if initial.Some? {
        SetDefaultValue(initial.value);
      } else if typeCode == 31 {
        value := Num(0);
      } else if typeCode == 7 {
        value := List([]);
      } else {
        value := Bool(true);
      }
      default := value;
    }

    /** `getId()`: the flags written one after the other. */
    function GetId(): (id: string)
      ensures id == Flatten(flags)
      ensures |flags| == 1 ==> id == flags[0]
      ensures |flags| >= 1 ==> |flags[0]| <= |id| && id[..|flags[0]|] == flags[0]
    {
      JoinEmptyFlattens(flags);
      if |flags| >= 1 then JoinPrefixSuffix(flags, ""); Join(flags, "")
      else Join(flags, "")
    }

    /** `isFlag(flag)`: the flag is one of the option's flags. */
    function IsFlag(flag: string): (b: bool)
      ensures b <==> flag in flags
    {
      IndexOf(flags, flag) >= 0
    }

    /** `takesValue()`. */
    function TakesValue(): (b: bool)
      ensures b <==> KindOf(typeCode) == Scalar || KindOf(typeCode) == Collect
    {
      typeCode == 3 || typeCode == 7
    }

    /** `setHelp(description)`. */
    method SetHelp(description: string)
      modifies this`description
      ensures this.description == description
    {
      this.description := description;
    }

    /** `addValidator(fn)`: the validator joins the end of the chain. */
    method AddValidator(fn: Validator)
      modifies this`validators
      ensures validators == old(validators) + [fn]
    {
      validators := validators + [fn];
    }

    /** `isValid(v)`: every validator accepts `v`, asked in order until the first rejection. */
    method IsValid(v: string) returns (ok: bool)
      ensures ok <==> forall i :: 0 <= i < |validators| ==> validators[i](v)
    {
      ghost var consulted;
      ok, consulted := Check(validators, v);
    }

    /** `updateValue(arg, validate)`. */
    method UpdateValue(arg: string, validate: bool)
      requires Valid()
      modifies this`value
      ensures Valid()
      ensures value == Updated(typeCode, old(value), default, validators, arg, validate)
    {
      if !TakesValue() {
        if typeCode == 31 {
          value := Num(NumberOf(value) + 1);
        } else {
          value := Bool(!Truthy(default));
        }
      } else {
        var ok := false;
        if validate {
          ok := IsValid(arg);
        }
        if ok {
          if typeCode == 3 {
            value := Str(arg);
          } else {
            value := List(value.items + [arg]);
          }
        }
      }
    }

    /** `setDefaultValue(v)`: only the current value changes, not the recorded default. */
    method SetDefaultValue(v: Val)
      modifies this`value
      ensures value == DefaultFor(typeCode, v) && Valid()
    {
      if typeCode == 31 {
        value := if IsNumeric(v) then v else Num(0);
      } else if typeCode == 7 {
        value := if v.List? then v else List([]);
      } else {
        value := if NamesType(v) then v else Bool(true);
      }
    }
  }

  /** The value after one match per token of `args`, validating each. */
  function UpdatedAll(t: int, value: Val, default: Val, validators: seq<Validator>, args: seq<string>): (r: Val)
    requires Fits(t, value)
    ensures Fits(t, r)
    decreases |args|
  {
    if args == [] then value
    else UpdatedAll(t, Updated(t, value, default, validators, args[0], true), default, validators, args[1..])
  }

  /** The tokens of `args` the validators accept, in order. */
  function AcceptedOf(validators: seq<Validator>, args: seq<string>): seq<string>
  {
    if args == [] then []
    else (if Accepts(validators, args[0]) then [args[0]] else []) + AcceptedOf(validators, args[1..])
  }

  /** A counter matched `k` times, `k > 0`, holds the number its value converted to, grown
      by exactly `k`. */
  lemma {:induction false} CounterCounts(value: Val, default: Val, validators: seq<Validator>, args: seq<string>)
    requires IsNumeric(value)
    ensures args != [] ==> UpdatedAll(31, value, default, validators, args) == Num(NumberOf(value) + |args|)
    ensures args == [] ==> UpdatedAll(31, value, default, validators, args) == value
    decreases |args|
  {
    if args != [] {
      CounterCounts(Num(NumberOf(value) + 1), default, validators, args[1..]);
    }
  }

  /** A switch matched once or more holds the negation of its default: further matches
      change nothing. */
  lemma {:induction false} SwitchSettles(t: int, value: Val, default: Val, validators: seq<Validator>, args: seq<string>)
    requires KindOf(t) == Switch && Fits(t, value) && args != []
    ensures UpdatedAll(t, value, default, validators, args) == Bool(!Truthy(default))
    decreases |args|
  {
    if |args| > 1 {
      SwitchSettles(t, Bool(!Truthy(default)), default, validators, args[1..]);
    }
  }

  /** A list option collects the accepted values, in order, after its current ones. */
  lemma {:induction false} ListCollects(items: seq<string>, default: Val, validators: seq<Validator>, args: seq<string>)
    ensures UpdatedAll(7, List(items), default, validators, args) == List(items + AcceptedOf(validators, args))
    decreases |args|
  {
    if args != [] {
      var next := if Accepts(validators, args[0]) then items + [args[0]] else items;
      ListCollects(next, default, validators, args[1..]);
      assert items + ((if Accepts(validators, args[0]) then [args[0]] else []) + AcceptedOf(validators, args[1..]))
          == next + AcceptedOf(validators, args[1..]);
    }
  }

  /** A scalar option holds the last accepted value, or its old value if none was accepted. */
  lemma {:induction false} ScalarKeepsLast(value: Val, default: Val, validators: seq<Validator>, args: seq<string>)
    ensures var accepted := AcceptedOf(validators, args);
      UpdatedAll(3, value, default, validators, args)
        == if accepted == [] then value else Str(accepted[|accepted| - 1])
    decreases |args|
  {
    if args != [] {
      var next := if Accepts(validators, args[0]) then Str(args[0]) else value;
      ScalarKeepsLast(next, default, validators, args[1..]);
    }
  }

  /** A value the validators reject, or any value when validation is switched off, leaves a
      value-taking option unchanged. */
  lemma RejectedLeavesValue(t: int, value: Val, default: Val, validators: seq<Validator>, arg: string, validate: bool)
    requires TakesValue(t) && Fits(t, value)
    requires !validate || exists i :: 0 <= i < |validators| && !validators[i](arg)
    ensures Updated(t, value, default, validators, arg, validate) == value
  {
  }

  /** A word occurs only in a text that holds its first character. */
  lemma {:induction false} ContainsFirst(s: string, word: string)
    requires word != [] && Contains(s, word)
    ensures word[0] in s
    decreases |s|
  {
    if s[..|word|] == word {
      assert s[0] == word[0];
    } else {
      ContainsFirst(s[1..], word);
    }
  }

  /** The type-name test fails for every number and boolean, so a switch or scalar declared
      with a number or with `false` as its default starts as `true`. */
  lemma NumbersAndBooleansBecomeTrue(t: int, v: Val)
    requires KindOf(t) != Counter && KindOf(t) != Collect
    requires v.Num? || v.Bool?
    ensures DefaultFor(t, v) == Bool(true)
    ensures InitialValue(t, Some(v)) == Bool(true)
  {
    var text := Text(v);
    if v.Num? {
      forall word | word in ["boolean", "number", "string"]
        ensures !Contains(text, word)
      {
        if Contains(text, word) {
          ContainsFirst(text, word);
          assert false;
        }
      }
    } else {
      assert |text| <= 5;
    }
  }

  /** The type-name test keeps a text that names a type, such as a string default "string". */
  lemma TypeNameTextIsKept(t: int, s: string)
    requires KindOf(t) != Counter && KindOf(t) != Collect
    requires Contains(s, "string")
    ensures DefaultFor(t, Str(s)) == Str(s)
  {
  }
}
