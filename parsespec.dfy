/** What `command.parse` computes, as pure functions: how a token is classified by the two
    option patterns, what one turn of the token loop does to the queue and to the parse state,
    and the outcome of running the loop to its end. The imperative loop in `Commands` is proved
    to compute exactly `Run`. */
module ParseSpec {
  import opened Strings
  import opened Wrappers
  import opened Validation
  import opened Options

  /** `[a-z0-9]`, matched case-sensitively. */
  predicate ShortChar(c: char)
  {
    'a' <= c <= 'z' || '0' <= c <= '9'
  }

  /** `[a-z]` matched case-insensitively. */
  predicate Letter(c: char)
  {
    'a' <= c <= 'z' || 'A' <= c <= 'Z'
  }

  /** `[a-z0-9-]` matched case-insensitively. */
  predicate LongChar(c: char)
  {
    Letter(c) || '0' <= c <= '9' || c == '-'
  }

  /** The characters `.` does not match. */
  predicate LineTerminator(c: char)
  {
    c == '\n' || c == '\r' || c == '\U{2028}' || c == '\U{2029}'
  }

  /** The token matches `^(-[a-z0-9])([a-z0-9]*)()$`. */
  predicate ShortForm(arg: string)
  {
    |arg| >= 2 && arg[0] == '-' && forall k :: 1 <= k < |arg| ==> ShortChar(arg[k])
  }

  /** A long option name, `--[a-z][a-z0-9-]*` matched case-insensitively. */
  predicate LongName(f: string)
  {
    |f| >= 3 && f[0] == '-' && f[1] == '-' && Letter(f[2]) && forall k :: 3 <= k < |f| ==> LongChar(f[k])
  }

  /** Text that `.*` matches to its end. */
  predicate SingleLine(v: string)
  {
    forall k :: 0 <= k < |v| ==> !LineTerminator(v[k])
  }

  /** The token matches `^(--[a-z][a-z0-9-]*)()(=.*|)$` case-insensitively: a long name
      followed by nothing, or by `=` and a value on one line. */
  predicate LongForm(arg: string)
  {
    exists n :: 3 <= n <= |arg| && LongName(arg[..n]) && (n == |arg| || (arg[n] == '=' && SingleLine(arg[n + 1..])))
  }

  /** How a token is read: a short option flag with the letters clustered after it, a long
      option flag with the value written after `=`, or neither. */
  datatype Shape = Short(flag: string, rest: string) | Long(flag: string, value: Optional<string>) | Plain

  /** The first position at or after `i` that does not continue a long name. */
  function NameEnd(arg: string, i: nat): (n: nat)
    requires i <= |arg|
    ensures i <= n <= |arg|
    ensures forall k :: i <= k < n ==> LongChar(arg[k])
    ensures n < |arg| ==> !LongChar(arg[n])
    decreases |arg| - i
  {
    if i == |arg| || !LongChar(arg[i]) then i else NameEnd(arg, i + 1)
  }

  /** The two patterns of the token loop, the short one tried first. */
  function Classify(arg: string): (r: Shape)
    ensures r.Short? <==> ShortForm(arg)
    ensures r.Short? ==> r.flag == arg[..2] && r.rest == arg[2..]
    ensures r.Long? ==> LongName(r.flag)
    ensures r.Long? && r.value.None? ==> arg == r.flag
    ensures r.Long? && r.value.Some? ==> arg == r.flag + "=" + r.value.value && SingleLine(r.value.value)
  {
    if ShortForm(arg) then Short(arg[..2], arg[2..])
    else if |arg| >= 3 && arg[0] == '-' && arg[1] == '-' && Letter(arg[2]) then
      var n := NameEnd(arg, 3);
      assert arg[..n][..] == arg[..n];
      if n == |arg| then
        assert arg[..n] == arg;
        Long(arg, None)
      else if arg[n] == '=' && SingleLine(arg[n + 1..]) then
        assert arg == arg[..n] + "=" + arg[n + 1..];
        Long(arg[..n], Some(arg[n + 1..]))
      else Plain
    else Plain
  }

  /** What the loop needs to know of a declared option. */
  datatype OptDecl = OptDecl(flags: seq<string>, typeCode: int, default: Val, validators: seq<Validator>)

  /** `getId()` of a declared option. */
  function Id(d: OptDecl): string
  {
    Join(d.flags, "")
  }

  /** The flags of each declared option. */
  function FlagsOf(decls: seq<OptDecl>): (fs: seq<seq<string>>)
    ensures |fs| == |decls| && forall i :: 0 <= i < |decls| ==> fs[i] == decls[i].flags
  {
    seq(|decls|, i requires 0 <= i < |decls| => decls[i].flags)
  }

  /** The position of the first flag list that holds the flag, or -1. */
  function FirstWith(flagLists: seq<seq<string>>, flag: string): (r: int)
    ensures -1 <= r < |flagLists|
    ensures r >= 0 ==> flag in flagLists[r]
    ensures forall i :: 0 <= i < |flagLists| && (r < 0 || i < r) ==> flag !in flagLists[i]
    decreases |flagLists|
  {
    if flagLists == [] then -1
    else if flag in flagLists[0] then 0
    else
      var k := FirstWith(flagLists[1..], flag);
      assert forall i :: 1 <= i < |flagLists| ==> flagLists[i] == flagLists[1..][i - 1];
      if k < 0 then -1 else k + 1
  }

  /** The state of the loop: the option values (one per declared option), the positional
      arguments collected in literal mode, the matched options by id (as positions), and
      whether `--` has been seen. */
  datatype ParseState = ParseState(vals: seq<Val>, args: seq<string>, matched: map<string, nat>, literal: bool)

  /** The errors that end the loop. `CommandDispatch` is the token that names a subcommand,
      whose handling fails since `parse` is looked up on the map of subcommands. */
  datatype ParseError =
    | UnknownArgument(flag: string)
    | MissingValue(flag: string)
    | InvalidValue(flag: string, value: string)
    | CommandDispatch(name: string)

  datatype StepResult = Continue(state: ParseState, queue: seq<string>) | Stop(rest: seq<string>) | Fail(error: ParseError)

  /** The loop's result: it stopped, with the tokens it did not consume, or it failed. */
  datatype Outcome = Done(state: ParseState, rest: seq<string>) | Failed(error: ParseError, state: ParseState)

  /** One value per declared option, each suiting its option's type. */
  predicate WellFormed(decls: seq<OptDecl>, st: ParseState)
  {
    && |st.vals| == |decls|
    && (forall i :: 0 <= i < |decls| ==> Fits(decls[i].typeCode, st.vals[i]))
    && (forall k :: k in st.matched ==> st.matched[k] < |decls|)
  }

  /** The state the loop starts in. */
  function Start(vals: seq<Val>): ParseState
  {
    ParseState(vals, [], map[], false)
  }

  /** Each token counts its length plus one, so that every turn of the loop, pushbacks
      included, leaves a smaller queue. */
  function Weight(queue: seq<string>): nat
  {
    if queue == [] then 0 else |queue[0]| + 1 + Weight(queue[1..])
  }

  lemma {:induction false} WeightTail(queue: seq<string>)
    requires queue != []
    ensures Weight(queue[1..]) < Weight(queue)
  {
  }

  /** The option at `idx` is recorded as matched with value `v`, and the clustered letters,
      if any, are pushed back as `-<rest>`. */
  function Record(decls: seq<OptDecl>, st: ParseState, idx: nat, v: Val, q: seq<string>, rest: string): (r: StepResult)
    requires idx < |decls| && WellFormed(decls, st) && Fits(decls[idx].typeCode, v)
    ensures r.Continue? && WellFormed(decls, r.state)
    ensures r.state.vals == st.vals[idx := v] && r.state.matched == st.matched[Id(decls[idx]) := idx]
    ensures r.state.args == st.args && r.state.literal == st.literal
    ensures r.queue == if rest == "" then q else ["-" + rest] + q
    ensures Weight(r.queue) <= Weight(q) + |rest| + 2
  {
    var st2 := st.(vals := st.vals[idx := v], matched := st.matched[Id(decls[idx]) := idx]);
    Continue(st2, if rest != "" then ["-" + rest] + q else q)
  }

  /** `st2` differs from `st` only in the value of the option at `idx`, which is recorded
      under its id. */
  predicate Touches(decls: seq<OptDecl>, st: ParseState, st2: ParseState, idx: int)
    requires WellFormed(decls, st) && WellFormed(decls, st2)
  {
    && 0 <= idx < |decls|
    && st2.matched == st.matched[Id(decls[idx]) := idx]
    && st2.args == st.args && st2.literal == st.literal
    && forall j :: 0 <= j < |decls| && j != idx ==> st2.vals[j] == st.vals[j]
  }

  /** The matched option at `idx` takes the next token as its value, or is updated without
      one; `q` is the queue after any `=value` pushback. */
  function Matched(decls: seq<OptDecl>, st: ParseState, idx: nat, flag: string, q: seq<string>, rest: string): (r: StepResult)
    requires idx < |decls| && WellFormed(decls, st)
    ensures r.Continue? ==> WellFormed(decls, r.state) && Weight(r.queue) <= Weight(q) + |rest| + 2
    ensures !r.Stop? && (r.Fail? ==> TakesValue(decls[idx].typeCode))
    ensures r.Continue? ==> Touches(decls, st, r.state, idx)
  {
    var d := decls[idx];
    if TakesValue(d.typeCode) then
      if q == [] || q[0] == "" then Fail(MissingValue(flag))
      else if !Accepts(d.validators, q[0]) then Fail(InvalidValue(flag, q[0]))
      else
        WeightTail(q);
        Record(decls, st, idx, Updated(d.typeCode, st.vals[idx], d.default, d.validators, q[0], true), q[1..], rest)
    else Record(decls, st, idx, Updated(d.typeCode, st.vals[idx], d.default, d.validators, "", true), q, rest)
  }

  /** A recognised flag: the first option that has it, or an unknown-argument error. */
  function Resolve(decls: seq<OptDecl>, st: ParseState, flag: string, q: seq<string>, rest: string): (r: StepResult)
    requires WellFormed(decls, st)
    ensures r.Continue? ==> WellFormed(decls, r.state) && Weight(r.queue) <= Weight(q) + |rest| + 2
    ensures r == Fail(UnknownArgument(flag)) <==> FirstWith(FlagsOf(decls), flag) < 0
    ensures r.Continue? ==> Touches(decls, st, r.state, FirstWith(FlagsOf(decls), flag))
  {
    var idx := FirstWith(FlagsOf(decls), flag);
    if idx < 0 then Fail(UnknownArgument(flag)) else Matched(decls, st, idx, flag, q, rest)
  }

  /** An option token outweighs what its step leaves to resolve. */
  lemma ShapeWeight(queue: seq<string>)
    requires queue != []
    ensures Weight(queue) == |queue[0]| + 1 + Weight(queue[1..])
    ensures var s := Classify(queue[0]);
      && (s.Short? ==> |s.rest| + 2 == |queue[0]|)
      && (s.Long? && s.value.Some? ==> Weight([s.value.value] + queue[1..]) + 2 < Weight(queue))
      && (s.Long? && s.value.None? ==> |queue[0]| >= 3)
  {
    var s := Classify(queue[0]);
    if s.Long? && s.value.Some? {
      var v := s.value.value;
      assert ([v] + queue[1..])[1..] == queue[1..];
      assert |queue[0]| == |s.flag| + 1 + |v|;
    }
  }

  /** One turn of the token loop. `children` are the names of the subcommands. */
  function Step(decls: seq<OptDecl>, children: set<string>, st: ParseState, queue: seq<string>): (r: StepResult)
    requires WellFormed(decls, st)
    ensures r.Continue? ==> WellFormed(decls, r.state) && Weight(r.queue) < Weight(queue)
  {
    if queue == [] then Stop([])
    else
      var arg, q := queue[0], queue[1..];
      if arg == "" then Stop(q)
      else if st.literal then Continue(st.(args := st.args + [arg]), q)
      else if arg == "--" then Continue(st.(literal := true), q)
      else
        ShapeWeight(queue);
        match Classify(arg)
        case Short(flag, rest) => Resolve(decls, st, flag, q, rest)
        case Long(flag, value) =>
          if value.Some? then Resolve(decls, st, flag, [value.value] + q, "")
          else Resolve(decls, st, flag, q, "")
        case Plain => if arg in children then Fail(CommandDispatch(arg)) else Continue(st, q)
  }

  /** The token loop run to its end. */
  function Run(decls: seq<OptDecl>, children: set<string>, st: ParseState, queue: seq<string>): (r: Outcome)
    requires WellFormed(decls, st)
    ensures WellFormed(decls, r.state)
    decreases Weight(queue)
  {
    match Step(decls, children, st, queue)
    case Stop(rest) => Done(st, rest)
    case Fail(e) => Failed(e, st)
    case Continue(st2, q2) => Run(decls, children, st2, q2)
  }

  /** The loop stops at the end of the queue and at an empty token, which it consumes. */
  lemma RunStops(decls: seq<OptDecl>, children: set<string>, st: ParseState, queue: seq<string>)
    requires WellFormed(decls, st) && (queue == [] || queue[0] == "")
    ensures Run(decls, children, st, queue) == Done(st, if queue == [] then [] else queue[1..])
  {
  }

  /** In literal mode a token is collected as a positional argument. */
  lemma RunLiteral(decls: seq<OptDecl>, children: set<string>, st: ParseState, queue: seq<string>)
    requires WellFormed(decls, st) && queue != [] && queue[0] != "" && st.literal
    ensures Run(decls, children, st, queue) == Run(decls, children, st.(args := st.args + [queue[0]]), queue[1..])
  {
  }

  /** `--` switches to literal mode. */
  lemma RunDashDash(decls: seq<OptDecl>, children: set<string>, st: ParseState, queue: seq<string>)
    requires WellFormed(decls, st) && queue != [] && queue[0] == "--" && !st.literal
    ensures Run(decls, children, st, queue) == Run(decls, children, st.(literal := true), queue[1..])
  {
  }

  /** A token that is not an option names a subcommand, which fails, or is dropped. */
  lemma RunPlain(decls: seq<OptDecl>, children: set<string>, st: ParseState, queue: seq<string>)
    requires WellFormed(decls, st) && queue != [] && queue[0] != "" && queue[0] != "--" && !st.literal
    requires Classify(queue[0]).Plain?
    ensures Run(decls, children, st, queue) ==
      if queue[0] in children then Failed(CommandDispatch(queue[0]), st) else Run(decls, children, st, queue[1..])
  {
  }

  /** The queue after an option token: its `=value`, if any, pushed back. */
  function AfterFlag(shape: Shape, q: seq<string>): seq<string>
  {
    if shape.Long? && shape.value.Some? then [shape.value.value] + q else q
  }

  /** The letters clustered after a short option flag. */
  function Clustered(shape: Shape): string
  {
    if shape.Short? then shape.rest else ""
  }

  /** An option token is resolved against the declared options. */
  lemma RunOption(decls: seq<OptDecl>, children: set<string>, st: ParseState, queue: seq<string>)
    requires WellFormed(decls, st) && queue != [] && queue[0] != "" && queue[0] != "--" && !st.literal
    requires !Classify(queue[0]).Plain?
    ensures var shape := Classify(queue[0]);
      var r := Resolve(decls, st, shape.flag, AfterFlag(shape, queue[1..]), Clustered(shape));
      && !r.Stop?
      && Run(decls, children, st, queue) == if r.Fail? then Failed(r.error, st) else Run(decls, children, r.state, r.queue)
  {
  }
}
