/** Properties of the token loop of `command.parse`, stated on its specification `Run`: literal
    mode, short option clusters, `--name=value`, the error outcomes and the recorded ids. */
module ParseProperties {
  import opened Strings
  import opened Wrappers
  import opened Validation
  import opened Options
  import opened ParseSpec

  /** Where literal mode stops: every token up to the first empty one is collected, and the
      tokens after that empty one are left; without an empty token all are collected. */
  function LiteralOutcome(st: ParseState, q: seq<string>): Outcome
  {
    var k := IndexOf(q, "");
    if k < 0 then Done(st.(args := st.args + q), [])
    else Done(st.(args := st.args + q[..k]), q[k + 1..])
  }

  /** Collecting one more token before the rest leads to the same stop. */
  lemma LiteralOutcomeStep(st: ParseState, q: seq<string>)
    requires q != [] && q[0] != ""
    ensures LiteralOutcome(st, q) == LiteralOutcome(st.(args := st.args + [q[0]]), q[1..])
  {
    var k := IndexOf(q[1..], "");
    if k < 0 {
      assert st.args + [q[0]] + q[1..] == st.args + q;
    } else {
      assert IndexOf(q, "") == k + 1;
      assert q[1..][..k] == q[1..k + 1];
      assert st.args + [q[0]] + q[1..k + 1] == st.args + q[..k + 1];
      assert q[1..][k + 1..] == q[k + 2..];
    }
  }

  /** After `--`, every token up to the first empty one is a positional argument, and the
      loop stops there, leaving the tokens after it; without an empty token it takes all. */
  lemma {:induction false} LiteralCollects(decls: seq<OptDecl>, children: set<string>, st: ParseState, q: seq<string>)
    requires WellFormed(decls, st) && st.literal
    ensures Run(decls, children, st, q) == LiteralOutcome(st, q)
    decreases |q|
  {
    if q == [] {
      RunStops(decls, children, st, q);
      assert st.(args := st.args + q) == st;
    } else if q[0] == "" {
      RunStops(decls, children, st, q);
      assert st.(args := st.args + q[..0]) == st;
    } else {
      RunLiteral(decls, children, st, q);
      LiteralCollects(decls, children, st.(args := st.args + [q[0]]), q[1..]);
      LiteralOutcomeStep(st, q);
    }
  }

  /** A bare `--` switches to literal mode: no later token is read as an option. */
  lemma DoubleDashStartsLiteral(decls: seq<OptDecl>, children: set<string>, st: ParseState, q: seq<string>)
    requires WellFormed(decls, st) && !st.literal
    ensures Run(decls, children, st, ["--"] + q) == LiteralOutcome(st.(literal := true), q)
  {
    RunDashDash(decls, children, st, ["--"] + q);
    assert (["--"] + q)[1..] == q;
    LiteralCollects(decls, children, st.(literal := true), q);
  }

  /** The tokens `-a`, `-b`, ... for the characters of `cs`. */
  function Singles(cs: string): (r: seq<string>)
    ensures |r| == |cs| && forall i :: 0 <= i < |cs| ==> r[i] == "-" + [cs[i]]
  {
    if cs == [] then [] else ["-" + [cs[0]]] + Singles(cs[1..])
  }

  /** The flag `-c` is unknown or names an option that takes no value. */
  predicate NoValueFlag(decls: seq<OptDecl>, c: char)
  {
    var idx := FirstWith(FlagsOf(decls), "-" + [c]);
    idx < 0 || !TakesValue(decls[idx].typeCode)
  }

  /** The state after the option at `idx` is matched without a value. */
  function MatchedState(decls: seq<OptDecl>, st: ParseState, idx: nat): (r: ParseState)
    requires idx < |decls| && WellFormed(decls, st)
    ensures WellFormed(decls, r)
  {
    var d := decls[idx];
    Record(decls, st, idx, Updated(d.typeCode, st.vals[idx], d.default, d.validators, "", true), [], "").state
  }

  lemma ShortTokenShape(c: char, rest: string)
    requires ShortChar(c) && forall k :: 0 <= k < |rest| ==> ShortChar(rest[k])
    ensures Classify("-" + [c] + rest) == Short("-" + [c], rest)
  {
    var arg := "-" + [c] + rest;
    assert forall k :: 2 <= k < |arg| ==> arg[k] == rest[k - 2];
    assert arg[..2] == "-" + [c] && arg[2..] == rest;
  }

  /** Two queues whose first turns agree lead to the same outcome. */
  lemma SameStepSameRun(decls: seq<OptDecl>, children: set<string>, st: ParseState, a: seq<string>, b: seq<string>)
    requires WellFormed(decls, st) && Step(decls, children, st, a) == Step(decls, children, st, b)
    ensures Run(decls, children, st, a) == Run(decls, children, st, b)
  {
  }

  /** The first turn on a short option token resolves its flag, with its clustered letters
      to push back. */
  lemma StepShort(decls: seq<OptDecl>, children: set<string>, st: ParseState, c: char, rest: string, q: seq<string>)
    requires WellFormed(decls, st) && !st.literal && ShortChar(c)
    requires forall k :: 0 <= k < |rest| ==> ShortChar(rest[k])
    ensures Step(decls, children, st, ["-" + [c] + rest] + q) == Resolve(decls, st, "-" + [c], q, rest)
  {
    var queue := ["-" + [c] + rest] + q;
    ShortTokenShape(c, rest);
    assert queue[0][1] == c && queue[1..] == q;
  }

  /** For a flag that takes no value, the clustered letters are pushed back the same whether
      they come with the flag or as the next token. */
  lemma ResolvePushback(decls: seq<OptDecl>, st: ParseState, flag: string, rest: string, q: seq<string>)
    requires WellFormed(decls, st) && rest != ""
    requires var idx := FirstWith(FlagsOf(decls), flag); idx < 0 || !TakesValue(decls[idx].typeCode)
    ensures Resolve(decls, st, flag, q, rest) == Resolve(decls, st, flag, ["-" + rest] + q, "")
  {
  }

  /** For a flag that takes a value, the value is shifted first and the clustered letters
      pushed back after it. */
  lemma ResolveValuePushback(decls: seq<OptDecl>, st: ParseState, flag: string, rest: string, v: string, q: seq<string>)
    requires WellFormed(decls, st) && rest != ""
    requires var idx := FirstWith(FlagsOf(decls), flag); idx >= 0 && TakesValue(decls[idx].typeCode)
    ensures Resolve(decls, st, flag, [v] + q, rest) == Resolve(decls, st, flag, [v, "-" + rest] + q, "")
  {
    assert ([v] + q)[1..] == q && ([v, "-" + rest] + q)[1..] == ["-" + rest] + q;
  }

  /** A single short flag that takes no value: it fails as unknown, or it updates its option,
      records it under its id and goes on with the rest of the queue, whatever that is. */
  lemma SingleFlag(decls: seq<OptDecl>, children: set<string>, st: ParseState, c: char, q: seq<string>)
    requires WellFormed(decls, st) && !st.literal && ShortChar(c) && NoValueFlag(decls, c)
    ensures var idx := FirstWith(FlagsOf(decls), "-" + [c]);
      Run(decls, children, st, ["-" + [c]] + q) ==
        if idx < 0 then Failed(UnknownArgument("-" + [c]), st) else Run(decls, children, MatchedState(decls, st, idx), q)
  {
    StepShort(decls, children, st, c, "", q);
    assert "-" + [c] + "" == "-" + [c];
  }

  /** `-a<rest>` reads as `-a -<rest>` when `-a` takes no value. */
  lemma ClusterSplits(decls: seq<OptDecl>, children: set<string>, st: ParseState, c: char, rest: string, q: seq<string>)
    requires WellFormed(decls, st) && !st.literal && ShortChar(c) && NoValueFlag(decls, c)
    requires rest != [] && forall k :: 0 <= k < |rest| ==> ShortChar(rest[k])
    ensures Run(decls, children, st, ["-" + [c] + rest] + q) == Run(decls, children, st, ["-" + [c], "-" + rest] + q)
  {
    StepShort(decls, children, st, c, rest, q);
    StepShort(decls, children, st, c, "", ["-" + rest] + q);
    assert "-" + [c] + "" == "-" + [c];
    assert ["-" + [c] + ""] + (["-" + rest] + q) == ["-" + [c], "-" + rest] + q;
    ResolvePushback(decls, st, "-" + [c], rest, q);
    SameStepSameRun(decls, children, st, ["-" + [c] + rest] + q, ["-" + [c], "-" + rest] + q);
  }

  /** `-a<rest> v` reads as `-a v -<rest>` when `-a` takes a value: the value is shifted
      before the clustered letters are pushed back. */
  lemma ClusterTakesValue(decls: seq<OptDecl>, children: set<string>, st: ParseState, c: char, rest: string, v: string, q: seq<string>)
    requires WellFormed(decls, st) && !st.literal && ShortChar(c)
    requires rest != [] && forall k :: 0 <= k < |rest| ==> ShortChar(rest[k])
    requires var idx := FirstWith(FlagsOf(decls), "-" + [c]); idx >= 0 && TakesValue(decls[idx].typeCode)
    ensures Run(decls, children, st, ["-" + [c] + rest, v] + q) == Run(decls, children, st, ["-" + [c], v, "-" + rest] + q)
  {
    StepShort(decls, children, st, c, rest, [v] + q);
    StepShort(decls, children, st, c, "", [v, "-" + rest] + q);
    assert ["-" + [c] + rest] + ([v] + q) == ["-" + [c] + rest, v] + q;
    assert "-" + [c] + "" == "-" + [c];
    assert ["-" + [c] + ""] + ([v, "-" + rest] + q) == ["-" + [c], v, "-" + rest] + q;
    ResolveValuePushback(decls, st, "-" + [c], rest, v, q);
    SameStepSameRun(decls, children, st, ["-" + [c] + rest, v] + q, ["-" + [c], v, "-" + rest] + q);
  }

  /** A cluster token is its first letter followed by the others. */
  lemma ClusterHead(cs: string)
    requires |cs| >= 2
    ensures "-" + cs == "-" + [cs[0]] + cs[1..]
  {
    var h := "-" + [cs[0]] + cs[1..];
    assert |h| == |cs| + 1;
    assert forall k :: 1 <= k <= |cs| ==> h[k] == cs[k - 1];
  }

  /** The single flags of a cluster are the first letter's flag followed by the others'. */
  lemma SinglesHead(cs: string, q: seq<string>)
    requires |cs| >= 1
    ensures Singles(cs) + q == ["-" + [cs[0]]] + (Singles(cs[1..]) + q)
  {
  }

  /** A whole cluster `-abc` reads as `-a -b -c` when none of its letters takes a value. */
  lemma {:induction false} ClusterExplodes(decls: seq<OptDecl>, children: set<string>, st: ParseState, cs: string, q: seq<string>)
    requires WellFormed(decls, st) && !st.literal && cs != []
    requires forall k :: 0 <= k < |cs| ==> ShortChar(cs[k]) && NoValueFlag(decls, cs[k])
    ensures Run(decls, children, st, ["-" + cs] + q) == Run(decls, children, st, Singles(cs) + q)
    decreases |cs|
  {
    if |cs| == 1 {
      assert "-" + cs == "-" + [cs[0]] && Singles(cs) == ["-" + [cs[0]]];
    } else {
      var c, rest := cs[0], cs[1..];
      ClusterHead(cs);
      SinglesHead(cs, q);
      assert ["-" + [c], "-" + rest] + q == ["-" + [c]] + (["-" + rest] + q);
      ClusterSplits(decls, children, st, c, rest, q);
      SingleFlag(decls, children, st, c, ["-" + rest] + q);
      SingleFlag(decls, children, st, c, Singles(rest) + q);
      var idx := FirstWith(FlagsOf(decls), "-" + [c]);
      if idx >= 0 {
        ClusterExplodes(decls, children, MatchedState(decls, st, idx), rest, q);
      }
    }
  }

  /** A long name is read as a long option flag, alone or followed by `=` and a value. */
  lemma LongTokenShape(f: string, v: string)
    requires LongName(f)
    ensures Classify(f) == Long(f, None)
    ensures SingleLine(v) ==> Classify(f + "=" + v) == Long(f, Some(v))
  {
    var arg := f + "=" + v;
    assert forall k :: 0 <= k < |f| ==> arg[k] == f[k];
    assert arg[|f|] == '=';
    assert arg[..|f|] == f && arg[|f| + 1..] == v;
  }

  /** `--name=value` reads as `--name value`, whatever the option and whether it exists. */
  lemma LongValueSplits(decls: seq<OptDecl>, children: set<string>, st: ParseState, f: string, v: string, q: seq<string>)
    requires WellFormed(decls, st) && !st.literal && LongName(f) && SingleLine(v)
    ensures Run(decls, children, st, [f + "=" + v] + q) == Run(decls, children, st, [f, v] + q)
  {
    var left := [f + "=" + v] + q;
    var right := [f, v] + q;
    LongTokenShape(f, v);
    assert |f| >= 3 && left[0] != "--" && right[0] != "--";
    assert left[1..] == q && right[1..] == [v] + q;
    RunOption(decls, children, st, left);
    RunOption(decls, children, st, right);
  }

  /** The long pattern recognises exactly the tokens it describes. */
  lemma ClassifyLong(arg: string)
    ensures Classify(arg).Long? <==> LongForm(arg)
  {
    if LongForm(arg) {
      var n :| 3 <= n <= |arg| && LongName(arg[..n]) && (n == |arg| || (arg[n] == '=' && SingleLine(arg[n + 1..])));
      if n == |arg| {
        assert arg[..n] == arg;
        LongTokenShape(arg, "");
      } else {
        assert arg == arg[..n] + "=" + arg[n + 1..];
        LongTokenShape(arg[..n], arg[n + 1..]);
      }
    }
    var r := Classify(arg);
    if r.Long? {
      var n := |r.flag|;
      assert arg[..n] == r.flag;
      if r.value.Some? {
        assert arg[n] == '=' && arg[n + 1..] == r.value.value;
      }
    }
  }

  /** The three errors of an option token, short or long: the value a value-taking option
      reads is the next token, or the `=value` of a long token. */
  lemma OptionErrors(decls: seq<OptDecl>, children: set<string>, st: ParseState, arg: string, q: seq<string>)
    requires WellFormed(decls, st) && !st.literal && arg != "--" && !Classify(arg).Plain?
    ensures var shape := Classify(arg);
      var flag := shape.flag;
      var vq := AfterFlag(shape, q);
      var idx := FirstWith(FlagsOf(decls), flag);
      var out := Run(decls, children, st, [arg] + q);
      && (idx < 0 ==> out == Failed(UnknownArgument(flag), st))
      && (idx >= 0 && TakesValue(decls[idx].typeCode) && (vq == [] || vq[0] == "") ==> out == Failed(MissingValue(flag), st))
      && (idx >= 0 && TakesValue(decls[idx].typeCode) && vq != [] && vq[0] != "" && !Accepts(decls[idx].validators, vq[0]) ==>
            out == Failed(InvalidValue(flag, vq[0]), st))
  {
    assert ([arg] + q)[0] == arg && ([arg] + q)[1..] == q;
    RunOption(decls, children, st, [arg] + q);
  }

  /** Every key of the matched map is the id of the option it records. */
  predicate IdsAgree(decls: seq<OptDecl>, st: ParseState)
    requires WellFormed(decls, st)
  {
    forall k :: k in st.matched ==> k == Id(decls[st.matched[k]])
  }

  lemma ResolveKeepsIds(decls: seq<OptDecl>, st: ParseState, flag: string, q: seq<string>, rest: string)
    requires WellFormed(decls, st) && IdsAgree(decls, st)
    ensures var r := Resolve(decls, st, flag, q, rest); r.Continue? ==> IdsAgree(decls, r.state)
  {
    var idx := FirstWith(FlagsOf(decls), flag);
    if idx >= 0 {
      var r := Resolve(decls, st, flag, q, rest);
      if r.Continue? {
        assert r.state.matched == st.matched[Id(decls[idx]) := idx];
      }
    }
  }

  lemma StepKeepsIds(decls: seq<OptDecl>, children: set<string>, st: ParseState, queue: seq<string>)
    requires WellFormed(decls, st) && IdsAgree(decls, st)
    ensures var r := Step(decls, children, st, queue); r.Continue? ==> IdsAgree(decls, r.state)
  {
    if queue != [] && queue[0] != "" && !st.literal && queue[0] != "--" {
      var arg, q := queue[0], queue[1..];
      match Classify(arg)
      case Short(flag, rest) => ResolveKeepsIds(decls, st, flag, q, rest);
      case Long(flag, value) =>
        if value.Some? {
          ResolveKeepsIds(decls, st, flag, [value.value] + q, "");
        } else {
          ResolveKeepsIds(decls, st, flag, q, "");
        }
      case Plain =>
    }
  }

  /** The loop records each matched option under its id, and only there. */
  lemma {:induction false} RunKeepsIds(decls: seq<OptDecl>, children: set<string>, st: ParseState, queue: seq<string>)
    requires WellFormed(decls, st) && IdsAgree(decls, st)
    ensures IdsAgree(decls, Run(decls, children, st, queue).state)
    decreases Weight(queue)
  {
    var r := Step(decls, children, st, queue);
    StepKeepsIds(decls, children, st, queue);
    if r.Continue? {
      RunKeepsIds(decls, children, r.state, r.queue);
    }
  }

  /** From the start, every recorded id names the option recorded under it. */
  lemma ParseRecordsIds(decls: seq<OptDecl>, children: set<string>, vals: seq<Val>, argv: seq<string>)
    requires WellFormed(decls, Start(vals))
    ensures IdsAgree(decls, Run(decls, children, Start(vals), argv).state)
  {
    RunKeepsIds(decls, children, Start(vals), argv);
  }
}
