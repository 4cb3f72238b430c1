/** The usage lines of the help system: one entry per option, one per operand, and a
    placeholder for subcommands. */
module Help {
  import opened Strings
  import opened Options
  import opened Operands
  import opened ParseSpec

  /** The flags joined by ` | `, then ` <metavar>` when the option takes a value. */
  function UsageBody(o: Option): string
  {
    Join(o.flags, " | ") + (if o.TakesValue() then " <" + o.metavar + ">" else "")
  }

  /** `getOptionUsage(option)`: the usage body in square brackets when the option is
      optional, in parentheses when it is required and has more than one flag, and bare
      otherwise. Stripping the brackets gives the body back. */
  function OptionUsage(o: Option): (r: string)
    ensures var open := if o.required && |o.flags| <= 1 then 0 else 1;
      |r| == |UsageBody(o)| + 2 * open && r[open..|r| - open] == UsageBody(o)
  {
    var usage := UsageBody(o);
    if !o.required then "[" + usage + "]"
    else if |o.flags| > 1 then "(" + usage + ")"
    else usage
  }

  /** The words of a list of flags joined by ` | `: each flag, with `|` between two. */
  function Alternated(flags: seq<string>): (r: seq<string>)
    ensures forall w :: w in r ==> w in flags || w == "|"
    decreases |flags|
  {
    if |flags| <= 1 then flags else [flags[0], "|"] + Alternated(flags[1..])
  }

  /** Where the flags sit among the words: the `i`-th flag at position `2i`, each followed by
      `|` but the last. */
  lemma {:induction false} AlternatedAt(flags: seq<string>, i: nat)
    requires i < |flags|
    ensures |Alternated(flags)| == 2 * |flags| - 1
    ensures Alternated(flags)[2 * i] == flags[i]
    ensures i < |flags| - 1 ==> Alternated(flags)[2 * i + 1] == "|"
    decreases |flags|
  {
    if |flags| > 1 {
      var tail := Alternated(flags[1..]);
      if i == 0 {
        AlternatedAt(flags[1..], 0);
      } else {
        AlternatedAt(flags[1..], i - 1);
        assert Alternated(flags)[2 * i] == tail[2 * (i - 1)];
        if i < |flags| - 1 {
          assert Alternated(flags)[2 * i + 1] == tail[2 * (i - 1) + 1];
        }
      }
    }
  }

  /** Joining flags with ` | ` is joining their alternation with single spaces. */
  lemma {:induction false} JoinAlternated(flags: seq<string>)
    requires flags != []
    ensures Join(flags, " | ") == Join(Alternated(flags), " ")
    decreases |flags|
  {
    if |flags| > 1 {
      JoinAlternated(flags[1..]);
      var tail := Alternated(flags[1..]);
      var alt := [flags[0], "|"] + tail;
      assert tail != [] by {
        AlternatedAt(flags[1..], 0);
      }
      assert alt[1..] == ["|"] + tail && (["|"] + tail)[1..] == tail;
      assert Join(alt, " ") == flags[0] + " " + ("|" + " " + Join(tail, " "));
      assert " | " == " " + "|" + " ";
    }
  }

  /** The alternation of space-free flags is space-free. */
  lemma AlternatedSpaceFree(flags: seq<string>)
    requires forall i :: 0 <= i < |flags| ==> ' ' !in flags[i]
    ensures forall i :: 0 <= i < |Alternated(flags)| ==> ' ' !in Alternated(flags)[i]
  {
    var alt := Alternated(flags);
    forall i | 0 <= i < |alt|
      ensures ' ' !in alt[i]
    {
      assert alt[i] in alt;
    }
  }

  /** Space-free words joined by spaces, with one more word after a space, split back into
      those words. */
  lemma SplitJoinSnoc(ws: seq<string>, m: string)
    requires ws != [] && (forall i :: 0 <= i < |ws| ==> ' ' !in ws[i]) && ' ' !in m
    ensures Split(Join(ws, " ") + " " + m, ' ') == ws + [m]
  {
    JoinSnoc(ws, m, " ");
    SplitJoin(ws + [m], ' ');
  }

  /** The usage body of an option splits on spaces into its flags, with `|` between two,
      then `<metavar>` when it takes a value: the flags are recovered from the usage. */
  lemma OptionUsageWords(o: Option)
    requires o.flags != [] && (forall i :: 0 <= i < |o.flags| ==> ' ' !in o.flags[i]) && ' ' !in o.metavar
    ensures Split(UsageBody(o), ' ') == Alternated(o.flags) + (if o.TakesValue() then ["<" + o.metavar + ">"] else [])
  {
    var alt := Alternated(o.flags);
    AlternatedAt(o.flags, 0);
    JoinAlternated(o.flags);
    AlternatedSpaceFree(o.flags);
    if o.TakesValue() {
      var m := "<" + o.metavar + ">";
      assert " <" + o.metavar + ">" == " " + m;
      assert UsageBody(o) == Join(alt, " ") + " " + m;
      SplitJoinSnoc(alt, m);
    } else {
      assert UsageBody(o) == Join(alt, " ");
      SplitJoin(alt, ' ');
    }
  }

  /** Flags as they are declared: a dash first and a name character last. */
  predicate FlagShaped(flags: seq<string>)
  {
    forall i :: 0 <= i < |flags| ==> |flags[i]| >= 2 && flags[i][0] == '-' && LongChar(flags[i][|flags[i]| - 1])
  }

  /** The usage inside its brackets: it starts with the first flag, and it ends with `>`
      exactly when the option takes a value. */
  lemma InnerUsage(o: Option) returns (u: string)
    requires o.flags != [] && FlagShaped(o.flags)
    ensures u == UsageBody(o)
    ensures |u| >= |o.flags[0]| >= 2 && u[..|o.flags[0]|] == o.flags[0]
    ensures u[0] == '-' && (u[|u| - 1] == '>' <==> o.TakesValue())
  {
    var flags := o.flags;
    var body := Join(flags, " | ");
    JoinPrefixSuffix(flags, " | ");
    var last := flags[|flags| - 1];
    assert body[|body| - |last|..] == last;
    assert body[|body| - 1] == last[|last| - 1];
    u := body + (if o.TakesValue() then " <" + o.metavar + ">" else "");
    assert u[..|flags[0]|] == flags[0];
  }

  /** A string between two bracket characters. */
  lemma Enclosed(a: char, u: string, b: char, k: nat)
    requires k <= |u| && |u| >= 1
    ensures var s := [a] + u + [b];
      s[0] == a && s[|s| - 1] == b && s[1..1 + k] == u[..k] && s[|s| - 2] == u[|u| - 1]
  {
  }

  /** How an option's usage reads: its first and last characters tell whether it is required
      and whether it has several flags, the first flag comes right after the opening bracket,
      and a `>` before the closing bracket tells that it takes a value. */
  lemma OptionUsageShape(o: Option)
    requires o.flags != [] && FlagShaped(o.flags)
    ensures var r := OptionUsage(o);
      var open := if o.required && |o.flags| == 1 then 0 else 1;
      && |r| >= 2 + 2 * open
      && (r[0] == '[' <==> !o.required) && (r[|r| - 1] == ']' <==> !o.required)
      && (r[0] == '(' <==> o.required && |o.flags| > 1) && (r[|r| - 1] == ')' <==> o.required && |o.flags| > 1)
      && r[open..open + |o.flags[0]|] == o.flags[0]
      && (r[|r| - 1 - open] == '>' <==> o.TakesValue())
  {
    var u := InnerUsage(o);
    var k := |o.flags[0]|;
    if !o.required {
      Enclosed('[', u, ']', k);
      assert OptionUsage(o) == ['['] + u + [']'];
    } else if |o.flags| > 1 {
      Enclosed('(', u, ')', k);
      assert OptionUsage(o) == ['('] + u + [')'];
    } else {
      assert OptionUsage(o) == u;
      assert LongChar(u[|u| - 1]) || u[|u| - 1] == '>';
    }
  }

  /** The name an operand shows: its metavariable, which JavaScript's string concatenation
      writes as `undefined` when none was given. */
  function Variable(metavar: Wrappers.Optional<string>): string
  {
    if metavar.None? then "undefined" else metavar.value
  }

  /** `getOperandUsage(operand)`: `<var>` once for each required value, then `[var ...]` when
      any number more may follow, or `[var]` when the only value is optional. It opens with
      `<` exactly when a value is required, and closes with `]` exactly when a value is
      optional. */
  function OperandUsage(o: Operand): (r: string)
    ensures r != []
    ensures r[0] == '<' <==> Expected(o.arity).0 > 0
    ensures r[|r| - 1] == ']' <==> Expected(o.arity).0 == 0 || Expected(o.arity).1.Unbounded?
  {
    var (least, most) := Expected(o.arity);
    var v := Variable(o.metavar);
    var required := seq(least, _ => "<" + v + ">");
    var parts :=
      (if least > 0 then [Join(required, " ")] else []) +
      (if most.Unbounded? then ["[" + v + " ...]"] else if least == 0 then ["[" + v + "]"] else []);
    if least > 0 then
      JoinPrefixSuffix(required, " ");
      assert Join(required, " ")[0] == '<';
      if most.Unbounded? then
        assert parts[1..] == ["[" + v + " ...]"];
        assert Join(parts, " ") == Join(required, " ") + " " + ("[" + v + " ...]");
        Join(parts, " ")
      else
        assert parts == [Join(required, " ")];
        assert Join(required, " ")[|Join(required, " ")| - 1] == '>';
        Join(parts, " ")
    else
      assert |parts| == 1 && parts[0][|parts[0]| - 1] == ']';
      Join(parts, " ")
  }

  /** The usage of each kind of operand. */
  lemma OperandUsageByArity(o: Operand)
    ensures var v := Variable(o.metavar);
      match o.arity
      case Exactly(n) => OperandUsage(o) == Join(seq(n, _ => "<" + v + ">"), " ")
      case ZeroOrOne => OperandUsage(o) == "[" + v + "]"
      case ZeroOrMore => OperandUsage(o) == "[" + v + " ...]"
      case OneOrMore => OperandUsage(o) == "<" + v + "> [" + v + " ...]"
  {
    var v := Variable(o.metavar);
    if o.arity == OneOrMore {
      var first := Join(seq(1, _ => "<" + v + ">"), " ");
      assert first == "<" + v + ">";
      var parts := [first] + ["[" + v + " ...]"];
      assert Join(parts, " ") == first + " " + Join(parts[1..], " ");
      assert parts[1..] == ["[" + v + " ...]"];
    }
  }

  /** An operand of fixed arity `n` shows exactly `n` copies of `<var>` and nothing else. */
  lemma {:induction false} FixedOperandWords(o: Operand)
    requires o.arity.Exactly? && ' ' !in Variable(o.metavar)
    ensures Split(OperandUsage(o), ' ') == seq(o.arity.n, _ => "<" + Variable(o.metavar) + ">")
  {
    var v := Variable(o.metavar);
    var copies := seq(o.arity.n, _ => "<" + v + ">");
    OperandUsageByArity(o);
    assert forall i :: 0 <= i < |copies| ==> ' ' !in copies[i];
    SplitJoin(copies, ' ');
  }

  /** The placeholder listed when the command has subcommands. */
  const CommandPlaceholder := "<command> [ARGUMENTS]"

  /** `getUsage(command)`: the usage of each option in declaration order, then of each
      operand, then the subcommand placeholder when there are subcommands. */
  method GetUsage(options: seq<Option>, operands: seq<Operand>, hasCommands: bool) returns (usage: seq<string>)
    ensures |usage| == |options| + |operands| + (if hasCommands then 1 else 0)
    ensures forall i :: 0 <= i < |options| ==> usage[i] == OptionUsage(options[i])
    ensures forall j :: 0 <= j < |operands| ==> usage[|options| + j] == OperandUsage(operands[j])
    ensures hasCommands ==> usage[|usage| - 1] == CommandPlaceholder
  {
    usage := [];
    for i := 0 to |options|
      invariant |usage| == i
      invariant forall k :: 0 <= k < i ==> usage[k] == OptionUsage(options[k])
    {
      usage := usage + [OptionUsage(options[i])];
    }
    ghost var optionLines := usage;
    for j := 0 to |operands|
      invariant |usage| == |options| + j
      invariant usage[..|options|] == optionLines
      invariant forall k :: 0 <= k < j ==> usage[|options| + k] == OperandUsage(operands[k])
    {
      usage := usage + [OperandUsage(operands[j])];
    }
    if hasCommands {
      usage := usage + [CommandPlaceholder];
    }
    assert usage[..|options|] == optionLines;
  }
}
