/** A command: its subcommands by name, its options in declaration order, and the token loop
    that parses an argument vector against them. */
module Commands {
  import opened Wrappers
  import opened Options
  import opened ParseSpec

  class Command {
    var commands: map<string, Command>
    var options: seq<Option>
    var description: string

    /** The options are distinct objects, each holding a value that suits its type. */
    ghost predicate Valid()
      reads this, options
    {
      Distinct() && forall i :: 0 <= i < |options| ==> options[i].Valid()
    }

    /** No option object is declared twice. */
    ghost predicate Distinct()
      reads this
    {
      forall i, j :: 0 <= i < j < |options| ==> options[i] != options[j]
    }

    /** What the token loop reads of each option. */
    function Decls(): (ds: seq<OptDecl>)
      reads this, options
      ensures |ds| == |options|
      ensures forall i :: 0 <= i < |options| ==>
        ds[i] == OptDecl(options[i].flags, options[i].typeCode, options[i].default, options[i].validators)
    {
      seq(|options|, i reads this, options requires 0 <= i < |options| =>
        OptDecl(options[i].flags, options[i].typeCode, options[i].default, options[i].validators))
    }

    /** The flags of each option; they never change once declared. */
    function FlagLists(): (fs: seq<seq<string>>)
      reads this
      ensures |fs| == |options| && forall i :: 0 <= i < |options| ==> fs[i] == options[i].flags
    {
      seq(|options|, i reads this requires 0 <= i < |options| => options[i].flags)
    }

    /** The current value of each option. */
    function Values(): (vs: seq<Val>)
      reads this, options
      ensures |vs| == |options| && forall i :: 0 <= i < |options| ==> vs[i] == options[i].value
    {
      seq(|options|, i reads this, options requires 0 <= i < |options| => options[i].value)
    }

    /** `new command(name)`: no subcommands and no options. */
    constructor ()
      ensures commands == map[] && options == [] && description == ""
      ensures Valid()
    {
      commands := map[];
      options := [];
      description := "";
    }

    /** `setDescription(str)`. */
    method SetDescription(str: string) returns (r: Command)
      modifies this`description
      ensures description == str && r == this
    {
      description := str;
      r := this;
    }

    /** `addCommand(name)`: a new subcommand under `name`, replacing any earlier one. */
    method AddCommand(name: string) returns (c: Command)
      modifies this`commands
      ensures fresh(c) && c.commands == map[] && c.options == []
      ensures commands == old(commands)[name := c]
    {
      c := new Command();
      commands := commands[name := c];
    }

    /** `addOption`: a new option, declared after the existing ones. */
    method AddOption(flags: seq<string>, settings: bv32, metavar: Optional<string>, initial: Optional<Val>)
      returns (o: Option)
      requires Valid()
      modifies this`options
      ensures Valid() && fresh(o)
      ensures options == old(options) + [o]
      ensures o.flags == flags && o.typeCode == TypeOf(settings) && o.required == RequiredOf(settings)
      ensures o.metavar == if metavar.None? || metavar.value == "" then "arg" else metavar.value
      ensures o.value == InitialValue(o.typeCode, initial) && o.default == o.value && o.validators == []
      ensures o.description == ""
    {
      o := new Option(flags, settings, metavar, initial);
      options := options + [o];
    }

    /** `getOption(flag)`: the first declared option that has the flag, or none. */
    method GetOption(flag: string) returns (r: Optional<Option>)
      ensures r.None? <==> FirstWith(FlagLists(), flag) < 0
      ensures r.Some? ==> r.value == options[FirstWith(FlagLists(), flag)]
    {
      r := None;
      var i := 0;
      while i < |options|
        invariant 0 <= i <= |options|
        invariant forall j :: 0 <= j < i ==> flag !in options[j].flags
      {
        if options[i].IsFlag(flag) {
          r := Some(options[i]);
          break;
        }
        i := i + 1;
      }
      ghost var fs := FlagLists();
      if r.None? {
        assert forall j :: 0 <= j < |fs| ==> flag !in fs[j];
      } else {
        assert flag in fs[i] && forall j :: 0 <= j < i ==> flag !in fs[j];
      }
    }

    /** The loop's matched-option map, written with the option objects, agrees with the
        specification's map of positions. */
    static ghost predicate Agrees(matched: map<string, Option>, positions: map<string, nat>, options: seq<Option>)
    {
      && matched.Keys == positions.Keys
      && forall k :: k in matched ==> positions[k] < |options| && matched[k] == options[positions[k]]
    }

    /** Recording a match keeps the two maps in agreement. */
    static lemma AgreesRecord(matched: map<string, Option>, positions: map<string, nat>, options: seq<Option>, id: string, idx: nat)
      requires Agrees(matched, positions, options) && idx < |options|
      ensures Agrees(matched[id := options[idx]], positions[id := idx], options)
    {
    }

    /** The options, one by one, are what `decls` declares and hold the values `vals`. */
    ghost predicate Mirrors(decls: seq<OptDecl>, vals: seq<Val>)
      reads this, options
    {
      && |decls| == |options| && |vals| == |options|
      && forall i :: 0 <= i < |options| ==>
        && decls[i] == OptDecl(options[i].flags, options[i].typeCode, options[i].default, options[i].validators)
        && vals[i] == options[i].value
    }

    lemma MirrorsWhole(decls: seq<OptDecl>, vals: seq<Val>)
      requires Mirrors(decls, vals)
      ensures Decls() == decls && Values() == vals && FlagLists() == FlagsOf(decls)
    {
    }

    /** `updateValue(v)` on the option at `idx`, as one match of the token loop. */
    method UpdateAt(o: Option, ghost idx: nat, v: string, ghost decls: seq<OptDecl>, ghost vals: seq<Val>)
      requires Distinct() && Mirrors(decls, vals) && idx < |options| && o == options[idx]
      requires Fits(decls[idx].typeCode, vals[idx])
      modifies o`value
      ensures Mirrors(decls, vals[idx := Updated(decls[idx].typeCode, vals[idx], decls[idx].default, decls[idx].validators, v, true)])
    {
      o.UpdateValue(v, true);
    }

    /** The turn of the token loop for a recognised `flag`, up to the update: the option is
        looked up, and its value taken from the queue and validated when it needs one. */
    method Lookup(flag: string, queue: seq<string>, clustered: string, ghost decls: seq<OptDecl>, ghost st: ParseState)
      returns (err: Optional<ParseError>, next: seq<string>, v: string, o: Option?, ghost idx: nat)
      requires Distinct() && Mirrors(decls, st.vals) && FlagLists() == FlagsOf(decls) && WellFormed(decls, st)
      ensures var r := Resolve(decls, st, flag, queue, clustered);
        && !r.Stop?
        && (err.Some? <==> r.Fail?)
        && (r.Fail? ==> err.value == r.error)
        && (r.Continue? ==>
          && idx < |options| && o == options[idx]
          && r == Record(decls, st, idx, Updated(decls[idx].typeCode, st.vals[idx], decls[idx].default, decls[idx].validators, v, true), next, clustered))
    {
      ghost var r := Resolve(decls, st, flag, queue, clustered);
      idx := 0;
      o, next, v := null, queue, "";
      var found := GetOption(flag);
      if found.None? {
        assert r == Fail(UnknownArgument(flag));
        return Some(UnknownArgument(flag)), next, v, o, idx;
      }
      o := found.value;
      idx := FirstWith(FlagsOf(decls), flag);
      assert o == options[idx] && decls[idx].typeCode == o.typeCode;
      assert r == Matched(decls, st, idx, flag, queue, clustered);
      if o.TakesValue() {
        if next == [] || next[0] == "" {
          assert r == Fail(MissingValue(flag));
          return Some(MissingValue(flag)), next, v, o, idx;
        }
        v := next[0];
        next := next[1..];
        var ok := o.IsValid(v);
        if !ok {
          assert r == Fail(InvalidValue(flag, v));
          return Some(InvalidValue(flag, v)), next, v, o, idx;
        }
      }
      err := None;
    }

    /** The state of the token loop mirrors the specification's state `st`. */
    ghost predicate Parsing(decls: seq<OptDecl>, st: ParseState, args: seq<string>, positions: map<string, nat>, literal: bool, matched: map<string, Option>)
      reads this, options
    {
      && Distinct() && Mirrors(decls, st.vals) && FlagLists() == FlagsOf(decls)
      && st == ParseState(st.vals, args, positions, literal)
      && WellFormed(decls, st) && Agrees(matched, positions, options)
    }

    /** One turn of the token loop on a queue that does not stop it: the token is shifted off
        and handled. An error ends the loop with the state unchanged. */
    method Turn(queue: seq<string>, literal: bool, args: seq<string>, matched: map<string, Option>,
                ghost decls: seq<OptDecl>, ghost children: set<string>, ghost st: ParseState, ghost positions: map<string, nat>)
      returns (err: Optional<ParseError>, queue2: seq<string>, literal2: bool, args2: seq<string>, matched2: map<string, Option>,
               ghost st2: ParseState, ghost positions2: map<string, nat>)
      requires queue != [] && queue[0] != "" && children == commands.Keys
      requires Parsing(decls, st, args, positions, literal, matched)
      modifies options
      ensures Parsing(decls, st2, args2, positions2, literal2, matched2)
      ensures forall i :: 0 <= i < |options| ==> options[i].description == old(options[i].description)
      ensures err.Some? ==> st2 == st && Run(decls, children, st, queue) == Failed(err.value, st)
      ensures err.None? ==> Weight(queue2) < Weight(queue) && Run(decls, children, st, queue) == Run(decls, children, st2, queue2)
    {
      err, queue2, literal2, args2, matched2, st2, positions2 := None, queue[1..], literal, args, matched, st, positions;
      var arg := queue[0];
      if literal {
        RunLiteral(decls, children, st, queue);
        args2 := args + [arg];
        st2 := st.(args := args2);
        return;
      }
      if arg == "--" {
        RunDashDash(decls, children, st, queue);
        literal2 := true;
        st2 := st.(literal := true);
        return;
      }
      var shape := Classify(arg);
      if shape.Plain? {
        RunPlain(decls, children, st, queue);
        if arg in commands {
          err := Some(CommandDispatch(arg));
        }
        return;
      }
      RunOption(decls, children, st, queue);
      var flag := shape.flag;
      var clustered := "";
      if shape.Short? {
        clustered := shape.rest;
      } else if shape.value.Some? {
        queue2 := [shape.value.value] + queue2;
      }
      assert queue2 == AfterFlag(shape, queue[1..]) && clustered == Clustered(shape);
      err, queue2, matched2, st2, positions2 := Match(flag, queue2, clustered, args, literal, matched, decls, st, positions);
    }

    /** The turn of the token loop for a recognised `flag`: the option is looked up, takes its
        value when it needs one, is updated and recorded under its id, and the clustered
        letters are pushed back. It agrees with `Resolve`. */
    method Match(flag: string, queue: seq<string>, clustered: string, ghost args: seq<string>, ghost literal: bool,
                 matched: map<string, Option>, ghost decls: seq<OptDecl>, ghost st: ParseState, ghost positions: map<string, nat>)
      returns (err: Optional<ParseError>, queue2: seq<string>, matched2: map<string, Option>,
               ghost st2: ParseState, ghost positions2: map<string, nat>)
      requires Parsing(decls, st, args, positions, literal, matched)
      modifies options
      ensures Parsing(decls, st2, args, positions2, literal, matched2)
      ensures forall i :: 0 <= i < |options| ==> options[i].description == old(options[i].description)
      ensures var r := Resolve(decls, st, flag, queue, clustered);
        && !r.Stop?
        && (err.Some? <==> r.Fail?)
        && (r.Fail? ==> err.value == r.error && st2 == st)
        && (r.Continue? ==> st2 == r.state && queue2 == r.queue)
    {
      ghost var r := Resolve(decls, st, flag, queue, clustered);
      var failure, next, v, o, idx := Lookup(flag, queue, clustered, decls, st);
      if failure.Some? {
        return failure, queue, matched, st, positions;
      }
      UpdateAt(o, idx, v, decls, st.vals);
      var id := o.GetId();
      assert id == Id(decls[idx]);
      if clustered != "" {
        next := ["-" + clustered] + next;
      }
      AgreesRecord(matched, positions, options, id, idx);
      err, queue2, matched2 := None, next, matched[id := o];
      positions2 := positions[id := idx];
      st2 := r.state;
    }

    /** `parse(argv)`: the tokens are shifted off the queue one at a time until it is empty or
        an empty token comes up. Returns the error that stopped the loop (if any), the
        positional arguments collected after `--`, the matched options by id, and the tokens
        left in the queue. The option values are updated in place. */
    method Parse(argv: seq<string>) returns (err: Optional<ParseError>, args: seq<string>, matched: map<string, Option>, rest: seq<string>)
      requires Valid()
      modifies options
      ensures Valid()
      ensures forall i :: 0 <= i < |options| ==>
        options[i].default == old(options[i].default) && options[i].validators == old(options[i].validators)
      ensures forall i :: 0 <= i < |options| ==> options[i].description == old(options[i].description)
      ensures
        var out := Run(Decls(), commands.Keys, Start(old(Values())), argv);
        && (err.None? <==> out.Done?)
        && (out.Failed? ==> err == Some(out.error))
        && (out.Done? ==> rest == out.rest)
        && args == out.state.args
        && Values() == out.state.vals
        && Agrees(matched, out.state.matched, options)
    {
      ghost var decls := Decls();
      ghost var children := commands.Keys;
      ghost var st := Start(Values());
      ghost var goal := Run(decls, children, st, argv);
      MirrorsWhole(decls, st.vals);
      var queue := argv;
      var literal := false;
      args, matched, rest := [], map[], [];
      ghost var positions: map<string, nat> := map[];
      while true
        invariant Parsing(decls, st, args, positions, literal, matched)
        invariant Run(decls, children, st, queue) == goal
        invariant forall i :: 0 <= i < |options| ==> options[i].description == old(options[i].description)
        decreases Weight(queue)
      {
        if queue == [] || queue[0] == "" {
          RunStops(decls, children, st, queue);
          rest := if queue == [] then [] else queue[1..];
          err := None;
          break;
        }
        err, queue, literal, args, matched, st, positions := Turn(queue, literal, args, matched, decls, children, st, positions);
        if err.Some? {
          break;
        }
      }
      MirrorsWhole(decls, st.vals);
    }
  }
}
