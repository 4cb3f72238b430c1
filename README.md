# aaparser-js core, modelled in Dafny

This project models the core of aaparser-js, a command-line argument parser for Node.js. The
core is made of:

- the `option` class: its flags, a settings bit-field giving its type and required bit, its
  value, its validator chain, `updateValue` and `setDefaultValue`;
- the `operand` class: its arity check and `getExpected`;
- the `command` class: option and subcommand declaration, `getOption`, and the token loop of
  `parse`;
- the coercion helpers `count`, `listing` and `value`;
- the usage builders of the help system (`getOptionUsage`, `getOperandUsage`, `getUsage`);
- the string helpers `repeat` and `wordwrap`.

Modules, one concern each:

| module | file | models |
|---|---|---|
| `Wrappers` | wrappers.dfy | `Optional` and `Result` values |
| `Strings` | strings.dfy | JavaScript `split` on one character, `join` and `indexOf` |
| `Str` | str.dfy | `src/str.js` |
| `Coercion` | coercion.dfy | `count`, `listing` and `value` of `src/coercion.js` |
| `Validation` | validation.dfy | the validator-chain loop shared by `option.isValid` and `operand.isValid` |
| `Options` | options.dfy | `src/option.js`: class `Option`, the settings decoding, `updateValue` and `setDefaultValue` as functions |
| `Operands` | operands.dfy | `src/operand.js`: class `Operand` |
| `ParseSpec` | parsespec.dfy | the token loop of `command.parse` as pure functions: `Step` (one turn) and `Run` (to the end) |
| `Commands` | commands.dfy | `src/command.js`: class `Command`; its `Parse` method is the imperative loop, proved against `Run` |
| `ParseProperties` | parseprops.dfy | what `Run` guarantees about literal mode, option clusters, `--name=value`, errors and recorded ids |
| `Help` | help.dfy | the usage builders of `src/help.js` |

`Command.Parse` changes the option objects in place, as the source does. Its contract ties the
new option values, the positional arguments, the matched-option map and the error to `Run`. The
lemmas of `ParseProperties` then describe `Run`.

Where the code and the library's intended design disagree, the model follows the code:

- `parse` assigns no operands and never checks required options.
- For a token naming a subcommand, `parse` calls `this.commands.parse`, which does not exist on
  the map of subcommands. The model returns the error `CommandDispatch(name)` there.
- An empty next token counts as a missing value, not only the end of the input, because the
  loop's `argv.shift()` is tested for truthiness.
- An empty token ends the loop. It is consumed, and the tokens after it are left in the queue.
- A switch stores the negation of its default, not a configured store value.
- Nothing stops two options from sharing a flag; `getOption` returns the first.

## Model

| member | source | states |
|---|---|---|
| Strings.Split | src/str.js:15 | `split` on one character gives one more piece than there are separators, and no piece holds the separator |
| Strings.SplitJoin | src/str.js:15 | splitting the join of separator-free words on the separator gives back the words |
| Strings.JoinSplit | src/str.js:35 | joining the pieces of a split with the separator gives back the text |
| Strings.Join | src/str.js:35 | the join holds every piece and one separator between each two: its length is the pieces' total length plus one separator fewer than there are pieces, and nothing joins to the empty text |
| Strings.JoinEmptyFlattens | src/option.js:86 | `join('')` writes the pieces one after the other |
| Strings.IndexOf | src/option.js:117 | `indexOf` is -1 exactly when the element is absent, otherwise its first position |
| Str.Repeat | src/str.js:11-13 | `repeat(s, n)` is `n` copies of `s`, `n` times as long as `s` |
| Str.RepeatIsJoinOfEmpties | src/str.js:12 | `new Array(n + 1).join(s)` (the separator between `n + 1` empty strings) equals `n` copies of `s` |
| Str.RepeatChar | src/str.js:16 | the indentation prefix is made of spaces only |
| Str.FillJoin | src/str.js:22-23 | a word that fits within the margin, or comes to an empty line, joins the current line and the line-filling invariant holds for one more word |
| Str.FillBreak | src/str.js:24-27 | a word that does not fit closes the current line, which is emitted, and starts the next; the invariant holds for one more word |
| Str.FillDone | src/str.js:31-33 | after the last word the buffer is longer than the indentation, so it is emitted, and the groups of words of all lines are the words of the text in order |
| Str.FillLines | src/str.js:21-33 | the loop emits closed lines whose word groups concatenate to the input words |
| Str.WrapLines | src/str.js:14-33 | every line is the indentation, its words separated by single spaces, and a space; the lines hold exactly the words of the text in order; only a one-word line may pass the margin; a line is closed only when the next word does not fit |
| Str.WordWrap | src/str.js:14-36 | `wordwrap` is the lines of `WrapLines` joined by line feeds: they hold the words of the text in order, each laid out after the indentation; only a one-word line passes the margin, and a line is closed only when the next word does not fit |
| Coercion.Count | src/coercion.js:26-32 | the result is `value` added to the total, with a total that is not a number counting as 0 |
| Coercion.CountCounts | src/coercion.js:26-32 | `n` applications of `count(1, .)` give `n` from a non-number and `t + n` from a number `t` |
| Coercion.Listing | src/coercion.js:52-54 | one piece more than there are commas, no piece holds a comma, and no space that touched a comma is left |
| Coercion.ListingWithoutComma | src/coercion.js:53 | text without a comma is one piece, unchanged |
| Coercion.ListingRemovesOnlyCommaSpaces | src/coercion.js:53 | each piece of the comma split is the listing piece with spaces added before it (not the first) and after it (not the last): only spaces are removed |
| Coercion.ListingStartsText | src/coercion.js:53 | the first piece keeps the text's leading spaces: it starts the text |
| Coercion.ListingEndsText | src/coercion.js:53 | the last piece keeps the text's trailing spaces: it ends the text |
| Coercion.Value | src/coercion.js:66-68 | the value is returned unchanged |
| Validation.Check | src/option.js:126-137 | the chain accepts exactly when every validator accepts; validators are asked in order and asking stops at the first rejection |
| Options.TypeOf | src/option.js:18-23 | the type code is the low byte of the settings, with absent settings read as a switch |
| Options.RequiredBitKeepsKind | src/option.js:18-24 | setting the required bit makes the option required and leaves its kind, and for non-zero settings its type code, unchanged |
| Options.Decimal | src/option.js:205 | the text of an integer is non-empty, made of digits and a minus sign, digits only when non-negative |
| Options.TrimJs | src/option.js:201 | trimming leaves no white space at either end |
| Options.TrimJsRemovesOnlySpace | src/option.js:201 | the trimmed text sits inside the text with only white space before and after it: nothing but the white space at the ends is removed |
| Options.IsNumeric | src/option.js:201 | `!isNaN` holds for every number, boolean and digit string, for the empty text and the empty list, and for a text without white space at its ends exactly when it is a numeral |
| Options.NamesType | src/option.js:205 | the type-name test fails for every boolean and every text shorter than six characters, and passes for `boolean`, `number` and `string` |
| Options.DecimalRoundTrip | src/option.js:201 | the text of every integer passes `!isNaN` and converts back to that integer |
| Options.DecimalNumeral | src/option.js:201 | the text of every integer is a numeral with that value |
| Options.DigitsOfDecimal | src/option.js:201 | a non-negative integer's text is digits denoting it |
| Options.DefaultFor | src/option.js:198-207 | `setDefaultValue` leaves a value that suits the type, either the given value or the type's fallback (0, the empty list or `true`) |
| Options.DefaultKeepsOrFallsBack | src/option.js:198-207 | a value is kept exactly when it suits the type (a number for a counter, an array for a list, a type-name text or `true` otherwise); any other value is replaced by the value the option starts with when no default is given |
| Options.InitialValue | src/option.js:29-39 | the starting value suits the type: the given default as `setDefaultValue` keeps it, or without one 0 for a counter, the empty list for a list and `true` otherwise |
| Options.NumbersAndBooleansBecomeTrue | src/option.js:205 | a switch or scalar given a number or boolean default starts as `true`, because the type-name test reads the value's text |
| Options.TypeNameTextIsKept | src/option.js:205 | a switch or scalar keeps a text default that contains `string` |
| Options.Truthy | src/option.js:177 | exactly 0, `false` and the empty text are falsy |
| Options.Updated | src/option.js:168-190 | the new value still suits the type; a value-taking option changes only for a validated, accepted token; a list keeps its items or gains the token at the end; a switch holds a boolean |
| Options.UpdatedAll | src/option.js:168-190 | repeated updates keep a value that suits the type |
| Options.CounterCounts | src/option.js:172-174 | a counter matched `k > 0` times holds its number plus `k` |
| Options.SwitchSettles | src/option.js:176-177 | a switch matched once or more holds the negation of its default's truthiness |
| Options.ListCollects | src/option.js:182-187 | a list holds its old items followed by the accepted values, in order |
| Options.ScalarKeepsLast | src/option.js:182-185 | a scalar holds the last accepted value, or its old value when none was accepted |
| Options.RejectedLeavesValue | src/option.js:180-188 | a rejected value, or any value without validation, leaves a value-taking option unchanged |
| Options.Option.constructor | src/option.js:16-46 | flags kept, type and required bit decoded, metavar defaulting to `arg`, value from the given default or the type's fallback, default equal to the value, no validators |
| Options.Option.GetId | src/option.js:84-87 | the id is all the flags written one after the other: a lone flag is the id, and the first flag starts it |
| Options.Option.IsFlag | src/option.js:115-118 | true exactly for the option's flags |
| Options.Option.TakesValue | src/option.js:144-148 | true exactly for the scalar and list kinds |
| Options.Option.SetHelp | src/option.js:74-77 | the description is replaced |
| Options.Option.AddValidator | src/option.js:94-97 | the validator is appended to the chain |
| Options.Option.IsValid | src/option.js:126-137 | true exactly when every validator accepts the value |
| Options.Option.UpdateValue | src/option.js:168-190 | the value becomes `Updated(...)` of the old one and still suits the type |
| Options.Option.SetDefaultValue | src/option.js:198-207 | the value becomes `DefaultFor` the type and the given value; the recorded default stays |
| Operands.ParseArity | src/operand.js:17-23 | a rejected specification is returned as the error |
| Operands.ParseArityAccepts | src/operand.js:17-23 | exactly the positive integers and `?`, `*`, `+` are accepted |
| Operands.ParseArityRoundTrip | src/operand.js:17-20 | each arity is parsed back from the specification it is written as, and an accepted specification is the one its arity is written as |
| Operands.Expected | src/operand.js:47-62 | minimum at most maximum; unbounded exactly for `*` and `+`; minimum 0 exactly for `?` and `*`; a fixed `n` gives `(n, n)` |
| Operands.ExpectedInjective | src/operand.js:47-62 | distinct arities have distinct `(min, max)` pairs |
| Operands.Operand.Create | src/operand.js:15-30 | an operand exactly when the arity is accepted, with its arity, metavar and defaults, no validators and an empty description; otherwise the rejected specification |
| Operands.Operand.SetHelp | src/operand.js:37-40 | the description is replaced |
| Operands.Operand.AddValidator | src/operand.js:69-72 | the validator is appended to the chain |
| Operands.Operand.IsValid | src/operand.js:80-91 | true exactly when every validator accepts the value |
| ParseSpec.NameEnd | src/command.js:128 | the long name extends over name characters only and stops at the first other one |
| ParseSpec.Classify | src/command.js:127-128 | a token is short exactly when it matches the short pattern, split into the flag and the clustered letters; a long token is its name, or its name, `=` and a one-line value |
| ParseSpec.FirstWith | src/command.js:88-100 | the first option holding the flag, or -1 when none holds it |
| ParseSpec.Record | src/command.js:159-164 | a match stores the option's new value, records the option under its id, keeps the positional arguments and the literal mode, keeps the state well-formed, and pushes the clustered letters back in front of the queue as one `-` token |
| ParseSpec.Matched | src/command.js:142-157 | only a value-taking option can fail; a match changes only that option's value, records it under its id, and keeps the state well-formed with a bounded queue weight |
| ParseSpec.Resolve | src/command.js:136-157 | the flag is unknown exactly when no option has it; a match changes only the first option having it and records it under its id |
| ParseSpec.Step | src/command.js:115-170 | a turn that goes on keeps the state well-formed and strictly lowers the queue weight, so the loop ends |
| ParseSpec.Run | src/command.js:115-171 | the loop ends in a well-formed state |
| ParseSpec.RunStops | src/command.js:115 | the loop stops at the end of the queue and at an empty token, which it consumes |
| ParseSpec.RunLiteral | src/command.js:116-119 | in literal mode a token is collected as a positional argument |
| ParseSpec.RunDashDash | src/command.js:121-125 | `--` switches on literal mode |
| ParseSpec.RunPlain | src/command.js:165-170 | a token that is not an option is a subcommand dispatch or is skipped |
| ParseSpec.RunOption | src/command.js:127-164 | an option token pushes back its `=value`, then resolves its flag |
| Commands.Command.constructor | src/command.js:13-21 | no subcommands, no options, empty description |
| Commands.Command.SetDescription | src/command.js:29-34 | the description is replaced and the command itself returned |
| Commands.Command.AddCommand | src/command.js:52-57 | a fresh, empty subcommand replaces any earlier one under the name |
| Commands.Command.AddOption | src/command.js:73-80 | a fresh option is appended after the existing ones, built as the option constructor builds it: its flags, type, required bit, metavar (`arg` when none is given), starting value and default, no validators and an empty description |
| Commands.Command.GetOption | src/command.js:88-100 | the first declared option holding the flag, or none when no option holds it |
| Commands.Command.Lookup | src/command.js:136-154 | the lookup, value shift and validation of one option token, agreeing with `Resolve`: the same error, or the option and value that `Record` records |
| Commands.Command.UpdateAt | src/command.js:149-156 | updating the matched option changes its value as `Updated` says and no other option |
| Commands.Command.Turn | src/command.js:115-170 | one turn of the loop: an error leaves the loop with `Run` failing the same way, otherwise the queue weight drops and `Run` of the new state is `Run` of the old |
| Commands.Command.Match | src/command.js:136-164 | the turn for a recognised flag agrees with `Resolve`: the same error with the state unchanged, or the state and queue it records, with the matched option stored under its id |
| Commands.Command.Parse | src/command.js:107-174 | the outcome is `Run` from the options' values: the same error, remaining tokens, positional arguments and option values, and a matched map agreeing with `Run`'s; defaults, validators and descriptions untouched |
| ParseProperties.LiteralCollects | src/command.js:115-119 | after `--`, every token up to the first empty one is collected in order, and the loop stops after it with the rest left |
| ParseProperties.DoubleDashStartsLiteral | src/command.js:121-125 | after a bare `--` no token is read as an option or subcommand |
| ParseProperties.SingleFlag | src/command.js:136-157 | a lone short flag taking no value fails as unknown, or updates its option and goes on with the same queue |
| ParseProperties.ResolvePushback | src/command.js:155-164 | for a flag taking no value, pushing the clustered letters back with the flag or finding them as the next token gives the same turn |
| ParseProperties.ResolveValuePushback | src/command.js:142-164 | for a flag taking a value, the value is shifted before the clustered letters are pushed back |
| ParseProperties.ClusterSplits | src/command.js:161-164 | `-a<rest>` behaves as `-a -<rest>` when `-a` takes no value |
| ParseProperties.ClusterTakesValue | src/command.js:142-164 | `-a<rest> v` behaves as `-a v -<rest>` when `-a` takes a value |
| ParseProperties.ClusterExplodes | src/command.js:127-164 | `-abc` behaves as `-a -b -c` when none of the letters takes a value |
| ParseProperties.LongTokenShape | src/command.js:128 | a long name is classified as its flag, alone or with `=` and a one-line value |
| ParseProperties.LongValueSplits | src/command.js:128-134 | `--name=value` behaves as `--name value` |
| ParseProperties.ClassifyLong | src/command.js:128 | a token is read as a long option exactly when it matches the long pattern |
| ParseProperties.OptionErrors | src/command.js:127-157 | for a short or long option token, an unknown flag, a missing or empty value, and a rejected value each stop the loop with that error and the state before the token; the value read is the `=value` of a long token, else the next token |
| ParseProperties.RunKeepsIds | src/command.js:159 | every key of the matched map is the id of the option recorded under it |
| ParseProperties.ParseRecordsIds | src/command.js:159 | from the start of a parse, matched options are recorded under their ids |
| Help.OptionUsage | src/help.js:10-30 | the usage is the flags joined by a bar with a space on each side, with ` <metavar>` for a value-taking option, in two brackets unless the option is required with one flag; stripping the brackets gives that body back |
| Help.OptionUsageWords | src/help.js:10-30 | the usage body splits on spaces into the flags, with a bar word between two, then `<metavar>` when the option takes a value, so the flags are recovered from it |
| Help.OptionUsageShape | src/help.js:10-30 | optional options are in square brackets, required ones with several flags in parentheses, a required one with one flag bare; the first flag follows the opening bracket; a `>` before the closing bracket means the option takes a value |
| Help.OperandUsage | src/help.js:32-56 | an operand's usage is never empty; it opens with `<` exactly when a value is required and closes with `]` exactly when a value is optional |
| Help.OperandUsageByArity | src/help.js:32-56 | `n` copies of `<var>` for a fixed `n`, `[var]` for `?`, `[var ...]` for `*`, `<var> [var ...]` for `+` |
| Help.FixedOperandWords | src/help.js:37-55 | an operand of fixed arity `n` shows exactly `n` words, each `<var>` |
| Help.GetUsage | src/help.js:58-74 | the option usages in declaration order, then the operand usages, then `<command> [ARGUMENTS]` exactly when there are subcommands |

## Left out

- Console output and `process.exit` in `parse` are replaced by the error value `ParseError`.
- `printHelp` is not modelled, because it only writes to the console.
- The coercion helpers `collect`, `kv` and `range` are not modelled. They read an undefined
  `settings` object, or convert to floating point.
- `src/args.js` and `src/app.js` are not part of this model.
- `setAction` on options and commands is not modelled, and neither are the action callbacks, which are never invoked.
- Options.IsNumeric: recognises integers, booleans and optionally signed decimal digit strings, but not the rest of JavaScript's number grammar (fractions, exponents, hexadecimal, `Infinity`).
- Str.WrapLines: line lengths (also in Str.FillLines and Str.WordWrap) are counted in characters, where JavaScript's `.length` counts UTF-16 code units; text with characters outside the Basic Multilingual Plane wraps earlier in the source than in the model.
- Coercion.Count: totals and values are integers or absent. JavaScript's `+=` also concatenates onto a numeric-string total (`count(1, "5")` is `"51"`), resets a non-numeric string total to 0 through `isNaN`, reads `null` as 0 and keeps fractions; none of these is modelled.
- Options.Val: numbers are integers. Floating-point values, `null` and `undefined` are not modelled; an absent argument is `None`.
- Operands.ParseArity: a `num` given as a numeric string (such as `"2"`) is rejected, where the source accepts it through loose comparison.
- Commands.Command.AddOption: takes the option constructor's own arguments. The source passes `(flags, description, options)` on to `(flags, settings, metavar)`, which does not match.
- Options.Option.UpdateValue: `push` on a list value also grows the default, which is the same array. The model keeps the default as the declared value.
- Options.Option.GetId: two options whose flags write the same id share one entry of the matched map. The model records this as the source does and proves no more about it.
- Help.OptionUsage: reads the `flags`, `metavar` and `required` fields where the source calls `getFlags`, `getVariable` and `isRequired`; the first two are not defined on the classes.
- Help.GetUsage: takes the options, operands and whether there are subcommands, because the command class defines no `getOperands` or `hasCommands`.
- Help.Variable: an operand without a metavar shows `undefined`, as string concatenation writes it.
- Commands.Command.Parse: returns the positional arguments, matched options and remaining tokens instead of printing the matched options.
- Commands.Command.Parse: the validators run twice on an accepted value, once in `parse` and once in `updateValue`. The model evaluates each validator as a pure function, so the second run has no visible effect.
- Commands.Command.Parse: property names inherited from `Object.prototype` are not considered as subcommand names.
