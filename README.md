# docopt.java usage-grammar engine in Dafny

This project models the core of docopt.java, the Java port of docopt. docopt
reads the usage text of a program's help message and turns it into a pattern
tree. It then parses a command line against that tree and returns a map from
argument, command and option names to values.

The model covers four parts:

- **The grammar parser.** `parsePattern`, `parseExpr`, `parseSeq` and
  `parseAtom` form a recursive-descent parser. It reads the tokens of a usage
  pattern and builds a tree of `Required`, `Optional`, `Either`, `OneOrMore`,
  `OptionsShortcut`, `Argument`, `Command` and option leaves.
- **The flag resolvers.** `parseLong` and `parseShorts` look flags up in the
  option registry. The registry is a list of options (short form, long form,
  argument count, value) that the two functions append to in place. Both run
  in two modes:
  - grammar mode: exact lookup, values keep their defaults;
  - argv mode: long flags may be abbreviated to a unique prefix, and values
    are bound.
- **The top level.** `parseArgv` turns a command line into a flat list of
  leaves. `formalUsage` rewrites a usage section into `( ... ) | ( ... )`
  form. `doParse` fills the `[options]` shortcuts, runs the match, and builds
  the result map.
- **The helpers.** The Python-style helpers these functions use
  (`partition`, `join`, `isUpper`, `in`, `count`, `plus`, `bool`), the
  escaped-parenthesis scanner `Re.hasGrouping`, and the `Optional` node's
  `match`.

The source is imperative, and so is the model:

- A `Tokens` cursor is a class whose `Move` method advances it.
- The option registry is a class whose `Add` method appends to it.
- The parser is a set of methods over these two objects, written with the
  source's loops.
- Every method is proved to compute a pure function of module `DocoptSpec`.
  For example, `ParseLong` agrees with `ParseLongF` on the result, the
  tokens left over and the registry afterwards, or raises the same error.
- Module `DocoptProperties` proves what the source promises about those
  functions.

Modules:

- `Wrappers`: the `Maybe` and `Result` types. `Maybe<string>` stands for a
  nullable Java `String`.
- `Python`: the helpers of `Python.java`. `split`, which `formalUsage`
  needs, is modelled at the character level as trim, then cut at every run
  of whitespace.
- `Re`: `hasGrouping`.
- `Types`: the entities whose own source files are not part of this model:
  options, the pattern tree, match results, the error datatype, the token
  cursor and the registry.
- `DocoptSpec`: the pure specification of every parser function.
- `Docopt`: the imperative parser methods and class `Docopt`, which holds the
  instance state that `doParse` uses.
- `OptionalMatch`: `Optional.match`.
- `DocoptProperties`: the lemmas.

Errors are values, not exceptions:

- `tokens.error(...)` becomes `TokenError(argvMode, reason)`. The reason is a
  structured `Failure` that carries the message's arguments. The flag
  `argvMode` tells a `DocoptExitException` (argv mode) from a
  `DocoptLanguageError` (grammar mode).
- `DocoptLanguageError(message)` becomes `LanguageError(message)`.
- `DocoptExitException(code, message, printUsage)` becomes
  `Exit(code, message, printUsage)`.

## Model

| member | source | states |
|---|---|---|
| Python.Bool | src/main/java/org/docopt/internal/python/Python.java:21-100 | null is false; a Boolean is its own value; a string, array, collection or map is true iff non-empty; any other object is true |
| Python.FalsyObjects | src/main/java/org/docopt/internal/python/Python.java:21-100 | the false objects are exactly null, `false`, `""` and the empty array, collection and map |
| Python.In | src/main/java/org/docopt/internal/python/Python.java:103-118 | true iff some element equals `left`; a null `left` matches exactly a null element |
| Python.Plus | src/main/java/org/docopt/internal/python/Python.java:121-128 | the result has length \|a\|+\|b\|, its first \|a\| elements are `a` and the rest are `b` |
| Python.Count | src/main/java/org/docopt/internal/python/Python.java:174-184 | the count is the multiplicity of `obj` in the list, between 0 and the list's length, and 0 exactly when `obj` is absent |
| Python.Join | src/main/java/org/docopt/internal/python/Python.java:196-213 | the append-then-cut loop yields `Joined`: the elements with the separator between consecutive ones only, `""` for no elements |
| Python.JoinedSnoc | src/main/java/org/docopt/internal/python/Python.java:205-210 | one more element adds exactly one separator and that element at the end |
| Python.JoinedLength | src/main/java/org/docopt/internal/python/Python.java:196-213 | a joined string is as long as its parts plus one separator per gap |
| Python.IndexOf | src/main/java/org/docopt/internal/python/Python.java:216 | -1 exactly when `sep` does not occur; otherwise an occurrence with none before it |
| Python.Partition | src/main/java/org/docopt/internal/python/Python.java:215-227 | without `sep`: `[self, "", ""]`; with it: the three parts concatenate to `self`, the middle is `sep`, and the first part contains no `sep` (the split is at the first occurrence) |
| Python.IsUpper | src/main/java/org/docopt/internal/python/Python.java:229-244 | true iff the string has a letter and every letter is upper case; other characters are ignored |
| Python.Split | src/main/java/org/docopt/internal/python/Python.java:246-248 | at least one piece; `[""]` for a blank string, otherwise non-empty pieces free of whitespace |
| Re.IndexOfChar | src/main/java/org/docopt/internal/python/Re.java:52 | the first index at or after `from` holding the character, or -1 when there is none |
| Re.BackslashRun | src/main/java/org/docopt/internal/python/Re.java:57-63 | the length of the run of backslashes directly before an index, bounded by a non-backslash or the start |
| Re.HasGrouping | src/main/java/org/docopt/internal/python/Re.java:47-73 | true iff some `(` has an even number (zero included) of consecutive backslashes directly before it |
| Re.OddRunEscapes | src/main/java/org/docopt/internal/python/Re.java:57-69 | a `(` after an odd run of backslashes, such as `\(`, is not counted, whatever precedes the run |
| Re.EvenRunGroups | src/main/java/org/docopt/internal/python/Re.java:57-69 | a `(` after an even run of backslashes, zero included, makes the pattern a grouping one, whatever surrounds it |
| Re.RunStopsAtNonBackslash | src/main/java/org/docopt/internal/python/Re.java:57-62 | only the unbroken backslash run before the `(` is counted, whatever precedes it |
| Re.GroupingExamples | src/main/java/org/docopt/internal/python/Re.java:65-69 | `\(` has no group; `\\(` and `a(b)` do |
| OptionalMatch.OrEmpty | src/main/java/org/docopt/Optional.java:16-18 | a null `collected` is the empty list; otherwise it is kept |
| OptionalMatch.MatchF | src/main/java/org/docopt/Optional.java:14-27 | `matched` is always true; with no children the input `left` and `collected` come back unchanged |
| OptionalMatch.Match | src/main/java/org/docopt/Optional.java:14-27 | the loop over the children computes `MatchF`: children in declared order, each fed the state the previous one returned |
| OptionalMatch.RunSnoc | src/main/java/org/docopt/Optional.java:20-24 | matching one more child continues from the state the earlier children left |
| OptionalMatch.LastChildDecides | src/main/java/org/docopt/Optional.java:20-26 | the returned leaves are exactly those the last child returned |
| OptionalMatch.RunIgnoresVerdicts | src/main/java/org/docopt/Optional.java:20-24 | the run depends only on the leaves the children return, not on their verdicts |
| OptionalMatch.MatchIgnoresVerdicts | src/main/java/org/docopt/Optional.java:26 | the result is the same and reports success, however the children report |
| Types.NewOption | src/main/java/org/docopt/Docopt.java:113 | a new option has the given names and argument count, default `false` for a flag and null otherwise |
| Types.Flat | src/main/java/org/docopt/Docopt.java:625-628 | every element of `flat(types)` has one of the kinds asked for, or is a leaf when no kinds are given |
| Types.Tokens.Move | src/main/java/org/docopt/Docopt.java:150 | `move()` returns the next token, or null at the end, and drops it |
| Types.Registry.Add | src/main/java/org/docopt/Docopt.java:115 | `options.add(o)` appends `o` and changes nothing else |
| DocoptSpec.ExactLong | src/main/java/org/docopt/Docopt.java:70-79 | the registry entries whose long form equals the name, in registry order |
| DocoptSpec.PrefixLong | src/main/java/org/docopt/Docopt.java:81-91 | the registry entries with a long form that starts with the name |
| DocoptSpec.ExactShort | src/main/java/org/docopt/Docopt.java:180-189 | the registry entries whose short form equals the flag, in registry order |
| DocoptSpec.LongCandidates | src/main/java/org/docopt/Docopt.java:70-91 | exact matches are tried first; only in argv mode with no exact match are prefix matches taken |
| DocoptSpec.Longs | src/main/java/org/docopt/Docopt.java:96-102 | the long forms of the candidates, one per candidate, in order |
| DocoptSpec.LongHasEq | src/main/java/org/docopt/Docopt.java:111 | a long token has `eq == "="` iff it contains `=` |
| DocoptSpec.LongValue | src/main/java/org/docopt/Docopt.java:53-66 | the value is null iff the token has no `=`; otherwise name, `=` and value make up the token |
| DocoptSpec.Bound | src/main/java/org/docopt/Docopt.java:154-156 | a bound value is the string given, or `true` when there is none |
| DocoptSpec.NewLong | src/main/java/org/docopt/Docopt.java:110-122 | an unknown long flag always succeeds with one option and consumes no further token; the registry grows by exactly one entry, whose long form is the flag and whose arity is 1 iff the token has `=` |
| DocoptSpec.MatchedLong | src/main/java/org/docopt/Docopt.java:124-157 | a known long flag yields one option, leaves the tokens as they were or drops exactly the next one, raises errors in the current mode, and leaves the registry as it was |
| DocoptSpec.ParseLongF | src/main/java/org/docopt/Docopt.java:46-160 | one option on success; the tokens left are a suffix of those after the flag; the registry only grows; errors are raised in the current mode |
| DocoptSpec.StripDashes | src/main/java/org/docopt/Docopt.java:169 | `replaceFirst("^-+", "")`: a suffix of the token, everything cut is a dash, and the rest does not start with one |
| DocoptSpec.ShortsLoop | src/main/java/org/docopt/Docopt.java:173-242 | the loop keeps what it has parsed, only consumes tokens, and only grows the registry |
| DocoptSpec.ParseShortsF | src/main/java/org/docopt/Docopt.java:165-245 | the tokens left are a suffix of those after the cluster; the registry only grows; errors are raised in the current mode |
| DocoptSpec.Refs | src/main/java/org/docopt/Docopt.java:351-355 | the options as pattern leaves, one each, in order |
| DocoptSpec.ParseExprF | src/main/java/org/docopt/Docopt.java:262-280 | only consumes tokens, only grows the registry, and raises errors in the current mode |
| DocoptSpec.ExprLoop | src/main/java/org/docopt/Docopt.java:273-279 | the same bounds for the `\|` loop |
| DocoptSpec.ParseSeqF | src/main/java/org/docopt/Docopt.java:285-302 | the same bounds for a sequence |
| DocoptSpec.SeqLoop | src/main/java/org/docopt/Docopt.java:290-299 | the same bounds for the sequence loop |
| DocoptSpec.ParseAtomF | src/main/java/org/docopt/Docopt.java:308-365 | an atom consumes at least its first token, only grows the registry, and raises errors in the current mode |
| DocoptSpec.ParsePatternF | src/main/java/org/docopt/Docopt.java:247-257 | the result is always a `Required`, all tokens are consumed, and the registry only grows |
| DocoptSpec.Arguments | src/main/java/org/docopt/Docopt.java:380-387 | `Argument(null, v)` for every token `v`, in order |
| DocoptSpec.ArgvLoop | src/main/java/org/docopt/Docopt.java:378-412 | the leaves parsed so far are kept and the registry only grows |
| DocoptSpec.ParseArgvF | src/main/java/org/docopt/Docopt.java:374-412 | `parseArgv` in argv or grammar mode, starting with no leaves; ArgvPositionals, ArgvAtEnd, ArgvOptionsFirst and ArgvValuesBound state its results |
| DocoptSpec.UsageWords | src/main/java/org/docopt/Docopt.java:496-505 | each later occurrence of the program name becomes `) \| (`; every other word is kept |
| DocoptSpec.FormalUsageF | src/main/java/org/docopt/Docopt.java:477-514 | the formal usage starts with `( ` and ends with ` )` |
| DocoptSpec.Unique | src/main/java/org/docopt/Docopt.java:635 | `set(options)`: the same elements, none twice |
| DocoptSpec.Without | src/main/java/org/docopt/Docopt.java:637-644 | exactly the elements equal to none of the removed ones |
| DocoptSpec.Expand | src/main/java/org/docopt/Docopt.java:627-646 | expansion keeps the kind of every node and leaves every leaf unchanged |
| DocoptSpec.ExpandAll | src/main/java/org/docopt/Docopt.java:627-646 | expansion keeps the number of children |
| DocoptSpec.ShortcutChildrenF | src/main/java/org/docopt/Docopt.java:629-645 | the children of a shortcut: the registry's options, once each, minus the pattern's own; ShortcutChildrenSpec states exactly which options these are |
| DocoptSpec.ExpandAsWritten | src/main/java/org/docopt/Docopt.java:625-646 | the expansion as written, taking the pattern options from the tree as it stands; SecondExpansionAsWritten shows that a second expansion empties the shortcut, and ExpansionsAgreeWhenEmpty that it agrees with the corrected one while the shortcuts are empty |
| DocoptSpec.ExpandShortcuts | src/main/java/org/docopt/Docopt.java:625-646 | the corrected expansion, taking the pattern options from outside every shortcut; ExpandShortcutsIdempotent shows that expanding again changes nothing |
| DocoptSpec.DoParseRun | src/main/java/org/docopt/Docopt.java:622-676 | the run shared by both `doParse` versions once the tree is expanded; DoParseOutcome and RunPattern state its result and the tree it leaves |
| DocoptSpec.DoParseF | src/main/java/org/docopt/Docopt.java:622-676 | `doParse` with the corrected expansion; DoParseOutcome, DoParseCollectedOverride and TwoParsesCorrected state its results |
| DocoptSpec.DoParseAsWrittenF | src/main/java/org/docopt/Docopt.java:622-676 | `doParse` with the expansion as written; FirstParseAgrees and TwoParsesAsWritten state how it compares with the corrected one |
| DocoptSpec.Bindings | src/main/java/org/docopt/Docopt.java:655-670 | a name is a key of the map iff some leaf has that name |
| Docopt.SimilarLong | src/main/java/org/docopt/Docopt.java:70-79 | the filter loop computes `ExactLong` |
| Docopt.SimilarPrefix | src/main/java/org/docopt/Docopt.java:84-90 | the filter loop computes `PrefixLong` |
| Docopt.SimilarShort | src/main/java/org/docopt/Docopt.java:180-189 | the filter loop computes `ExactShort` |
| Docopt.SplitLong | src/main/java/org/docopt/Docopt.java:53-66 | the partition at `=` gives the name, the value (null without `=`) and whether `=` was present |
| Docopt.LongsOf | src/main/java/org/docopt/Docopt.java:96-102 | the loop computes `Longs` |
| Docopt.Candidates | src/main/java/org/docopt/Docopt.java:70-91 | the exact lookup, then in argv mode the prefix lookup, compute `LongCandidates` |
| Docopt.AddLong | src/main/java/org/docopt/Docopt.java:110-122 | registers the unknown flag and returns its occurrence, as `NewLong` says |
| Docopt.TakeMatched | src/main/java/org/docopt/Docopt.java:124-157 | copies the entry, checks the arity, takes the next token when needed, as `MatchedLong` says |
| Docopt.ParseLong | src/main/java/org/docopt/Docopt.java:46-160 | agrees with `ParseLongF`: result, tokens left and registry afterwards, or the same error |
| Docopt.ParseShorts | src/main/java/org/docopt/Docopt.java:165-245 | the `while` loop agrees with `ParseShortsF` |
| Docopt.ParseExpr | src/main/java/org/docopt/Docopt.java:262-280 | agrees with `ParseExprF` |
| Docopt.ParseSeq | src/main/java/org/docopt/Docopt.java:285-302 | agrees with `ParseSeqF` |
| Docopt.ParseAtom | src/main/java/org/docopt/Docopt.java:308-365 | agrees with `ParseAtomF` |
| Docopt.ParsePattern | src/main/java/org/docopt/Docopt.java:247-257 | agrees with `ParsePatternF` on the tokens of the source |
| Docopt.AppendArguments | src/main/java/org/docopt/Docopt.java:380-387 | the loop appends `Arguments(tokens)` to what was parsed |
| Docopt.ParseArgv | src/main/java/org/docopt/Docopt.java:374-415 | agrees with `ParseArgvF` |
| Docopt.SpacedJoined | src/main/java/org/docopt/Docopt.java:496-507 | appending each word with a blank after it, then cutting the last blank, gives the words joined by blanks |
| Docopt.AppendWords | src/main/java/org/docopt/Docopt.java:489-505 | the StringBuilder loop holds `( ` and then each rewritten word followed by a blank |
| Docopt.BuildAlternatives | src/main/java/org/docopt/Docopt.java:486-513 | `( `, the rewritten words joined by blanks, ` )` |
| Docopt.FormalUsage | src/main/java/org/docopt/Docopt.java:477-514 | agrees with `FormalUsageF` |
| Docopt.UniqueRefs | src/main/java/org/docopt/Docopt.java:635 | computes `Unique` of the registry's options |
| Docopt.EqualsAny | src/main/java/org/docopt/Docopt.java:639-643 | true iff the option equals one of the pattern options |
| Docopt.Difference | src/main/java/org/docopt/Docopt.java:637-644 | the removal loop computes `Without` |
| Docopt.ShortcutChildren | src/main/java/org/docopt/Docopt.java:629-645 | computes `ShortcutChildrenF`: the registry's options, once each, minus those of the pattern |
| Docopt.BuildResult | src/main/java/org/docopt/Docopt.java:655-672 | the two `put` loops compute `Bindings` of the tree's leaves followed by the collected leaves |
| Docopt.Docopt.constructor | src/main/java/org/docopt/Docopt.java:582-600 | stores the help text, usage, registry and pattern, with options-first off |
| Docopt.Docopt.Create | src/main/java/org/docopt/Docopt.java:582-600 | no `usage:` section and more than one each raise their language error; otherwise the instance holds the parsed pattern and the registry as parsing left it, or the parse error is raised |
| Docopt.Docopt.WithOptionsFirst | src/main/java/org/docopt/Docopt.java:612-615 | sets the options-first flag and nothing else |
| Docopt.Docopt.DoParse | src/main/java/org/docopt/Docopt.java:622-676 | returns what `DoParseF` returns, the instance keeps the expanded, fixed tree, and the options-first setting is unchanged |
| DocoptProperties.NewLongFlag | src/main/java/org/docopt/Docopt.java:110-122 | an unknown long flag is appended to the registry with argcount 1 iff the token has `=`; grammar mode returns that entry; argv mode returns it with its value, or `true` for a flag; no further token is consumed |
| DocoptProperties.MatchedLongFlag | src/main/java/org/docopt/Docopt.java:124-131 | a known long flag yields a copy of its entry (same names and arity, the entry itself in grammar mode) and leaves the registry unchanged |
| DocoptProperties.LongMustNotHaveArgument | src/main/java/org/docopt/Docopt.java:133-138 | arity 0 with `=value` raises "must not have an argument" |
| DocoptProperties.LongTakesNextToken | src/main/java/org/docopt/Docopt.java:139-151 | arity 1 without `=` takes the next token as its value, and raises "requires argument" when there is none or it is `--` |
| DocoptProperties.LongNotUniquePrefix | src/main/java/org/docopt/Docopt.java:93-106 | more than one candidate raises "not a unique prefix" listing every candidate's long form |
| DocoptProperties.LongArgvBound | src/main/java/org/docopt/Docopt.java:117-122 | in argv mode the option returned carries a string or `true` |
| DocoptProperties.LongGrammarRegistered | src/main/java/org/docopt/Docopt.java:110-131 | in grammar mode the option returned is an entry of the registry, default value included |
| DocoptProperties.OnePerCharCons | src/main/java/org/docopt/Docopt.java:173-241 | a first option named after the first character, followed by one option per later character, gives one option per character |
| DocoptProperties.ShortsArgumentStep | src/main/java/org/docopt/Docopt.java:218-234 | an option taking an argument is the last option the cluster yields |
| DocoptProperties.ShortsOnePerChar | src/main/java/org/docopt/Docopt.java:173-241 | characters are consumed left to right: at most one option per character, the i-th named `-` plus the i-th character |
| DocoptProperties.ShortsFlagsOnly | src/main/java/org/docopt/Docopt.java:173-241 | when every option yielded takes no argument, there is exactly one per character and no other token is consumed |
| DocoptProperties.ShortsTakeRestOfCluster | src/main/java/org/docopt/Docopt.java:218-234 | at any position of a cluster, an option taking an argument that is not last takes the rest of the cluster as its value and ends the cluster |
| DocoptProperties.ShortsTakeNextToken | src/main/java/org/docopt/Docopt.java:219-229 | at any position of a cluster, an option taking an argument that is last takes the next token, and raises "requires argument" when there is none or it is `--` |
| DocoptProperties.ShortsAmbiguous | src/main/java/org/docopt/Docopt.java:191-194 | at any position of a cluster, a short form registered more than once raises "specified ambiguously" with the number of entries |
| DocoptProperties.ShortsFlagStep | src/main/java/org/docopt/Docopt.java:207-241 | at any position of a cluster, a known flag without an argument yields one option for its character and the loop goes on with the next character |
| DocoptProperties.ShortsNewFlagStep | src/main/java/org/docopt/Docopt.java:198-206 | at any position of a cluster, an unknown character is registered as a new flag and yields one option (bound to `true` in argv mode) |
| DocoptProperties.VoFirstStep | src/main/java/org/docopt/Docopt.java:207-241 | with `-v` a known flag, a cluster starting with `v` yields `-v` set to `true` and goes on with the characters after it |
| DocoptProperties.OfileStep | src/main/java/org/docopt/Docopt.java:207-241 | after `-v`, the rest `ofile` of the cluster gives `-o` the value `file` and ends the cluster |
| DocoptProperties.ClusterAfterFlag | src/main/java/org/docopt/Docopt.java:173-242 | with a flag `-v` and an option `-o` taking an argument, `-vofile` yields `-v` set to `true` and `-o` set to `file`, and consumes no further token |
| DocoptProperties.MissingArgumentAfterFlag | src/main/java/org/docopt/Docopt.java:173-242 | with the same registry, `-vo` as the last token raises "requires argument" for `-o` |
| DocoptProperties.OptionsBoundCons | src/main/java/org/docopt/Docopt.java:236-241 | a bound option followed by bound options gives bound options |
| DocoptProperties.ShortsArgvBound | src/main/java/org/docopt/Docopt.java:203-205 | in argv mode every option the cluster yields carries a string or `true` |
| DocoptProperties.ShortsGrammarRegistered | src/main/java/org/docopt/Docopt.java:198-214 | in grammar mode every option the cluster yields is an entry of the registry |
| DocoptProperties.SeqLoopStops | src/main/java/org/docopt/Docopt.java:290-299 | a sequence keeps what it collected and stops only at the end, `]`, `)` or `\|` |
| DocoptProperties.SeqRepeatStep | src/main/java/org/docopt/Docopt.java:291-299 | an atom followed by `...` joins the sequence wrapped in one `OneOrMore`, and the `...` is consumed |
| DocoptProperties.SeqAtomStep | src/main/java/org/docopt/Docopt.java:291-299 | an atom not followed by `...` joins the sequence as it is |
| DocoptProperties.SeqAtomError | src/main/java/org/docopt/Docopt.java:291-292 | an atom that fails ends the sequence with its error |
| DocoptProperties.ExprLoopStops | src/main/java/org/docopt/Docopt.java:273-277 | the alternatives loop stops only at the end or at a closer |
| DocoptProperties.ExprStops | src/main/java/org/docopt/Docopt.java:262-280 | an expression stops only at the end or at a closer |
| DocoptProperties.PatternUnexpectedEnding | src/main/java/org/docopt/Docopt.java:252-254 | tokens left after the top expression raise "unexpected ending", and they start with a stray `)` or `]` |
| DocoptProperties.ExprWithoutBar | src/main/java/org/docopt/Docopt.java:264-268 | with no `\|` after the first sequence, the expression is that sequence unchanged |
| DocoptProperties.ExprLoopShape | src/main/java/org/docopt/Docopt.java:270-279 | the alternatives gathered before the loop stay a prefix of the result, or of the children of its one `Either`, which appears exactly when there are several |
| DocoptProperties.AlternativeShape | src/main/java/org/docopt/Docopt.java:270-276 | an alternative of more than one pattern becomes exactly one `Required` of it; a shorter one is kept as it is |
| DocoptProperties.ExprWithBar | src/main/java/org/docopt/Docopt.java:264-271 | with `\|` after the first sequence, that sequence, as an alternative, starts the loop |
| DocoptProperties.ExprBarStep | src/main/java/org/docopt/Docopt.java:273-277 | each `\|` consumes itself and the sequence after it, which is appended as one more alternative, or its error is raised |
| DocoptProperties.ExprLoopExit | src/main/java/org/docopt/Docopt.java:279 | without a further `\|`, the result is the alternatives collected, wrapped in one `Either` when there are several |
| DocoptProperties.AlternatedPrefix | src/main/java/org/docopt/Docopt.java:270-279 | the alternatives shape carries over to a prefix of the collected alternatives |
| DocoptProperties.AtomGroup | src/main/java/org/docopt/Docopt.java:314-343 | `(` gives a `Required` and `[` an `Optional` around the inner expression; a missing closer raises "unmatched" |
| DocoptProperties.AtomOptions | src/main/java/org/docopt/Docopt.java:345-348 | `options` gives an empty `OptionsShortcut` |
| DocoptProperties.AtomLong | src/main/java/org/docopt/Docopt.java:350-352 | `--x` (not `--`) is parsed as a long flag |
| DocoptProperties.AtomShort | src/main/java/org/docopt/Docopt.java:354-356 | `-x` (not `-` or `--`) is parsed as a short cluster |
| DocoptProperties.AtomLeaf | src/main/java/org/docopt/Docopt.java:358-364 | any other token is an `Argument` when it is `<name>` or an upper-case word, and a `Command` with value `false` otherwise |
| DocoptProperties.AtomDashes | src/main/java/org/docopt/Docopt.java:350-364 | a lone `-` or `--` is taken by neither option test and becomes a command named by itself, consuming one token |
| DocoptProperties.ArgumentTokenExamples | src/main/java/org/docopt/Docopt.java:360 | `<input>`, `FILE` and `X-1` are argument tokens |
| DocoptProperties.CommandTokenExamples | src/main/java/org/docopt/Docopt.java:360 | `run`, `Run` and `-` are not argument tokens |
| DocoptProperties.ArgumentsConcat | src/main/java/org/docopt/Docopt.java:380-387 | converting two runs of tokens converts their concatenation |
| DocoptProperties.ArgvPositionalStep | src/main/java/org/docopt/Docopt.java:409-411 | outside options-first mode a positional token (a lone `-` included) becomes one argument and parsing goes on |
| DocoptProperties.ArgvAtEnd | src/main/java/org/docopt/Docopt.java:379-388 | at `--`, every remaining token, `--` included, becomes an argument verbatim and parsing stops |
| DocoptProperties.ArgvPositionalCons | src/main/java/org/docopt/Docopt.java:409-411 | one more positional token in front adds one argument in front |
| DocoptProperties.ArgvPositionals | src/main/java/org/docopt/Docopt.java:378-412 | positional tokens up to the end or `--` become arguments in input order, followed by everything from `--` on |
| DocoptProperties.ArgvOptionsFirst | src/main/java/org/docopt/Docopt.java:399-407 | in options-first mode the first positional token and everything after it become arguments |
| DocoptProperties.LeavesBoundStep | src/main/java/org/docopt/Docopt.java:393-397 | leaves added with bound values keep the leaf list bound |
| DocoptProperties.RefsBound | src/main/java/org/docopt/Docopt.java:393-397 | options with bound values give option leaves with bound values |
| DocoptProperties.ArgvValuesBound | src/main/java/org/docopt/Docopt.java:378-412 | in argv mode every option leaf parseArgv yields carries a string or `true` |
| DocoptProperties.FirstColon | src/main/java/org/docopt/internal/python/Python.java:215-227 | cutting at the first colon is unique |
| DocoptProperties.FormalUsageDropsPrefix | src/main/java/org/docopt/Docopt.java:478-482 | everything up to and including the first `:` is discarded |
| DocoptProperties.MultisetCons | src/main/java/org/docopt/Docopt.java:496-505 | one word more in front adds one to its own count |
| DocoptProperties.SeparatorCount | src/main/java/org/docopt/Docopt.java:496-505 | among blank-free words there are exactly as many `) \| (` separators as later occurrences of the program name |
| DocoptProperties.SplitBlankless | src/main/java/org/docopt/Docopt.java:484 | no word of a split usage text contains a blank |
| DocoptProperties.FormalUsageSeparators | src/main/java/org/docopt/Docopt.java:484-505 | the formal usage has one `) \| (` per later occurrence of the program name |
| DocoptProperties.BindingsLastWins | src/main/java/org/docopt/Docopt.java:655-670 | a leaf that no later leaf shares a name with gives its name its value |
| DocoptProperties.BindingsOverride | src/main/java/org/docopt/Docopt.java:657-670 | a name bound by the collected leaves takes its value from them; any other name keeps its value from the tree |
| DocoptProperties.WithoutDistinct | src/main/java/org/docopt/Docopt.java:635-644 | removing elements keeps a duplicate-free list duplicate-free |
| DocoptProperties.ShortcutChildrenSpec | src/main/java/org/docopt/Docopt.java:629-645 | a shortcut's children are exactly the registry options that equal no pattern option, each once |
| DocoptProperties.ExpandReachesShortcuts | src/main/java/org/docopt/Docopt.java:627-646 | after expansion every shortcut that `flat(OptionsShortcut)` reaches holds the new children |
| DocoptProperties.ExpandAllReachesShortcuts | src/main/java/org/docopt/Docopt.java:627-646 | the same for a list of nodes |
| DocoptProperties.ExpandTwice | src/main/java/org/docopt/Docopt.java:634-635 | clearing and refilling the children: a second expansion overrides the first |
| DocoptProperties.ExpandAllTwice | src/main/java/org/docopt/Docopt.java:634-635 | the same for a list of nodes |
| DocoptProperties.ExpandShortcutsIdempotent | src/main/java/org/docopt/Docopt.java:625-646 | with pattern options taken outside the shortcuts, expanding twice gives the same tree as expanding once |
| DocoptProperties.FirstExpansion | src/main/java/org/docopt/Docopt.java:625-646 | on a fresh tree an `[options]` shortcut receives the registry's option |
| DocoptProperties.SecondExpansionAsWritten | src/main/java/org/docopt/Docopt.java:625-646 | as written, a second expansion counts the shortcut's own children as pattern options and empties it |
| DocoptProperties.RepeatedExpansionAsWritten | src/main/java/org/docopt/Docopt.java:625-646 | as written, on a bare `Required([OptionsShortcut([])])` with one option, one expansion fills the shortcut and a second one empties it |
| DocoptProperties.RepeatedExpansionCorrected | src/main/java/org/docopt/Docopt.java:625-646 | on the same tree, the corrected expansion fills the shortcut and a second one keeps it |
| DocoptProperties.AtomUnexpanded | src/main/java/org/docopt/Docopt.java:308-365 | every `[options]` shortcut in the patterns of an atom is empty, as `new OptionsShortcut()` builds it |
| DocoptProperties.SeqLoopUnexpanded | src/main/java/org/docopt/Docopt.java:285-302 | the same for the loop of a sequence, given an accumulator whose shortcuts are empty |
| DocoptProperties.ExprLoopUnexpanded | src/main/java/org/docopt/Docopt.java:269-279 | the same for the loop of alternatives |
| DocoptProperties.ExprUnexpanded | src/main/java/org/docopt/Docopt.java:262-280 | the same for an expression |
| DocoptProperties.PatternUnexpanded | src/main/java/org/docopt/Docopt.java:247-257 | every tree the grammar parser builds has its `[options]` shortcuts empty |
| DocoptProperties.UnexpandedExpand | src/main/java/org/docopt/Docopt.java:634-635 | emptying the shortcuts of a tree whose shortcuts are already empty changes nothing |
| DocoptProperties.UnexpandedExpandAll | src/main/java/org/docopt/Docopt.java:634-635 | the same for a list of nodes |
| DocoptProperties.ExpansionsAgreeWhenEmpty | src/main/java/org/docopt/Docopt.java:625-646 | on a tree with empty shortcuts, the expansion as written and the corrected one give the same tree |
| DocoptProperties.FirstParseAgrees | src/main/java/org/docopt/Docopt.java:582-600 | on the tree the grammar parser builds, the first `doParse`, as written and corrected, gives the same result and tree |
| DocoptProperties.SingleAtomExpr | src/main/java/org/docopt/Docopt.java:262-302 | an expression of one atom closed by a bracket or the end is that atom |
| DocoptProperties.GroupOfOne | src/main/java/org/docopt/Docopt.java:313-342 | a group around one pattern followed by its closer is one `Required` or `Optional` of that pattern |
| DocoptProperties.WrappedExpr | src/main/java/org/docopt/Docopt.java:262-342 | an expression that is one such group closed by a bracket or the end is that group |
| DocoptProperties.OptionsWordParses | src/main/java/org/docopt/Docopt.java:345-348 | `options ] )` parses to one empty shortcut and stops at `]` |
| DocoptProperties.OptionalOptionsParses | src/main/java/org/docopt/Docopt.java:313-348 | `[ options ] )` parses to `Optional(OptionsShortcut())` and stops at `)` |
| DocoptProperties.RequiredOptionsParses | src/main/java/org/docopt/Docopt.java:262-348 | `( [ options ] )` as an expression is `Required(Optional(OptionsShortcut()))` with nothing left |
| DocoptProperties.OptionsUsageParses | src/main/java/org/docopt/Docopt.java:247-365 | the tokens `( [ options ] )` parse to `Required(Required(Optional(OptionsShortcut())))` |
| DocoptProperties.OptionsUsageExpand | src/main/java/org/docopt/Docopt.java:627-646 | filling the shortcut of that tree gives the same tree with the new children |
| DocoptProperties.FlatThroughBranch | src/main/java/org/docopt/Docopt.java:625 | flattening a branch of one child, when the branch's own kind is not asked for, is flattening the child |
| DocoptProperties.UsageTreeFlat | src/main/java/org/docopt/Docopt.java:625 | flattening that tree by kinds other than its branches' is flattening the shortcut's children |
| DocoptProperties.OptionsUsageFlat | src/main/java/org/docopt/Docopt.java:625 | the options of that tree are the shortcut's children |
| DocoptProperties.OneOptionChildren | src/main/java/org/docopt/Docopt.java:635-644 | one registry option becomes the shortcut's only child, unless the pattern already has it |
| DocoptProperties.RunPattern | src/main/java/org/docopt/Docopt.java:650-676 | once argv parses, the tree a run leaves behind is the fixed expansion, whatever the match |
| DocoptProperties.TwoParsesAsWritten | src/main/java/org/docopt/Docopt.java:622-676 | as written, two `doParse` calls on `prog [options]` with one option and a `fix` that keeps the tree: the first leaves the option under `[options]`, the second leaves `[options]` empty |
| DocoptProperties.TwoParsesCorrected | src/main/java/org/docopt/Docopt.java:622-676 | corrected, both calls leave the option under `[options]` |
| DocoptProperties.DoParseOutcome | src/main/java/org/docopt/Docopt.java:622-676 | an argv error is raised as is with the tree untouched; otherwise the tree is expanded and fixed, the result is a map iff the match succeeded with nothing left, and otherwise exit code 1 with usage |
| DocoptProperties.DoParseCollectedOverride | src/main/java/org/docopt/Docopt.java:653-670 | every key of the result takes its value from the collected leaves when they bind it, and from the tree's leaves otherwise |

## Left out

- `parse` is left out: it prints messages and usage to a `PrintStream` and calls `System.exit`, which are I/O and process control. `DoParse` returns its `Exit` error instead.
- `extras` is left out: the `--help`/`--version` short cut only throws exit exceptions on the caller's behalf. `DoParse` skips it.
- `parseSection` and `parseDefaults` are left out because they wrap `java.util.regex`. `Create` takes the `usage:` sections and the option descriptions they find as parameters.
- `Re.findAll` and `Re.split` are left out. `Tokens.fromPattern`, the regex tokenizer of usage patterns, is a function parameter of `ParsePattern` and `Create`.
- Python.Bool: does not model the numeric branches (floats, wrappers of atomics, `BigDecimal`), because they depend on Java's numeric types.
- Python.IsUpper: models letters and upper case as ASCII only, because `Character.isLetter` and `isUpperCase` are Unicode library predicates.
- Python.Split: treats `trim` as dropping characters up to U+0020 and `\s` as the six ASCII whitespace characters, as Java does, but it is written by hand instead of by a regex engine.
- The `Option`, `Pattern`, `Tokens`, `LeafPattern` and `DocoptLanguageError` classes are not part of this model. They are declared with the behaviour Docopt.java uses, and where that behaviour lives in those classes it follows reference docopt: the default value of a new option (`false` for a flag, null otherwise), `flat` (with no classes, every leaf in order; with classes, every node of those classes, not looking inside one), and the leaf names and values the result map uses.
- `fix()` and `Pattern.match` are not part of this model. `DoParse` takes them as function parameters, and `fix` is taken to return the tree it rewrites in place, which the instance keeps.
- `doParse`'s `HashSet` of options is modelled as the registry options in registry order, without duplicates. A `HashSet`'s iteration order has no counterpart here, so the order of a shortcut's children is registry order.
- Clearing and refilling a shortcut's child list in place is modelled as rebuilding the tree with the new children (`Expand`).
- Option objects are values here, so the sharing of one `Option` object between places is not modelled. In the source, the registry and, in grammar mode, the tree hold the same object (Docopt.java:113-115, 198-201), and the shortcut children are the registry's own objects (Docopt.java:635). `fix()` then rewrites the tree in place (Docopt.java:650), and a change it makes to such an object is also seen through the registry. The `options` field of the model cannot show that.
- Error messages are not formatted. A `Failure` carries the message's arguments (the flag, the candidates, the count), and the flag `argvMode` tells which exception class the tokens would throw.
- Docopt.ParseLong: after an error, the contract does not describe the tokens or the registry, because every caller discards both when an exception is thrown. The same holds for the other parser methods.
- Docopt.Docopt.DoParse: the model uses the corrected shortcut expansion of the finding below, not the expansion as written (`DoParseAsWrittenF`). The two agree on the first parse of an instance (`FirstParseAgrees`).

## Findings

| source | as written | input that shows it | evidently intended | confidence | as-written member | corrected member |
|---|---|---|---|---|---|---|
| src/main/java/org/docopt/Docopt.java:625-646 | `patternOptions` is `pattern.flat(Option.class)` on the instance's persistent tree. After the first `parse`, this includes the options that expansion put under the `[options]` shortcut, and they are then removed from it. | usage `prog [options]` (formal usage `( [ options ] )`) with one option `-a`, `parse` called twice on the same instance, with a `fix` that keeps the tree: the first parse gives the shortcut child `-a`, the second gives none | the options outside the shortcuts, so that every `parse` of an instance sees the same `[options]` | not executed | DocoptSpec.DoParseAsWrittenF, DocoptProperties.TwoParsesAsWritten | DocoptSpec.DoParseF, DocoptProperties.TwoParsesCorrected |
