/**
 * The parsing functions of Docopt.java (parseLong, parseShorts, parseExpr,
 * parseSeq, parseAtom, parsePattern, parseArgv) as pure functions of the
 * remaining tokens, the option registry and the error mode. The imperative
 * methods of module Docopt are proved to compute exactly these functions.
 */
module DocoptSpec {
  import opened Wrappers
  import opened Python
  import opened Types

  /** What a parsing step yields: its result, the tokens left and the registry afterwards. */
  datatype Parsed<T> = Parsed(result: T, rest: seq<string>, reg: seq<Option>)

  type Outcome<T> = Result<Parsed<T>, Error>

  /** `tokens.error(...)` thrown in the given mode. */
  function Fail<T>(argv: bool, reason: Failure): Outcome<T>
  {
    Err(TokenError(argv, reason))
  }

  predicate StartsWith(s: string, prefix: string)
  {
    |prefix| <= |s| && s[..|prefix|] == prefix
  }

  /** `rest` is what remains of `toks` after consuming some tokens from the front. */
  predicate SuffixOf(rest: seq<string>, toks: seq<string>)
  {
    |rest| <= |toks| && rest == toks[|toks| - |rest|..]
  }

  /** The error, if any, is raised by `tokens.error` in mode `argv`. */
  predicate RaisedIn<T>(r: Result<T, Error>, argv: bool)
  {
    r.Err? ==> r.error.TokenError? && r.error.argvMode == argv
  }

  predicate EndsWith(s: string, suffix: string)
  {
    |suffix| <= |s| && s[|s| - |suffix|..] == suffix
  }

  // ---------------------------------------------------------------------
  // Registry lookups (each keeps registry order)
  // ---------------------------------------------------------------------

  /** The registry entries whose long form is exactly `name`. */
  function ExactLong(reg: seq<Option>, name: string): (r: seq<Option>)
    ensures forall o :: o in r <==> o in reg && o.long == Some(name)
    ensures |r| <= |reg|
  {
    if reg == [] then []
    else
      var last := reg[|reg| - 1];
      assert reg == reg[..|reg| - 1] + [last];
      ExactLong(reg[..|reg| - 1], name) + (if last.long == Some(name) then [last] else [])
  }

  /** The registry entries that have a long form beginning with `name`. */
  function PrefixLong(reg: seq<Option>, name: string): (r: seq<Option>)
    ensures forall o :: o in r <==> o in reg && o.long.Some? && StartsWith(o.long.value, name)
    ensures |r| <= |reg|
  {
    if reg == [] then []
    else
      var last := reg[|reg| - 1];
      assert reg == reg[..|reg| - 1] + [last];
      PrefixLong(reg[..|reg| - 1], name)
        + (if last.long.Some? && StartsWith(last.long.value, name) then [last] else [])
  }

  /** The registry entries whose short form is exactly `flag`. */
  function ExactShort(reg: seq<Option>, flag: string): (r: seq<Option>)
    ensures forall o :: o in r <==> o in reg && o.short == Some(flag)
    ensures |r| <= |reg|
  {
    if reg == [] then []
    else
      var last := reg[|reg| - 1];
      assert reg == reg[..|reg| - 1] + [last];
      ExactShort(reg[..|reg| - 1], flag) + (if last.short == Some(flag) then [last] else [])
  }

  /**
   * The options a long flag may denote: exact matches first; prefix matches
   * only in argv mode and only when there is no exact match.
   */
  function LongCandidates(reg: seq<Option>, name: string, argv: bool): (r: seq<Option>)
    ensures !argv ==> r == ExactLong(reg, name)
    ensures ExactLong(reg, name) != [] ==> r == ExactLong(reg, name)
    ensures argv && ExactLong(reg, name) == [] ==> r == PrefixLong(reg, name)
  {
    var similar := ExactLong(reg, name);
    if argv && similar == [] then PrefixLong(reg, name) else similar
  }

  /** The long form of each candidate, in order. */
  function Longs(os: seq<Option>): (r: seq<Maybe<string>>)
    ensures |r| == |os| && forall i :: 0 <= i < |os| ==> r[i] == os[i].long
  {
    if os == [] then [] else [os[0].long] + Longs(os[1..])
  }

  // ---------------------------------------------------------------------
  // Values bound to options
  // ---------------------------------------------------------------------

  /** A Java `String` reference stored as a leaf value. */
  function ValueOf(v: Maybe<string>): Value
  {
    if v.Some? then StrValue(v.value) else NullValue
  }

  /** The value an option bound in argv mode carries: the string given, or `true` when none was. */
  function Bound(v: Maybe<string>): (r: Value)
    ensures v.Some? ==> r == StrValue(v.value)
    ensures v.Null? ==> r == BoolValue(true)
  {
    if v.Some? then StrValue(v.value) else BoolValue(true)
  }

  /** The copy of a registry entry that a parse step returns: bound in argv mode, as is otherwise. */
  function Bind(o: Option, argv: bool, v: Maybe<string>): Option
  {
    if argv then o.(value := Bound(v)) else o
  }

  // ---------------------------------------------------------------------
  // parseLong
  // ---------------------------------------------------------------------

  /** The flag name of a long token: the part before the first `=`. */
  function LongName(token: string): string
  {
    Partition(token, "=")[0]
  }

  /** Whether a long token contains `=`. */
  function LongHasEq(token: string): (r: bool)
    ensures r <==> Occurs(token, "=")
  {
    Partition(token, "=")[1] == "="
  }

  /** The value of a long token: null exactly when there is no `=`, else what follows the first `=`. */
  function LongValue(token: string): (v: Maybe<string>)
    ensures v == Null <==> !LongHasEq(token)
    ensures v.Some? ==> LongName(token) + "=" + v.value == token
  {
    var a := Partition(token, "=");
    if a[1] == "" && a[2] == "" then Null else Some(a[2])
  }

  /** A long flag the registry does not know: registered with arity 1 exactly when the token had `=`. */
  function NewLong(long: string, value: Maybe<string>, hasEq: bool, rest: seq<string>, reg: seq<Option>,
                   argv: bool): (r: Outcome<seq<Option>>)
    ensures r.Ok? && r.value.rest == rest && |r.value.result| == 1
    ensures reg <= r.value.reg && |r.value.reg| == |reg| + 1
    ensures r.value.reg[|reg|].long == Some(long) && r.value.reg[|reg|].argcount == (if hasEq then 1 else 0)
  {
    var argcount := if hasEq then 1 else 0;
    var o := NewOption(Null, Some(long), argcount);
    var bound := if argv then Option(Null, Some(long), argcount,
                                     if argcount != 0 then ValueOf(value) else BoolValue(true))
                 else o;
    Ok(Parsed([bound], rest, reg + [o]))
  }

  /** A long flag resolved to registry entry `c`, with the value after `=` if there was one. */
  function MatchedLong(c: Option, value: Maybe<string>, rest: seq<string>, reg: seq<Option>,
                       argv: bool): (r: Outcome<seq<Option>>)
    ensures r.Ok? ==> |r.value.result| == 1 && SuffixOf(r.value.rest, rest) && r.value.reg == reg
    ensures r.Ok? ==> r.value.rest == rest || (rest != [] && r.value.rest == rest[1..])
    ensures RaisedIn(r, argv)
  {
    if c.argcount == 0 then
      if value.Some? then Fail(argv, MustNotHaveArgument(c.long))
      else Ok(Parsed([Bind(c, argv, value)], rest, reg))
    else if value.Some? then
      Ok(Parsed([Bind(c, argv, value)], rest, reg))
    else if Head(rest) == Null || Head(rest) == Some("--") then
      Fail(argv, RequiresArgument(c.long))
    else
      Ok(Parsed([Bind(c, argv, Head(rest))], Tail(rest), reg))
  }

  /** `parseLong`: resolve one `--name[=value]` token against the registry. */
  function ParseLongF(toks: seq<string>, reg: seq<Option>, argv: bool): (r: Outcome<seq<Option>>)
    requires toks != []
    ensures r.Ok? ==> |r.value.result| == 1 && SuffixOf(r.value.rest, toks[1..]) && reg <= r.value.reg
    ensures RaisedIn(r, argv)
  {
    var long := LongName(toks[0]);
    var similar := LongCandidates(reg, long, argv);
    if |similar| > 1 then
      Fail(argv, NotUniquePrefix(long, Longs(similar)))
    else if |similar| < 1 then
      NewLong(long, LongValue(toks[0]), LongHasEq(toks[0]), toks[1..], reg, argv)
    else
      MatchedLong(similar[0], LongValue(toks[0]), toks[1..], reg, argv)
  }

  // ---------------------------------------------------------------------
  // parseShorts
  // ---------------------------------------------------------------------

  /** The cluster with its leading dashes removed. */
  function StripDashes(s: string): (r: string)
    ensures |r| <= |s| && r == s[|s| - |r|..]
    ensures forall i :: 0 <= i < |s| - |r| ==> s[i] == '-'
    ensures r == "" || r[0] != '-'
  {
    if s != [] && s[0] == '-' then StripDashes(s[1..]) else s
  }

  /** The short flag a cluster character stands for: a dash followed by that character. */
  function ShortFlag(c: char): string
  {
    "-" + [c]
  }

  /**
   * The loop of `parseShorts`: `left` holds the cluster characters not yet
   * consumed and `parsed` the options produced so far.
   */
  function ShortsLoop(left: string, toks: seq<string>, reg: seq<Option>, argv: bool,
                      parsed: seq<Option>): (r: Outcome<seq<Option>>)
    ensures r.Ok? ==> SuffixOf(r.value.rest, toks) && reg <= r.value.reg && parsed <= r.value.result
    ensures RaisedIn(r, argv)
    decreases |left|
  {
    if left == "" then
      Ok(Parsed(parsed, toks, reg))
    else
      var flag := ShortFlag(left[0]);
      var left' := left[1..];
      var similar := ExactShort(reg, flag);
      if |similar| > 1 then
        Fail(argv, SpecifiedAmbiguously(flag, |similar|))
      else if |similar| < 1 then
        var o := NewOption(Some(flag), Null, 0);
        var bound := if argv then Option(Some(flag), Null, 0, BoolValue(true)) else o;
        ShortsLoop(left', toks, reg + [o], argv, parsed + [bound])
      else
        var c := similar[0];
        var o := Option(Some(flag), c.long, c.argcount, c.value);
        if c.argcount != 0 then
          if left' == "" then
            if Head(toks) == Null || Head(toks) == Some("--") then
              Fail(argv, RequiresArgument(Some(flag)))
            else
              ShortsLoop("", Tail(toks), reg, argv, parsed + [Bind(o, argv, Head(toks))])
          else
            ShortsLoop("", toks, reg, argv, parsed + [Bind(o, argv, Some(left'))])
        else
          ShortsLoop(left', toks, reg, argv, parsed + [Bind(o, argv, Null)])
  }

  /** `parseShorts`: resolve one `-abc` cluster, one option per consumed character. */
  function ParseShortsF(toks: seq<string>, reg: seq<Option>, argv: bool): (r: Outcome<seq<Option>>)
    requires toks != []
    ensures r.Ok? ==> SuffixOf(r.value.rest, toks[1..]) && reg <= r.value.reg
    ensures RaisedIn(r, argv)
  {
    ShortsLoop(StripDashes(toks[0]), toks[1..], reg, argv, [])
  }

  // ---------------------------------------------------------------------
  // parseExpr / parseSeq / parseAtom / parsePattern
  // ---------------------------------------------------------------------

  /** Option leaves for a list of options. */
  function Refs(os: seq<Option>): (r: seq<Leaf>)
    ensures |r| == |os| && forall i :: 0 <= i < |os| ==> r[i] == OptionRef(os[i])
  {
    if os == [] then [] else [OptionRef(os[0])] + Refs(os[1..])
  }

  /** A tree as the grammar parser builds it: every `[options]` shortcut in it is still empty. */
  predicate Unexpanded(p: Pattern)
    decreases p
  {
    if p.IsLeaf() then true
    else if p.OptionsShortcut? then p.children == []
    else forall i :: 0 <= i < |p.children| ==> Unexpanded(p.children[i])
  }

  predicate AllUnexpanded(ps: seq<Pattern>)
  {
    forall i :: 0 <= i < |ps| ==> Unexpanded(ps[i])
  }

  /** An alternative of an expression: a sequence of more than one pattern becomes one `Required`. */
  function Alternative(s: seq<Pattern>): seq<Pattern>
  {
    if |s| > 1 then [Required(s)] else s
  }

  /** Where a sequence ends: at the end of the tokens, or at `]`, `)` or `|`. */
  predicate SeqStop(t: Maybe<string>)
  {
    t in [Null, Some("]"), Some(")"), Some("|")]
  }

  /** The tokens that spell an argument: `<name>`, or a word whose letters are all upper case. */
  predicate IsArgumentToken(token: string)
  {
    (StartsWith(token, "<") && EndsWith(token, ">")) || UpperWord(token)
  }

  /** `parseExpr`: `seq ( '|' seq )*`. */
  function ParseExprF(toks: seq<string>, reg: seq<Option>, argv: bool): (r: Outcome<seq<Pattern>>)
    ensures r.Ok? ==> SuffixOf(r.value.rest, toks) && reg <= r.value.reg
    ensures RaisedIn(r, argv)
    decreases |toks|, 4
  {
    match ParseSeqF(toks, reg, argv)
    case Err(e) => Err(e)
    case Ok(Parsed(s, rest, reg')) =>
      if Head(rest) != Some("|") then Ok(Parsed(s, rest, reg'))
      else ExprLoop(rest, reg', argv, Alternative(s))
  }

  /** The alternatives loop of `parseExpr`, which runs while the current token is `|`; alternatives so far in `acc`. */
  function ExprLoop(toks: seq<string>, reg: seq<Option>, argv: bool, acc: seq<Pattern>): (r: Outcome<seq<Pattern>>)
    ensures r.Ok? ==> SuffixOf(r.value.rest, toks) && reg <= r.value.reg
    ensures RaisedIn(r, argv)
    decreases |toks|, 3
  {
    if Head(toks) != Some("|") then
      Ok(Parsed(if |acc| > 1 then [Either(acc)] else acc, toks, reg))
    else
      match ParseSeqF(toks[1..], reg, argv)
      case Err(e) => Err(e)
      case Ok(Parsed(s, rest, reg')) => ExprLoop(rest, reg', argv, acc + Alternative(s))
  }

  /** `parseSeq`: `( atom [ '...' ] )*`. */
  function ParseSeqF(toks: seq<string>, reg: seq<Option>, argv: bool): (r: Outcome<seq<Pattern>>)
    ensures r.Ok? ==> SuffixOf(r.value.rest, toks) && reg <= r.value.reg
    ensures RaisedIn(r, argv)
    decreases |toks|, 2
  {
    SeqLoop(toks, reg, argv, [])
  }

  /** The loop of `parseSeq`, patterns so far in `acc`. */
  function SeqLoop(toks: seq<string>, reg: seq<Option>, argv: bool, acc: seq<Pattern>): (r: Outcome<seq<Pattern>>)
    ensures r.Ok? ==> SuffixOf(r.value.rest, toks) && reg <= r.value.reg
    ensures RaisedIn(r, argv)
    decreases |toks|, 1
  {
    if SeqStop(Head(toks)) then
      Ok(Parsed(acc, toks, reg))
    else
      match ParseAtomF(toks, reg, argv)
      case Err(e) => Err(e)
      case Ok(Parsed(atom, rest, reg')) =>
        if Head(rest) == Some("...") then SeqLoop(Tail(rest), reg', argv, acc + [OneOrMore(atom)])
        else SeqLoop(rest, reg', argv, acc + atom)
  }

  /** `parseAtom`: a group, `options`, a long flag, a short cluster, an argument or a command. */
  function ParseAtomF(toks: seq<string>, reg: seq<Option>, argv: bool): (r: Outcome<seq<Pattern>>)
    requires toks != []
    ensures r.Ok? ==> SuffixOf(r.value.rest, toks[1..]) && reg <= r.value.reg
    ensures RaisedIn(r, argv)
    decreases |toks|, 0
  {
    var token := toks[0];
    if token == "(" || token == "[" then
      match ParseExprF(toks[1..], reg, argv)
      case Err(e) => Err(e)
      case Ok(Parsed(inner, rest, reg')) =>
        var matching := if token == "(" then ")" else "]";
        if Head(rest) != Some(matching) then Fail(argv, Unmatched(token))
        else Ok(Parsed([if token == "(" then Required(inner) else Optional(inner)], Tail(rest), reg'))
    else if token == "options" then
      Ok(Parsed([OptionsShortcut([])], toks[1..], reg))
    else if StartsWith(token, "--") && token != "--" then
      match ParseLongF(toks, reg, argv)
      case Err(e) => Err(e)
      case Ok(Parsed(os, rest, reg')) => Ok(Parsed(Refs(os), rest, reg'))
    else if StartsWith(token, "-") && !(token == "-" || token == "--") then
      match ParseShortsF(toks, reg, argv)
      case Err(e) => Err(e)
      case Ok(Parsed(os, rest, reg')) => Ok(Parsed(Refs(os), rest, reg'))
    else if IsArgumentToken(token) then
      Ok(Parsed([Argument(Some(token), NullValue)], toks[1..], reg))
    else
      Ok(Parsed([Command(Some(token), BoolValue(false))], toks[1..], reg))
  }

  /** `parsePattern` on the tokens of a usage pattern (grammar mode): a `Required` over everything. */
  function ParsePatternF(toks: seq<string>, reg: seq<Option>): (r: Outcome<Pattern>)
    ensures r.Ok? ==> r.value.result.Required? && r.value.rest == [] && reg <= r.value.reg
    ensures RaisedIn(r, false)
  {
    match ParseExprF(toks, reg, false)
    case Err(e) => Err(e)
    case Ok(Parsed(result, rest, reg')) =>
      if rest != [] then Fail(false, UnexpectedEnding(rest))
      else Ok(Parsed(Required(result), rest, reg'))
  }

  // ---------------------------------------------------------------------
  // parseArgv
  // ---------------------------------------------------------------------

  /** One unnamed argument leaf per token, holding the token as its value. */
  function Arguments(ts: seq<string>): (r: seq<Leaf>)
    ensures |r| == |ts| && forall i :: 0 <= i < |ts| ==> r[i] == Argument(Null, StrValue(ts[i]))
  {
    if ts == [] then [] else [Argument(Null, StrValue(ts[0]))] + Arguments(ts[1..])
  }

  /** A token that is neither a long flag nor a short cluster. */
  predicate Positional(t: string)
  {
    !StartsWith(t, "-") || t == "-"
  }

  /** The loop of `parseArgv`, leaves so far in `parsed`. */
  function ArgvLoop(toks: seq<string>, reg: seq<Option>, argv: bool, optionsFirst: bool,
                    parsed: seq<Leaf>): (r: Outcome<seq<Leaf>>)
    ensures r.Ok? ==> parsed <= r.value.result && reg <= r.value.reg
    ensures RaisedIn(r, argv)
    decreases |toks|
  {
    if toks == [] then
      Ok(Parsed(parsed, toks, reg))
    else if toks[0] == "--" then
      Ok(Parsed(parsed + Arguments(toks), toks, reg))
    else if StartsWith(toks[0], "--") then
      match ParseLongF(toks, reg, argv)
      case Err(e) => Err(e)
      case Ok(Parsed(os, rest, reg')) => ArgvLoop(rest, reg', argv, optionsFirst, parsed + Refs(os))
    else if StartsWith(toks[0], "-") && toks[0] != "-" then
      match ParseShortsF(toks, reg, argv)
      case Err(e) => Err(e)
      case Ok(Parsed(os, rest, reg')) => ArgvLoop(rest, reg', argv, optionsFirst, parsed + Refs(os))
    else if optionsFirst then
      Ok(Parsed(parsed + Arguments(toks), toks, reg))
    else
      ArgvLoop(toks[1..], reg, argv, optionsFirst, parsed + [Argument(Null, StrValue(toks[0]))])
  }

  /** `parseArgv`. */
  function ParseArgvF(toks: seq<string>, reg: seq<Option>, argv: bool, optionsFirst: bool): Outcome<seq<Leaf>>
  {
    ArgvLoop(toks, reg, argv, optionsFirst, [])
  }

  // ---------------------------------------------------------------------
  // formalUsage
  // ---------------------------------------------------------------------

  /** A word after the program name: another occurrence of the name starts a new alternative. */
  function UsageWord(name: string, w: string): string
  {
    if w == name then ") | (" else w
  }

  /** The words after the program name, each rewritten by `UsageWord`. */
  function UsageWords(name: string, ws: seq<string>): (r: seq<string>)
    ensures |r| == |ws| && forall i :: 0 <= i < |ws| ==> r[i] == UsageWord(name, ws[i])
  {
    if ws == [] then [] else [UsageWord(name, ws[0])] + UsageWords(name, ws[1..])
  }

  /** The words of a usage text as alternatives of one expression; the first word is the program name. */
  function Alternatives(text: string): string
  {
    var pu := Split(text);
    "( " + Joined(" ", UsageWords(pu[0], pu[1..])) + " )"
  }

  /** `formalUsage`: everything up to the first `:` is dropped, the rest becomes alternatives. */
  function FormalUsageF(section: string): (r: string)
    ensures StartsWith(r, "( ") && EndsWith(r, " )")
  {
    Alternatives(Partition(section, ":")[2])
  }

  // ---------------------------------------------------------------------
  // doParse
  // ---------------------------------------------------------------------

  /** Every element once, in order of first occurrence. */
  function Unique(s: seq<Pattern>): (r: seq<Pattern>)
    ensures forall x :: x in r <==> x in s
    ensures forall i, j :: 0 <= i < j < |r| ==> r[i] != r[j]
  {
    if s == [] then []
    else
      var u := Unique(s[..|s| - 1]);
      if s[|s| - 1] in u then u else u + [s[|s| - 1]]
  }

  /** The elements of `s` equal to none of `removed`. */
  function Without(s: seq<Pattern>, removed: seq<Pattern>): (r: seq<Pattern>)
    ensures forall x :: x in r <==> x in s && x !in removed
    ensures |r| <= |s|
  {
    if s == [] then []
    else
      var w := Without(s[..|s| - 1], removed);
      if s[|s| - 1] in removed then w else w + [s[|s| - 1]]
  }

  /** The registry's options, each once and in registry order, less those already in the pattern. */
  function ShortcutChildrenF(options: seq<Option>, patternOptions: seq<Pattern>): seq<Pattern>
  {
    Without(Unique(Refs(options)), patternOptions)
  }

  /** Every `OptionsShortcut` that `flat(OptionsShortcut)` reaches gets `cs` as its children. */
  function Expand(p: Pattern, cs: seq<Pattern>): (r: Pattern)
    ensures KindOf(r) == KindOf(p)
    ensures p.IsLeaf() ==> r == p
    decreases p
  {
    if p.IsLeaf() then p
    else if p.OptionsShortcut? then OptionsShortcut(cs)
    else p.(children := ExpandAll(p.children, cs))
  }

  function ExpandAll(ps: seq<Pattern>, cs: seq<Pattern>): (r: seq<Pattern>)
    ensures |r| == |ps|
    decreases ps
  {
    if ps == [] then [] else [Expand(ps[0], cs)] + ExpandAll(ps[1..], cs)
  }

  /**
   * The expansion as Docopt.java writes it: the options "already in the
   * pattern" are taken from the tree as it stands, including what an earlier
   * expansion put under its shortcuts.
   */
  function ExpandAsWritten(p: Pattern, options: seq<Option>): Pattern
  {
    Expand(p, ShortcutChildrenF(options, Flat(p, {OptionKind})))
  }

  /** The expansion as intended: pattern options are those outside every shortcut. */
  function ExpandShortcuts(p: Pattern, options: seq<Option>): Pattern
  {
    Expand(p, ShortcutChildrenF(options, Flat(Expand(p, []), {OptionKind})))
  }

  /** The result map: each leaf's name bound to its value, a later leaf replacing an earlier one. */
  function Bindings(ls: seq<Leaf>): (m: map<Maybe<string>, Value>)
    ensures forall k :: k in m <==> exists i :: 0 <= i < |ls| && LeafName(ls[i]) == k
  {
    if ls == [] then map[]
    else Bindings(ls[..|ls| - 1])[LeafName(ls[|ls| - 1]) := LeafValue(ls[|ls| - 1])]
  }

  /** `fix()` run on a tree, and `match` of a tree against argv leaves: neither is part of this model. */
  type Fixer = Pattern -> Pattern
  type Matcher = (Pattern, seq<Leaf>) -> MatchResult

  /** What one `doParse` returns, and the tree the instance holds afterwards. */
  datatype ParseRun = ParseRun(result: Result<map<Maybe<string>, Value>, Error>, pattern: Pattern)

  /** The leaves of a tree in left-to-right order. */
  function Leaves(p: Pattern): seq<Leaf>
  {
    Flat(p, {})
  }

  /**
   * One `doParse` once the shortcuts are filled: `expanded` is the tree with
   * its `[options]` children, used only when argv parses.
   */
  function DoParseRun(pattern: Pattern, expanded: Pattern, options: seq<Option>, optionsFirst: bool,
                      argv: seq<string>, fix: Fixer, matcher: Matcher): ParseRun
  {
    match ParseArgvF(argv, options, true, optionsFirst)
    case Err(e) => ParseRun(Err(e), pattern)
    case Ok(parsed) =>
      var fixed := fix(expanded);
      var m := matcher(fixed, parsed.result);
      if m.matched && m.left == [] then ParseRun(Ok(Bindings(Leaves(fixed) + m.collected)), fixed)
      else ParseRun(Err(Exit(1, Null, true)), fixed)
  }

  /** `doParse`, with the shortcut children taken from the options outside every shortcut. */
  function DoParseF(pattern: Pattern, options: seq<Option>, optionsFirst: bool, argv: seq<string>,
                    fix: Fixer, matcher: Matcher): ParseRun
  {
    DoParseRun(pattern, ExpandShortcuts(pattern, options), options, optionsFirst, argv, fix, matcher)
  }

  /** `doParse` as Docopt.java writes it, with the pattern options taken from the tree as it stands. */
  function DoParseAsWrittenF(pattern: Pattern, options: seq<Option>, optionsFirst: bool, argv: seq<string>,
                             fix: Fixer, matcher: Matcher): ParseRun
  {
    DoParseRun(pattern, ExpandAsWritten(pattern, options), options, optionsFirst, argv, fix, matcher)
  }
}
