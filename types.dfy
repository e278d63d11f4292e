/**
 * The entities Docopt.java works on whose own source files (Option, Pattern
 * and its subclasses, Tokens, DocoptLanguageError) are not part of this
 * model: they are declared here with only the behaviour Docopt.java uses.
 */
module Types {
  import opened Wrappers

  /** The value a leaf carries: null, a boolean, a string, a list of strings or a count. */
  datatype Value = NullValue | BoolValue(b: bool) | StrValue(s: string) | ListValue(items: seq<string>) | IntValue(n: int)

  /** `Option(short, long, argcount, value)`: one registered flag. */
  datatype Option = Option(short: Maybe<string>, long: Maybe<string>, argcount: nat, value: Value)
  {
    /** The leaf name of an option: its long form when it has one, else its short form. */
    function Name(): Maybe<string>
    {
      if long.Some? then long else short
    }
  }

  /** The three-argument constructor: a flag defaults to false, an option taking an argument to null. */
  function NewOption(short: Maybe<string>, long: Maybe<string>, argcount: nat): (o: Option)
    ensures o.short == short && o.long == long && o.argcount == argcount
    ensures o.value == (if argcount == 0 then BoolValue(false) else NullValue)
  {
    Option(short, long, argcount, if argcount == 0 then BoolValue(false) else NullValue)
  }

  /** The pattern tree: three leaf kinds and five branch kinds. */
  datatype Pattern =
    | Argument(name: Maybe<string>, value: Value)
    | Command(name: Maybe<string>, value: Value)
    | OptionRef(option: Option)
    | Required(children: seq<Pattern>)
    | Optional(children: seq<Pattern>)
    | Either(children: seq<Pattern>)
    | OneOrMore(children: seq<Pattern>)
    | OptionsShortcut(children: seq<Pattern>)
  {
    predicate IsLeaf()
    {
      Argument? || Command? || OptionRef?
    }
  }

  /** `LeafPattern`. */
  type Leaf = p: Pattern | p.IsLeaf() witness Argument(Null, NullValue)

  /** `getName()` of a leaf. */
  function LeafName(p: Leaf): Maybe<string>
  {
    if p.OptionRef? then p.option.Name() else p.name
  }

  /** `getValue()` of a leaf. */
  function LeafValue(p: Leaf): Value
  {
    if p.OptionRef? then p.option.value else p.value
  }

  /** The class of a pattern node, as `flat(types...)` tests it. */
  datatype Kind = ArgumentKind | CommandKind | OptionKind | RequiredKind | OptionalKind
                | EitherKind | OneOrMoreKind | OptionsShortcutKind

  function KindOf(p: Pattern): Kind
  {
    match p
    case Argument(_, _) => ArgumentKind
    case Command(_, _) => CommandKind
    case OptionRef(_) => OptionKind
    case Required(_) => RequiredKind
    case Optional(_) => OptionalKind
    case Either(_) => EitherKind
    case OneOrMore(_) => OneOrMoreKind
    case OptionsShortcut(_) => OptionsShortcutKind
  }

  /**
   * `flat(types...)`: with no types, every leaf in left-to-right order;
   * otherwise every node of one of the given classes, not looking inside a
   * node that is itself of such a class.
   */
  function Flat(p: Pattern, types: set<Kind>): (r: seq<Pattern>)
    ensures forall q :: q in r ==> if types == {} then q.IsLeaf() else KindOf(q) in types
    decreases p
  {
    if p.IsLeaf() then
      (if types == {} || KindOf(p) in types then [p] else [])
    else if KindOf(p) in types then [p]
    else FlatAll(p.children, types)
  }

  function FlatAll(ps: seq<Pattern>, types: set<Kind>): (r: seq<Pattern>)
    ensures forall q :: q in r ==> if types == {} then q.IsLeaf() else KindOf(q) in types
    decreases ps
  {
    if ps == [] then [] else Flat(ps[0], types) + FlatAll(ps[1..], types)
  }

  /** `MatchResult(matched, left, collected)`. */
  datatype MatchResult = MatchResult(matched: bool, left: seq<Leaf>, collected: seq<Leaf>)

  /** Why `tokens.error(...)` was raised. */
  datatype Failure =
    | NotUniquePrefix(flag: string, candidates: seq<Maybe<string>>)   // the prefix given and the long forms it could mean
    | MustNotHaveArgument(option: Maybe<string>)                    // a flag given a value with `=`
    | RequiresArgument(option: Maybe<string>)                       // an option whose argument is missing
    | SpecifiedAmbiguously(flag: string, times: nat)                // a short flag with several registry entries, and how many
    | UnexpectedEnding(rest: seq<string>)                           // the tokens left after the whole pattern
    | Unmatched(bracket: string)                                    // an opening bracket without its closer

  /** The exceptions of the engine. */
  datatype Error =
    /** `tokens.error(...)`: a DocoptExitException when parsing argv, else a DocoptLanguageError. */
    | TokenError(argvMode: bool, reason: Failure)
    /** A DocoptLanguageError raised directly with a message. */
    | LanguageError(text: string)
    /** `DocoptExitException(exitCode, message, printUsage)`. */
    | Exit(code: int, message: Maybe<string>, printUsage: bool)

  /** `tokens.current()` of a token list. */
  function Head(ts: seq<string>): Maybe<string>
  {
    if ts == [] then Null else Some(ts[0])
  }

  /** The token list after `tokens.move()`. */
  function Tail(ts: seq<string>): seq<string>
  {
    if ts == [] then [] else ts[1..]
  }

  /**
   * `Tokens`: the tokens not yet consumed, and whether errors are raised as
   * exit exceptions (argv mode) or as language errors (grammar mode).
   */
  class Tokens {
    var rest: seq<string>
    /** `getError() == DocoptExitException.class`. */
    const argvMode: bool

    constructor (source: seq<string>, argvMode: bool)
      ensures rest == source && this.argvMode == argvMode
    {
      rest := source;
      this.argvMode := argvMode;
    }

    /** `current()`: the next token, or null when none is left. */
    function Current(): Maybe<string>
      reads this
    {
      Head(rest)
    }

    /** `move()`: remove and return the next token, or null when none is left. */
    method Move() returns (t: Maybe<string>)
      modifies this
      ensures t == Head(old(rest)) && rest == Tail(old(rest))
    {
      t := Head(rest);
      rest := Tail(rest);
    }
  }

  /** The mutable `List<Option>` the parser resolves flags against and appends to. */
  class Registry {
    var entries: seq<Option>

    constructor (entries: seq<Option>)
      ensures this.entries == entries
    {
      this.entries := entries;
    }

    /** `options.add(o)`. */
    method Add(o: Option)
      modifies this
      ensures entries == old(entries) + [o]
    {
      entries := entries + [o];
    }
  }
}
