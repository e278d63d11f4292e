/**
 * The usage-grammar engine of Docopt.java as imperative code: a token cursor
 * that `move()` advances, an option registry that is appended to in place,
 * and the loops of the source. Each method is proved to compute the
 * corresponding function of module DocoptSpec.
 */
module Docopt {
  import opened Wrappers
  import opened Python
  import opened Types
  import opened DocoptSpec

  /**
   * A method's outcome agrees with its specification: on success the same
   * result, tokens left and registry; on failure the same exception.
   */
  ghost predicate Agrees<T>(r: Result<T, Error>, spec: Outcome<T>, rest: seq<string>, reg: seq<Option>)
  {
    match spec
    case Ok(p) => r == Ok(p.result) && rest == p.rest && reg == p.reg
    case Err(e) => r == Err(e)
  }

  /** Collects the registry entries whose long form is exactly `long`. */
  method SimilarLong(entries: seq<Option>, long: string) returns (similar: seq<Option>)
    ensures similar == ExactLong(entries, long)
  {
    similar := [];
    for i := 0 to |entries|
      invariant similar == ExactLong(entries[..i], long)
    {
      assert entries[..i + 1][..i] == entries[..i];
      if entries[i].long == Some(long) {
        similar := similar + [entries[i]];
      }
    }
    assert entries[..|entries|] == entries;
  }

  /** Collects the registry entries that have a long form beginning with `long`. */
  method SimilarPrefix(entries: seq<Option>, long: string) returns (similar: seq<Option>)
    ensures similar == PrefixLong(entries, long)
  {
    similar := [];
    for i := 0 to |entries|
      invariant similar == PrefixLong(entries[..i], long)
    {
      assert entries[..i + 1][..i] == entries[..i];
      var o := entries[i];
      if o.long.Some? && StartsWith(o.long.value, long) {
        similar := similar + [o];
      }
    }
    assert entries[..|entries|] == entries;
  }

  /** Collects the registry entries whose short form is exactly `flag`. */
  method SimilarShort(entries: seq<Option>, flag: string) returns (similar: seq<Option>)
    ensures similar == ExactShort(entries, flag)
  {
    similar := [];
    for i := 0 to |entries|
      invariant similar == ExactShort(entries[..i], flag)
    {
      assert entries[..i + 1][..i] == entries[..i];
      if entries[i].short == Some(flag) {
        similar := similar + [entries[i]];
      }
    }
    assert entries[..|entries|] == entries;
  }

  /** Splits a long token at its first `=` into the flag name and the value, null when there is no `=`. */
  method SplitLong(token: string) returns (long: string, value: Maybe<string>, hasEq: bool)
    ensures long == LongName(token) && value == LongValue(token) && hasEq == LongHasEq(token)
  {
    var a := Partition(token, "=");
    long := a[0];
    hasEq := a[1] == "=";
    value := Some(a[2]);
    if a[1] == "" && a[2] == "" {
      value := Null;
    }
  }

  /** Collects the long form of each candidate, in order. */
  method LongsOf(similar: seq<Option>) returns (longs: seq<Maybe<string>>)
    ensures longs == Longs(similar)
  {
    longs := [];
    for i := 0 to |similar|
      invariant |longs| == i && forall k :: 0 <= k < i ==> longs[k] == similar[k].long
    {
      longs := longs + [similar[i].long];
    }
  }

  /** The exact matches of `long`, and in argv mode the prefix matches when there is none. */
  method Candidates(entries: seq<Option>, long: string, argvMode: bool) returns (similar: seq<Option>)
    ensures similar == LongCandidates(entries, long, argvMode)
  {
    similar := SimilarLong(entries, long);
    if argvMode && similar == [] {
      similar := SimilarPrefix(entries, long);
    }
  }

  /** Registers a long flag the registry does not know and returns its occurrence. */
  method AddLong(options: Registry, long: string, value: Maybe<string>, hasEq: bool, argvMode: bool,
                 ghost rest: seq<string>)
    returns (r: Result<seq<Option>, Error>)
    modifies options
    ensures Agrees(r, NewLong(long, value, hasEq, rest, old(options.entries), argvMode), rest, options.entries)
  {
    var argCount := if hasEq then 1 else 0;
    var o := NewOption(Null, Some(long), argCount);
    options.Add(o);
    if argvMode {
      o := Option(Null, Some(long), argCount, if argCount != 0 then ValueOf(value) else BoolValue(true));
    }
    return Ok([o]);
  }

  /** Copies registry entry `c`, checks its arity and, when it needs one, takes the next token as its value. */
  method TakeMatched(tokens: Tokens, c: Option, value: Maybe<string>, ghost reg: seq<Option>)
    returns (r: Result<seq<Option>, Error>)
    modifies tokens
    ensures Agrees(r, MatchedLong(c, value, old(tokens.rest), reg, tokens.argvMode), tokens.rest, reg)
  {
    ghost var rest := tokens.rest;
    var o := Option(c.short, c.long, c.argcount, c.value);
    var v := value;
    if o.argcount == 0 {
      if v != Null {
        return Err(TokenError(tokens.argvMode, MustNotHaveArgument(o.long)));
      }
    } else if v == Null {
      var cur := tokens.Current();
      if cur == Null || cur == Some("--") {
        return Err(TokenError(tokens.argvMode, RequiresArgument(o.long)));
      }
      v := tokens.Move();
      assert tokens.rest == Tail(rest) && v == Head(rest);
    }
    if tokens.argvMode {
      o := o.(value := if v != Null then StrValue(v.value) else BoolValue(true));
    }
    assert o == Bind(c, tokens.argvMode, v);
    return Ok([o]);
  }

  /** `parseLong`: `long ::= '--' chars [ ( ' ' | '=' ) chars ]`. */
  method ParseLong(tokens: Tokens, options: Registry) returns (r: Result<seq<Option>, Error>)
    requires tokens.rest != []
    modifies tokens, options
    ensures Agrees(r, ParseLongF(old(tokens.rest), old(options.entries), tokens.argvMode),
                   tokens.rest, options.entries)
  {
    var token := tokens.Move();
    var long, value, hasEq := SplitLong(token.value);
    var similar := Candidates(options.entries, long, tokens.argvMode);
    if |similar| > 1 {
      var longs := LongsOf(similar);
      return Err(TokenError(tokens.argvMode, NotUniquePrefix(long, longs)));
    }
    if |similar| < 1 {
      r := AddLong(options, long, value, hasEq, tokens.argvMode, tokens.rest);
      return;
    }
    r := TakeMatched(tokens, similar[0], value, options.entries);
  }

  /** `parseShorts`: `shorts ::= '-' ( chars )* [ [ ' ' ] chars ]`. */
  method ParseShorts(tokens: Tokens, options: Registry) returns (r: Result<seq<Option>, Error>)
    requires tokens.rest != []
    modifies tokens, options
    ensures Agrees(r, ParseShortsF(old(tokens.rest), old(options.entries), tokens.argvMode),
                   tokens.rest, options.entries)
  {
    ghost var spec := ParseShortsF(tokens.rest, options.entries, tokens.argvMode);
    var token := tokens.Move();
    var left := StripDashes(token.value);
    var parsed: seq<Option> := [];
    while left != ""
      invariant ShortsLoop(left, tokens.rest, options.entries, tokens.argvMode, parsed) == spec
      decreases |left|
    {
      var flag := "-" + [left[0]];
      left := left[1..];
      var similar := SimilarShort(options.entries, flag);
      if |similar| > 1 {
        return Err(TokenError(tokens.argvMode, SpecifiedAmbiguously(flag, |similar|)));
      }
      var o: Option;
      if |similar| < 1 {
        o := NewOption(Some(flag), Null, 0);
        options.Add(o);
        if tokens.argvMode {
          o := Option(Some(flag), Null, 0, BoolValue(true));
        }
      } else {
        var c := similar[0];
        o := Option(Some(flag), c.long, c.argcount, c.value);
        var value: Maybe<string> := Null;
        if o.argcount != 0 {
          if left == "" {
            var cur := tokens.Current();
            if cur == Null || cur == Some("--") {
              return Err(TokenError(tokens.argvMode, RequiresArgument(Some(flag))));
            }
            value := tokens.Move();
          } else {
            value := Some(left);
            left := "";
          }
        }
        if tokens.argvMode {
          o := o.(value := if value != Null then StrValue(value.value) else BoolValue(true));
        }
      }
      parsed := parsed + [o];
    }
    return Ok(parsed);
  }

  /** `parseExpr`: `expr ::= seq ( '|' seq )*`. */
  method ParseExpr(tokens: Tokens, options: Registry) returns (r: Result<seq<Pattern>, Error>)
    modifies tokens, options
    ensures Agrees(r, ParseExprF(old(tokens.rest), old(options.entries), tokens.argvMode),
                   tokens.rest, options.entries)
    decreases |tokens.rest|, 4
  {
    ghost var spec := ParseExprF(tokens.rest, options.entries, tokens.argvMode);
    var first := ParseSeq(tokens, options);
    if first.Err? {
      return Err(first.error);
    }
    var s := first.value;
    if tokens.Current() != Some("|") {
      return Ok(s);
    }
    var result := if |s| > 1 then [Required(s)] else s;
    while tokens.Current() == Some("|")
      invariant ExprLoop(tokens.rest, options.entries, tokens.argvMode, result) == spec
      invariant |tokens.rest| <= |old(tokens.rest)|
      decreases |tokens.rest|
    {
      var _ := tokens.Move();
      var next := ParseSeq(tokens, options);
      if next.Err? {
        return Err(next.error);
      }
      s := next.value;
      result := result + (if |s| > 1 then [Required(s)] else s);
    }
    return Ok(if |result| > 1 then [Either(result)] else result);
  }

  /** `parseSeq`: `seq ::= ( atom [ '...' ] )*`. */
  method ParseSeq(tokens: Tokens, options: Registry) returns (r: Result<seq<Pattern>, Error>)
    modifies tokens, options
    ensures Agrees(r, ParseSeqF(old(tokens.rest), old(options.entries), tokens.argvMode),
                   tokens.rest, options.entries)
    decreases |tokens.rest|, 2
  {
    ghost var spec := SeqLoop(tokens.rest, options.entries, tokens.argvMode, []);
    var result: seq<Pattern> := [];
    while true
      invariant SeqLoop(tokens.rest, options.entries, tokens.argvMode, result) == spec
      invariant |tokens.rest| <= |old(tokens.rest)|
      decreases |tokens.rest|
    {
      var stop := In(tokens.Current(), [Null, Some("]"), Some(")"), Some("|")]);
      if stop {
        break;
      }
      var next := ParseAtom(tokens, options);
      if next.Err? {
        return Err(next.error);
      }
      var atom := next.value;
      if tokens.Current() == Some("...") {
        atom := [OneOrMore(atom)];
        var _ := tokens.Move();
      }
      result := result + atom;
    }
    return Ok(result);
  }

  /**
   * `parseAtom`: `atom ::= '(' expr ')' | '[' expr ']' | 'options'
   *                      | long | shorts | argument | command`.
   */
  method ParseAtom(tokens: Tokens, options: Registry) returns (r: Result<seq<Pattern>, Error>)
    requires tokens.rest != []
    modifies tokens, options
    ensures Agrees(r, ParseAtomF(old(tokens.rest), old(options.entries), tokens.argvMode),
                   tokens.rest, options.entries)
    decreases |tokens.rest|, 0
  {
    var token := tokens.Current().value;
    if token == "(" || token == "[" {
      var _ := tokens.Move();
      var inner := ParseExpr(tokens, options);
      if inner.Err? {
        return Err(inner.error);
      }
      var matching: string;
      var result: Pattern;
      if token == "(" {
        matching := ")";
        result := Required(inner.value);
      } else {
        matching := "]";
        result := Optional(inner.value);
      }
      var closing := tokens.Move();
      if closing != Some(matching) {
        return Err(TokenError(tokens.argvMode, Unmatched(token)));
      }
      return Ok([result]);
    } else if token == "options" {
      var _ := tokens.Move();
      return Ok([OptionsShortcut([])]);
    } else if StartsWith(token, "--") && token != "--" {
      var os := ParseLong(tokens, options);
      if os.Err? {
        return Err(os.error);
      }
      return Ok(Refs(os.value));
    } else if StartsWith(token, "-") && !(token == "-" || token == "--") {
      var os := ParseShorts(tokens, options);
      if os.Err? {
        return Err(os.error);
      }
      return Ok(Refs(os.value));
    }
    var isArgument := StartsWith(token, "<") && EndsWith(token, ">");
    if !isArgument {
      isArgument := IsUpper(token);
    }
    var name := tokens.Move();
    if isArgument {
      return Ok([Argument(name, NullValue)]);
    }
    return Ok([Command(name, BoolValue(false))]);
  }

  /**
   * `parsePattern`: the usage pattern split into grammar tokens by
   * `fromPattern`, parsed as one expression that must use up every token.
   */
  method ParsePattern(source: string, fromPattern: string -> seq<string>, options: Registry)
    returns (r: Result<Pattern, Error>)
    modifies options
    ensures Agrees(r, ParsePatternF(fromPattern(source), old(options.entries)), [], options.entries)
  {
    var tokens := new Tokens(fromPattern(source), false);
    var result := ParseExpr(tokens, options);
    if result.Err? {
      return Err(result.error);
    }
    if tokens.Current() != Null {
      return Err(TokenError(tokens.argvMode, UnexpectedEnding(tokens.rest)));
    }
    return Ok(Required(result.value));
  }

  lemma ArgumentsSnoc(ts: seq<string>, x: string)
    ensures Arguments(ts + [x]) == Arguments(ts) + [Argument(Null, StrValue(x))]
  {
    var l, r := Arguments(ts + [x]), Arguments(ts) + [Argument(Null, StrValue(x))];
    assert |l| == |r|;
    forall i | 0 <= i < |l| ensures l[i] == r[i] {
      if i < |ts| {
        assert (ts + [x])[i] == ts[i];
      }
    }
  }

  /** Appends one unnamed argument leaf per token to `parsed`. */
  method AppendArguments(parsed: seq<Leaf>, ts: seq<string>) returns (r: seq<Leaf>)
    ensures r == parsed + Arguments(ts)
  {
    r := parsed;
    for i := 0 to |ts|
      invariant r == parsed + Arguments(ts[..i])
    {
      assert ts[..i + 1] == ts[..i] + [ts[i]];
      ArgumentsSnoc(ts[..i], ts[i]);
      r := r + [Argument(Null, StrValue(ts[i]))];
    }
    assert ts[..|ts|] == ts;
  }

  /**
   * `parseArgv`: `argv ::= [ long | shorts | argument ]* [ '--' [ argument ]* ]`;
   * with `optionsFirst` every token from the first positional one on is an argument.
   */
  method ParseArgv(tokens: Tokens, options: Registry, optionsFirst: bool) returns (r: Result<seq<Leaf>, Error>)
    modifies tokens, options
    ensures Agrees(r, ParseArgvF(old(tokens.rest), old(options.entries), tokens.argvMode, optionsFirst),
                   tokens.rest, options.entries)
  {
    ghost var spec := ParseArgvF(tokens.rest, options.entries, tokens.argvMode, optionsFirst);
    var parsed: seq<Leaf> := [];
    while tokens.Current() != Null
      invariant ArgvLoop(tokens.rest, options.entries, tokens.argvMode, optionsFirst, parsed) == spec
      decreases |tokens.rest|
    {
      var token := tokens.Current().value;
      if token == "--" {
        parsed := AppendArguments(parsed, tokens.rest);
        return Ok(parsed);
      } else if StartsWith(token, "--") {
        var os := ParseLong(tokens, options);
        if os.Err? {
          return Err(os.error);
        }
        parsed := parsed + Refs(os.value);
      } else if StartsWith(token, "-") && token != "-" {
        var os := ParseShorts(tokens, options);
        if os.Err? {
          return Err(os.error);
        }
        parsed := parsed + Refs(os.value);
      } else if optionsFirst {
        parsed := AppendArguments(parsed, tokens.rest);
        return Ok(parsed);
      } else {
        var v := tokens.Move();
        parsed := parsed + [Argument(Null, StrValue(v.value))];
      }
    }
    return Ok(parsed);
  }

  /** What the StringBuilder holds before its last character is cut: each item followed by a blank. */
  ghost function Spaced(items: seq<string>): string
  {
    if items == [] then "" else Spaced(items[..|items| - 1]) + items[|items| - 1] + " "
  }

  lemma {:induction false} SpacedJoined(items: seq<string>)
    requires items != []
    ensures Spaced(items) == Joined(" ", items) + " "
    decreases |items|
  {
    var init := items[..|items| - 1];
    if init != [] {
      SpacedJoined(init);
      JoinedSnoc(" ", init, items[|items| - 1]);
      assert init + [items[|items| - 1]] == items;
    }
  }

  lemma SpacedSnoc(sb: string, items: seq<string>, x: string)
    requires sb == "( " + Spaced(items)
    ensures sb + x + " " == "( " + Spaced(items + [x])
  {
    assert (items + [x])[..|items|] == items;
  }

  lemma UsageWordsSnoc(name: string, ws: seq<string>, x: string)
    ensures UsageWords(name, ws + [x]) == UsageWords(name, ws) + [UsageWord(name, x)]
  {
    var l, r := UsageWords(name, ws + [x]), UsageWords(name, ws) + [UsageWord(name, x)];
    assert |l| == |r|;
    forall i | 0 <= i < |l| ensures l[i] == r[i] {
      if i < |ws| {
        assert (ws + [x])[i] == ws[i];
      }
    }
  }

  /** The StringBuilder loop of `formalUsage`: each rewritten word appended with a blank after it. */
  method AppendWords(name: string, words: seq<string>) returns (sb: string)
    ensures sb == "( " + Spaced(UsageWords(name, words))
  {
    sb := "( ";
    ghost var done: seq<string> := [];
    for i := 0 to |words|
      invariant done == UsageWords(name, words[..i])
      invariant sb == "( " + Spaced(done)
    {
      var w := if words[i] == name then ") | (" else words[i];
      assert words[..i + 1] == words[..i] + [words[i]];
      UsageWordsSnoc(name, words[..i], words[i]);
      SpacedSnoc(sb, done, w);
      sb := sb + w + " ";
      done := done + [w];
    }
    assert words[..|words|] == words;
  }

  /** `"( "`, the rewritten words joined by blanks (the last blank cut again), `" )"`. */
  method BuildAlternatives(name: string, words: seq<string>) returns (r: string)
    ensures r == "( " + Joined(" ", UsageWords(name, words)) + " )"
  {
    var sb := "( ";
    if words != [] {
      sb := AppendWords(name, words);
      SpacedJoined(UsageWords(name, words));
      sb := sb[..|sb| - 1];
    }
    r := sb + " )";
  }

  /** `formalUsage`: the usage section rewritten as `( ... ) | ( ... )`. */
  method FormalUsage(section: string) returns (r: string)
    ensures r == FormalUsageF(section)
  {
    var parts := Partition(section, ":");
    var pu := Split(parts[2]);
    r := BuildAlternatives(pu[0], pu[1..]);
  }

  lemma RefsSnoc(os: seq<Option>, x: Option)
    ensures Refs(os + [x]) == Refs(os) + [OptionRef(x)]
  {
    var l, r := Refs(os + [x]), Refs(os) + [OptionRef(x)];
    assert |l| == |r|;
    forall i | 0 <= i < |l| ensures l[i] == r[i] {
      if i < |os| {
        assert (os + [x])[i] == os[i];
      }
    }
  }

  lemma UniqueSnoc(s: seq<Pattern>, x: Pattern)
    ensures Unique(s + [x]) == if x in Unique(s) then Unique(s) else Unique(s) + [x]
  {
    assert (s + [x])[..|s|] == s;
  }

  lemma WithoutSnoc(s: seq<Pattern>, x: Pattern, removed: seq<Pattern>)
    ensures Without(s + [x], removed) == if x in removed then Without(s, removed) else Without(s, removed) + [x]
  {
    assert (s + [x])[..|s|] == s;
  }

  lemma BindingsSnoc(ls: seq<Leaf>, x: Leaf)
    ensures Bindings(ls + [x]) == Bindings(ls)[LeafName(x) := LeafValue(x)]
  {
    assert (ls + [x])[..|ls|] == ls;
  }

  /** The registry's options as option leaves, each once, in order of first occurrence. */
  method UniqueRefs(options: seq<Option>) returns (all: seq<Pattern>)
    ensures all == Unique(Refs(options))
  {
    all := [];
    for i := 0 to |options|
      invariant all == Unique(Refs(options[..i]))
    {
      assert options[..i + 1] == options[..i] + [options[i]];
      RefsSnoc(options[..i], options[i]);
      UniqueSnoc(Refs(options[..i]), OptionRef(options[i]));
      if OptionRef(options[i]) !in all {
        all := all + [OptionRef(options[i])];
      }
    }
    assert options[..|options|] == options;
  }

  /** Whether `o` equals one of `xs`, found by a linear search. */
  method EqualsAny(o: Pattern, xs: seq<Pattern>) returns (found: bool)
    ensures found <==> o in xs
  {
    found := false;
    for k := 0 to |xs|
      invariant found <==> o in xs[..k]
    {
      assert xs[..k + 1] == xs[..k] + [xs[k]];
      if o == xs[k] {
        found := true;
      }
    }
    assert xs[..|xs|] == xs;
  }

  /** The elements of `all` that equal none of `removed`, in order. */
  method Difference(all: seq<Pattern>, removed: seq<Pattern>) returns (children: seq<Pattern>)
    ensures children == Without(all, removed)
  {
    children := [];
    for i := 0 to |all|
      invariant children == Without(all[..i], removed)
    {
      assert all[..i + 1] == all[..i] + [all[i]];
      WithoutSnoc(all[..i], all[i], removed);
      var found := EqualsAny(all[i], removed);
      if !found {
        children := children + [all[i]];
      }
    }
    assert all[..|all|] == all;
  }

  /**
   * `list(set(doc_options) - pattern_options)`: the registry options once
   * each, then those equal to an option of the pattern removed.
   */
  method ShortcutChildren(options: seq<Option>, patternOptions: seq<Pattern>) returns (children: seq<Pattern>)
    ensures children == ShortcutChildrenF(options, patternOptions)
  {
    var all := UniqueRefs(options);
    children := Difference(all, patternOptions);
  }

  /** The result map: every leaf of the tree, then every collected leaf, `put` by name. */
  method BuildResult(flat: seq<Leaf>, collected: seq<Leaf>) returns (m: map<Maybe<string>, Value>)
    ensures m == Bindings(flat + collected)
  {
    m := map[];
    for i := 0 to |flat|
      invariant m == Bindings(flat[..i])
    {
      assert flat[..i + 1] == flat[..i] + [flat[i]];
      BindingsSnoc(flat[..i], flat[i]);
      m := m[LeafName(flat[i]) := LeafValue(flat[i])];
    }
    assert flat[..|flat|] == flat + collected[..0];
    for j := 0 to |collected|
      invariant m == Bindings(flat + collected[..j])
    {
      assert flat + collected[..j + 1] == (flat + collected[..j]) + [collected[j]];
      BindingsSnoc(flat + collected[..j], collected[j]);
      m := m[LeafName(collected[j]) := LeafValue(collected[j])];
    }
    assert collected[..|collected|] == collected;
  }

  /** A parser instance: the help text, its usage section, the option registry and the pattern tree. */
  class Docopt {
    const doc: string
    const usage: string
    /** The registry after the usage pattern was parsed: the option descriptions and every flag of the pattern. */
    const options: seq<Option>
    /** The tree `doParse` expands and fixes in place. */
    var pattern: Pattern
    var optionsFirst: bool

    constructor (doc: string, usage: string, options: seq<Option>, pattern: Pattern)
      ensures this.doc == doc && this.usage == usage && this.options == options
      ensures this.pattern == pattern && !optionsFirst
    {
      this.doc := doc;
      this.usage := usage;
      this.options := options;
      this.pattern := pattern;
      optionsFirst := false;
    }

    /**
     * `new Docopt(doc)`, given the `usage:` sections and option descriptions
     * found in `doc` and the grammar tokenizer.
     */
    static method Create(doc: string, usageSections: seq<string>, defaults: seq<Option>,
                         fromPattern: string -> seq<string>) returns (r: Result<Docopt, Error>)
      ensures |usageSections| == 0 ==> r == Err(LanguageError("\"usage:\" (case-insensitive) not found."))
      ensures |usageSections| > 1 ==> r == Err(LanguageError("More than one \"usage:\" (case-insensitive)."))
      ensures |usageSections| == 1 ==>
        match ParsePatternF(fromPattern(FormalUsageF(usageSections[0])), defaults)
        case Err(e) => r == Err(e)
        case Ok(p) => r.Ok? && fresh(r.value) && r.value.doc == doc && r.value.usage == usageSections[0]
                      && r.value.options == p.reg && r.value.pattern == p.result && !r.value.optionsFirst
    {
      if |usageSections| == 0 {
        return Err(LanguageError("\"usage:\" (case-insensitive) not found."));
      }
      if |usageSections| > 1 {
        return Err(LanguageError("More than one \"usage:\" (case-insensitive)."));
      }
      var usage := usageSections[0];
      var options := new Registry(defaults);
      var formal := FormalUsage(usage);
      var pattern := ParsePattern(formal, fromPattern, options);
      if pattern.Err? {
        return Err(pattern.error);
      }
      var d := new Docopt(doc, usage, options.entries, pattern.value);
      return Ok(d);
    }

    /** `withOptionsFirst`. */
    method WithOptionsFirst(optionsFirst: bool)
      modifies this
      ensures this.optionsFirst == optionsFirst && pattern == old(pattern)
    {
      this.optionsFirst := optionsFirst;
    }

    /**
     * `doParse`: parse argv against a copy of the registry, give every
     * `[options]` shortcut the options the pattern does not mention, fix the
     * tree in place and match it; succeed only when nothing is left over.
     */
    method DoParse(argv: seq<string>, fix: Fixer, matcher: Matcher)
      returns (r: Result<map<Maybe<string>, Value>, Error>)
      modifies this
      ensures optionsFirst == old(optionsFirst)
      ensures var run := DoParseF(old(pattern), options, old(optionsFirst), argv, fix, matcher);
              r == run.result && pattern == run.pattern
    {
      var tokens := new Tokens(argv, true);
      var registry := new Registry(options);
      var parsed := ParseArgv(tokens, registry, optionsFirst);
      if parsed.Err? {
        return Err(parsed.error);
      }
      var patternOptions := Flat(Expand(pattern, []), {OptionKind});
      var children := ShortcutChildren(options, patternOptions);
      pattern := fix(Expand(pattern, children));
      var m := matcher(pattern, parsed.value);
      if m.matched && m.left == [] {
        var result := BuildResult(Leaves(pattern), m.collected);
        return Ok(result);
      }
      return Err(Exit(1, Null, true));
    }
  }
}
