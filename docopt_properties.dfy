/**
 * What the specification functions of DocoptSpec promise: the flag
 * resolution rules, the shape of the pattern tree, the argv rules, the
 * usage rewrite and the result map.
 */
module DocoptProperties {
  import opened Wrappers
  import opened Python
  import opened Types
  import opened DocoptSpec

  /** A value bound while parsing argv: `true` for a flag, a string for an option's argument. */
  predicate BoundValue(o: Option)
  {
    o.value == BoolValue(true) || o.value.StrValue?
  }

  // ---------------------------------------------------------------------
  // parseLong
  // ---------------------------------------------------------------------

  /** An unknown long flag is registered with argcount 1 exactly when it carries `=`. */
  lemma NewLongFlag(toks: seq<string>, reg: seq<Option>, argv: bool)
    requires toks != [] && LongCandidates(reg, LongName(toks[0]), argv) == []
    ensures var r := ParseLongF(toks, reg, argv);
            var o := NewOption(Null, Some(LongName(toks[0])), if Occurs(toks[0], "=") then 1 else 0);
            r.Ok? && r.value.rest == toks[1..] && r.value.reg == reg + [o]
            && (o.argcount == 1 <==> Occurs(toks[0], "="))
            && (!argv ==> r.value.result == [o])
            && (argv ==> r.value.result == [o.(value := if o.argcount != 0 then ValueOf(LongValue(toks[0])) else BoolValue(true))])
  {
  }

  /** A known long flag yields a copy of its registry entry and leaves the registry as it was. */
  lemma MatchedLongFlag(toks: seq<string>, reg: seq<Option>, argv: bool, c: Option)
    requires toks != [] && LongCandidates(reg, LongName(toks[0]), argv) == [c]
    ensures var r := ParseLongF(toks, reg, argv);
            r.Ok? ==> r.value.reg == reg && r.value.result[0].short == c.short
                      && r.value.result[0].long == c.long && r.value.result[0].argcount == c.argcount
                      && (!argv ==> r.value.result == [c])
  {
  }

  /** A flag without argument given `=value` is an error. */
  lemma LongMustNotHaveArgument(toks: seq<string>, reg: seq<Option>, argv: bool, c: Option)
    requires toks != [] && LongCandidates(reg, LongName(toks[0]), argv) == [c]
    requires c.argcount == 0 && Occurs(toks[0], "=")
    ensures ParseLongF(toks, reg, argv) == Err(TokenError(argv, MustNotHaveArgument(c.long)))
  {
  }

  /**
   * An option taking an argument and written without `=` takes the next
   * token, unless there is none or it is `--`.
   */
  lemma LongTakesNextToken(toks: seq<string>, reg: seq<Option>, argv: bool, c: Option)
    requires toks != [] && LongCandidates(reg, LongName(toks[0]), argv) == [c]
    requires c.argcount != 0 && !Occurs(toks[0], "=")
    ensures |toks| == 1 || toks[1] == "--" ==>
              ParseLongF(toks, reg, argv) == Err(TokenError(argv, RequiresArgument(c.long)))
    ensures |toks| > 1 && toks[1] != "--" ==>
              ParseLongF(toks, reg, argv) == Ok(Parsed([Bind(c, argv, Some(toks[1]))], toks[2..], reg))
  {
  }

  /** More than one candidate is an error naming all of them. */
  lemma LongNotUniquePrefix(toks: seq<string>, reg: seq<Option>, argv: bool)
    requires toks != [] && |LongCandidates(reg, LongName(toks[0]), argv)| > 1
    ensures var cs := LongCandidates(reg, LongName(toks[0]), argv);
            ParseLongF(toks, reg, argv) == Err(TokenError(argv, NotUniquePrefix(LongName(toks[0]), Longs(cs))))
            && forall i :: 0 <= i < |cs| ==> Longs(cs)[i] == cs[i].long
  {
  }

  /** In argv mode the option returned carries a bound value. */
  lemma LongArgvBound(toks: seq<string>, reg: seq<Option>)
    requires toks != []
    ensures var r := ParseLongF(toks, reg, true);
            r.Ok? ==> BoundValue(r.value.result[0])
  {
  }

  /** In grammar mode the option returned is an entry of the registry, default value included. */
  lemma LongGrammarRegistered(toks: seq<string>, reg: seq<Option>)
    requires toks != []
    ensures var r := ParseLongF(toks, reg, false);
            r.Ok? ==> r.value.result[0] in r.value.reg
  {
    var cs := LongCandidates(reg, LongName(toks[0]), false);
    if |cs| == 1 {
      assert cs[0] in ExactLong(reg, LongName(toks[0]));
    }
  }

  // ---------------------------------------------------------------------
  // parseShorts
  // ---------------------------------------------------------------------

  /** The options of `result` past `parsed` are named after the leading characters of `left`, one each. */
  ghost predicate OnePerChar(left: string, parsed: seq<Option>, result: seq<Option>)
  {
    |parsed| <= |result| <= |parsed| + |left|
    && forall i :: |parsed| <= i < |result| ==> result[i].short == Some(ShortFlag(left[i - |parsed|]))
  }

  lemma OnePerCharCons(left: string, parsed: seq<Option>, x: Option, result: seq<Option>)
    requires left != "" && x.short == Some(ShortFlag(left[0]))
    requires parsed + [x] <= result && OnePerChar(left[1..], parsed + [x], result)
    ensures OnePerChar(left, parsed, result)
  {
    forall i | |parsed| <= i < |result|
      ensures result[i].short == Some(ShortFlag(left[i - |parsed|]))
    {
      if i == |parsed| {
        assert result[i] == (parsed + [x])[i];
      } else {
        assert left[1..][i - (|parsed| + 1)] == left[i - |parsed|];
      }
    }
  }

  /** A short option that takes an argument ends the cluster: it is the last option the loop adds. */
  lemma ShortsArgumentStep(left: string, toks: seq<string>, reg: seq<Option>, argv: bool, parsed: seq<Option>)
    requires left != "" && |ExactShort(reg, ShortFlag(left[0]))| == 1
    requires ExactShort(reg, ShortFlag(left[0]))[0].argcount != 0
    requires ShortsLoop(left, toks, reg, argv, parsed).Ok?
    ensures var c := ExactShort(reg, ShortFlag(left[0]))[0];
            var o := Option(Some(ShortFlag(left[0])), c.long, c.argcount, c.value);
            var v := if left[1..] == "" then Head(toks) else Some(left[1..]);
            ShortsLoop(left, toks, reg, argv, parsed).value.result == parsed + [Bind(o, argv, v)]
  {
    var c := ExactShort(reg, ShortFlag(left[0]))[0];
    var o := Option(Some(ShortFlag(left[0])), c.long, c.argcount, c.value);
    if left[1..] == "" {
      assert ShortsLoop(left, toks, reg, argv, parsed)
          == ShortsLoop("", Tail(toks), reg, argv, parsed + [Bind(o, argv, Head(toks))]);
    } else {
      assert ShortsLoop(left, toks, reg, argv, parsed)
          == ShortsLoop("", toks, reg, argv, parsed + [Bind(o, argv, Some(left[1..]))]);
    }
  }

  /** Characters are consumed left to right, one option per consumed character, named after it. */
  lemma {:induction false} ShortsOnePerChar(left: string, toks: seq<string>, reg: seq<Option>, argv: bool,
                                            parsed: seq<Option>)
    ensures var r := ShortsLoop(left, toks, reg, argv, parsed);
            r.Ok? ==> OnePerChar(left, parsed, r.value.result)
    decreases |left|
  {
    var r := ShortsLoop(left, toks, reg, argv, parsed);
    if left != "" && r.Ok? {
      var flag := ShortFlag(left[0]);
      var similar := ExactShort(reg, flag);
      if |similar| < 1 {
        var o := NewOption(Some(flag), Null, 0);
        var bound := if argv then Option(Some(flag), Null, 0, BoolValue(true)) else o;
        ShortsOnePerChar(left[1..], toks, reg + [o], argv, parsed + [bound]);
        OnePerCharCons(left, parsed, bound, r.value.result);
      } else {
        var c := similar[0];
        var o := Option(Some(flag), c.long, c.argcount, c.value);
        if c.argcount == 0 {
          ShortsOnePerChar(left[1..], toks, reg, argv, parsed + [Bind(o, argv, Null)]);
          OnePerCharCons(left, parsed, Bind(o, argv, Null), r.value.result);
        } else {
          var v := if left[1..] == "" then Head(toks) else Some(left[1..]);
          ShortsArgumentStep(left, toks, reg, argv, parsed);
          OnePerCharCons(left, parsed, Bind(o, argv, v), r.value.result);
        }
      }
    }
  }

  /** A cluster of flags that take no argument yields exactly one option per character and consumes no other token. */
  lemma {:induction false} ShortsFlagsOnly(left: string, toks: seq<string>, reg: seq<Option>, argv: bool,
                                           parsed: seq<Option>)
    ensures var r := ShortsLoop(left, toks, reg, argv, parsed);
            r.Ok? && (forall i :: |parsed| <= i < |r.value.result| ==> r.value.result[i].argcount == 0) ==>
              |r.value.result| == |parsed| + |left| && r.value.rest == toks
    decreases |left|
  {
    if left != "" {
      var flag := ShortFlag(left[0]);
      var similar := ExactShort(reg, flag);
      if |similar| < 1 {
        var o := NewOption(Some(flag), Null, 0);
        var bound := if argv then Option(Some(flag), Null, 0, BoolValue(true)) else o;
        ShortsFlagsOnly(left[1..], toks, reg + [o], argv, parsed + [bound]);
      } else if |similar| == 1 {
        var c := similar[0];
        var o := Option(Some(flag), c.long, c.argcount, c.value);
        if c.argcount == 0 {
          ShortsFlagsOnly(left[1..], toks, reg, argv, parsed + [Bind(o, argv, Null)]);
        } else {
          var v := if left[1..] == "" then Head(toks) else Some(left[1..]);
          var r := ShortsLoop(left, toks, reg, argv, parsed);
          if r.Ok? {
            ShortsArgumentStep(left, toks, reg, argv, parsed);
            assert r.value.result[|parsed|] == Bind(o, argv, v);
          }
        }
      }
    }
  }

  /**
   * A known flag without an argument, anywhere in a cluster: one option for
   * its character, and the loop goes on with the next character.
   */
  lemma ShortsFlagStep(left: string, toks: seq<string>, reg: seq<Option>, argv: bool, parsed: seq<Option>,
                       c: Option)
    requires left != "" && ExactShort(reg, ShortFlag(left[0])) == [c] && c.argcount == 0
    ensures var o := Option(Some(ShortFlag(left[0])), c.long, c.argcount, c.value);
            ShortsLoop(left, toks, reg, argv, parsed)
              == ShortsLoop(left[1..], toks, reg, argv, parsed + [Bind(o, argv, Null)])
  {
  }

  /**
   * An unknown character, anywhere in a cluster: it is registered as a new
   * flag, yields one option, and the loop goes on with the next character.
   */
  lemma ShortsNewFlagStep(left: string, toks: seq<string>, reg: seq<Option>, argv: bool, parsed: seq<Option>)
    requires left != "" && ExactShort(reg, ShortFlag(left[0])) == []
    ensures var flag := ShortFlag(left[0]);
            var o := NewOption(Some(flag), Null, 0);
            var bound := if argv then Option(Some(flag), Null, 0, BoolValue(true)) else o;
            ShortsLoop(left, toks, reg, argv, parsed)
              == ShortsLoop(left[1..], toks, reg + [o], argv, parsed + [bound])
  {
  }

  /**
   * An option taking an argument that is not last in its cluster, at any
   * position, takes the rest of the cluster as its value and ends the cluster.
   */
  lemma ShortsTakeRestOfCluster(left: string, toks: seq<string>, reg: seq<Option>, argv: bool,
                                parsed: seq<Option>, c: Option)
    requires |left| > 1 && ExactShort(reg, ShortFlag(left[0])) == [c] && c.argcount != 0
    ensures var o := Option(Some(ShortFlag(left[0])), c.long, c.argcount, c.value);
            ShortsLoop(left, toks, reg, argv, parsed)
              == Ok(Parsed(parsed + [Bind(o, argv, Some(left[1..]))], toks, reg))
  {
    var o := Option(Some(ShortFlag(left[0])), c.long, c.argcount, c.value);
    assert ShortsLoop(left, toks, reg, argv, parsed)
        == ShortsLoop("", toks, reg, argv, parsed + [Bind(o, argv, Some(left[1..]))]);
  }

  /**
   * An option taking an argument that ends its cluster, at any position,
   * takes the next token, unless there is none or it is `--`.
   */
  lemma ShortsTakeNextToken(left: string, toks: seq<string>, reg: seq<Option>, argv: bool,
                            parsed: seq<Option>, c: Option)
    requires |left| == 1 && ExactShort(reg, ShortFlag(left[0])) == [c] && c.argcount != 0
    ensures var flag := ShortFlag(left[0]);
            var o := Option(Some(flag), c.long, c.argcount, c.value);
            var r := ShortsLoop(left, toks, reg, argv, parsed);
            (toks == [] || toks[0] == "--" ==> r == Err(TokenError(argv, RequiresArgument(Some(flag)))))
            && (toks != [] && toks[0] != "--" ==>
                  r == Ok(Parsed(parsed + [Bind(o, argv, Some(toks[0]))], toks[1..], reg)))
  {
    var o := Option(Some(ShortFlag(left[0])), c.long, c.argcount, c.value);
    assert left[1..] == "";
    if toks != [] && toks[0] != "--" {
      assert Head(toks) == Some(toks[0]) && Tail(toks) == toks[1..];
      assert ShortsLoop(left, toks, reg, argv, parsed)
          == ShortsLoop("", toks[1..], reg, argv, parsed + [Bind(o, argv, Some(toks[0]))]);
    }
  }

  /** A short flag registered more than once, at any position of a cluster, is an error that says how often. */
  lemma ShortsAmbiguous(left: string, toks: seq<string>, reg: seq<Option>, argv: bool, parsed: seq<Option>)
    requires left != "" && |ExactShort(reg, ShortFlag(left[0]))| > 1
    ensures var flag := ShortFlag(left[0]);
            ShortsLoop(left, toks, reg, argv, parsed)
              == Err(TokenError(argv, SpecifiedAmbiguously(flag, |ExactShort(reg, flag)|)))
  {
  }

  /** A registry holding a flag `-v` and an option `-o` that takes an argument, and no other short forms. */
  predicate VoRegistry(reg: seq<Option>, v: Option, o: Option)
  {
    ExactShort(reg, "-v") == [v] && v.argcount == 0 && v.short == Some("-v")
    && ExactShort(reg, "-o") == [o] && o.argcount == 1 && o.short == Some("-o")
  }

  /** The first step of the cluster examples: `-v` yields its option and the loop goes on after it. */
  lemma VoFirstStep(l: string, rest: string, toks: seq<string>, reg: seq<Option>, v: Option, o: Option)
    requires VoRegistry(reg, v, o)
    requires l != [] && ShortFlag(l[0]) == "-v" && l[1..] == rest
    ensures ShortsLoop(l, toks, reg, true, [])
         == ShortsLoop(rest, toks, reg, true, [v.(value := BoolValue(true))])
  {
    ShortsFlagStep(l, toks, reg, true, [], v);
    var b := Option(Some(ShortFlag(l[0])), v.long, v.argcount, v.value);
    assert b == v;
    assert [] + [Bind(b, true, Null)] == [v.(value := BoolValue(true))];
  }

  /** The second step of `-vofile`: `-o` takes the rest of the cluster, `file`. */
  lemma OfileStep(toks: seq<string>, reg: seq<Option>, v: Option, o: Option)
    requires VoRegistry(reg, v, o)
    ensures ShortsLoop("ofile", toks, reg, true, [v.(value := BoolValue(true))])
         == Ok(Parsed([v.(value := BoolValue(true)), o.(value := StrValue("file"))], toks, reg))
  {
    var l := "ofile";
    assert l[0] == 'o' && l[1..] == "file";
    assert ShortFlag(l[0]) == "-o";
    ShortsTakeRestOfCluster(l, toks, reg, true, [v.(value := BoolValue(true))], o);
    var b := Option(Some(ShortFlag(l[0])), o.long, o.argcount, o.value);
    assert b == o;
    assert [v.(value := BoolValue(true))] + [Bind(b, true, Some(l[1..]))]
        == [v.(value := BoolValue(true)), o.(value := StrValue("file"))];
  }

  /** `-vofile`: after the flag `-v`, the option `-o` takes the rest of the cluster. */
  lemma ClusterAfterFlag(toks: seq<string>, reg: seq<Option>, v: Option, o: Option)
    requires VoRegistry(reg, v, o)
    ensures ParseShortsF(["-vofile"] + toks, reg, true)
         == Ok(Parsed([v.(value := BoolValue(true)), o.(value := StrValue("file"))], toks, reg))
  {
    var t := ["-vofile"] + toks;
    assert StripDashes(t[0]) == "vofile" by { assert t[0] == "-vofile" && "-vofile"[1..] == "vofile"; }
    assert t[1..] == toks;
    assert "vofile"[1..] == "ofile" && ShortFlag("vofile"[0]) == "-v";
    VoFirstStep("vofile", "ofile", toks, reg, v, o);
    OfileStep(toks, reg, v, o);
    assert ParseShortsF(t, reg, true) == ShortsLoop("vofile", toks, reg, true, []);
  }

  /** `-vo` with nothing after it: after the flag `-v`, the option `-o` requires an argument. */
  lemma MissingArgumentAfterFlag(reg: seq<Option>, v: Option, o: Option)
    requires VoRegistry(reg, v, o)
    ensures ParseShortsF(["-vo"], reg, true) == Err(TokenError(true, RequiresArgument(Some("-o"))))
  {
    assert StripDashes("-vo") == "vo" by { assert "-vo"[1..] == "vo"; }
    assert ["-vo"][1..] == [];
    var l := "o";
    assert "vo"[1..] == l && ShortFlag("vo"[0]) == "-v";
    VoFirstStep("vo", l, [], reg, v, o);
    assert ShortFlag(l[0]) == "-o";
    ShortsTakeNextToken(l, [], reg, true, [v.(value := BoolValue(true))], o);
  }

  /** Every option of `result` past `parsed` carries a bound value. */
  ghost predicate OptionsBound(parsed: seq<Option>, result: seq<Option>)
  {
    forall i :: |parsed| <= i < |result| ==> BoundValue(result[i])
  }

  lemma OptionsBoundCons(parsed: seq<Option>, x: Option, result: seq<Option>)
    requires BoundValue(x) && parsed + [x] <= result && OptionsBound(parsed + [x], result)
    ensures OptionsBound(parsed, result)
  {
    assert result[|parsed|] == (parsed + [x])[|parsed|];
  }

  /** In argv mode every option the cluster yields carries a bound value. */
  lemma {:induction false} ShortsArgvBound(left: string, toks: seq<string>, reg: seq<Option>, parsed: seq<Option>)
    ensures var r := ShortsLoop(left, toks, reg, true, parsed);
            r.Ok? ==> OptionsBound(parsed, r.value.result)
    decreases |left|
  {
    var r := ShortsLoop(left, toks, reg, true, parsed);
    if left != "" && r.Ok? {
      var flag := ShortFlag(left[0]);
      var similar := ExactShort(reg, flag);
      if |similar| < 1 {
        var o := NewOption(Some(flag), Null, 0);
        var bound := Option(Some(flag), Null, 0, BoolValue(true));
        ShortsArgvBound(left[1..], toks, reg + [o], parsed + [bound]);
        OptionsBoundCons(parsed, bound, r.value.result);
      } else {
        var c := similar[0];
        var o := Option(Some(flag), c.long, c.argcount, c.value);
        if c.argcount == 0 {
          ShortsArgvBound(left[1..], toks, reg, parsed + [Bind(o, true, Null)]);
          OptionsBoundCons(parsed, Bind(o, true, Null), r.value.result);
        } else {
          var v := if left[1..] == "" then Head(toks) else Some(left[1..]);
          ShortsArgumentStep(left, toks, reg, true, parsed);
          OptionsBoundCons(parsed, Bind(o, true, v), r.value.result);
        }
      }
    }
  }

  /** In grammar mode every option the cluster yields is an entry of the registry, default value included. */
  lemma {:induction false} ShortsGrammarRegistered(left: string, toks: seq<string>, reg: seq<Option>,
                                                   parsed: seq<Option>)
    requires forall o :: o in parsed ==> o in reg
    ensures var r := ShortsLoop(left, toks, reg, false, parsed);
            r.Ok? ==> forall o :: o in r.value.result ==> o in r.value.reg
    decreases |left|
  {
    if left != "" {
      var flag := ShortFlag(left[0]);
      var similar := ExactShort(reg, flag);
      if |similar| < 1 {
        var o := NewOption(Some(flag), Null, 0);
        ShortsGrammarRegistered(left[1..], toks, reg + [o], parsed + [o]);
      } else if |similar| == 1 {
        var c := similar[0];
        assert c in ExactShort(reg, flag);
        var o := Option(Some(flag), c.long, c.argcount, c.value);
        assert o == c;
        if c.argcount != 0 {
          if left[1..] == "" {
            ShortsGrammarRegistered("", Tail(toks), reg, parsed + [o]);
          } else {
            ShortsGrammarRegistered("", toks, reg, parsed + [o]);
          }
        } else {
          ShortsGrammarRegistered(left[1..], toks, reg, parsed + [o]);
        }
      }
    }
  }

  // ---------------------------------------------------------------------
  // parseExpr / parseSeq / parseAtom / parsePattern
  // ---------------------------------------------------------------------

  /** The tokens an expression may stop at: the end, or a closing bracket. */
  predicate GroupEnd(t: Maybe<string>)
  {
    t == Null || t == Some(")") || t == Some("]")
  }

  /** A sequence keeps what it has collected and stops only at the end, `]`, `)` or `|`. */
  lemma {:induction false} SeqLoopStops(toks: seq<string>, reg: seq<Option>, argv: bool, acc: seq<Pattern>)
    ensures var r := SeqLoop(toks, reg, argv, acc);
            r.Ok? ==> SeqStop(Head(r.value.rest)) && acc <= r.value.result
    decreases |toks|
  {
    if !SeqStop(Head(toks)) {
      var a := ParseAtomF(toks, reg, argv);
      if a.Ok? {
        var p := a.value;
        if Head(p.rest) == Some("...") {
          SeqLoopStops(Tail(p.rest), p.reg, argv, acc + [OneOrMore(p.result)]);
        } else {
          SeqLoopStops(p.rest, p.reg, argv, acc + p.result);
        }
      }
    }
  }

  /** An atom followed by `...` is wrapped in one `OneOrMore`, and the `...` is consumed. */
  lemma SeqRepeatStep(toks: seq<string>, reg: seq<Option>, argv: bool, acc: seq<Pattern>)
    requires !SeqStop(Head(toks)) && ParseAtomF(toks, reg, argv).Ok?
    requires Head(ParseAtomF(toks, reg, argv).value.rest) == Some("...")
    ensures var a := ParseAtomF(toks, reg, argv).value;
            SeqLoop(toks, reg, argv, acc) == SeqLoop(Tail(a.rest), a.reg, argv, acc + [OneOrMore(a.result)])
  {
  }

  /** An atom not followed by `...` joins the sequence as it is. */
  lemma SeqAtomStep(toks: seq<string>, reg: seq<Option>, argv: bool, acc: seq<Pattern>)
    requires !SeqStop(Head(toks)) && ParseAtomF(toks, reg, argv).Ok?
    requires Head(ParseAtomF(toks, reg, argv).value.rest) != Some("...")
    ensures var a := ParseAtomF(toks, reg, argv).value;
            SeqLoop(toks, reg, argv, acc) == SeqLoop(a.rest, a.reg, argv, acc + a.result)
  {
  }

  /** An atom that fails ends the sequence with its error. */
  lemma SeqAtomError(toks: seq<string>, reg: seq<Option>, argv: bool, acc: seq<Pattern>)
    requires !SeqStop(Head(toks)) && ParseAtomF(toks, reg, argv).Err?
    ensures SeqLoop(toks, reg, argv, acc) == Err(ParseAtomF(toks, reg, argv).error)
  {
  }

  /** The alternatives loop stops at the end or at a closing bracket. */
  lemma {:induction false} ExprLoopStops(toks: seq<string>, reg: seq<Option>, argv: bool, acc: seq<Pattern>)
    requires SeqStop(Head(toks))
    ensures var r := ExprLoop(toks, reg, argv, acc);
            r.Ok? ==> GroupEnd(Head(r.value.rest))
    decreases |toks|
  {
    if Head(toks) != Some("|") {
      ExprLoopExit(toks, reg, argv, acc);
    } else {
      ExprBarStep(toks, reg, argv, acc);
      var s := ParseSeqF(toks[1..], reg, argv);
      if s.Ok? {
        SeqLoopStops(toks[1..], reg, argv, []);
        ExprLoopStops(s.value.rest, s.value.reg, argv, acc + Alternative(s.value.result));
      }
    }
  }

  /** An expression stops at the end or at a closing bracket. */
  lemma ExprStops(toks: seq<string>, reg: seq<Option>, argv: bool)
    ensures var r := ParseExprF(toks, reg, argv);
            r.Ok? ==> GroupEnd(Head(r.value.rest))
  {
    SeqLoopStops(toks, reg, argv, []);
    var s := ParseSeqF(toks, reg, argv);
    if s.Ok? && Head(s.value.rest) == Some("|") {
      ExprLoopStops(s.value.rest, s.value.reg, argv, Alternative(s.value.result));
    }
  }

  /** Tokens left over after the top-level expression raise "unexpected ending"; they start with a stray closer. */
  lemma PatternUnexpectedEnding(toks: seq<string>, reg: seq<Option>)
    requires ParseExprF(toks, reg, false).Ok? && ParseExprF(toks, reg, false).value.rest != []
    ensures var rest := ParseExprF(toks, reg, false).value.rest;
            ParsePatternF(toks, reg) == Err(TokenError(false, UnexpectedEnding(rest)))
            && (rest[0] == ")" || rest[0] == "]")
  {
    ExprStops(toks, reg, false);
  }

  /** With no `|` after the first sequence, the expression is that sequence unchanged. */
  lemma ExprWithoutBar(toks: seq<string>, reg: seq<Option>, argv: bool)
    requires ParseSeqF(toks, reg, argv).Ok? && Head(ParseSeqF(toks, reg, argv).value.rest) != Some("|")
    ensures ParseExprF(toks, reg, argv) == ParseSeqF(toks, reg, argv)
  {
  }

  /** The result of the alternatives loop: the alternatives themselves, or one `Either` of more than one. */
  predicate Alternated(acc: seq<Pattern>, result: seq<Pattern>)
  {
    (|result| <= 1 && acc <= result)
    || (|result| == 1 && result[0].Either? && acc <= result[0].children && |result[0].children| > 1)
  }

  /**
   * The alternatives loop keeps the alternatives so far as a prefix, and
   * wraps them in one `Either` exactly when there are more than one.
   */
  lemma {:induction false} ExprLoopShape(toks: seq<string>, reg: seq<Option>, argv: bool, acc: seq<Pattern>)
    ensures var r := ExprLoop(toks, reg, argv, acc);
            r.Ok? ==> Alternated(acc, r.value.result)
    decreases |toks|
  {
    if Head(toks) == Some("|") {
      var s := ParseSeqF(toks[1..], reg, argv);
      if s.Ok? {
        var acc' := acc + Alternative(s.value.result);
        assert ExprLoop(toks, reg, argv, acc) == ExprLoop(s.value.rest, s.value.reg, argv, acc');
        ExprLoopShape(s.value.rest, s.value.reg, argv, acc');
        AlternatedPrefix(acc, acc', ExprLoop(s.value.rest, s.value.reg, argv, acc'));
      }
    }
  }

  lemma AlternatedPrefix(acc: seq<Pattern>, acc': seq<Pattern>, r: Outcome<seq<Pattern>>)
    requires acc <= acc'
    requires r.Ok? ==> Alternated(acc', r.value.result)
    ensures r.Ok? ==> Alternated(acc, r.value.result)
  {
  }

  /** An alternative of more than one pattern becomes one `Required`; a shorter one is kept as it is. */
  lemma AlternativeShape(s: seq<Pattern>)
    ensures |s| > 1 <==> Alternative(s) == [Required(s)]
    ensures |s| <= 1 ==> Alternative(s) == s
  {
    if |s| == 1 {
      assert s[0] in s;
      assert s[0] != Required(s);
    }
  }

  /** With `|` after the first sequence, that sequence is the first alternative of the loop. */
  lemma ExprWithBar(toks: seq<string>, reg: seq<Option>, argv: bool)
    requires ParseSeqF(toks, reg, argv).Ok? && Head(ParseSeqF(toks, reg, argv).value.rest) == Some("|")
    ensures var s := ParseSeqF(toks, reg, argv).value;
            ParseExprF(toks, reg, argv) == ExprLoop(s.rest, s.reg, argv, Alternative(s.result))
  {
  }

  /** Each `|` consumes itself and the sequence after it, which is added as one more alternative. */
  lemma ExprBarStep(toks: seq<string>, reg: seq<Option>, argv: bool, acc: seq<Pattern>)
    requires Head(toks) == Some("|")
    ensures var s := ParseSeqF(toks[1..], reg, argv);
            (s.Ok? ==> ExprLoop(toks, reg, argv, acc) == ExprLoop(s.value.rest, s.value.reg, argv, acc + Alternative(s.value.result)))
            && (s.Err? ==> ExprLoop(toks, reg, argv, acc) == Err(s.error))
  {
  }

  /** Without a further `|`, the alternatives collected are the result, in one `Either` when there are several. */
  lemma ExprLoopExit(toks: seq<string>, reg: seq<Option>, argv: bool, acc: seq<Pattern>)
    requires Head(toks) != Some("|")
    ensures ExprLoop(toks, reg, argv, acc) == Ok(Parsed(if |acc| > 1 then [Either(acc)] else acc, toks, reg))
  {
  }

  /** A parenthesised or bracketed group, with its closer checked. */
  lemma AtomGroup(toks: seq<string>, reg: seq<Option>, argv: bool)
    requires toks != [] && (toks[0] == "(" || toks[0] == "[")
    requires ParseExprF(toks[1..], reg, argv).Ok?
    ensures var e := ParseExprF(toks[1..], reg, argv).value;
            var closer := if toks[0] == "(" then ")" else "]";
            var group := if toks[0] == "(" then Required(e.result) else Optional(e.result);
            ParseAtomF(toks, reg, argv)
              == if Head(e.rest) == Some(closer) then Ok(Parsed([group], Tail(e.rest), e.reg))
                 else Err(TokenError(argv, Unmatched(toks[0])))
  {
  }

  /** `options` is an empty shortcut. */
  lemma AtomOptions(toks: seq<string>, reg: seq<Option>, argv: bool)
    requires toks != [] && toks[0] == "options"
    ensures ParseAtomF(toks, reg, argv) == Ok(Parsed([OptionsShortcut([])], toks[1..], reg))
  {
  }

  /** `--x` is a long flag, but `--` is not. */
  lemma AtomLong(toks: seq<string>, reg: seq<Option>, argv: bool)
    requires toks != [] && StartsWith(toks[0], "--") && toks[0] != "--"
    ensures var l := ParseLongF(toks, reg, argv);
            ParseAtomF(toks, reg, argv) == if l.Ok? then Ok(Parsed(Refs(l.value.result), l.value.rest, l.value.reg))
                                           else Err(l.error)
  {
    var t := toks[0];
    assert t[0] == '-';
    assert t != "(" && t != "[" && t != "options";
  }

  /** `-x` is a short cluster, but `-` and `--` are not. */
  lemma AtomShort(toks: seq<string>, reg: seq<Option>, argv: bool)
    requires toks != [] && StartsWith(toks[0], "-") && !StartsWith(toks[0], "--") && toks[0] != "-"
    ensures var s := ParseShortsF(toks, reg, argv);
            ParseAtomF(toks, reg, argv) == if s.Ok? then Ok(Parsed(Refs(s.value.result), s.value.rest, s.value.reg))
                                           else Err(s.error)
  {
    var t := toks[0];
    assert t[0] == '-';
    assert StartsWith("--", "--");
    assert t != "(" && t != "[" && t != "options" && t != "--";
  }

  /** Any other token is an `Argument` when it is `<name>` or an upper-case word, a `Command` otherwise. */
  lemma AtomLeaf(toks: seq<string>, reg: seq<Option>, argv: bool)
    requires toks != [] && toks[0] !in ["(", "[", "options"]
    requires !StartsWith(toks[0], "-") || toks[0] == "-" || toks[0] == "--"
    ensures ParseAtomF(toks, reg, argv)
              == if IsArgumentToken(toks[0]) then Ok(Parsed([Argument(Some(toks[0]), NullValue)], toks[1..], reg))
                 else Ok(Parsed([Command(Some(toks[0]), BoolValue(false))], toks[1..], reg))
  {
    var t := toks[0];
    assert t != "(" && t != "[" && t != "options";
    assert StartsWith(t, "--") ==> t[..1] == t[..2][..1];
  }

  /**
   * A lone `-` or `--` is neither a long option nor a cluster of short ones:
   * it is a command named by itself.
   */
  lemma AtomDashes(toks: seq<string>, reg: seq<Option>, argv: bool)
    requires toks != [] && (toks[0] == "-" || toks[0] == "--")
    ensures ParseAtomF(toks, reg, argv) == Ok(Parsed([Command(Some(toks[0]), BoolValue(false))], toks[1..], reg))
  {
    DashesAreWords(toks[0]);
    AtomLeaf(toks, reg, argv);
  }

  lemma DashesAreWords(t: string)
    requires t == "-" || t == "--"
    ensures t !in ["(", "[", "options"] && !IsArgumentToken(t)
  {
    assert t[0] == '-';
    assert !StartsWith(t, "<");
    assert forall i :: 0 <= i < |t| ==> t[i] == '-';
    assert !UpperWord(t);
  }

  /** `<input>`, `FILE` and `X-1` are arguments. */
  lemma ArgumentTokenExamples()
    ensures IsArgumentToken("<input>") && IsArgumentToken("FILE") && IsArgumentToken("X-1")
  {
    assert StartsWith("<input>", "<") by { assert "<input>"[..1] == "<"; }
    assert EndsWith("<input>", ">") by { assert "<input>"[6..] == ">"; }
    assert UpperWord("FILE") by { assert IsLetter("FILE"[0]); }
    assert UpperWord("X-1") by { assert IsLetter("X-1"[0]); }
  }

  /** `run`, `Run` and `-` are commands. */
  lemma CommandTokenExamples()
    ensures !IsArgumentToken("run") && !IsArgumentToken("Run") && !IsArgumentToken("-")
  {
    assert !StartsWith("run", "<") by { assert "run"[0] == 'r'; }
    assert !StartsWith("Run", "<") by { assert "Run"[0] == 'R'; }
    assert !StartsWith("-", "<") by { assert "-"[0] == '-'; }
    assert !UpperWord("run") by { assert IsLetter("run"[0]) && !IsUpperCase("run"[0]); }
    assert !UpperWord("Run") by { assert IsLetter("Run"[1]) && !IsUpperCase("Run"[1]); }
    assert !UpperWord("-") by { assert !IsLetter("-"[0]); }
  }

  // ---------------------------------------------------------------------
  // parseArgv
  // ---------------------------------------------------------------------

  lemma ArgumentsConcat(a: seq<string>, b: seq<string>)
    ensures Arguments(a + b) == Arguments(a) + Arguments(b)
  {
    var l, r := Arguments(a + b), Arguments(a) + Arguments(b);
    assert |l| == |r|;
    forall i | 0 <= i < |l| ensures l[i] == r[i] {
      if i < |a| {
        assert (a + b)[i] == a[i];
      } else {
        assert (a + b)[i] == b[i - |a|];
      }
    }
  }

  /** A positional token outside options-first mode becomes one argument and parsing goes on. */
  lemma ArgvPositionalStep(toks: seq<string>, reg: seq<Option>, argv: bool, parsed: seq<Leaf>)
    requires toks != [] && Positional(toks[0])
    ensures ArgvLoop(toks, reg, argv, false, parsed)
         == ArgvLoop(toks[1..], reg, argv, false, parsed + [Argument(Null, StrValue(toks[0]))])
  {
    var t := toks[0];
    assert |t| >= 2 ==> t[..1] == [t[0]] && t[..2] == [t[0], t[1]];
    assert t != "--" && !StartsWith(t, "--");
  }

  /** At the end, or at `--`, parsing stops with every remaining token as an argument. */
  lemma ArgvAtEnd(rest: seq<string>, reg: seq<Option>, argv: bool, parsed: seq<Leaf>)
    requires rest == [] || rest[0] == "--"
    ensures ArgvLoop(rest, reg, argv, false, parsed) == Ok(Parsed(parsed + Arguments(rest), rest, reg))
  {
    if rest == [] {
      assert parsed + Arguments([]) == parsed;
    }
  }

  /** One more positional token in front adds one argument in front of what the rest yields. */
  lemma ArgvPositionalCons(toks: seq<string>, rest: seq<string>, reg: seq<Option>, argv: bool, parsed: seq<Leaf>)
    requires toks != [] && Positional(toks[0])
    requires var a: Leaf := Argument(Null, StrValue(toks[0]));
             ArgvLoop(toks[1..], reg, argv, false, parsed + [a])
               == Ok(Parsed(parsed + [a] + Arguments(toks[1..]), rest, reg))
    ensures ArgvLoop(toks, reg, argv, false, parsed) == Ok(Parsed(parsed + Arguments(toks), rest, reg))
  {
    var a: Leaf := Argument(Null, StrValue(toks[0]));
    ArgvPositionalStep(toks, reg, argv, parsed);
    assert Arguments(toks) == [a] + Arguments(toks[1..]);
    assert parsed + [a] + Arguments(toks[1..]) == parsed + Arguments(toks);
  }

  /**
   * Positional tokens (a lone `-` among them), up to the end or to `--`,
   * become arguments in input order; from `--` on every token is an argument
   * verbatim, `--` itself included.
   */
  lemma {:induction false} ArgvPositionals(ps: seq<string>, rest: seq<string>, reg: seq<Option>, argv: bool,
                                           parsed: seq<Leaf>)
    requires forall i :: 0 <= i < |ps| ==> Positional(ps[i])
    requires rest == [] || rest[0] == "--"
    ensures ArgvLoop(ps + rest, reg, argv, false, parsed) == Ok(Parsed(parsed + Arguments(ps + rest), rest, reg))
    decreases |ps|
  {
    if ps == [] {
      assert ps + rest == rest;
      ArgvAtEnd(rest, reg, argv, parsed);
    } else {
      var toks := ps + rest;
      assert toks[0] == ps[0] && toks[1..] == ps[1..] + rest;
      assert forall i :: 0 <= i < |ps[1..]| ==> ps[1..][i] == ps[i + 1];
      ArgvPositionals(ps[1..], rest, reg, argv, parsed + [Argument(Null, StrValue(ps[0]))]);
      ArgvPositionalCons(toks, rest, reg, argv, parsed);
    }
  }

  /** In options-first mode the first positional token and everything after it are arguments. */
  lemma ArgvOptionsFirst(toks: seq<string>, reg: seq<Option>, argv: bool, parsed: seq<Leaf>)
    requires toks != [] && Positional(toks[0])
    ensures ArgvLoop(toks, reg, argv, true, parsed) == Ok(Parsed(parsed + Arguments(toks), toks, reg))
  {
    var t := toks[0];
    assert |t| >= 2 ==> t[..1] == [t[0]] && t[..2] == [t[0], t[1]];
    assert t != "--" && !StartsWith(toks[0], "--");
  }

  /** Every option leaf of `result` past `parsed` carries a bound value. */
  ghost predicate LeavesBound(parsed: seq<Leaf>, result: seq<Leaf>)
  {
    forall i :: |parsed| <= i < |result| && result[i].OptionRef? ==> BoundValue(result[i].option)
  }

  lemma LeavesBoundStep(parsed: seq<Leaf>, added: seq<Leaf>, result: seq<Leaf>)
    requires parsed + added <= result && LeavesBound(parsed + added, result)
    requires LeavesBound([], added)
    ensures LeavesBound(parsed, result)
  {
    forall i | |parsed| <= i < |parsed| + |added|
      ensures result[i] == added[i - |parsed|]
    {
      assert result[i] == (parsed + added)[i];
    }
  }

  lemma RefsBound(os: seq<Option>)
    requires forall i :: 0 <= i < |os| ==> BoundValue(os[i])
    ensures LeavesBound([], Refs(os))
  {
  }

  /** In argv mode every option leaf parseArgv yields carries a bound value. */
  lemma {:induction false} ArgvValuesBound(toks: seq<string>, reg: seq<Option>, optionsFirst: bool, parsed: seq<Leaf>)
    ensures var r := ArgvLoop(toks, reg, true, optionsFirst, parsed);
            r.Ok? ==> LeavesBound(parsed, r.value.result)
    decreases |toks|
  {
    var r := ArgvLoop(toks, reg, true, optionsFirst, parsed);
    if toks != [] && toks[0] != "--" && r.Ok? {
      var os: Outcome<seq<Option>>;
      if StartsWith(toks[0], "--") {
        os := ParseLongF(toks, reg, true);
        LongArgvBound(toks, reg);
      } else if StartsWith(toks[0], "-") && toks[0] != "-" {
        os := ParseShortsF(toks, reg, true);
        ShortsArgvBound(StripDashes(toks[0]), toks[1..], reg, []);
      } else {
        if !optionsFirst {
          var a: Leaf := Argument(Null, StrValue(toks[0]));
          ArgvValuesBound(toks[1..], reg, optionsFirst, parsed + [a]);
          LeavesBoundStep(parsed, [a], r.value.result);
        }
        return;
      }
      var p := os.value;
      assert r == ArgvLoop(p.rest, p.reg, true, optionsFirst, parsed + Refs(p.result));
      ArgvValuesBound(p.rest, p.reg, optionsFirst, parsed + Refs(p.result));
      RefsBound(p.result);
      LeavesBoundStep(parsed, Refs(p.result), r.value.result);
    }
  }

  // ---------------------------------------------------------------------
  // formalUsage
  // ---------------------------------------------------------------------

  /** Two ways of cutting a string at a colon agree when neither first part holds a colon. */
  lemma FirstColon(x: string, y: string, x': string, y': string)
    requires ':' !in x && !Occurs(x', ":") && x + ":" + y == x' + ":" + y'
    ensures x == x' && y == y'
  {
    var s := x + ":" + y;
    if |x| < |x'| {
      assert x'[|x|] == s[|x|];
      assert OccursAt(x', ":", |x|);
    }
    assert s[|x'|] == ':';
    assert x == s[..|x|] == x';
    assert y == s[|x| + 1..] == y';
  }

  /** Everything up to and including the first `:` is discarded. */
  lemma FormalUsageDropsPrefix(pre: string, post: string)
    requires ':' !in pre
    ensures FormalUsageF(pre + ":" + post) == Alternatives(post)
  {
    var s := pre + ":" + post;
    assert OccursAt(s, ":", |pre|) by { assert s[|pre|..|pre| + 1] == ":"; }
    var a := Partition(s, ":");
    assert s == a[0] + ":" + a[2];
    FirstColon(pre, post, a[0], a[2]);
  }

  /** No word of `ws` contains a blank. */
  predicate Blankless(ws: seq<string>)
  {
    forall w :: w in ws ==> ' ' !in w
  }

  lemma MultisetCons<T>(x: T, s: seq<T>, y: T)
    ensures multiset([x] + s)[y] == (if x == y then 1 else 0) + multiset(s)[y]
  {
    assert multiset([x] + s) == multiset([x]) + multiset(s);
  }

  /** The separators `) | (` are exactly the later occurrences of the program name. */
  lemma {:induction false} SeparatorCount(name: string, ws: seq<string>)
    requires Blankless(ws)
    ensures multiset(UsageWords(name, ws))[") | ("] == multiset(ws)[name]
    decreases |ws|
  {
    if ws != [] {
      var u := UsageWord(name, ws[0]);
      var later := UsageWords(name, ws[1..]);
      assert Blankless(ws[1..]) by {
        forall w | w in ws[1..] ensures ' ' !in w {
          assert w in ws;
        }
      }
      SeparatorCount(name, ws[1..]);
      assert UsageWords(name, ws) == [u] + later;
      assert ws == [ws[0]] + ws[1..];
      MultisetCons(u, later, ") | (");
      MultisetCons(ws[0], ws[1..], name);
      assert ' ' !in ws[0] by { assert ws[0] in ws; }
      assert ") | ("[1] == ' ';
    }
  }

  /** The words of a usage text contain no blank. */
  lemma SplitBlankless(text: string)
    ensures Blankless(Split(text))
  {
    var pu := Split(text);
    if Trim(text) != "" {
      forall w | w in pu ensures ' ' !in w {
      }
    }
  }

  /** The formal usage has one `) | (` per later occurrence of the program name, `Count` of it among the words. */
  lemma FormalUsageSeparators(section: string)
    ensures var pu := Split(Partition(section, ":")[2]);
            multiset(UsageWords(pu[0], pu[1..]))[") | ("] == multiset(pu[1..])[pu[0]]
  {
    var pu := Split(Partition(section, ":")[2]);
    SplitBlankless(Partition(section, ":")[2]);
    assert Blankless(pu[1..]) by {
      forall w | w in pu[1..] ensures ' ' !in w {
        assert w in pu;
      }
    }
    SeparatorCount(pu[0], pu[1..]);
  }

  // ---------------------------------------------------------------------
  // The result map of doParse
  // ---------------------------------------------------------------------

  /** A leaf no later leaf shares a name with gives its name its value. */
  lemma {:induction false} BindingsLastWins(ls: seq<Leaf>, i: nat)
    requires i < |ls|
    requires forall j :: i < j < |ls| ==> LeafName(ls[j]) != LeafName(ls[i])
    ensures LeafName(ls[i]) in Bindings(ls) && Bindings(ls)[LeafName(ls[i])] == LeafValue(ls[i])
    decreases |ls|
  {
    if i < |ls| - 1 {
      var init := ls[..|ls| - 1];
      assert init[i] == ls[i];
      BindingsLastWins(init, i);
    }
  }

  /** A name bound by a later list takes its value from there; any other keeps its earlier value. */
  lemma {:induction false} BindingsOverride(a: seq<Leaf>, b: seq<Leaf>, k: Maybe<string>)
    requires k in Bindings(a + b)
    ensures k in Bindings(b) ==> Bindings(a + b)[k] == Bindings(b)[k]
    ensures k !in Bindings(b) ==> k in Bindings(a) && Bindings(a + b)[k] == Bindings(a)[k]
    decreases |b|
  {
    if b == [] {
      assert a + b == a;
    } else {
      var last := b[|b| - 1];
      assert (a + b)[..|a + b| - 1] == a + b[..|b| - 1];
      assert (a + b)[|a + b| - 1] == last;
      if k != LeafName(last) {
        BindingsOverride(a, b[..|b| - 1], k);
      }
    }
  }

  // ---------------------------------------------------------------------
  // Expansion of [options] shortcuts
  // ---------------------------------------------------------------------

  /** No element occurs twice. */
  predicate Distinct(s: seq<Pattern>)
  {
    forall i, j :: 0 <= i < j < |s| ==> s[i] != s[j]
  }

  lemma {:induction false} WithoutDistinct(s: seq<Pattern>, removed: seq<Pattern>)
    requires Distinct(s)
    ensures Distinct(Without(s, removed))
    decreases |s|
  {
    if s != [] {
      var init := s[..|s| - 1];
      WithoutDistinct(init, removed);
      var w := Without(init, removed);
      var last := s[|s| - 1];
      assert forall k :: 0 <= k < |init| ==> init[k] == s[k];
      assert last !in init;
      assert last !in w;
      var r := Without(s, removed);
      assert r == if last in removed then w else w + [last];
      forall i, j | 0 <= i < j < |r| ensures r[i] != r[j] {
        if j == |w| {
          assert r[i] == w[i] && r[j] == last;
          assert w[i] in w;
        } else {
          assert r[i] == w[i] && r[j] == w[j];
        }
      }
    }
  }

  /** A shortcut's children: each registry option not in the pattern, each once. */
  lemma ShortcutChildrenSpec(options: seq<Option>, patternOptions: seq<Pattern>)
    ensures var cs := ShortcutChildrenF(options, patternOptions);
            (forall x :: x in cs <==> (exists i :: 0 <= i < |options| && x == OptionRef(options[i])) && x !in patternOptions)
            && Distinct(cs)
  {
    var refs := Refs(options);
    forall x ensures x in refs <==> exists i :: 0 <= i < |options| && x == OptionRef(options[i]) {
      if x in refs {
        var k :| 0 <= k < |refs| && refs[k] == x;
        assert x == OptionRef(options[k]);
      }
      if exists i :: 0 <= i < |options| && x == OptionRef(options[i]) {
        var k :| 0 <= k < |options| && x == OptionRef(options[k]);
        assert refs[k] == x;
      }
    }
    WithoutDistinct(Unique(refs), patternOptions);
    assert ShortcutChildrenF(options, patternOptions) == Without(Unique(refs), patternOptions);
  }

  /** Every shortcut `flat(OptionsShortcut)` reaches after an expansion holds the new children. */
  lemma {:induction false} ExpandReachesShortcuts(p: Pattern, cs: seq<Pattern>)
    ensures forall q :: q in Flat(Expand(p, cs), {OptionsShortcutKind}) ==> q == OptionsShortcut(cs)
    decreases p
  {
    if !p.IsLeaf() && !p.OptionsShortcut? {
      ExpandAllReachesShortcuts(p.children, cs);
    }
  }

  lemma {:induction false} ExpandAllReachesShortcuts(ps: seq<Pattern>, cs: seq<Pattern>)
    ensures forall q :: q in FlatAll(ExpandAll(ps, cs), {OptionsShortcutKind}) ==> q == OptionsShortcut(cs)
    decreases ps
  {
    if ps != [] {
      ExpandReachesShortcuts(ps[0], cs);
      ExpandAllReachesShortcuts(ps[1..], cs);
      assert ExpandAll(ps, cs)[1..] == ExpandAll(ps[1..], cs);
    }
  }

  /** A second expansion overrides the first. */
  lemma {:induction false} ExpandTwice(p: Pattern, c: seq<Pattern>, d: seq<Pattern>)
    ensures Expand(Expand(p, c), d) == Expand(p, d)
    decreases p
  {
    if !p.IsLeaf() && !p.OptionsShortcut? {
      ExpandAllTwice(p.children, c, d);
    }
  }

  lemma {:induction false} ExpandAllTwice(ps: seq<Pattern>, c: seq<Pattern>, d: seq<Pattern>)
    ensures ExpandAll(ExpandAll(ps, c), d) == ExpandAll(ps, d)
    decreases ps
  {
    if ps != [] {
      ExpandTwice(ps[0], c, d);
      ExpandAllTwice(ps[1..], c, d);
      assert ExpandAll(ps, c)[1..] == ExpandAll(ps[1..], c);
    }
  }

  /** Expanding the shortcuts again changes nothing: a second `parse` sees the same `[options]`. */
  lemma ExpandShortcutsIdempotent(p: Pattern, options: seq<Option>)
    ensures ExpandShortcuts(ExpandShortcuts(p, options), options) == ExpandShortcuts(p, options)
  {
    var cs := ShortcutChildrenF(options, Flat(Expand(p, []), {OptionKind}));
    ExpandTwice(p, cs, []);
    ExpandTwice(p, cs, cs);
  }

  /** A lone `[options]` shortcut filled from a registry of one option. */
  lemma FirstExpansion(o: Option)
    ensures ExpandAsWritten(Required([OptionsShortcut([])]), [o]) == Required([OptionsShortcut([OptionRef(o)])])
    ensures ExpandShortcuts(Required([OptionsShortcut([])]), [o]) == Required([OptionsShortcut([OptionRef(o)])])
  {
    var p := Required([OptionsShortcut([])]);
    assert Refs([o]) == [OptionRef(o)];
    assert Unique([OptionRef(o)]) == [OptionRef(o)];
    assert FlatAll([OptionsShortcut([])], {OptionKind}) == [];
    assert Flat(p, {OptionKind}) == [];
    assert Expand(p, []) == p by { assert ExpandAll([OptionsShortcut([])], []) == [OptionsShortcut([])]; }
    assert ShortcutChildrenF([o], []) == [OptionRef(o)];
    assert ExpandAll([OptionsShortcut([])], [OptionRef(o)]) == [OptionsShortcut([OptionRef(o)])];
  }

  /** Docopt.java's expansion of an already expanded shortcut: its own children count as pattern options. */
  lemma SecondExpansionAsWritten(o: Option)
    ensures ExpandAsWritten(Required([OptionsShortcut([OptionRef(o)])]), [o]) == Required([OptionsShortcut([])])
  {
    var once := Required([OptionsShortcut([OptionRef(o)])]);
    assert Refs([o]) == [OptionRef(o)];
    assert Unique([OptionRef(o)]) == [OptionRef(o)];
    assert FlatAll([OptionRef(o)], {OptionKind}) == [OptionRef(o)];
    assert FlatAll([OptionsShortcut([OptionRef(o)])], {OptionKind}) == [OptionRef(o)];
    assert Flat(once, {OptionKind}) == [OptionRef(o)];
    assert Without([OptionRef(o)], [OptionRef(o)]) == [];
    assert ExpandAll([OptionsShortcut([OptionRef(o)])], []) == [OptionsShortcut([])];
  }

  /** Docopt.java's expansion loses the shortcut's options on the second parse of the same instance. */
  lemma RepeatedExpansionAsWritten(o: Option)
    ensures var p := Required([OptionsShortcut([])]);
            ExpandAsWritten(p, [o]) == Required([OptionsShortcut([OptionRef(o)])])
            && ExpandAsWritten(ExpandAsWritten(p, [o]), [o]) == Required([OptionsShortcut([])])
  {
    FirstExpansion(o);
    SecondExpansionAsWritten(o);
  }

  /** The corrected expansion keeps the shortcut's options on the second parse. */
  lemma RepeatedExpansionCorrected(o: Option)
    ensures var p := Required([OptionsShortcut([])]);
            ExpandShortcuts(p, [o]) == Required([OptionsShortcut([OptionRef(o)])])
            && ExpandShortcuts(ExpandShortcuts(p, [o]), [o]) == Required([OptionsShortcut([OptionRef(o)])])
  {
    FirstExpansion(o);
    ExpandShortcutsIdempotent(Required([OptionsShortcut([])]), [o]);
  }

  /** Emptying the shortcuts of a tree whose shortcuts are already empty changes nothing. */
  lemma {:induction false} UnexpandedExpand(p: Pattern)
    requires Unexpanded(p)
    ensures Expand(p, []) == p
    decreases p
  {
    if !p.IsLeaf() && !p.OptionsShortcut? {
      UnexpandedExpandAll(p.children);
    }
  }

  lemma {:induction false} UnexpandedExpandAll(ps: seq<Pattern>)
    requires AllUnexpanded(ps)
    ensures ExpandAll(ps, []) == ps
    decreases ps
  {
    if ps != [] {
      UnexpandedExpand(ps[0]);
      UnexpandedExpandAll(ps[1..]);
    }
  }

  lemma AllUnexpandedConcat(a: seq<Pattern>, b: seq<Pattern>)
    requires AllUnexpanded(a) && AllUnexpanded(b)
    ensures AllUnexpanded(a + b)
  {
    assert forall i :: 0 <= i < |a + b| ==> (a + b)[i] == if i < |a| then a[i] else b[i - |a|];
  }

  lemma RefsUnexpanded(os: seq<Option>)
    ensures AllUnexpanded(Refs(os))
  {
    assert forall i :: 0 <= i < |Refs(os)| ==> Refs(os)[i].IsLeaf();
  }

  /** The grammar parser builds every `[options]` shortcut empty: an atom. */
  lemma {:induction false} AtomUnexpanded(toks: seq<string>, reg: seq<Option>, argv: bool)
    requires toks != []
    ensures var r := ParseAtomF(toks, reg, argv); r.Ok? ==> AllUnexpanded(r.value.result)
    decreases |toks|, 0
  {
    var token := toks[0];
    if token == "(" || token == "[" {
      ExprUnexpanded(toks[1..], reg, argv);
      if ParseExprF(toks[1..], reg, argv).Ok? {
        AtomGroup(toks, reg, argv);
        var inner := ParseExprF(toks[1..], reg, argv).value.result;
        assert Unexpanded(Required(inner)) && Unexpanded(Optional(inner));
      }
    } else if StartsWith(token, "--") && token != "--" {
      AtomLong(toks, reg, argv);
      if ParseLongF(toks, reg, argv).Ok? {
        RefsUnexpanded(ParseLongF(toks, reg, argv).value.result);
      }
    } else if StartsWith(token, "-") && !StartsWith(token, "--") && token != "-" {
      AtomShort(toks, reg, argv);
      if ParseShortsF(toks, reg, argv).Ok? {
        RefsUnexpanded(ParseShortsF(toks, reg, argv).value.result);
      }
    } else {
      var r := ParseAtomF(toks, reg, argv);
      assert |r.value.result| == 1 && (r.value.result[0].IsLeaf() || r.value.result[0] == OptionsShortcut([]));
    }
  }

  /** The same for the loop of a sequence. */
  lemma {:induction false} SeqLoopUnexpanded(toks: seq<string>, reg: seq<Option>, argv: bool, acc: seq<Pattern>)
    requires AllUnexpanded(acc)
    ensures var r := SeqLoop(toks, reg, argv, acc); r.Ok? ==> AllUnexpanded(r.value.result)
    decreases |toks|, 1
  {
    var r := SeqLoop(toks, reg, argv, acc);
    if !SeqStop(Head(toks)) && r.Ok? {
      var a := ParseAtomF(toks, reg, argv);
      assert a.Ok?;
      AtomUnexpanded(toks, reg, argv);
      var p := a.value;
      if Head(p.rest) == Some("...") {
        assert Unexpanded(OneOrMore(p.result));
        AllUnexpandedConcat(acc, [OneOrMore(p.result)]);
        assert r == SeqLoop(Tail(p.rest), p.reg, argv, acc + [OneOrMore(p.result)]);
        SeqLoopUnexpanded(Tail(p.rest), p.reg, argv, acc + [OneOrMore(p.result)]);
      } else {
        AllUnexpandedConcat(acc, p.result);
        assert r == SeqLoop(p.rest, p.reg, argv, acc + p.result);
        SeqLoopUnexpanded(p.rest, p.reg, argv, acc + p.result);
      }
    }
  }

  /** The same for the alternatives loop. */
  lemma {:induction false} ExprLoopUnexpanded(toks: seq<string>, reg: seq<Option>, argv: bool, acc: seq<Pattern>)
    requires AllUnexpanded(acc)
    ensures var r := ExprLoop(toks, reg, argv, acc); r.Ok? ==> AllUnexpanded(r.value.result)
    decreases |toks|, 3
  {
    if Head(toks) != Some("|") {
      ExprLoopExit(toks, reg, argv, acc);
      if |acc| > 1 {
        assert Unexpanded(Either(acc));
      }
    } else {
      ExprBarStep(toks, reg, argv, acc);
      var s := ParseSeqF(toks[1..], reg, argv);
      if s.Ok? {
        SeqLoopUnexpanded(toks[1..], reg, argv, []);
        AlternativeShape(s.value.result);
        var alt := Alternative(s.value.result);
        if |s.value.result| > 1 {
          assert Unexpanded(Required(s.value.result));
        }
        assert AllUnexpanded(alt);
        AllUnexpandedConcat(acc, alt);
        ExprLoopUnexpanded(s.value.rest, s.value.reg, argv, acc + alt);
      }
    }
  }

  /** The same for an expression. */
  lemma {:induction false} ExprUnexpanded(toks: seq<string>, reg: seq<Option>, argv: bool)
    ensures var r := ParseExprF(toks, reg, argv); r.Ok? ==> AllUnexpanded(r.value.result)
    decreases |toks|, 4
  {
    var r := ParseExprF(toks, reg, argv);
    SeqLoopUnexpanded(toks, reg, argv, []);
    var s := ParseSeqF(toks, reg, argv);
    if s.Ok? && Head(s.value.rest) == Some("|") {
      var alt := Alternative(s.value.result);
      if |s.value.result| > 1 {
        assert Unexpanded(Required(s.value.result));
      }
      ExprLoopUnexpanded(s.value.rest, s.value.reg, argv, alt);
    }
  }

  /** Every tree `parsePattern` builds has its `[options]` shortcuts empty. */
  lemma PatternUnexpanded(toks: seq<string>, reg: seq<Option>)
    ensures var r := ParsePatternF(toks, reg); r.Ok? ==> Unexpanded(r.value.result)
  {
    ExprUnexpanded(toks, reg, false);
  }

  /** On a tree with empty shortcuts, the expansion as written and the corrected one agree. */
  lemma ExpansionsAgreeWhenEmpty(p: Pattern, options: seq<Option>)
    requires Expand(p, []) == p
    ensures ExpandAsWritten(p, options) == ExpandShortcuts(p, options)
  {
  }

  /** The first parse of a freshly built instance is the same with either expansion. */
  lemma FirstParseAgrees(toks: seq<string>, reg: seq<Option>, optionsFirst: bool, argv: seq<string>,
                         fix: Fixer, matcher: Matcher)
    requires ParsePatternF(toks, reg).Ok?
    ensures var p := ParsePatternF(toks, reg).value.result;
            var options := ParsePatternF(toks, reg).value.reg;
            DoParseAsWrittenF(p, options, optionsFirst, argv, fix, matcher)
              == DoParseF(p, options, optionsFirst, argv, fix, matcher)
  {
    var p := ParsePatternF(toks, reg).value.result;
    PatternUnexpanded(toks, reg);
    UnexpandedExpand(p);
    ExpansionsAgreeWhenEmpty(p, ParsePatternF(toks, reg).value.reg);
  }

  /** The tree of the usage `prog [options]`, whose formal usage is `( [ options ] )`, with shortcut children `cs`. */
  function OptionsUsageTree(cs: seq<Pattern>): Pattern
  {
    Required([Required([Optional([OptionsShortcut(cs)])])])
  }

  /** An expression of one atom, closed by a bracket or the end. */
  lemma SingleAtomExpr(toks: seq<string>, reg: seq<Option>, argv: bool, x: Pattern, rest: seq<string>)
    requires !SeqStop(Head(toks)) && ParseAtomF(toks, reg, argv) == Ok(Parsed([x], rest, reg))
    requires GroupEnd(Head(rest))
    ensures ParseExprF(toks, reg, argv) == Ok(Parsed([x], rest, reg))
  {
    assert SeqStop(Head(rest)) && Head(rest) != Some("...") && Head(rest) != Some("|");
    assert [] + [x] == [x];
    assert SeqLoop(rest, reg, argv, [x]) == Ok(Parsed([x], rest, reg));
    SeqAtomStep(toks, reg, argv, []);
    assert ParseSeqF(toks, reg, argv) == Ok(Parsed([x], rest, reg));
  }

  /** A group around a single pattern, with its closer next. */
  lemma GroupOfOne(toks: seq<string>, reg: seq<Option>, argv: bool, x: Pattern, rest: seq<string>)
    requires toks != [] && (toks[0] == "(" || toks[0] == "[")
    requires ParseExprF(toks[1..], reg, argv) == Ok(Parsed([x], rest, reg))
    requires Head(rest) == Some(if toks[0] == "(" then ")" else "]")
    ensures ParseAtomF(toks, reg, argv)
         == Ok(Parsed([if toks[0] == "(" then Required([x]) else Optional([x])], Tail(rest), reg))
  {
    AtomGroup(toks, reg, argv);
  }

  lemma OptionsWordParses(reg: seq<Option>)
    ensures ParseExprF(["options", "]", ")"], reg, false) == Ok(Parsed([OptionsShortcut([])], ["]", ")"], reg))
  {
    var t := ["options", "]", ")"];
    AtomOptions(t, reg, false);
    assert t[1..] == ["]", ")"];
    SingleAtomExpr(t, reg, false, OptionsShortcut([]), t[1..]);
  }

  /** An expression that is one group around one pattern. */
  lemma WrappedExpr(toks: seq<string>, reg: seq<Option>, argv: bool, x: Pattern, rest: seq<string>)
    requires toks != [] && (toks[0] == "(" || toks[0] == "[")
    requires ParseExprF(toks[1..], reg, argv) == Ok(Parsed([x], rest, reg))
    requires Head(rest) == Some(if toks[0] == "(" then ")" else "]") && GroupEnd(Head(Tail(rest)))
    ensures ParseExprF(toks, reg, argv)
         == Ok(Parsed([if toks[0] == "(" then Required([x]) else Optional([x])], Tail(rest), reg))
  {
    GroupOfOne(toks, reg, argv, x, rest);
    assert Head(toks) == Some(toks[0]);
    SingleAtomExpr(toks, reg, argv, if toks[0] == "(" then Required([x]) else Optional([x]), Tail(rest));
  }

  lemma OptionalOptionsParses(reg: seq<Option>)
    ensures ParseExprF(["[", "options", "]", ")"], reg, false)
         == Ok(Parsed([Optional([OptionsShortcut([])])], [")"], reg))
  {
    var t := ["[", "options", "]", ")"];
    assert t[1..] == ["options", "]", ")"];
    OptionsWordParses(reg);
    assert Tail(["]", ")"]) == [")"];
    WrappedExpr(t, reg, false, OptionsShortcut([]), ["]", ")"]);
  }

  lemma RequiredOptionsParses(reg: seq<Option>)
    ensures ParseExprF(["(", "[", "options", "]", ")"], reg, false)
         == Ok(Parsed([Required([Optional([OptionsShortcut([])])])], [], reg))
  {
    var t := ["(", "[", "options", "]", ")"];
    assert t[1..] == ["[", "options", "]", ")"];
    OptionalOptionsParses(reg);
    assert Tail([")"]) == [];
    WrappedExpr(t, reg, false, Optional([OptionsShortcut([])]), [")"]);
  }

  /** The tokens `( [ options ] )` parse to that tree with an empty shortcut, in grammar mode. */
  lemma OptionsUsageParses(reg: seq<Option>)
    ensures ParsePatternF(["(", "[", "options", "]", ")"], reg) == Ok(Parsed(OptionsUsageTree([]), [], reg))
  {
    RequiredOptionsParses(reg);
  }

  /** Filling and flattening the shortcut of that tree. */
  lemma OptionsUsageExpand(cs: seq<Pattern>, ds: seq<Pattern>)
    ensures Expand(OptionsUsageTree(cs), ds) == OptionsUsageTree(ds)
  {
    assert ExpandAll([OptionsShortcut(cs)], ds) == [OptionsShortcut(ds)];
    assert ExpandAll([Optional([OptionsShortcut(cs)])], ds) == [Optional([OptionsShortcut(ds)])];
    assert ExpandAll([Required([Optional([OptionsShortcut(cs)])])], ds)
        == [Required([Optional([OptionsShortcut(ds)])])];
  }

  /** A branch of one child whose kind is not asked for flattens to that child's flattening. */
  lemma FlatThroughBranch(p: Pattern, types: set<Kind>)
    requires !p.IsLeaf() && KindOf(p) !in types && |p.children| == 1
    ensures Flat(p, types) == Flat(p.children[0], types)
  {
    assert p.children[1..] == [];
    assert Flat(p, types) == FlatAll(p.children, types);
    assert FlatAll(p.children, types) == Flat(p.children[0], types) + FlatAll([], types);
  }

  /** Flattening that tree by kinds other than its branches' reaches the shortcut's children. */
  lemma UsageTreeFlat(cs: seq<Pattern>, types: set<Kind>)
    requires RequiredKind !in types && OptionalKind !in types && OptionsShortcutKind !in types
    ensures Flat(OptionsUsageTree(cs), types) == FlatAll(cs, types)
  {
    var sc := OptionsShortcut(cs);
    var opt := Optional([sc]);
    var inner := Required([opt]);
    FlatThroughBranch(Required([inner]), types);
    FlatThroughBranch(inner, types);
    FlatThroughBranch(opt, types);
  }

  lemma OptionsUsageFlat(o: Option)
    ensures Flat(OptionsUsageTree([]), {OptionKind}) == []
    ensures Flat(OptionsUsageTree([OptionRef(o)]), {OptionKind}) == [OptionRef(o)]
  {
    var types := {OptionKind};
    assert RequiredKind !in types && OptionalKind !in types && OptionsShortcutKind !in types;
    UsageTreeFlat([], types);
    UsageTreeFlat([OptionRef(o)], types);
    assert Flat(OptionRef(o), types) == [OptionRef(o)];
    assert [OptionRef(o)][1..] == [];
    assert FlatAll([OptionRef(o)], types) == [OptionRef(o)] + FlatAll([], types);
  }

  lemma OneOptionChildren(o: Option)
    ensures ShortcutChildrenF([o], []) == [OptionRef(o)]
    ensures ShortcutChildrenF([o], [OptionRef(o)]) == []
  {
    assert Refs([o]) == [OptionRef(o)];
    assert Unique([OptionRef(o)]) == [OptionRef(o)];
    assert Without([OptionRef(o)], [OptionRef(o)]) == [];
  }

  /** With argv parsed, the tree a run leaves behind is the fixed expansion. */
  lemma RunPattern(pattern: Pattern, expanded: Pattern, options: seq<Option>, optionsFirst: bool,
                   argv: seq<string>, fix: Fixer, matcher: Matcher)
    requires ParseArgvF(argv, options, true, optionsFirst).Ok?
    ensures DoParseRun(pattern, expanded, options, optionsFirst, argv, fix, matcher).pattern == fix(expanded)
  {
  }

  /**
   * Two `parse` calls on one instance of `prog [options]` with one option,
   * as Docopt.java writes `doParse`, with a `fix` that leaves the tree as it
   * is: the first parse puts the option under `[options]`, the second takes
   * it away again.
   */
  lemma TwoParsesAsWritten(o: Option, optionsFirst: bool, argv: seq<string>, fix: Fixer, matcher: Matcher)
    requires ParseArgvF(argv, [o], true, optionsFirst).Ok?
    requires forall q :: fix(q) == q
    ensures var first := DoParseAsWrittenF(OptionsUsageTree([]), [o], optionsFirst, argv, fix, matcher);
            var second := DoParseAsWrittenF(first.pattern, [o], optionsFirst, argv, fix, matcher);
            first.pattern == OptionsUsageTree([OptionRef(o)]) && second.pattern == OptionsUsageTree([])
  {
    var t0, t1 := OptionsUsageTree([]), OptionsUsageTree([OptionRef(o)]);
    OptionsUsageFlat(o);
    OneOptionChildren(o);
    OptionsUsageExpand([], [OptionRef(o)]);
    assert ExpandAsWritten(t0, [o]) == t1;
    OptionsUsageExpand([OptionRef(o)], []);
    assert ExpandAsWritten(t1, [o]) == t0;
    RunPattern(t0, t1, [o], optionsFirst, argv, fix, matcher);
    assert fix(t1) == t1;
    var first := DoParseAsWrittenF(t0, [o], optionsFirst, argv, fix, matcher);
    assert first.pattern == t1;
    RunPattern(t1, t0, [o], optionsFirst, argv, fix, matcher);
    assert fix(t0) == t0;
  }

  /** The same two parses with the corrected `doParse`: both see `[options]` holding the option. */
  lemma TwoParsesCorrected(o: Option, optionsFirst: bool, argv: seq<string>, fix: Fixer, matcher: Matcher)
    requires ParseArgvF(argv, [o], true, optionsFirst).Ok?
    requires forall q :: fix(q) == q
    ensures var first := DoParseF(OptionsUsageTree([]), [o], optionsFirst, argv, fix, matcher);
            var second := DoParseF(first.pattern, [o], optionsFirst, argv, fix, matcher);
            first.pattern == OptionsUsageTree([OptionRef(o)]) && second.pattern == OptionsUsageTree([OptionRef(o)])
  {
    OptionsUsageFlat(o);
    OneOptionChildren(o);
    OptionsUsageExpand([], []);
    OptionsUsageExpand([], [OptionRef(o)]);
    OptionsUsageExpand([OptionRef(o)], []);
    OptionsUsageExpand([OptionRef(o)], [OptionRef(o)]);
  }

  // ---------------------------------------------------------------------
  // doParse
  // ---------------------------------------------------------------------

  /**
   * `doParse` succeeds exactly when argv parses and the fixed tree matches
   * with nothing left; a failed match is exit code 1 with the usage printed.
   */
  lemma DoParseOutcome(pattern: Pattern, options: seq<Option>, optionsFirst: bool, argv: seq<string>,
                       fix: Fixer, matcher: Matcher)
    ensures var run := DoParseF(pattern, options, optionsFirst, argv, fix, matcher);
            var a := ParseArgvF(argv, options, true, optionsFirst);
            var fixed := fix(ExpandShortcuts(pattern, options));
            (a.Err? ==> run == ParseRun(Err(a.error), pattern))
            && (a.Ok? ==> run.pattern == fixed
                          && (run.result.Ok? <==> (matcher(fixed, a.value.result).matched
                                                   && matcher(fixed, a.value.result).left == []))
                          && (run.result.Err? ==> run.result.error == Exit(1, Null, true)))
  {
  }

  /**
   * In the map `doParse` returns, a name a collected leaf carries has the
   * value collected last; every other name has its value in the tree.
   */
  lemma DoParseCollectedOverride(pattern: Pattern, options: seq<Option>, optionsFirst: bool, argv: seq<string>,
                                 fix: Fixer, matcher: Matcher, k: Maybe<string>)
    requires DoParseF(pattern, options, optionsFirst, argv, fix, matcher).result.Ok?
    requires k in DoParseF(pattern, options, optionsFirst, argv, fix, matcher).result.value
    ensures var run := DoParseF(pattern, options, optionsFirst, argv, fix, matcher);
            var m := matcher(run.pattern, ParseArgvF(argv, options, true, optionsFirst).value.result);
            var flat := Leaves(run.pattern);
            (k in Bindings(m.collected) ==> run.result.value[k] == Bindings(m.collected)[k])
            && (k !in Bindings(m.collected) ==> k in Bindings(flat) && run.result.value[k] == Bindings(flat)[k])
  {
    var run := DoParseF(pattern, options, optionsFirst, argv, fix, matcher);
    var m := matcher(run.pattern, ParseArgvF(argv, options, true, optionsFirst).value.result);
    BindingsOverride(Leaves(run.pattern), m.collected, k);
  }
}
