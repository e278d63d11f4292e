/**
 * `Optional.match` (Optional.java): match every child in declared order,
 * threading the leaves left and the leaves collected from one child to the
 * next, and report success whatever the children report.
 */
module OptionalMatch {
  import opened Wrappers
  import opened Types

  /** `pattern.match(left, collected)` of one child; the children's own matching is not part of this model. */
  type ChildMatch = (Pattern, seq<Leaf>, seq<Leaf>) -> MatchResult

  /** The leaves still to be matched and the leaves collected so far. */
  datatype State = State(left: seq<Leaf>, collected: seq<Leaf>)

  /** One child's match: the state it returns. */
  function Step(f: ChildMatch, child: Pattern, s: State): State
  {
    var m := f(child, s.left, s.collected);
    State(m.left, m.collected)
  }

  /** The children matched from the first to the last, each starting where the previous one stopped. */
  function Run(f: ChildMatch, children: seq<Pattern>, s: State): State
    decreases |children|
  {
    if children == [] then s else Run(f, children[1..], Step(f, children[0], s))
  }

  /** A null list of collected leaves stands for the empty list. */
  function OrEmpty(collected: Maybe<seq<Leaf>>): (r: seq<Leaf>)
    ensures collected.Null? ==> r == []
    ensures collected.Some? ==> r == collected.value
  {
    if collected.Null? then [] else collected.value
  }

  /** What `match` returns. */
  function MatchF(f: ChildMatch, children: seq<Pattern>, left: seq<Leaf>, collected: Maybe<seq<Leaf>>): (m: MatchResult)
    ensures m.matched
    ensures children == [] ==> m.left == left && m.collected == OrEmpty(collected)
  {
    var s := Run(f, children, State(left, OrEmpty(collected)));
    MatchResult(true, s.left, s.collected)
  }

  /** `Optional.match`. */
  method Match(f: ChildMatch, children: seq<Pattern>, left: seq<Leaf>, collected: Maybe<seq<Leaf>>)
    returns (m: MatchResult)
    ensures m == MatchF(f, children, left, collected)
  {
    var l := left;
    var c: seq<Leaf>;
    if collected.Null? {
      c := [];
    } else {
      c := collected.value;
    }
    for i := 0 to |children|
      invariant Run(f, children[i..], State(l, c)) == Run(f, children, State(left, OrEmpty(collected)))
    {
      assert children[i..][1..] == children[i + 1..];
      var r := f(children[i], l, c);
      l := r.left;
      c := r.collected;
    }
    m := MatchResult(true, l, c);
  }

  /** Matching one more child continues from the state the earlier children left. */
  lemma {:induction false} RunSnoc(f: ChildMatch, children: seq<Pattern>, x: Pattern, s: State)
    ensures Run(f, children + [x], s) == Step(f, x, Run(f, children, s))
    decreases |children|
  {
    if children != [] {
      assert (children + [x])[1..] == children[1..] + [x];
      RunSnoc(f, children[1..], x, Step(f, children[0], s));
    }
  }

  /** The state returned is exactly the state the last child returned. */
  lemma LastChildDecides(f: ChildMatch, children: seq<Pattern>, left: seq<Leaf>, collected: Maybe<seq<Leaf>>)
    requires children != []
    ensures var before := Run(f, children[..|children| - 1], State(left, OrEmpty(collected)));
            var last := f(children[|children| - 1], before.left, before.collected);
            MatchF(f, children, left, collected) == MatchResult(true, last.left, last.collected)
  {
    var init := children[..|children| - 1];
    assert init + [children[|children| - 1]] == children;
    RunSnoc(f, init, children[|children| - 1], State(left, OrEmpty(collected)));
  }

  /** Two child matchers that return the same leaves drive the same run, whatever verdicts they report. */
  lemma {:induction false} RunIgnoresVerdicts(f: ChildMatch, g: ChildMatch, children: seq<Pattern>, s: State)
    requires forall p, l, c :: f(p, l, c).left == g(p, l, c).left && f(p, l, c).collected == g(p, l, c).collected
    ensures Run(f, children, s) == Run(g, children, s)
    decreases |children|
  {
    if children != [] {
      RunIgnoresVerdicts(f, g, children[1..], Step(f, children[0], s));
    }
  }

  /** `match` reports success even when every child fails: only the leaves the children return matter. */
  lemma MatchIgnoresVerdicts(f: ChildMatch, g: ChildMatch, children: seq<Pattern>, left: seq<Leaf>,
                             collected: Maybe<seq<Leaf>>)
    requires forall p, l, c :: f(p, l, c).left == g(p, l, c).left && f(p, l, c).collected == g(p, l, c).collected
    ensures MatchF(f, children, left, collected) == MatchF(g, children, left, collected)
    ensures MatchF(f, children, left, collected).matched
  {
    RunIgnoresVerdicts(f, g, children, State(left, OrEmpty(collected)));
  }
}
