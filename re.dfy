/** `Re.hasGrouping`: does a regular expression contain a capturing group? */
module Re {

  /** The number of consecutive backslashes immediately before index `k` of `p`. */
  function BackslashRun(p: string, k: nat): (c: nat)
    requires k <= |p|
    ensures c <= k
    ensures forall j :: k - c <= j < k ==> p[j] == '\\'
    ensures c < k ==> p[k - c - 1] != '\\'
  {
    if k == 0 || p[k - 1] != '\\' then 0 else 1 + BackslashRun(p, k - 1)
  }

  /** A `(` at index `k` that an even number (possibly zero) of backslashes precedes. */
  predicate UnescapedParenAt(p: string, k: int)
  {
    0 <= k < |p| && p[k] == '(' && BackslashRun(p, k) % 2 == 0
  }

  /** Some `(` of `p` is not escaped, so `p` begins a group. */
  predicate Grouping(p: string)
  {
    exists k :: 0 <= k < |p| && UnescapedParenAt(p, k)
  }

  /** Java's `indexOf(ch, from)`: the first index at or after `from` holding `ch`, or -1. */
  function IndexOfChar(s: string, ch: char, from: nat): (r: int)
    ensures r == -1 || (from <= r < |s| && s[r] == ch)
    ensures forall j :: from <= j < |s| && (r == -1 || j < r) ==> s[j] != ch
    decreases |s| - from
  {
    if from >= |s| then -1
    else if s[from] == ch then from
    else IndexOfChar(s, ch, from + 1)
  }

  /**
   * `hasGrouping`: visit every `(` from left to right, count the backslashes
   * directly before it, and report a group at the first `(` with an even count.
   */
  method HasGrouping(pattern: string) returns (r: bool)
    ensures r <==> Grouping(pattern)
  {
    var i := IndexOfChar(pattern, '(', 0);
    while i != -1
      invariant -1 <= i < |pattern|
      invariant forall k :: 0 <= k < |pattern| && (i == -1 || k < i) ==> !UnescapedParenAt(pattern, k)
      invariant i != -1 ==> pattern[i] == '('
      decreases if i == -1 then 0 else |pattern| - i
    {
      var c := 0;
      for j := i downto 0
        invariant c == i - j
        invariant forall m :: j <= m < i ==> pattern[m] == '\\'
      {
        if pattern[j] != '\\' {
          break;
        }
        c := c + 1;
      }
      assert c == BackslashRun(pattern, i);
      if c % 2 == 0 {
        assert UnescapedParenAt(pattern, i);
        return true;
      }
      i := IndexOfChar(pattern, '(', i + 1);
    }
    return false;
  }

  /** `n` backslashes. */
  function Backslashes(n: nat): (s: string)
    ensures |s| == n && forall j :: 0 <= j < n ==> s[j] == '\\'
  {
    if n == 0 then "" else Backslashes(n - 1) + "\\"
  }

  /**
   * Only the unbroken run of backslashes directly before a position counts:
   * whatever precedes the first non-backslash character is not looked at.
   */
  lemma {:induction false} RunStopsAtNonBackslash(q: string, x: char, n: nat, tail: string)
    requires x != '\\'
    ensures BackslashRun(q + [x] + Backslashes(n) + tail, |q| + 1 + n) == n
  {
    var p := q + [x] + Backslashes(n) + tail;
    if n > 0 {
      var p' := q + [x] + Backslashes(n - 1) + ("\\" + tail);
      assert p' == p;
      RunStopsAtNonBackslash(q, x, n - 1, "\\" + tail);
      assert p[|q| + n] == '\\';
    } else {
      assert p[|q|] == x;
    }
  }

  /** A `(` after an odd run of backslashes is escaped: it is not counted, whatever precedes the run. */
  lemma OddRunEscapes(q: string, x: char, n: nat, tail: string)
    requires x != '\\' && n % 2 == 1
    ensures !UnescapedParenAt(q + [x] + Backslashes(n) + "(" + tail, |q| + 1 + n)
  {
    assert q + [x] + Backslashes(n) + "(" + tail == q + [x] + Backslashes(n) + ("(" + tail);
    RunStopsAtNonBackslash(q, x, n, "(" + tail);
  }

  /** A `(` after an even run of backslashes begins a group, whatever precedes the run or follows it. */
  lemma EvenRunGroups(q: string, x: char, n: nat, tail: string)
    requires x != '\\' && n % 2 == 0
    ensures Grouping(q + [x] + Backslashes(n) + "(" + tail)
  {
    var p := q + [x] + Backslashes(n) + "(" + tail;
    assert p == q + [x] + Backslashes(n) + ("(" + tail);
    RunStopsAtNonBackslash(q, x, n, "(" + tail);
    assert p[|q| + 1 + n] == '(';
    assert UnescapedParenAt(p, |q| + 1 + n);
  }

  /** `\(` is an escaped parenthesis; `\\(` and `a(b)` begin groups. */
  lemma GroupingExamples()
    ensures !Grouping("\\(")
    ensures Grouping("\\\\(")
    ensures Grouping("a(b)")
  {
    assert BackslashRun("\\(", 0) == 0;
    assert BackslashRun("\\(", 1) == 1;
    assert forall k :: 0 <= k < 2 && UnescapedParenAt("\\(", k) ==> k == 1;
    assert BackslashRun("\\\\(", 2) == 2;
    assert UnescapedParenAt("\\\\(", 2);
    assert UnescapedParenAt("a(b)", 1);
  }
}
