/**
 * The Python-style helpers of org.docopt.internal.python.Python that the
 * grammar engine relies on: truth testing, membership, list concatenation,
 * counting, joining, partitioning at a separator, upper-case testing and
 * splitting at whitespace.
 */
module Python {
  import opened Wrappers

  // ---------------------------------------------------------------------
  // bool(o)
  // ---------------------------------------------------------------------

  /** The kinds of Java object that `bool` distinguishes (numbers are not modelled). */
  datatype Object =
    | NullObject
    | Boolean(b: bool)
    | Text(s: string)
    | ArrayObject(length: nat)
    | CollectionObject(size: nat)
    | MapObject(size: nat)
    | OtherObject

  /** Python truth testing: null, false and empty strings, arrays, collections and maps are false. */
  function Bool(o: Object): (r: bool)
    ensures o == NullObject ==> !r
    ensures o.Boolean? ==> (r <==> o.b)
    ensures o.Text? ==> (r <==> o.s != "")
    ensures o.ArrayObject? ==> (r <==> o.length != 0)
    ensures o.CollectionObject? || o.MapObject? ==> (r <==> o.size != 0)
    ensures o == OtherObject ==> r
  {
    match o
    case NullObject => false
    case Boolean(b) => b
    case Text(s) => s != ""
    case ArrayObject(n) => n != 0
    case CollectionObject(n) => n != 0
    case MapObject(n) => n != 0
    case OtherObject => true
  }

  /** The false objects are exactly null, `false` and the empty containers. */
  lemma FalsyObjects(o: Object)
    ensures !Bool(o) <==> o in {NullObject, Boolean(false), Text(""), ArrayObject(0),
                                CollectionObject(0), MapObject(0)}
  {
  }

  // ---------------------------------------------------------------------
  // in(left, right...)
  // ---------------------------------------------------------------------

  /** `in`: does some element of `right` equal `left`? A null `left` matches only a null element. */
  method In<T(==)>(left: Maybe<T>, right: seq<Maybe<T>>) returns (r: bool)
    ensures r <==> left in right
    ensures left == Null ==> (r <==> exists i :: 0 <= i < |right| && right[i] == Null)
    ensures left.Some? ==> (r <==> exists i :: 0 <= i < |right| && right[i] == left)
  {
    for i := 0 to |right|
      invariant left !in right[..i]
    {
      var o := right[i];
      if left != Null {
        if left == o {
          return true;
        }
      } else {
        if o == Null {
          return true;
        }
      }
    }
    assert right[..|right|] == right;
    return false;
  }

  // ---------------------------------------------------------------------
  // plus(a, b)
  // ---------------------------------------------------------------------

  /** `plus`: a new list holding the elements of `a` followed by those of `b`. */
  function Plus<T>(a: seq<T>, b: seq<T>): (c: seq<T>)
    ensures |c| == |a| + |b|
    ensures c[..|a|] == a && c[|a|..] == b
    ensures forall i :: 0 <= i < |c| ==> c[i] == if i < |a| then a[i] else b[i - |a|]
  {
    a + b
  }

  // ---------------------------------------------------------------------
  // count(self, obj)
  // ---------------------------------------------------------------------

  /** `count`: the number of elements of `self` equal to `obj`. */
  method Count<T(==)>(self: seq<T>, obj: T) returns (count: int)
    ensures count == multiset(self)[obj]
    ensures 0 <= count <= |self|
    ensures count == 0 <==> obj !in self
  {
    count := 0;
    for i := 0 to |self|
      invariant count == multiset(self[..i])[obj]
      invariant 0 <= count <= i
    {
      assert self[..i + 1] == self[..i] + [self[i]];
      if self[i] == obj {
        count := count + 1;
      }
    }
    assert self[..|self|] == self;
  }

  // ---------------------------------------------------------------------
  // join(self, iterable)
  // ---------------------------------------------------------------------

  /** The elements of `items` with `sep` between consecutive elements and nowhere else. */
  function Joined(sep: string, items: seq<string>): string
  {
    if |items| == 0 then ""
    else if |items| == 1 then items[0]
    else items[0] + sep + Joined(sep, items[1..])
  }

  /** Appending one more element adds exactly one separator and that element. */
  lemma {:induction false} JoinedSnoc(sep: string, items: seq<string>, x: string)
    requires items != []
    ensures Joined(sep, items + [x]) == Joined(sep, items) + sep + x
  {
    if |items| == 1 {
      assert items + [x] == [items[0], x];
    } else {
      assert (items + [x])[1..] == items[1..] + [x];
      JoinedSnoc(sep, items[1..], x);
    }
  }

  /** Sum of the lengths of a list of strings. */
  function TotalLength(items: seq<string>): nat
  {
    if items == [] then 0 else |items[0]| + TotalLength(items[1..])
  }

  /** A joined string is as long as its parts plus one separator per gap. */
  lemma {:induction false} JoinedLength(sep: string, items: seq<string>)
    requires items != []
    ensures |Joined(sep, items)| == TotalLength(items) + (|items| - 1) * |sep|
  {
    if |items| > 1 {
      JoinedLength(sep, items[1..]);
    }
  }

  /**
   * `join`: append every element followed by the separator, then cut the
   * last separator off again (the `setLength` step).
   */
  method Join(self: string, items: seq<string>) returns (r: string)
    ensures r == Joined(self, items)
  {
    if |items| == 0 {
      return "";
    }
    var sb := "";
    for i := 0 to |items|
      invariant i == 0 ==> sb == ""
      invariant i > 0 ==> sb == Joined(self, items[..i]) + self
    {
      if i > 0 {
        assert items[..i + 1] == items[..i] + [items[i]];
        JoinedSnoc(self, items[..i], items[i]);
      } else {
        assert items[..1] == [items[0]];
      }
      sb := sb + items[i] + self;
    }
    assert items[..|items|] == items;
    r := sb[..|sb| - |self|];
  }

  // ---------------------------------------------------------------------
  // partition(self, sep)
  // ---------------------------------------------------------------------

  /** `sub` occurs in `s` starting at index `i`. */
  predicate OccursAt(s: string, sub: string, i: int)
  {
    0 <= i && i + |sub| <= |s| && s[i..i + |sub|] == sub
  }

  /** `sub` occurs somewhere in `s`. */
  predicate Occurs(s: string, sub: string)
  {
    exists i :: 0 <= i <= |s| && OccursAt(s, sub, i)
  }

  /** Java's `indexOf(sub, from)`: the first occurrence of `sub` at or after `from`, or -1. */
  function IndexOfFrom(s: string, sub: string, from: nat): (r: int)
    ensures r == -1 || (from <= r && OccursAt(s, sub, r))
    ensures forall j :: from <= j && (r == -1 || j < r) ==> !OccursAt(s, sub, j)
    decreases |s| - from
  {
    if from + |sub| > |s| then -1
    else if s[from..from + |sub|] == sub then from
    else IndexOfFrom(s, sub, from + 1)
  }

  /** Java's `indexOf(sub)`. */
  function IndexOf(s: string, sub: string): (r: int)
    ensures r == -1 <==> !Occurs(s, sub)
    ensures r != -1 ==> OccursAt(s, sub, r) && forall j :: 0 <= j < r ==> !OccursAt(s, sub, j)
  {
    IndexOfFrom(s, sub, 0)
  }

  /** No occurrence of `sub` before index `i` of `s` leaves none inside `s[..i]`. */
  lemma NoOccurrenceInPrefix(s: string, sub: string, i: nat)
    requires i <= |s| && sub != ""
    requires forall j :: 0 <= j < i ==> !OccursAt(s, sub, j)
    ensures !Occurs(s[..i], sub)
  {
    forall k | 0 <= k <= i && OccursAt(s[..i], sub, k) ensures false {
      assert s[k..k + |sub|] == s[..i][k..k + |sub|];
      assert OccursAt(s, sub, k);
    }
  }

  /**
   * `partition`: split `self` around the first occurrence of `sep`; when
   * there is none, the whole string and two empty strings.
   */
  function Partition(self: string, sep: string): (a: seq<string>)
    ensures |a| == 3
    ensures !Occurs(self, sep) ==> a == [self, "", ""]
    ensures Occurs(self, sep) ==>
      && a[0] + a[1] + a[2] == self
      && a[1] == sep
      && OccursAt(self, sep, |a[0]|)
      && (sep != "" ==> !Occurs(a[0], sep))
  {
    var i := IndexOf(self, sep);
    if i == -1 then
      [self, "", ""]
    else
      var j := i + |sep|;
      var a := [self[..i], sep, if j < |self| then self[j..] else ""];
      assert a[0] + a[1] + a[2] == self by {
        assert self == self[..i] + self[i..j] + self[j..];
      }
      assert sep != "" ==> !Occurs(a[0], sep) by {
        if sep != "" {
          NoOccurrenceInPrefix(self, sep, i);
        }
      }
      a
  }

  // ---------------------------------------------------------------------
  // isUpper(self)
  // ---------------------------------------------------------------------

  /** `Character.isLetter`, restricted to the ASCII letters. */
  predicate IsLetter(c: char)
  {
    'A' <= c <= 'Z' || 'a' <= c <= 'z'
  }

  /** `Character.isUpperCase`, restricted to the ASCII letters. */
  predicate IsUpperCase(c: char)
  {
    'A' <= c <= 'Z'
  }

  /** At least one letter, and every letter upper case; other characters do not matter. */
  predicate UpperWord(s: string)
  {
    && (exists i :: 0 <= i < |s| && IsLetter(s[i]))
    && (forall i :: 0 <= i < |s| && IsLetter(s[i]) ==> IsUpperCase(s[i]))
  }

  /** `isUpper`: scan the characters, failing at the first lower-case letter. */
  method IsUpper(self: string) returns (result: bool)
    ensures result <==> UpperWord(self)
  {
    result := false;
    for k := 0 to |self|
      invariant forall i :: 0 <= i < k && IsLetter(self[i]) ==> IsUpperCase(self[i])
      invariant result <==> exists i :: 0 <= i < k && IsLetter(self[i])
    {
      var c := self[k];
      if IsLetter(c) {
        if IsUpperCase(c) {
          result := true;
        } else {
          return false;
        }
      }
    }
  }

  // ---------------------------------------------------------------------
  // split(self): self.trim().split("\\s+")
  // ---------------------------------------------------------------------

  /** A character of the regular-expression class `\s`. */
  predicate IsSpace(c: char)
  {
    c == ' ' || c == '\t' || c == '\n' || c == '\U{000B}' || c == '\U{000C}' || c == '\r'
  }

  /** `String.trim`: drop every character up to U+0020 at both ends. */
  function Trim(s: string): (t: string)
    ensures t == [] || (t[0] > ' ' && t[|t| - 1] > ' ')
    decreases |s|
  {
    if s == [] then s
    else if s[0] <= ' ' then Trim(s[1..])
    else if s[|s| - 1] <= ' ' then Trim(s[..|s| - 1])
    else s
  }

  /** The index of the first `\s` character at or after `i`, or `|s|`. */
  function WordEnd(s: string, i: nat): (k: nat)
    requires i <= |s|
    ensures i <= k <= |s|
    ensures forall j :: i <= j < k ==> !IsSpace(s[j])
    ensures k < |s| ==> IsSpace(s[k])
    decreases |s| - i
  {
    if i == |s| || IsSpace(s[i]) then i else WordEnd(s, i + 1)
  }

  /** The maximal runs of non-`\s` characters of `s`, in order. */
  function Words(s: string): (ws: seq<string>)
    ensures s != [] && !IsSpace(s[0]) ==> ws != []
    ensures forall w :: w in ws ==> w != "" && forall j :: 0 <= j < |w| ==> !IsSpace(w[j])
    decreases |s|
  {
    if s == [] then []
    else if IsSpace(s[0]) then Words(s[1..])
    else
      var k := WordEnd(s, 0);
      [s[..k]] + Words(s[k..])
  }

  /**
   * `split`: the trimmed string cut at every run of `\s`. A trimmed string
   * neither starts nor ends with `\s`, so no empty piece arises, except that
   * Java returns the single piece `""` for an empty string.
   */
  function Split(self: string): (r: seq<string>)
    ensures |r| >= 1
    ensures Trim(self) == "" ==> r == [""]
    ensures Trim(self) != "" ==> forall w :: w in r ==> w != "" && forall j :: 0 <= j < |w| ==> !IsSpace(w[j])
  {
    var t := Trim(self);
    if t == "" then [""] else Words(t)
  }
}
