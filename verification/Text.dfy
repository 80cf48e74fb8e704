/** Cutting strings at a separator, from either end. */
module Text {

  /** Position of the first `c`, or the length when there is none. */
  function IndexOf(s: string, c: char): (i: nat)
    ensures i <= |s|
    ensures i < |s| <==> c in s
  {
    if s == "" || s[0] == c then 0 else 1 + IndexOf(s[1..], c)
  }

  /** Position of the last `c`, or the length when there is none. */
  function LastIndexOf(s: string, c: char): (i: nat)
    ensures i <= |s|
    ensures i < |s| <==> c in s
  {
    if s == "" || s[|s| - 1] == c then |s| - (if s == "" then 0 else 1)
    else
      var i := LastIndexOf(s[..|s| - 1], c);
      if i < |s| - 1 then i else |s|
  }

  lemma {:induction false} IndexOfFirst(a: string, c: char, x: string)
    requires c !in a
    ensures IndexOf(a + [c] + x, c) == |a|
  {
    if a != "" {
      IndexOfFirst(a[1..], c, x);
      assert (a + [c] + x)[1..] == a[1..] + [c] + x;
    }
  }

  lemma {:induction false} LastIndexOfLast(x: string, c: char, a: string)
    requires c !in a
    ensures LastIndexOf(x + [c] + a, c) == |x|
    decreases |a|
  {
    if a != "" {
      LastIndexOfLast(x, c, a[..|a| - 1]);
      assert (x + [c] + a)[..|x + [c] + a| - 1] == x + [c] + a[..|a| - 1];
    }
  }

  /** A field that does not contain the separator can be read back from the front. */
  lemma FirstField(a: string, c: char, x: string, b: string, y: string)
    requires c !in a && c !in b
    requires a + [c] + x == b + [c] + y
    ensures a == b && x == y
  {
    IndexOfFirst(a, c, x);
    IndexOfFirst(b, c, y);
    assert a == (a + [c] + x)[..|a|] && b == (b + [c] + y)[..|b|];
    assert x == (a + [c] + x)[|a| + 1..] && y == (b + [c] + y)[|b| + 1..];
  }

  /** Likewise from the back. */
  lemma LastField(x: string, c: char, a: string, y: string, b: string)
    requires c !in a && c !in b
    requires x + [c] + a == y + [c] + b
    ensures a == b && x == y
  {
    LastIndexOfLast(x, c, a);
    LastIndexOfLast(y, c, b);
    assert x == (x + [c] + a)[..|x|] && y == (y + [c] + b)[..|y|];
    assert a == (x + [c] + a)[|x| + 1..] && b == (y + [c] + b)[|y| + 1..];
  }

  /** `y` is `x` and the front of `a`, and `b` is the rest of `a`: the separator is read at a later place. */
  predicate Shifts(x: string, c: char, a: string, y: string, b: string) {
    |x| < |y| && var moved := y[|x| + 1..]; y == x + [c] + moved && a == moved + [c] + b
  }

  lemma EqualSplitsLater(x: string, c: char, a: string, y: string, b: string)
    requires |x| < |y| && x + [c] + a == y + [c] + b
    ensures Shifts(x, c, a, y, b)
  {
    var s, moved := x + [c] + a, y[|x| + 1..];
    assert s[..|x|] == x && s[|x|] == c && s[..|y|] == y && s[|x| + 1..] == a;
    assert y == y[..|x|] + [y[|x|]] + moved;
    assert a == (y + [c] + b)[|x| + 1..] == moved + [c] + b;
  }

  /** Two joined pairs read alike exactly when they are one pair, or one splits at a later separator than the other. */
  lemma JoinedEqual(x: string, c: char, a: string, y: string, b: string)
    ensures x + [c] + a == y + [c] + b <==> (x == y && a == b) || Shifts(x, c, a, y, b) || Shifts(y, c, b, x, a)
  {
    if x + [c] + a == y + [c] + b {
      if |x| < |y| {
        EqualSplitsLater(x, c, a, y, b);
      } else if |y| < |x| {
        EqualSplitsLater(y, c, b, x, a);
      } else {
        assert x == (x + [c] + a)[..|x|] && a == (x + [c] + a)[|x| + 1..];
        assert y == (y + [c] + b)[..|y|] && b == (y + [c] + b)[|y| + 1..];
      }
    }
    if Shifts(x, c, a, y, b) {
      var moved := y[|x| + 1..];
      assert x + [c] + (moved + [c] + b) == (x + [c] + moved) + [c] + b;
    }
    if Shifts(y, c, b, x, a) {
      var moved := x[|y| + 1..];
      assert y + [c] + (moved + [c] + a) == (y + [c] + moved) + [c] + a;
    }
  }

  /** The pieces between separators: Python's `s.split(c)`. */
  function Split(s: string, c: char): (parts: seq<string>)
    ensures parts != []
    decreases |s|
  {
    var i := IndexOf(s, c);
    if i == |s| then [s] else [s[..i]] + Split(s[i + 1..], c)
  }

  /** The pieces with separators put back between them: Python's `c.join(parts)`. */
  function Join(parts: seq<string>, c: char): string {
    if parts == [] then ""
    else if |parts| == 1 then parts[0]
    else parts[0] + [c] + Join(parts[1..], c)
  }

  lemma IndexOfAbsent(s: string, c: char)
    requires c !in s
    ensures IndexOf(s, c) == |s|
  {
  }

  /** Splitting undoes joining when no piece contains the separator. */
  lemma {:induction false} SplitJoin(parts: seq<string>, c: char)
    requires parts != [] && forall p | p in parts :: c !in p
    ensures Split(Join(parts, c), c) == parts
  {
    if |parts| > 1 {
      var rest := Join(parts[1..], c);
      var s := Join(parts, c);
      IndexOfFirst(parts[0], c, rest);
      assert s[..|parts[0]|] == parts[0] && s[|parts[0]| + 1..] == rest;
      SplitJoin(parts[1..], c);
    }
  }

  /** Splitting cuts out one separator per extra piece. */
  lemma {:induction false} SplitFirst(a: string, c: char, x: string)
    requires c !in a
    ensures Split(a + [c] + x, c) == [a] + Split(x, c)
  {
    var s := a + [c] + x;
    IndexOfFirst(a, c, x);
    assert s[..|a|] == a && s[|a| + 1..] == x;
  }
}
