/** The string and array primitives of JavaScript that the instance manager
    leans on: `split` and `join` with a one-character separator, the last
    element left by `pop`, `indexOf`, ASCII `toLowerCase`/`toUpperCase`, and
    a plain lexicographic order standing in for `localeCompare`. */
module Text {

  /** `s.split(c)`: the maximal `c`-free pieces of `s`, in order.  Like
      JavaScript, the empty string splits into one empty piece. */
  function Split(s: string, c: char): (parts: seq<string>)
    ensures |parts| >= 1
    ensures forall i :: 0 <= i < |parts| ==> c !in parts[i]
  {
    if s == [] then [""]
    else
      var rest := Split(s[1..], c);
      assert s == [s[0]] + s[1..];
      if s[0] == c then [""] + rest
      else [[s[0]] + rest[0]] + rest[1..]
  }

  /** `parts.join(c)`. */
  function Join(parts: seq<string>, c: char): string
  {
    if |parts| == 0 then ""
    else if |parts| == 1 then parts[0]
    else parts[0] + [c] + Join(parts[1..], c)
  }

  /** Joining the pieces with the separator they were split on gives the
      string back. */
  lemma {:induction false} JoinSplit(s: string, c: char)
    ensures Join(Split(s, c), c) == s
  {
    if s != [] {
      var rest := Split(s[1..], c);
      JoinSplit(s[1..], c);
      assert s == [s[0]] + s[1..];
      if s[0] == c {
        assert Split(s, c) == [""] + rest;
        assert ([""] + rest)[1..] == rest;
        assert Join([""] + rest, c) == [c] + Join(rest, c);
      } else {
        var parts := [[s[0]] + rest[0]] + rest[1..];
        assert Split(s, c) == parts;
        assert parts[1..] == rest[1..];
        if |rest| > 1 {
          assert Join(rest, c) == rest[0] + [c] + Join(rest[1..], c);
          assert Join(parts, c) == ([s[0]] + rest[0]) + [c] + Join(rest[1..], c);
        }
      }
    }
  }

  /** Splitting distributes over a separator placed between two strings. */
  lemma {:induction false} SplitAppend(a: string, b: string, c: char)
    ensures Split(a + [c] + b, c) == Split(a, c) + Split(b, c)
  {
    var s := a + [c] + b;
    if a == [] {
      assert s == [c] + b;
      assert s[1..] == b;
    } else {
      assert s[0] == a[0];
      assert s[1..] == a[1..] + [c] + b;
      SplitAppend(a[1..], b, c);
    }
  }

  /** Splitting the join of separator-free pieces gives the pieces back. */
  lemma {:induction false} SplitJoin(parts: seq<string>, c: char)
    requires |parts| >= 1
    requires forall i :: 0 <= i < |parts| ==> c !in parts[i]
    ensures Split(Join(parts, c), c) == parts
  {
    if |parts| == 1 {
      JoinSplit(parts[0], c);
    } else {
      SplitJoin(parts[1..], c);
      JoinSplit(parts[0], c);
      SplitAppend(parts[0], Join(parts[1..], c), c);
      assert parts == [parts[0]] + parts[1..];
    }
  }

  /** `push` followed by `join`: the new piece lands after one more separator. */
  lemma {:induction false} JoinSnoc(xs: seq<string>, y: string, c: char)
    requires |xs| >= 1
    ensures Join(xs + [y], c) == Join(xs, c) + [c] + y
  {
    if |xs| > 1 {
      assert (xs + [y])[1..] == xs[1..] + [y];
      JoinSnoc(xs[1..], y, c);
    }
  }

  /** There is a single piece exactly when the separator does not occur. */
  lemma {:induction false} SplitSingle(s: string, c: char)
    ensures |Split(s, c)| == 1 <==> c !in s
  {
    if s != [] {
      SplitSingle(s[1..], c);
      assert s == [s[0]] + s[1..];
    }
  }

  /** The string is the pieces before the last one, the separator, and the
      last piece. */
  lemma SplitLast(s: string, c: char)
    ensures var parts := Split(s, c); var n := |parts|;
      n >= 2 ==> s == Join(parts[..n - 1], c) + [c] + parts[n - 1]
  {
    var parts := Split(s, c);
    var n := |parts|;
    JoinSplit(s, c);
    if n >= 2 {
      assert parts == parts[..n - 1] + [parts[n - 1]];
      JoinSnoc(parts[..n - 1], parts[n - 1], c);
    }
  }

  /** `s.split(c).pop()`: the text after the last `c`, or all of `s`. */
  function LastPart(s: string, c: char): (last: string)
    ensures c !in last
    ensures |last| <= |s| && s[|s| - |last|..] == last
    ensures c in s ==> |last| < |s| && s[|s| - |last| - 1] == c
    ensures c !in s ==> last == s
  {
    var parts := Split(s, c);
    var n := |parts|;
    SplitLast(s, c);
    SplitSingle(s, c);
    JoinSplit(s, c);
    var last := parts[n - 1];
    if n >= 2 then
      var front := Join(parts[..n - 1], c);
      assert s == front + [c] + last;
      assert s[|s| - |last|..] == last;
      assert s[|s| - |last| - 1] == c;
      last
    else
      last
  }

  /** `s.split(c)[0]`. */
  function FirstPart(s: string, c: char): string {
    Split(s, c)[0]
  }

  /** The first piece is the text before the first `c`, or all of `s`. */
  lemma FirstPartMeans(s: string, c: char)
    ensures var first := FirstPart(s, c);
      && c !in first
      && |first| <= |s| && s[..|first|] == first
      && (|first| < |s| ==> s[|first|] == c)
      && (c !in s ==> first == s)
  {
    JoinSplit(s, c);
    SplitLast(s, c);
    SplitSingle(s, c);
  }

  /** The text before the first `c` of a `c`-free string followed by `c`. */
  lemma FirstPartOfPrefixed(name: string, rest: string, c: char)
    requires c !in name
    requires rest == [] || rest[0] == c
    ensures FirstPart(name + rest, c) == name
  {
    var s := name + rest;
    var first := FirstPart(s, c);
    FirstPartMeans(s, c);
    assert forall i :: 0 <= i < |name| ==> s[i] == name[i];
    assert forall i :: 0 <= i < |first| ==> first[i] == s[i];
    assert |name| < |s| ==> s[|name|] == c;
    assert |first| == |name|;
  }

  /** `s.split(c)`, `pop`, `join(c)`: the text before the last `c`, or the
      empty string when `c` does not occur. */
  lemma DropLastPart(s: string, c: char)
    ensures var parts := Split(s, c); var last := LastPart(s, c);
      Join(parts[..|parts| - 1], c) == if c in s then s[..|s| - |last| - 1] else ""
  {
    var parts := Split(s, c);
    SplitLast(s, c);
    SplitSingle(s, c);
  }

  /** `toLowerCase` and `toUpperCase` restricted to ASCII letters. */
  function LowerChar(ch: char): char {
    if 'A' <= ch <= 'Z' then (ch as int + 32) as char else ch
  }

  function UpperChar(ch: char): char {
    if 'a' <= ch <= 'z' then (ch as int - 32) as char else ch
  }

  function Lower(s: string): string {
    seq(|s|, i requires 0 <= i < |s| => LowerChar(s[i]))
  }

  /** Lexicographic order on character codes. */
  predicate StrLe(a: string, b: string)
  {
    a == [] || (b != [] && (a[0] < b[0] || (a[0] == b[0] && StrLe(a[1..], b[1..]))))
  }

  lemma {:induction false} StrLeTotal(a: string, b: string)
    ensures StrLe(a, b) || StrLe(b, a)
  {
    if a != [] && b != [] && a[0] == b[0] {
      StrLeTotal(a[1..], b[1..]);
    }
  }

  lemma {:induction false} StrLeAntisymmetric(a: string, b: string)
    requires StrLe(a, b) && StrLe(b, a)
    ensures a == b
  {
    if a != [] && b != [] {
      StrLeAntisymmetric(a[1..], b[1..]);
      assert a == [a[0]] + a[1..] && b == [b[0]] + b[1..];
    }
  }

  lemma {:induction false} StrLeTransitive(a: string, b: string, c: string)
    requires StrLe(a, b) && StrLe(b, c)
    ensures StrLe(a, c)
  {
    if a != [] && b != [] && c != [] && a[0] == b[0] == c[0] {
      StrLeTransitive(a[1..], b[1..], c[1..]);
    }
  }

  /** `xs.indexOf(x)`: the first position of `x`, or -1. */
  function IndexOf<T(==)>(xs: seq<T>, x: T): (i: int)
    ensures -1 <= i < |xs|
    ensures i == -1 <==> x !in xs
    ensures 0 <= i ==> xs[i] == x && x !in xs[..i]
  {
    if xs == [] then -1
    else if xs[0] == x then 0
    else
      var j := IndexOf(xs[1..], x);
      assert xs == [xs[0]] + xs[1..];
      if j == -1 then -1
      else
        assert xs[..j + 1] == [xs[0]] + xs[1..][..j];
        j + 1
  }
}
