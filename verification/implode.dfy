/** PHP's `implode` on a list of strings, and its inverse for a one-character
    separator that no piece contains. */
module Implode {
  import opened Wrappers

  predicate StartsWith(s: string, prefix: string) {
    |prefix| <= |s| && s[..|prefix|] == prefix
  }

  predicate EndsWith(s: string, suffix: string) {
    |suffix| <= |s| && s[|s| - |suffix|..] == suffix
  }

  /** The pieces in order, with `sep` between each pair of neighbours: the
      text is as long as the pieces plus one separator per gap. */
  function Join(sep: string, parts: seq<string>): (r: string)
    ensures |parts| == 0 ==> r == ""
    ensures |parts| > 0 ==> |r| == TotalLength(parts) + (|parts| - 1) * |sep|
    decreases |parts|
  {
    if |parts| == 0 then ""
    else if |parts| == 1 then parts[0]
    else parts[0] + sep + Join(sep, parts[1..])
  }

  /** Sum of the lengths of the pieces. */
  function TotalLength(parts: seq<string>): nat
    decreases |parts|
  {
    if |parts| == 0 then 0 else |parts[0]| + TotalLength(parts[1..])
  }

  /** Joining two non-empty lists is joining each and putting one separator between. */
  lemma {:induction false} JoinConcat(sep: string, a: seq<string>, b: seq<string>)
    requires |a| > 0 && |b| > 0
    ensures Join(sep, a + b) == Join(sep, a) + sep + Join(sep, b)
    decreases |a|
  {
    if |a| == 1 {
      assert (a + b)[1..] == b;
    } else {
      assert (a + b)[1..] == a[1..] + b;
      JoinConcat(sep, a[1..], b);
    }
  }

  /** Appending one piece appends one separator and the piece. */
  lemma JoinSnoc(sep: string, a: seq<string>, p: string)
    requires |a| > 0
    ensures Join(sep, a + [p]) == Join(sep, a) + sep + p
  {
    JoinConcat(sep, a, [p]);
  }

  /** Regrouping a concatenation of three sequences. */
  lemma AppendAssoc<T>(a: seq<T>, b: seq<T>, c: seq<T>)
    ensures a + (b + c) == a + b + c
  {
  }

  /** Position of the first `c` in `s`. */
  function FirstIndex(s: string, c: char): (i: nat)
    requires c in s
    ensures i < |s| && s[i] == c
    ensures c !in s[..i]
    decreases |s|
  {
    if s[0] == c then 0
    else
      assert c in s[1..] by {
        var k :| 0 <= k < |s| && s[k] == c;
        assert s[1..][k - 1] == c;
      }
      var j := FirstIndex(s[1..], c);
      assert s[..j + 1] == [s[0]] + s[1..][..j];
      1 + j
  }

  /** PHP's `explode` with a one-character delimiter: the maximal runs of
      characters between occurrences of `c`. */
  function Split(s: string, c: char): (parts: seq<string>)
    ensures |parts| > 0
    ensures forall i :: 0 <= i < |parts| ==> c !in parts[i]
    decreases |s|
  {
    if c !in s then [s]
    else
      var i := FirstIndex(s, c);
      [s[..i]] + Split(s[i + 1..], c)
  }

  /** The first `c` in `x + [c] + y` is the one right after `x` when `x` has
      none; the text before it is `x` and the text after it is `y`. */
  lemma FirstIndexAfterPiece(x: string, c: char, y: string)
    requires c !in x
    ensures c in x + [c] + y
    ensures FirstIndex(x + [c] + y, c) == |x|
    ensures (x + [c] + y)[..|x|] == x && (x + [c] + y)[|x| + 1..] == y
  {
    var s := x + [c] + y;
    assert s[|x|] == c;
  }

  /** The text before and after the first `c`, if there is one. */
  function SplitOnce(s: string, c: char): Option<(string, string)> {
    if c !in s then None
    else
      var i := FirstIndex(s, c);
      Some((s[..i], s[i + 1..]))
  }

  lemma SplitOnceAfterPiece(x: string, c: char, y: string)
    requires c !in x
    ensures SplitOnce(x + [c] + y, c) == Some((x, y))
  {
    FirstIndexAfterPiece(x, c, y);
  }

  /** Splitting a join recovers the pieces when no piece holds the delimiter. */
  lemma {:induction false} SplitJoin(parts: seq<string>, c: char)
    requires |parts| > 0
    requires forall i :: 0 <= i < |parts| ==> c !in parts[i]
    ensures Split(Join([c], parts), c) == parts
    decreases |parts|
  {
    if |parts| > 1 {
      var x, rest := parts[0], Join([c], parts[1..]);
      var s := x + [c] + rest;
      assert Join([c], parts) == s;
      FirstIndexAfterPiece(x, c, rest);
      assert s[..|x|] == x;
      assert s[|x| + 1..] == rest;
      assert Split(s, c) == [x] + Split(rest, c);
      SplitJoin(parts[1..], c);
      assert parts == [x] + parts[1..];
    }
  }

  /** Joining a split restores the string. */
  lemma {:induction false} JoinSplit(s: string, c: char)
    ensures Join([c], Split(s, c)) == s
    decreases |s|
  {
    if c in s {
      var i := FirstIndex(s, c);
      var tail := Split(s[i + 1..], c);
      JoinSplit(s[i + 1..], c);
      var parts := [s[..i]] + tail;
      assert parts[0] == s[..i] && parts[1..] == tail;
      assert Join([c], parts) == s[..i] + [c] + Join([c], tail);
      assert s == s[..i] + [c] + s[i + 1..];
    }
  }
}
