/** Go's `strings.Split` with a one-character separator, and its inverse,
    joining with that separator. Strings are sequences of characters. */
module Strings {

  /** `strings.Split(s, string(c))`: the pieces of `s` between occurrences
      of `c`, read off one character at a time. As in Go, the empty string
      splits into one empty piece, and `k` separators give `k + 1` pieces. */
  function Split(s: string, c: char): (parts: seq<string>)
    ensures |parts| >= 1
    ensures forall k :: 0 <= k < |parts| ==> c !in parts[k]
  {
    if |s| == 0 then [""]
    else
      var rest := Split(s[1..], c);
      if s[0] == c then [""] + rest
      else [[s[0]] + rest[0]] + rest[1..]
  }

  /** `strings.Join(parts, string(c))`. */
  function Join(parts: seq<string>, c: char): string
    requires |parts| >= 1
  {
    if |parts| == 1 then parts[0] else parts[0] + [c] + Join(parts[1..], c)
  }

  /** One step of `Split`: a separator starts a new piece, any other
      character extends the first piece. */
  lemma SplitCons(x: char, s: string, c: char)
    ensures x == c ==> Split([x] + s, c) == [""] + Split(s, c)
    ensures x != c ==> Split([x] + s, c) == [[x] + Split(s, c)[0]] + Split(s, c)[1..]
  {
    assert ([x] + s)[1..] == s;
  }

  /** Prepending a character to the first of several pieces commutes with
      appending more pieces. */
  lemma ExtendFirst(x: char, p: seq<string>, q: seq<string>)
    requires |p| >= 1
    ensures [[x] + (p + q)[0]] + (p + q)[1..] == ([[x] + p[0]] + p[1..]) + q
  {
    assert (p + q)[1..] == p[1..] + q;
  }

  /** Splitting at a separator splits the two sides independently. */
  lemma {:induction false} SplitAround(a: string, b: string, c: char)
    ensures Split(a + [c] + b, c) == Split(a, c) + Split(b, c)
    decreases |a|
  {
    if |a| == 0 {
      assert a + [c] + b == [c] + b;
      SplitCons(c, b, c);
    } else {
      var x, tail := a[0], a[1..];
      assert a == [x] + tail;
      assert a + [c] + b == [x] + (tail + [c] + b);
      SplitCons(x, tail + [c] + b, c);
      SplitCons(x, tail, c);
      SplitAround(tail, b, c);
      if x == c {
        assert [""] + (Split(tail, c) + Split(b, c)) == ([""] + Split(tail, c)) + Split(b, c);
      } else {
        ExtendFirst(x, Split(tail, c), Split(b, c));
      }
    }
  }

  /** Splitting undoes joining, provided no piece contains the separator. */
  lemma {:induction false} SplitJoin(parts: seq<string>, c: char)
    requires |parts| >= 1
    requires forall k :: 0 <= k < |parts| ==> c !in parts[k]
    ensures Split(Join(parts, c), c) == parts
    decreases |parts|
  {
    if |parts| == 1 {
      SplitFree(parts[0], c);
    } else {
      SplitAround(parts[0], Join(parts[1..], c), c);
      SplitJoin(parts[1..], c);
      SplitFree(parts[0], c);
      assert [parts[0]] + parts[1..] == parts;
    }
  }

  /** A string without the separator is a single piece. */
  lemma {:induction false} SplitFree(s: string, c: char)
    requires c !in s
    ensures Split(s, c) == [s]
    decreases |s|
  {
    if |s| > 0 {
      assert s == [s[0]] + s[1..];
      SplitFree(s[1..], c);
      SplitCons(s[0], s[1..], c);
    }
  }

  /** Joining pieces whose first one was extended by a character extends
      the joined string by that character. */
  lemma JoinExtendFirst(x: char, p: seq<string>, c: char)
    requires |p| >= 1
    ensures Join([[x] + p[0]] + p[1..], c) == [x] + Join(p, c)
  {
    var q := [[x] + p[0]] + p[1..];
    if |p| > 1 {
      assert q[1..] == p[1..];
    }
  }

  /** Joining undoes splitting, for every string. */
  lemma {:induction false} JoinSplit(s: string, c: char)
    ensures Join(Split(s, c), c) == s
    decreases |s|
  {
    if |s| > 0 {
      var x, tail := s[0], s[1..];
      assert s == [x] + tail;
      SplitCons(x, tail, c);
      JoinSplit(tail, c);
      var rest := Split(tail, c);
      if x == c {
        assert ([""] + rest)[1..] == rest;
      } else {
        JoinExtendFirst(x, rest, c);
      }
    }
  }

  /** The number of pieces is one more than the number of separators. */
  lemma {:induction false} SplitCount(s: string, c: char)
    ensures |Split(s, c)| == multiset(s)[c] + 1
    decreases |s|
  {
    if |s| > 0 {
      var x, tail := s[0], s[1..];
      assert s == [x] + tail;
      assert multiset(s) == multiset{x} + multiset(tail);
      SplitCons(x, tail, c);
      SplitCount(tail, c);
    }
  }

  /** Exactly two pieces means exactly one separator, with the pieces on
      either side of it. */
  lemma SplitInTwo(s: string, c: char)
    ensures |Split(s, c)| == 2 <==> multiset(s)[c] == 1
    ensures |Split(s, c)| == 2 ==> s == Split(s, c)[0] + [c] + Split(s, c)[1]
  {
    SplitCount(s, c);
    JoinSplit(s, c);
    var parts := Split(s, c);
    if |parts| == 2 {
      assert parts[1..] == [parts[1]];
    }
  }

  /** The last piece of `s`: everything after its final separator. */
  function LastPiece(s: string, c: char): string
  {
    var parts := Split(s, c);
    parts[|parts| - 1]
  }

  /** Whatever precedes the final separator, the last piece is what follows it. */
  lemma LastPieceAfter(a: string, b: string, c: char)
    requires c !in b
    ensures LastPiece(a + [c] + b, c) == b
  {
    SplitAround(a, b, c);
    SplitFree(b, c);
  }
}
