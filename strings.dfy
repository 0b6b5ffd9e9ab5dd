/**
 * Python's `str.split(sep)` for a one-character separator, which is how the
 * gateway takes apart a result body (`result.split(':')`), together with its
 * inverse, `sep.join(parts)`.
 */
module Strings {

  /** The number of occurrences of `c` in `s`. */
  function Count(s: string, c: char): nat
    decreases |s|
  {
    if s == [] then 0 else (if s[0] == c then 1 else 0) + Count(s[1..], c)
  }

  /** `sep.join(parts)`: the parts with one separator between neighbours. */
  function Join(parts: seq<string>, sep: char): string
    requires |parts| > 0
    decreases |parts|
  {
    if |parts| == 1 then parts[0] else parts[0] + [sep] + Join(parts[1..], sep)
  }

  /**
   * `s.split(sep)`: the maximal separator-free pieces of `s`, in order. An
   * empty string gives one empty piece, and a separator at either end gives
   * an empty piece at that end.
   */
  function Split(s: string, sep: char): (parts: seq<string>)
    ensures |parts| == Count(s, sep) + 1
    ensures forall i :: 0 <= i < |parts| ==> sep !in parts[i]
    ensures Join(parts, sep) == s
    decreases |s|
  {
    if s == [] then [""]
    else
      var rest := Split(s[1..], sep);
      if s[0] == sep then
        [""] + rest
      else
        var parts := [[s[0]] + rest[0]] + rest[1..];
        assert parts[1..] == rest[1..];
        assert s == [s[0]] + s[1..];
        parts
  }

  /** Splitting a separator-free piece followed by a separator and a tail. */
  lemma {:induction false} SplitAfterPiece(p: string, t: string, sep: char)
    requires sep !in p
    ensures Split(p + [sep] + t, sep) == [p] + Split(t, sep)
    decreases |p|
  {
    if p == [] {
      assert p + [sep] + t == [sep] + t;
      assert ([sep] + t)[1..] == t;
    } else {
      var s := p + [sep] + t;
      assert s[0] == p[0] && s[1..] == p[1..] + [sep] + t;
      SplitAfterPiece(p[1..], t, sep);
      assert [p[0]] + p[1..] == p;
    }
  }

  /** A separator-free string splits into itself. */
  lemma {:induction false} SplitPlain(p: string, sep: char)
    requires sep !in p
    ensures Split(p, sep) == [p]
    decreases |p|
  {
    if p != [] {
      SplitPlain(p[1..], sep);
      assert [p[0]] + p[1..] == p;
    }
  }

  /** Split undoes Join when no part contains the separator. */
  lemma {:induction false} SplitJoin(parts: seq<string>, sep: char)
    requires |parts| > 0
    requires forall i :: 0 <= i < |parts| ==> sep !in parts[i]
    ensures Split(Join(parts, sep), sep) == parts
    decreases |parts|
  {
    if |parts| == 1 {
      SplitPlain(parts[0], sep);
    } else {
      SplitJoin(parts[1..], sep);
      SplitAfterPiece(parts[0], Join(parts[1..], sep), sep);
      assert [parts[0]] + parts[1..] == parts;
    }
  }

  /** Counting distributes over concatenation. */
  lemma {:induction false} CountConcat(a: string, b: string, c: char)
    ensures Count(a + b, c) == Count(a, c) + Count(b, c)
    decreases |a|
  {
    if a == [] {
      assert a + b == b;
    } else {
      assert (a + b)[0] == a[0] && (a + b)[1..] == a[1..] + b;
      CountConcat(a[1..], b, c);
    }
  }

  /** A character occurs exactly when its count is positive. */
  lemma {:induction false} CountPositive(s: string, c: char)
    ensures c in s <==> Count(s, c) > 0
    decreases |s|
  {
    if s != [] {
      CountPositive(s[1..], c);
      assert s == [s[0]] + s[1..];
    }
  }
}
