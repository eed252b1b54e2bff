/**
 * Splitting a string on a one-character separator, as JavaScript's
 * `String.prototype.split` does with a one-character string argument,
 * and its inverse, joining pieces with that separator.
 */
module Strings {

  /** The pieces glued back together with `sep` between consecutive pieces. */
  function Join(pieces: seq<string>, sep: char): string
    requires |pieces| >= 1
    decreases |pieces|
  {
    if |pieces| == 1 then pieces[0] else pieces[0] + [sep] + Join(pieces[1..], sep)
  }

  /**
   * The maximal separator-free pieces of `s`, in order. Empty pieces are kept
   * (`"a,,b"` gives `"a"`, `""`, `"b"`), and the empty string gives one empty piece.
   */
  function Split(s: string, sep: char): (pieces: seq<string>)
    ensures |pieces| >= 1
    ensures Join(pieces, sep) == s
    ensures forall k :: 0 <= k < |pieces| ==> sep !in pieces[k]
    decreases |s|
  {
    if s == [] then [[]]
    else
      var rest := Split(s[1..], sep);
      if s[0] == sep then [[]] + rest
      else
        var pieces := [[s[0]] + rest[0]] + rest[1..];
        assert pieces[1..] == rest[1..];
        assert Join(pieces, sep) == [s[0]] + Join(rest, sep);
        pieces
  }

  /** Splitting loses nothing: two strings with the same pieces are the same string. */
  lemma SplitInjective(a: string, b: string, sep: char)
    requires Split(a, sep) == Split(b, sep)
    ensures a == b
  {
    calc {
      a;
      Join(Split(a, sep), sep);
      Join(Split(b, sep), sep);
      b;
    }
  }

  /** A string without the separator is one piece. */
  lemma {:induction false} SplitWithoutSeparator(s: string, sep: char)
    requires sep !in s
    ensures Split(s, sep) == [s]
  {
    if s != [] {
      SplitWithoutSeparator(s[1..], sep);
    }
  }

  /** The number of pieces is one more than the number of separators. */
  function CountOf(s: string, c: char): nat
    decreases |s|
  {
    if s == [] then 0 else (if s[0] == c then 1 else 0) + CountOf(s[1..], c)
  }

  lemma {:induction false} SplitCount(s: string, sep: char)
    ensures |Split(s, sep)| == CountOf(s, sep) + 1
  {
    if s != [] {
      SplitCount(s[1..], sep);
    }
  }

}
