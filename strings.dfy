/**
 * The part of Go's `strings` package the runtime codec uses: splitting a
 * string around every occurrence of a one-character separator.
 */
module Strings {
  import opened Wrappers

  /** Position of the first occurrence of `c` in `s`, if any (strings.IndexByte). */
  function IndexOf(s: string, c: char): (r: Option<nat>)
    ensures r.Some? ==> r.value < |s| && s[r.value] == c && c !in s[..r.value]
    ensures r.None? ==> c !in s
  {
    if |s| == 0 then None
    else if s[0] == c then Some(0)
    else match IndexOf(s[1..], c)
      case None => None
      case Some(i) =>
        assert s[..i + 1] == [s[0]] + s[1..][..i];
        Some(i + 1)
  }

  /**
   * strings.Split(s, sep) for a one-character separator: the pieces between
   * successive separators. A leading, trailing or repeated separator yields an
   * empty piece; a string without the separator is one piece.
   */
  function Split(s: string, sep: char): (parts: seq<string>)
    ensures |parts| >= 1
    decreases |s|
  {
    match IndexOf(s, sep)
    case None => [s]
    case Some(i) => [s[..i]] + Split(s[i + 1..], sep)
  }

  /** strings.Join(parts, sep): the pieces with one separator between neighbours. */
  function Join(parts: seq<string>, sep: char): string
    requires |parts| >= 1
  {
    if |parts| == 1 then parts[0] else parts[0] + [sep] + Join(parts[1..], sep)
  }

  /** No piece contains the separator. */
  predicate SeparatorFree(parts: seq<string>, sep: char)
  {
    forall i :: 0 <= i < |parts| ==> sep !in parts[i]
  }

  /** No piece Split returns contains the separator. */
  lemma {:induction false} SplitPiecesSeparatorFree(s: string, sep: char)
    ensures SeparatorFree(Split(s, sep), sep)
    decreases |s|
  {
    match IndexOf(s, sep)
    case None =>
    case Some(i) =>
      var rest := s[i + 1..];
      SplitPiecesSeparatorFree(rest, sep);
      var parts := Split(s, sep);
      assert parts == [s[..i]] + Split(rest, sep);
      forall k | 0 <= k < |parts|
        ensures sep !in parts[k]
      {
        if k > 0 {
          assert parts[k] == Split(rest, sep)[k - 1];
        }
      }
  }

  /** Split cuts only at separators and loses nothing: joining the pieces gives back `s`. */
  lemma {:induction false} JoinSplit(s: string, sep: char)
    ensures Join(Split(s, sep), sep) == s
    decreases |s|
  {
    match IndexOf(s, sep)
    case None =>
    case Some(i) =>
      var rest := s[i + 1..];
      var tail := Split(rest, sep);
      JoinSplit(rest, sep);
      var parts := [s[..i]] + tail;
      assert Split(s, sep) == parts;
      assert parts[0] == s[..i] && parts[1..] == tail;
      calc {
        Join(parts, sep);
        s[..i] + [sep] + Join(tail, sep);
        s[..i] + [sep] + rest;
        s;
      }
  }

  /** Joining separator-free pieces and splitting again gives the same pieces. */
  lemma {:induction false} SplitJoin(parts: seq<string>, sep: char)
    requires |parts| >= 1 && SeparatorFree(parts, sep)
    ensures Split(Join(parts, sep), sep) == parts
  {
    var s := Join(parts, sep);
    if |parts| == 1 {
      assert IndexOf(s, sep).None?;
    } else {
      var rest := Join(parts[1..], sep);
      var p := parts[0];
      assert s == p + [sep] + rest;
      assert s[|p|] == sep;
      assert s[..|p|] == p;
      assert IndexOf(s, sep) == Some(|p|);
      assert s[|p| + 1..] == rest;
      SplitJoin(parts[1..], sep);
    }
  }

  /** Split yields one piece more than there are separators. */
  lemma {:induction false} SplitCount(s: string, sep: char)
    ensures |Split(s, sep)| == multiset(s)[sep] + 1
    decreases |s|
  {
    match IndexOf(s, sep)
    case None =>
      assert sep !in multiset(s);
    case Some(i) =>
      SplitCount(s[i + 1..], sep);
      assert s == s[..i] + [sep] + s[i + 1..];
      assert multiset(s) == multiset(s[..i]) + multiset([sep]) + multiset(s[i + 1..]);
      assert sep !in multiset(s[..i]);
  }

  /**
   * When Split gives two pieces, the string is the first, one separator, and
   * the second: the forward half of SplitInTwo, in a form that is cheaper to
   * use when the pieces are not known in advance.
   */
  lemma SplitPair(s: string, sep: char)
    requires |Split(s, sep)| == 2
    ensures s == Split(s, sep)[0] + [sep] + Split(s, sep)[1]
    ensures sep !in Split(s, sep)[0] && sep !in Split(s, sep)[1]
  {
    var i := IndexOf(s, sep).value;
    var rest := s[i + 1..];
    var tail := Split(rest, sep);
    assert Split(s, sep) == [s[..i]] + tail;
    assert |tail| == 1;
    assert tail == [rest];
    assert Split(s, sep)[1] == rest;
    assert s == s[..i] + [sep] + rest;
  }

  /** Split gives exactly two pieces when, and only when, the string holds exactly one separator. */
  lemma SplitInTwo(s: string, sep: char, a: string, b: string)
    ensures Split(s, sep) == [a, b] <==> (s == a + [sep] + b && sep !in a && sep !in b)
  {
    if Split(s, sep) == [a, b] {
      JoinSplit(s, sep);
      SplitPiecesSeparatorFree(s, sep);
      assert SeparatorFree([a, b], sep);
      assert [a, b][1..] == [b];
    }
    if s == a + [sep] + b && sep !in a && sep !in b {
      assert [a, b][1..] == [b];
      assert Join([a, b], sep) == s;
      SplitJoin([a, b], sep);
    }
  }
}
