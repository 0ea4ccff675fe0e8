/**
 * The process-chain tokenizer: a selected path string is cut into process
 * names on the delimiter " → " with the semantics of Python's `str.split`
 * for a non-empty separator.  Empty segments are kept (nothing is trimmed or
 * rejected) and a string without the delimiter, the empty string included,
 * is one piece.
 */
module PathTokenizer {

  /** The delimiter between process names: space, RIGHTWARDS ARROW (U+2192), space. */
  const Arrow: string := " \U{2192} "

  /** `s` contains `sep` somewhere as a contiguous substring. */
  predicate Contains(s: string, sep: string)
    decreases |s|
  {
    sep <= s || (s != [] && Contains(s[1..], sep))
  }

  /**
   * Python's `s.split(sep)`: scanning left to right, every leftmost
   * occurrence of `sep` ends the current piece; the pieces between them are
   * kept even when empty.
   */
  function Split(s: string, sep: string): (r: seq<string>)
    requires sep != []
    ensures |r| >= 1
    decreases |s|
  {
    if s == [] then [[]]
    else if sep <= s then [[]] + Split(s[|sep|..], sep)
    else
      var rest := Split(s[1..], sep);
      [[s[0]] + rest[0]] + rest[1..]
  }

  /** Python's `sep.join(pieces)` for a non-empty list of pieces. */
  function Join(pieces: seq<string>, sep: string): (s: string)
    requires |pieces| >= 1
    decreases |pieces|
  {
    if |pieces| == 1 then pieces[0]
    else pieces[0] + sep + Join(pieces[1..], sep)
  }

  /** The tokenization the dashboard applies to a selected path. */
  function SplitPath(path: string): (processes: seq<string>)
    ensures |processes| >= 1
  {
    Split(path, Arrow)
  }

  lemma JoinFirst(pieces: seq<string>, sep: string)
    requires |pieces| >= 1
    ensures pieces[0] <= Join(pieces, sep)
  {
  }

  /** Prepending a character to the first piece prepends it to the joined string. */
  lemma JoinConsFirst(c: char, pieces: seq<string>, sep: string)
    requires |pieces| >= 1
    ensures Join([[c] + pieces[0]] + pieces[1..], sep) == [c] + Join(pieces, sep)
  {
    var p := [[c] + pieces[0]] + pieces[1..];
    if |pieces| > 1 {
      assert p[1..] == pieces[1..];
    }
  }

  /** Joining the pieces of a split with the same separator gives back the string. */
  lemma {:induction false} JoinSplit(s: string, sep: string)
    requires sep != []
    ensures Join(Split(s, sep), sep) == s
    decreases |s|
  {
    if s == [] {
    } else if sep <= s {
      var rest := Split(s[|sep|..], sep);
      var r := [[]] + rest;
      assert Split(s, sep) == r;
      JoinSplit(s[|sep|..], sep);
      assert r[1..] == rest;
      assert Join(r, sep) == [] + sep + Join(rest, sep);
      assert s == sep + s[|sep|..];
    } else {
      var rest := Split(s[1..], sep);
      JoinSplit(s[1..], sep);
      JoinConsFirst(s[0], rest, sep);
      assert s == [s[0]] + s[1..];
    }
  }

  /** The first piece of a split is a prefix of the string. */
  lemma SplitFirstIsPrefix(s: string, sep: string)
    requires sep != []
    ensures Split(s, sep)[0] <= s
  {
    JoinSplit(s, sep);
    JoinFirst(Split(s, sep), sep);
  }

  lemma PrefixTransitive(a: string, b: string, c: string)
    requires b <= c
    ensures a <= b ==> a <= c
  {
  }

  /** A non-empty separator occurs in no empty string. */
  lemma NotContainsEmpty(sep: string)
    requires sep != []
    ensures !Contains([], sep)
  {
  }

  /** No piece of a split contains the separator. */
  lemma {:induction false} PiecesAvoidSeparator(s: string, sep: string)
    requires sep != []
    ensures forall i :: 0 <= i < |Split(s, sep)| ==> !Contains(Split(s, sep)[i], sep)
    decreases |s|
  {
    var r := Split(s, sep);
    if s == [] {
      NotContainsEmpty(sep);
    } else if sep <= s {
      var rest := Split(s[|sep|..], sep);
      PiecesAvoidSeparator(s[|sep|..], sep);
      NotContainsEmpty(sep);
      assert forall i :: 1 <= i < |r| ==> r[i] == rest[i - 1];
    } else {
      var rest := Split(s[1..], sep);
      PiecesAvoidSeparator(s[1..], sep);
      var head := [s[0]] + rest[0];
      assert head[1..] == rest[0];
      SplitFirstIsPrefix(s[1..], sep);
      assert s == [s[0]] + s[1..];
      assert head <= s;
      PrefixTransitive(sep, head, s);
      assert !Contains(head, sep);
      assert forall i :: 1 <= i < |r| ==> r[i] == rest[i];
    }
  }

  /** A string splits into itself alone exactly when it does not contain the separator. */
  lemma {:induction false} SinglePieceIff(s: string, sep: string)
    requires sep != []
    ensures Split(s, sep) == [s] <==> !Contains(s, sep)
    decreases |s|
  {
    if !Contains(s, sep) {
      if s != [] {
        assert !(sep <= s);
        SinglePieceIff(s[1..], sep);
        assert [s[0]] + s[1..] == s;
      }
    } else {
      PiecesAvoidSeparator(s, sep);
      assert !Contains(Split(s, sep)[0], sep);
    }
  }

  /** A split has exactly one piece exactly when the string does not contain the separator. */
  lemma OnePieceIffNoSeparator(s: string, sep: string)
    requires sep != []
    ensures |Split(s, sep)| == 1 <==> !Contains(s, sep)
  {
  }

  /** A string shorter than the separator does not contain it. */
  lemma {:induction false} ShortNotContains(x: string, sep: string)
    requires |x| < |sep|
    ensures !Contains(x, sep)
    decreases |x|
  {
    if x != [] {
      ShortNotContains(x[1..], sep);
    }
  }

  /**
   * No occurrence of the separator starts inside a piece that is followed by
   * a cut: every cut is made at the leftmost occurrence, as `str.split` does.
   * (An occurrence starting inside piece i would lie within that piece
   * followed by all but the last character of the separator.)
   */
  lemma {:induction false} CutsAreLeftmost(s: string, sep: string)
    requires sep != []
    ensures forall i :: 0 <= i < |Split(s, sep)| - 1 ==>
      !Contains(Split(s, sep)[i] + sep[..|sep| - 1], sep)
    decreases |s|
  {
    var r := Split(s, sep);
    if s == [] {
    } else if sep <= s {
      var rest := Split(s[|sep|..], sep);
      CutsAreLeftmost(s[|sep|..], sep);
      assert r[0] + sep[..|sep| - 1] == sep[..|sep| - 1];
      ShortNotContains(sep[..|sep| - 1], sep);
      assert forall i :: 1 <= i < |r| ==> r[i] == rest[i - 1];
    } else {
      var rest := Split(s[1..], sep);
      CutsAreLeftmost(s[1..], sep);
      assert forall i :: 1 <= i < |r| ==> r[i] == rest[i];
      if |rest| >= 2 {
        var x := r[0] + sep[..|sep| - 1];
        JoinSplit(s[1..], sep);
        assert s[1..] == rest[0] + sep + Join(rest[1..], sep);
        assert s == [s[0]] + rest[0] + sep + Join(rest[1..], sep);
        assert x == [s[0]] + rest[0] + sep[..|sep| - 1];
        assert x <= s;
        PrefixTransitive(sep, x, s);
        assert x[1..] == rest[0] + sep[..|sep| - 1];
        assert !Contains(x, sep);
      }
    }
  }

  /**
   * A piece in which no occurrence of the separator starts, then the
   * separator, is cut off as the first piece.
   */
  lemma {:induction false} SplitPieceThenSeparator(p: string, rest: string, sep: string)
    requires sep != [] && !Contains(p + sep[..|sep| - 1], sep)
    ensures Split(p + sep + rest, sep) == [p] + Split(rest, sep)
    decreases |p|
  {
    var s := p + sep + rest;
    if p == [] {
      assert s == sep + rest;
      assert s[|sep|..] == rest;
    } else {
      var x := p + sep[..|sep| - 1];
      assert s[..|sep|] == x[..|sep|];
      assert !(sep <= s) by {
        PrefixTransitive(sep, s[..|sep|], x);
      }
      assert x[1..] == p[1..] + sep[..|sep| - 1];
      assert s[1..] == p[1..] + sep + rest;
      SplitPieceThenSeparator(p[1..], rest, sep);
      assert [p[0]] + p[1..] == p;
    }
  }

  /**
   * `Split` is the only way to cut a string into pieces that join back to it,
   * with every cut at the leftmost occurrence and no separator in the last piece.
   */
  lemma {:induction false} SplitUnique(pieces: seq<string>, s: string, sep: string)
    requires sep != [] && |pieces| >= 1 && Join(pieces, sep) == s
    requires forall i :: 0 <= i < |pieces| - 1 ==> !Contains(pieces[i] + sep[..|sep| - 1], sep)
    requires !Contains(pieces[|pieces| - 1], sep)
    ensures Split(s, sep) == pieces
    decreases |pieces|
  {
    if |pieces| == 1 {
      SinglePieceIff(s, sep);
    } else {
      var tail := pieces[1..];
      assert tail[|tail| - 1] == pieces[|pieces| - 1];
      assert forall i :: 0 <= i < |tail| - 1 ==> tail[i] == pieces[i + 1];
      SplitUnique(tail, Join(tail, sep), sep);
      SplitPieceThenSeparator(pieces[0], Join(tail, sep), sep);
      assert [pieces[0]] + tail == pieces;
    }
  }

  /**
   * A text that does not contain the separator's first character is glued
   * onto the first piece of whatever follows it.
   */
  lemma {:induction false} SplitPlainPrefix(p: string, rest: string, sep: string)
    requires sep != [] && sep[0] !in p
    ensures Split(p + rest, sep) == [p + Split(rest, sep)[0]] + Split(rest, sep)[1..]
    decreases |p|
  {
    if p != [] {
      var s := p + rest;
      assert s[1..] == p[1..] + rest;
      assert !(sep <= s) by { assert s[0] == p[0]; }
      SplitPlainPrefix(p[1..], rest, sep);
      assert [p[0]] + (p[1..] + Split(rest, sep)[0]) == p + Split(rest, sep)[0];
    } else {
      var r := Split(rest, sep);
      assert p + rest == rest;
      assert p + r[0] == r[0];
      assert r == [r[0]] + r[1..];
    }
  }

  /** A name free of the separator's first character, then the separator, starts a new piece. */
  lemma SplitNameThenSeparator(p: string, rest: string, sep: string)
    requires sep != [] && sep[0] !in p
    ensures Split(p + sep + rest, sep) == [p] + Split(rest, sep)
  {
    var tail := sep + rest;
    assert p + sep + rest == p + tail;
    assert tail[|sep|..] == rest;
    assert Split(tail, sep) == [[]] + Split(rest, sep);
    SplitPlainPrefix(p, tail, sep);
    assert p + [] == p;
  }

  /** The empty path is one empty piece, as `"".split(" → ")` is `[""]`. */
  lemma SplitEmptyPath()
    ensures SplitPath("") == [""]
  {
  }

  /** `"A → B → C"` splits into `["A", "B", "C"]`. */
  lemma SplitThreeNames()
    ensures SplitPath("A \U{2192} B \U{2192} C") == ["A", "B", "C"]
  {
    assert "A \U{2192} B \U{2192} C" == "A" + Arrow + ("B" + Arrow + "C");
    SplitNameThenSeparator("B", "C", Arrow);
    SinglePieceIff("C", Arrow);
    SplitNameThenSeparator("A", "B" + Arrow + "C", Arrow);
  }

  /** `"A → A"` splits into `["A", "A"]`. */
  lemma SplitRepeatedName()
    ensures SplitPath("A \U{2192} A") == ["A", "A"]
  {
    assert "A \U{2192} A" == "A" + Arrow + "A";
    SinglePieceIff("A", Arrow);
    SplitNameThenSeparator("A", "A", Arrow);
  }
}
