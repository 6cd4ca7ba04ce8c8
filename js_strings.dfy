/** The JavaScript built-ins the handler leans on, for arrays of strings and for
    string separators: `Array.prototype.join`, the implicit conversion of an
    array to a string, and `String.prototype.split` with a non-empty string
    separator.  A JavaScript string is a sequence of UTF-16 code units; here it
    is a `seq<char>`. */
module JsStrings {
  import opened Wrappers

  /** `pieces.join(sep)`: the pieces, with `sep` between neighbours. */
  function Join(pieces: seq<string>, sep: string): (r: string)
    decreases |pieces|
  {
    if |pieces| == 0 then ""
    else if |pieces| == 1 then pieces[0]
    else pieces[0] + sep + Join(pieces[1..], sep)
  }

  /** `String(array)`, i.e. `Array.prototype.toString`, which joins with ",". */
  function ArrayToString(elements: seq<string>): (r: string)
  {
    Join(elements, ",")
  }

  /** `sep` occurs in `s` starting at position `j`. */
  predicate MatchAt(s: string, sep: string, j: int)
  {
    0 <= j && j + |sep| <= |s| && s[j..j + |sep|] == sep
  }

  /** `sep` occurs somewhere in `s`. */
  ghost predicate Occurs(s: string, sep: string)
  {
    exists j :: MatchAt(s, sep, j)
  }

  /** The search `split` makes for its next cut: the leftmost occurrence of
      `sep` at or after `from`, or None when there is none. */
  function IndexOf(s: string, sep: string, from: nat): (r: Option<nat>)
    decreases |s| - from
    ensures r.Some? ==> from <= r.value && MatchAt(s, sep, r.value)
    ensures forall j :: from <= j && (r.None? || j < r.value) ==> !MatchAt(s, sep, j)
  {
    if |s| < from + |sep| then None
    else if s[from..from + |sep|] == sep then Some(from)
    else IndexOf(s, sep, from + 1)
  }

  /** `s.split(sep)` for a non-empty string separator: cut at the leftmost
      occurrence, then go on after it, so occurrences never overlap; what is
      left after the last one is the last piece. */
  function Split(s: string, sep: string): (pieces: seq<string>)
    requires |sep| > 0
    decreases |s|
    ensures |pieces| >= 1
    ensures forall k :: 0 <= k < |pieces| ==> !Occurs(pieces[k], sep)
  {
    match IndexOf(s, sep, 0)
    case None =>
      NoMatchNoOccurrence(s, sep);
      [s]
    case Some(i) =>
      PrefixBeforeMatchIsFree(s, sep, i);
      [s[..i]] + Split(s[i + |sep|..], sep)
  }

  lemma NoMatchNoOccurrence(s: string, sep: string)
    requires IndexOf(s, sep, 0).None?
    ensures !Occurs(s, sep)
  {
  }

  lemma PrefixBeforeMatchIsFree(s: string, sep: string, i: nat)
    requires |sep| > 0
    requires IndexOf(s, sep, 0) == Some(i)
    ensures !Occurs(s[..i], sep)
  {
    if Occurs(s[..i], sep) {
      var j :| MatchAt(s[..i], sep, j);
      assert s[..i][j..j + |sep|] == s[j..j + |sep|];
      assert MatchAt(s, sep, j) && j < i;
      assert false;
    }
  }

  /** `split` cuts at the leftmost occurrence: with one piece the text holds no
      occurrence; with more, the first piece is the text before the first
      occurrence, and the other pieces split what follows that occurrence. */
  lemma SplitCutsAtLeftmost(s: string, sep: string)
    requires |sep| > 0
    ensures |Split(s, sep)| == 1 <==> !Occurs(s, sep)
    ensures |Split(s, sep)| >= 2 ==>
              var n := |Split(s, sep)[0]|;
              && n + |sep| <= |s| && Split(s, sep)[0] == s[..n] && MatchAt(s, sep, n)
              && (forall j :: 0 <= j < n ==> !MatchAt(s, sep, j))
              && Split(s, sep)[1..] == Split(s[n + |sep|..], sep)
  {
    match IndexOf(s, sep, 0)
    case None =>
      NoMatchNoOccurrence(s, sep);
    case Some(i) =>
      var rest := Split(s[i + |sep|..], sep);
      assert Split(s, sep) == [s[..i]] + rest;
      assert ([s[..i]] + rest)[1..] == rest;
      assert Occurs(s, sep) by {
        assert MatchAt(s, sep, i);
      }
  }

  /** A piece leaves the boundary unambiguous when writing `sep` after it
      creates no occurrence of `sep` that starts inside the piece. */
  predicate Separable(piece: string, sep: string)
  {
    forall j :: 0 <= j < |piece| ==> !MatchAt(piece + sep, sep, j)
  }

  /** An occurrence is unaffected by what follows the text it lies in. */
  lemma MatchAtExtend(s: string, t: string, sep: string, j: int)
    requires j + |sep| <= |s|
    ensures MatchAt(s + t, sep, j) <==> MatchAt(s, sep, j)
  {
    if 0 <= j {
      assert (s + t)[j..j + |sep|] == s[j..j + |sep|];
    }
  }

  /** The first occurrence in `s` is where it must be, given an occurrence at
      `i` and none before it. */
  lemma IndexOfIs(s: string, sep: string, i: nat)
    requires MatchAt(s, sep, i)
    requires forall j :: 0 <= j < i ==> !MatchAt(s, sep, j)
    ensures IndexOf(s, sep, 0) == Some(i)
  {
  }

  /** Splitting, then joining with the same separator, gives back the text. */
  lemma {:induction false} JoinSplit(s: string, sep: string)
    requires |sep| > 0
    ensures Join(Split(s, sep), sep) == s
    decreases |s|
  {
    match IndexOf(s, sep, 0)
    case None =>
    case Some(i) =>
      var rest := Split(s[i + |sep|..], sep);
      JoinSplit(s[i + |sep|..], sep);
      assert Split(s, sep) == [s[..i]] + rest;
      assert ([s[..i]] + rest)[1..] == rest;
      assert s == s[..i] + sep + s[i + |sep|..];
  }

  /** A separable piece holds no occurrence of the separator. */
  lemma SeparableIsFree(p: string, sep: string)
    requires |sep| > 0
    requires Separable(p, sep)
    ensures IndexOf(p, sep, 0).None?
  {
    forall j | MatchAt(p, sep, j) ensures false {
      MatchAtExtend(p, sep, sep, j);
    }
  }

  /** After a separable piece, the first occurrence is the separator that
      follows it. */
  lemma FirstMatchAfterPiece(p: string, sep: string, tail: string)
    requires Separable(p, sep)
    ensures IndexOf(p + sep + tail, sep, 0) == Some(|p|)
  {
    var s := p + sep + tail;
    assert s == (p + sep) + tail;
    forall j | 0 <= j < |p| ensures !MatchAt(s, sep, j) {
      MatchAtExtend(p + sep, tail, sep, j);
    }
    MatchAtExtend(p + sep, tail, sep, |p|);
    assert (p + sep)[|p|..|p| + |sep|] == sep;
    IndexOfIs(s, sep, |p|);
  }

  /** Splitting text that starts with a separable piece and a separator. */
  lemma SplitAfterPiece(p: string, sep: string, tail: string)
    requires |sep| > 0
    requires Separable(p, sep)
    ensures Split(p + sep + tail, sep) == [p] + Split(tail, sep)
  {
    var s := p + sep + tail;
    FirstMatchAfterPiece(p, sep, tail);
    assert s[..|p|] == p;
    assert s[|p| + |sep|..] == tail;
  }

  /** Joining pieces, then splitting, gives back the pieces, provided no piece
      lets the separator straddle its boundary. */
  lemma {:induction false} SplitJoin(pieces: seq<string>, sep: string)
    requires |sep| > 0
    requires |pieces| >= 1
    requires forall k :: 0 <= k < |pieces| ==> Separable(pieces[k], sep)
    ensures Split(Join(pieces, sep), sep) == pieces
    decreases |pieces|
  {
    var p := pieces[0];
    assert Separable(p, sep);
    if |pieces| == 1 {
      SeparableIsFree(p, sep);
    } else {
      var tail := Join(pieces[1..], sep);
      assert Join(pieces, sep) == p + sep + tail;
      SplitAfterPiece(p, sep, tail);
      SplitJoin(pieces[1..], sep);
      assert pieces == [p] + pieces[1..];
    }
  }

  /** Joining one more element appends the separator and that element. */
  lemma {:induction false} JoinSnoc(elements: seq<string>, x: string, sep: string)
    requires |elements| >= 1
    ensures Join(elements + [x], sep) == Join(elements, sep) + sep + x
    decreases |elements|
  {
    if |elements| > 1 {
      assert (elements + [x])[1..] == elements[1..] + [x];
      JoinSnoc(elements[1..], x, sep);
    }
  }
}
