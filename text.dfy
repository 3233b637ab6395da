/**
 * The pieces of Go's `strings` package that the harness relies on:
 * `HasPrefix`, `Contains`, `ReplaceAll`, `TrimPrefix` and `TrimSpace`,
 * with `Split` and `Join` as the reference against which `ReplaceAll`
 * is proved to replace every occurrence and nothing else.
 */
module Text {

  /** `strings.HasPrefix(s, p)`. */
  predicate HasPrefix(s: string, p: string) {
    |p| <= |s| && s[..|p|] == p
  }

  /** `strings.Contains(s, p)`: `p` occurs at some position of `s`. */
  predicate Contains(s: string, p: string)
    decreases |s|
  {
    HasPrefix(s, p) || (|s| > 0 && Contains(s[1..], p))
  }

  /** `p` occurs in `s` starting at index `i`. */
  predicate OccursAt(s: string, p: string, i: int) {
    0 <= i <= |s| - |p| && s[i..i + |p|] == p
  }

  /** The scan of `Contains` finds `p` exactly when it occurs at some index. */
  lemma {:induction false} ContainsIffOccurs(s: string, p: string)
    ensures Contains(s, p) <==> exists i :: OccursAt(s, p, i)
    decreases |s|
  {
    if HasPrefix(s, p) {
      assert OccursAt(s, p, 0);
    } else if |s| > 0 {
      ContainsIffOccurs(s[1..], p);
      if Contains(s[1..], p) {
        var i :| OccursAt(s[1..], p, i);
        assert s[1..][i..i + |p|] == s[i + 1..i + 1 + |p|];
        assert OccursAt(s, p, i + 1);
      }
      if i :| OccursAt(s, p, i) {
        assert i != 0;
        assert s[1..][i - 1..i - 1 + |p|] == s[i..i + |p|];
        assert OccursAt(s[1..], p, i - 1);
      }
    }
  }

  /** Text shorter than the pattern cannot contain it. */
  lemma {:induction false} ShortNoContains(s: string, p: string)
    requires |s| < |p|
    ensures !Contains(s, p)
    decreases |s|
  {
    if |s| > 0 {
      ShortNoContains(s[1..], p);
    }
  }

  /**
   * `strings.ReplaceAll(s, p, v)` for a non-empty `p`: scanning from the left,
   * each occurrence of `p` is replaced by `v` and the scan resumes after it,
   * so occurrences never overlap.
   */
  function ReplaceAll(s: string, p: string, v: string): (r: string)
    requires p != []
    decreases |s|
  {
    if |s| < |p| then s
    else if s[..|p|] == p then v + ReplaceAll(s[|p|..], p, v)
    else [s[0]] + ReplaceAll(s[1..], p, v)
  }

  /** Text without an occurrence of `p` comes back unchanged. */
  lemma {:induction false} ReplaceAllAbsent(s: string, p: string, v: string)
    requires p != [] && !Contains(s, p)
    ensures ReplaceAll(s, p, v) == s
    decreases |s|
  {
    if |s| >= |p| {
      ReplaceAllAbsent(s[1..], p, v);
      assert [s[0]] + s[1..] == s;
    }
  }

  /** `strings.Join(pieces, sep)`. */
  function Join(pieces: seq<string>, sep: string): string
  {
    if |pieces| == 0 then ""
    else if |pieces| == 1 then pieces[0]
    else pieces[0] + sep + Join(pieces[1..], sep)
  }

  /** `strings.Split(s, p)` for a non-empty `p`: the text between the occurrences of `p`. */
  function Split(s: string, p: string): (r: seq<string>)
    requires p != []
    ensures |r| > 0
    decreases |s|
  {
    if |s| < |p| then [s]
    else if s[..|p|] == p then [""] + Split(s[|p|..], p)
    else var t := Split(s[1..], p); [[s[0]] + t[0]] + t[1..]
  }

  /** The suffix of `p` from index `j` is also a prefix of `p`. */
  predicate BorderAt(p: string, j: int)
    requires 0 < j < |p|
  {
    p[j..] == p[..|p| - j]
  }

  /** No proper suffix of `p` is also a prefix of `p`: two occurrences of `p` cannot overlap. */
  predicate Unbordered(p: string) {
    forall j :: 0 < j < |p| ==> !BorderAt(p, j)
  }

  lemma {:induction false} JoinHead(pieces: seq<string>, sep: string)
    requires |pieces| > 0
    ensures HasPrefix(Join(pieces, sep), pieces[0])
  {
  }

  lemma {:induction false} JoinCons(c: char, pieces: seq<string>, sep: string)
    requires |pieces| > 0
    ensures Join([[c] + pieces[0]] + pieces[1..], sep) == [c] + Join(pieces, sep)
  {
    var q := [[c] + pieces[0]] + pieces[1..];
    if |pieces| > 1 {
      assert q[1..] == pieces[1..];
    }
  }

  /** Splitting and joining with the same separator gives the text back. */
  lemma {:induction false} SplitJoin(s: string, p: string)
    requires p != []
    ensures Join(Split(s, p), p) == s
    decreases |s|
  {
    if |s| < |p| {
    } else if s[..|p|] == p {
      SplitJoin(s[|p|..], p);
      var t := Split(s[|p|..], p);
      assert Split(s, p) == [""] + t;
      assert ([""] + t)[1..] == t;
      assert s == p + s[|p|..];
    } else {
      SplitJoin(s[1..], p);
      JoinCons(s[0], Split(s[1..], p), p);
      assert s == [s[0]] + s[1..];
    }
  }

  /** No piece produced by `Split` contains the separator. */
  lemma {:induction false} SplitPiecesFree(s: string, p: string)
    requires p != []
    ensures forall i :: 0 <= i < |Split(s, p)| ==> !Contains(Split(s, p)[i], p)
    decreases |s|
  {
    if |s| < |p| {
      ShortNoContains(s, p);
    } else if s[..|p|] == p {
      SplitPiecesFree(s[|p|..], p);
      ShortNoContains("", p);
    } else {
      var t := Split(s[1..], p);
      SplitPiecesFree(s[1..], p);
      SplitJoin(s[1..], p);
      JoinHead(t, p);
      var h := [s[0]] + t[0];
      assert h[1..] == t[0];
      assert s == [s[0]] + Join(t, p);
      assert h == s[..|h|];
      assert !Contains(h, p);
    }
  }

  /** Text that starts with a non-empty separator-free piece does not start with an unbordered `p`. */
  lemma NoOccurrenceAtJoint(piece: string, p: string, rest: string)
    requires p != [] && Unbordered(p) && piece != [] && !Contains(piece, p)
    ensures (piece + p + rest)[..|p|] != p
  {
    var s := piece + p + rest;
    if |piece| >= |p| {
      assert s[..|p|] == piece[..|p|];
    } else {
      var j := |piece|;
      assert s[..|p|] == piece + p[..|p| - j];
      assert s[..|p|][j..] == p[..|p| - j];
      assert !BorderAt(p, j);
    }
  }

  /** `ReplaceAll` at a position where `p` does not start: the character is copied. */
  lemma ReplaceAllSkip(s: string, p: string, v: string)
    requires p != [] && |s| >= |p| && s[..|p|] != p
    ensures ReplaceAll(s, p, v) == [s[0]] + ReplaceAll(s[1..], p, v)
  {
  }

  /** `ReplaceAll` at a position where `p` starts: the occurrence becomes `v`. */
  lemma ReplaceAllHit(s: string, p: string, v: string)
    requires p != [] && HasPrefix(s, p)
    ensures ReplaceAll(s, p, v) == v + ReplaceAll(s[|p|..], p, v)
  {
  }

  /** One step past the first character of a separator-free piece. */
  lemma PastPieceStep(piece: string, p: string, rest: string, v: string)
    requires p != [] && Unbordered(p) && piece != [] && !Contains(piece, p)
    ensures ReplaceAll(piece + p + rest, p, v) == [piece[0]] + ReplaceAll(piece[1..] + p + rest, p, v)
    ensures !Contains(piece[1..], p)
  {
    var s := piece + p + rest;
    NoOccurrenceAtJoint(piece, p, rest);
    ReplaceAllSkip(s, p, v);
    assert s[1..] == piece[1..] + p + rest;
  }

  lemma {:induction false} ReplaceAllPastPiece(piece: string, p: string, rest: string, v: string)
    requires p != [] && Unbordered(p) && !Contains(piece, p)
    ensures ReplaceAll(piece + p + rest, p, v) == piece + v + ReplaceAll(rest, p, v)
    decreases |piece|
  {
    if piece == [] {
      var s := piece + p + rest;
      assert s[..|p|] == p && s[|p|..] == rest;
      ReplaceAllHit(s, p, v);
    } else {
      PastPieceStep(piece, p, rest, v);
      ReplaceAllPastPiece(piece[1..], p, rest, v);
      assert [piece[0]] + piece[1..] == piece;
    }
  }

  /**
   * Replacing in text made of separator-free pieces joined by an unbordered `p`
   * puts `v` exactly where the joints were.
   */
  lemma {:induction false} ReplaceAllJoin(pieces: seq<string>, p: string, v: string)
    requires p != [] && Unbordered(p)
    requires forall i :: 0 <= i < |pieces| ==> !Contains(pieces[i], p)
    ensures ReplaceAll(Join(pieces, p), p, v) == Join(pieces, v)
  {
    if |pieces| == 1 {
      ReplaceAllAbsent(pieces[0], p, v);
    } else if |pieces| > 1 {
      ReplaceAllPastPiece(pieces[0], p, Join(pieces[1..], p), v);
      ReplaceAllJoin(pieces[1..], p, v);
    }
  }

  /**
   * `ReplaceAll` against `Split` and `Join`: the same left-to-right scan cuts
   * the text at the occurrences it replaces. With `SplitJoin` and
   * `SplitPiecesFree` this reads: the text between the replaced occurrences is
   * kept and none of it still holds `p`. That every occurrence is replaced,
   * wherever one may start, is `ReplaceAllJoin`, for an unbordered `p`.
   */
  lemma {:induction false} ReplaceAllIsSplitJoin(s: string, p: string, v: string)
    requires p != []
    ensures ReplaceAll(s, p, v) == Join(Split(s, p), v)
    decreases |s|
  {
    if |s| < |p| {
    } else if s[..|p|] == p {
      ReplaceAllIsSplitJoin(s[|p|..], p, v);
      var t := Split(s[|p|..], p);
      assert ([""] + t)[1..] == t;
    } else {
      ReplaceAllIsSplitJoin(s[1..], p, v);
      JoinCons(s[0], Split(s[1..], p), v);
    }
  }

  /** Replacing a pattern by itself changes nothing. */
  lemma {:induction false} ReplaceAllSelf(s: string, p: string)
    requires p != []
    ensures ReplaceAll(s, p, p) == s
    decreases |s|
  {
    if |s| < |p| {
    } else if s[..|p|] == p {
      ReplaceAllSelf(s[|p|..], p);
      assert s == p + s[|p|..];
    } else {
      ReplaceAllSelf(s[1..], p);
      assert s == [s[0]] + s[1..];
    }
  }

  /** `strings.TrimPrefix(s, prefix)`: one leading copy of `prefix` is removed, if present. */
  function TrimPrefix(s: string, prefix: string): (r: string)
    ensures HasPrefix(s, prefix) ==> prefix + r == s
    ensures !HasPrefix(s, prefix) ==> r == s
  {
    if HasPrefix(s, prefix) then s[|prefix|..] else s
  }

  /** `unicode.IsSpace`: the characters `strings.TrimSpace` removes. */
  predicate IsSpace(c: char) {
    || c == ' '
    || ('\t' <= c <= '\r')
    || c == '\U{85}' || c == '\U{A0}' || c == '\U{1680}'
    || ('\U{2000}' <= c <= '\U{200A}')
    || c == '\U{2028}' || c == '\U{2029}' || c == '\U{202F}' || c == '\U{205F}' || c == '\U{3000}'
  }

  /** Leading white space removed: the result does not start with a space. */
  function TrimLeft(s: string): (r: string)
    ensures |r| <= |s|
    ensures r == [] || !IsSpace(r[0])
  {
    if |s| > 0 && IsSpace(s[0]) then TrimLeft(s[1..]) else s
  }

  /** `TrimLeft` keeps a suffix of `s` and what it removes is white space. */
  lemma {:induction false} TrimLeftStripsSpace(s: string)
    ensures TrimLeft(s) == s[|s| - |TrimLeft(s)|..]
    ensures AllSpace(s[..|s| - |TrimLeft(s)|])
    decreases |s|
  {
    if |s| > 0 && IsSpace(s[0]) {
      var n := |s| - |TrimLeft(s)|;
      TrimLeftStripsSpace(s[1..]);
      SpaceThenSpace([s[0]], s[1..][..n - 1]);
      assert s[..n] == [s[0]] + s[1..][..n - 1];
    }
  }

  /** Trailing white space removed: the result keeps the first character and does not end with a space. */
  function TrimRight(s: string): (r: string)
    ensures |r| <= |s|
    ensures r == [] || (r[0] == s[0] && !IsSpace(r[|r| - 1]))
  {
    if |s| > 0 && IsSpace(s[|s| - 1]) then TrimRight(s[..|s| - 1]) else s
  }

  /** `TrimRight` keeps a prefix of `s` and what it removes is white space. */
  lemma {:induction false} TrimRightStripsSpace(s: string)
    ensures TrimRight(s) == s[..|TrimRight(s)|]
    ensures AllSpace(s[|TrimRight(s)|..])
    decreases |s|
  {
    if |s| > 0 && IsSpace(s[|s| - 1]) {
      var k := |TrimRight(s)|;
      TrimRightStripsSpace(s[..|s| - 1]);
      SpaceThenSpace(s[..|s| - 1][k..], [s[|s| - 1]]);
      assert s[k..] == s[..|s| - 1][k..] + [s[|s| - 1]];
    }
  }

  /**
   * `strings.TrimSpace(s)`: leading and trailing white space removed; the
   * result neither starts nor ends with white space.
   */
  function TrimSpace(s: string): (r: string)
    ensures Trimmed(r)
  {
    var l := TrimLeft(s);
    TrimRight(l)
  }

  /** A suffix of `s` after white space, cut before white space, sits in `s` surrounded by white space. */
  lemma SurroundedFromParts(s: string, l: string, r: string)
    requires |l| <= |s| && l == s[|s| - |l|..] && AllSpace(s[..|s| - |l|])
    requires |r| <= |l| && r == l[..|r|] && AllSpace(l[|r|..])
    ensures SurroundedBySpace(s, r, |s| - |l|)
  {
    var i := |s| - |l|;
    assert r == s[i..i + |r|];
    assert s[i + |r|..] == l[|r|..];
  }

  /** `TrimSpace` removes only white space: `s` is its result with white space before and after. */
  lemma TrimSpaceShape(s: string)
    ensures exists i :: SurroundedBySpace(s, TrimSpace(s), i)
  {
    TrimLeftStripsSpace(s);
    TrimRightStripsSpace(TrimLeft(s));
    SurroundedFromParts(s, TrimLeft(s), TrimSpace(s));
  }

  /** `r` sits at index `i` of `s`, and every character of `s` before and after it is white space. */
  predicate SurroundedBySpace(s: string, r: string, i: int) {
    0 <= i <= |s| - |r| && r == s[i..i + |r|] && AllSpace(s[..i]) && AllSpace(s[i + |r|..])
  }

  /** Every character of `s` is white space. */
  predicate AllSpace(s: string) {
    forall j :: 0 <= j < |s| ==> IsSpace(s[j])
  }

  /** White space followed by white space is white space. */
  lemma SpaceThenSpace(a: string, b: string)
    requires AllSpace(a) && AllSpace(b)
    ensures AllSpace(a + b)
  {
    forall j | 0 <= j < |a + b| ensures IsSpace((a + b)[j]) {
      if j >= |a| { assert (a + b)[j] == b[j - |a|]; }
    }
  }

  /** Text of no length, or neither starting nor ending with white space: what `TrimSpace` returns. */
  predicate Trimmed(x: string) {
    x == [] || (!IsSpace(x[0]) && !IsSpace(x[|x| - 1]))
  }

  lemma {:induction false} TrimLeftPadded(w: string, x: string)
    requires AllSpace(w) && (x == [] || !IsSpace(x[0]))
    ensures TrimLeft(w + x) == x
    decreases |w|
  {
    if w != [] {
      assert (w + x)[1..] == w[1..] + x;
      TrimLeftPadded(w[1..], x);
    }
  }

  lemma {:induction false} TrimRightPadded(y: string, w: string)
    requires AllSpace(w) && (y == [] || !IsSpace(y[|y| - 1]))
    ensures TrimRight(y + w) == y
    decreases |w|
  {
    if w == [] {
      assert y + w == y;
    } else {
      var s := y + w;
      assert s[..|s| - 1] == y + w[..|w| - 1];
      TrimRightPadded(y, w[..|w| - 1]);
    }
  }

  /**
   * The converse of `TrimSpace`'s contract: text with only white space
   * around a trimmed core trims to exactly that core.
   */
  lemma TrimSpacePadded(w1: string, x: string, w2: string)
    requires AllSpace(w1) && AllSpace(w2) && Trimmed(x)
    ensures TrimSpace(w1 + x + w2) == x
  {
    if x == [] {
      assert w1 + x + w2 == w1 + w2 + [];
      TrimLeftPadded(w1 + w2, []);
    } else {
      assert w1 + x + w2 == w1 + (x + w2);
      TrimLeftPadded(w1, x + w2);
      TrimRightPadded(x, w2);
    }
  }
}
