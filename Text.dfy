/**
 * The ECMAScript string operations the resolver relies on: `indexOf`,
 * `includes` and `split` with a non-empty string separator
 * (ECMA-262, sections 22.1.3.9, 22.1.3.8 and 22.1.3.23).
 */
module Text {
  import opened Wrappers

  /** `t` occurs in `s` starting at index `i`. */
  predicate OccursAt(s: string, t: string, i: nat) {
    i + |t| <= |s| && s[i..i + |t|] == t
  }

  /** `s.indexOf(t, from)` for `from <= |s|`: the first occurrence at or after `from`. */
  function IndexOf(s: string, t: string, from: nat): (r: Option<nat>)
    requires from <= |s|
    ensures r.Some? ==> from <= r.value && OccursAt(s, t, r.value)
    ensures r.Some? ==> forall j :: from <= j < r.value ==> !OccursAt(s, t, j)
    ensures r.None? ==> forall j :: from <= j ==> !OccursAt(s, t, j)
    decreases |s| - from
  {
    if from + |t| > |s| then None
    else if s[from..from + |t|] == t then Some(from)
    else IndexOf(s, t, from + 1)
  }

  /** `s.includes(t)`. */
  function Includes(s: string, t: string): (b: bool)
    ensures b <==> exists i :: OccursAt(s, t, i)
  {
    IndexOf(s, t, 0).Some?
  }

  /**
   * The pieces of `s` from index `p` on, as the loop of `split` collects
   * them: the text up to the next occurrence of `sep`, then the search goes
   * on after that occurrence.
   */
  function SplitFrom(s: string, sep: string, p: nat): (pieces: seq<string>)
    requires |sep| > 0 && p <= |s|
    ensures |pieces| >= 1
    decreases |s| - p
  {
    match IndexOf(s, sep, p)
    case None => [s[p..]]
    case Some(j) => [s[p..j]] + SplitFrom(s, sep, j + |sep|)
  }

  /** `s.split(sep)` for a non-empty separator. */
  function Split(s: string, sep: string): (pieces: seq<string>)
    requires |sep| > 0
    ensures |pieces| >= 1
  {
    SplitFrom(s, sep, 0)
  }

  /** `pieces.join(sep)`: the inverse of `Split`. */
  function Join(pieces: seq<string>, sep: string): string
    requires |pieces| >= 1
  {
    if |pieces| == 1 then pieces[0] else pieces[0] + sep + Join(pieces[1..], sep)
  }

  /** A non-empty sequence is its head followed by its tail (used by the split proofs to peel one piece). */
  lemma HeadTail<T>(xs: seq<T>)
    requires |xs| >= 1
    ensures xs == [xs[0]] + xs[1..]
  {
  }

  /** A one-element sequence is the display of its element (used for the last piece of a split). */
  lemma Singleton<T>(xs: seq<T>)
    requires |xs| == 1
    ensures xs == [xs[0]]
  {
  }

  /** The last step of the split loop: no occurrence is left, the rest is the last piece. */
  lemma SplitFromEnd(s: string, sep: string, p: nat)
    requires |sep| > 0 && p <= |s| && IndexOf(s, sep, p).None?
    ensures SplitFrom(s, sep, p) == [s[p..]]
  {
  }

  /** One step of the split loop: the piece up to the occurrence at `j`, then the rest. */
  lemma SplitFromStep(s: string, sep: string, p: nat, j: nat, next: nat)
    requires |sep| > 0 && p <= |s| && IndexOf(s, sep, p) == Some(j) && next == j + |sep|
    ensures SplitFrom(s, sep, p) == [s[p..j]] + SplitFrom(s, sep, next)
  {
  }

  /** Joining the pieces of a split gives back the original string. */
  lemma {:induction false} JoinSplitFrom(s: string, sep: string, p: nat)
    requires |sep| > 0 && p <= |s|
    ensures Join(SplitFrom(s, sep, p), sep) == s[p..]
    decreases |s| - p
  {
    var r := IndexOf(s, sep, p);
    if r.None? {
      SplitFromEnd(s, sep, p);
    } else {
      var j := r.value;
      var next := j + |sep|;
      SplitFromStep(s, sep, p, j, next);
      JoinSplitFrom(s, sep, next);
      JoinCons(s[p..j], SplitFrom(s, sep, next), sep);
      SliceAround(s, sep, p, j, next);
    }
  }

  /** Joining a piece in front of at least one more piece puts a separator after it. */
  lemma JoinCons(x: string, tail: seq<string>, sep: string)
    requires |tail| >= 1
    ensures Join([x] + tail, sep) == x + sep + Join(tail, sep)
  {
    assert ([x] + tail)[1..] == tail;
  }

  /** The rest of `s` from `p` around an occurrence of `sep` from `j` to `next`. */
  lemma SliceAround(s: string, sep: string, p: nat, j: nat, next: nat)
    requires p <= j <= next <= |s| && s[j..next] == sep
    ensures s[p..] == s[p..j] + sep + s[next..]
  {
    assert s[p..] == s[p..j] + s[j..next] + s[next..];
  }

  lemma JoinSplit(s: string, sep: string)
    requires |sep| > 0
    ensures Join(Split(s, sep), sep) == s
  {
    JoinSplitFrom(s, sep, 0);
  }

  /** No piece of a split contains the separator. */
  lemma {:induction false} SplitPiecesAvoidSeparator(s: string, sep: string, p: nat, k: nat)
    requires |sep| > 0 && p <= |s|
    requires k < |SplitFrom(s, sep, p)|
    ensures forall i: nat :: !OccursAt(SplitFrom(s, sep, p)[k], sep, i)
    decreases |s| - p
  {
    var r := IndexOf(s, sep, p);
    if r.None? {
      SplitFromEnd(s, sep, p);
      var piece := s[p..];
      assert s[p..p + |piece|] == piece;
      NoOccurrenceInside(s, sep, p, piece);
    } else {
      var j, next := r.value, r.value + |sep|;
      SplitFromStep(s, sep, p, j, next);
      if k == 0 {
        NoOccurrenceInside(s, sep, p, s[p..j]);
      } else {
        SplitPiecesAvoidSeparator(s, sep, next, k - 1);
        assert SplitFrom(s, sep, p)[k] == SplitFrom(s, sep, next)[k - 1];
      }
    }
  }

  /** A stretch of `s` at no index of which `t` starts contains no occurrence of `t`. */
  lemma NoOccurrenceInside(s: string, t: string, a: nat, r: string)
    requires |t| > 0
    requires a + |r| <= |s| && s[a..a + |r|] == r
    requires forall j :: a <= j < a + |r| ==> !OccursAt(s, t, j)
    ensures forall k: nat :: !OccursAt(r, t, k)
  {
    forall k: nat ensures !OccursAt(r, t, k) {
      if OccursAt(r, t, k) {
        forall m | 0 <= m < |t| ensures s[a + k + m] == t[m] {
          assert r[k..k + |t|][m] == r[k + m];
          assert s[a..a + |r|][k + m] == s[a + k + m];
        }
        assert s[a + k..a + k + |t|] == t;
        assert OccursAt(s, t, a + k);
      }
    }
  }

  /**
   * The piece that starts at `p` ends at the next occurrence of `sep`, or at
   * the end of `s`.
   */
  lemma FirstPieceFrom(s: string, sep: string, p: nat)
    requires |sep| > 0 && p <= |s|
    ensures var piece := SplitFrom(s, sep, p)[0];
      && p + |piece| <= |s|
      && piece == s[p..p + |piece|]
      && (forall j :: p <= j < p + |piece| ==> !OccursAt(s, sep, j))
      && (p + |piece| == |s| || OccursAt(s, sep, p + |piece|))
  {
  }

  /** When the separator occurs at `i` first, the second piece is the piece after that occurrence. */
  lemma SecondPiece(s: string, sep: string, i: nat)
    requires |sep| > 0 && IndexOf(s, sep, 0) == Some(i)
    ensures |Split(s, sep)| >= 2
    ensures Split(s, sep)[1] == SplitFrom(s, sep, i + |sep|)[0]
  {
  }

  /** An occurrence of a one-character string is that character. */
  lemma OccursAtChar(s: string, c: char, v: nat)
    requires OccursAt(s, [c], v)
    ensures v < |s| && s[v] == c
  {
    assert s[v..v + 1][0] == s[v];
  }

  /** A character at index `i` is an occurrence of the one-character string. */
  lemma CharOccursAt(s: string, c: char, i: nat)
    requires i < |s| && s[i] == c
    ensures OccursAt(s, [c], i)
  {
    assert s[i..i + 1] == [c];
  }

  /**
   * The first `c` at or after `p` is at `e` (or there is none, when `e` is
   * the end of `s`).
   */
  lemma IndexOfChar(s: string, c: char, p: nat, e: nat)
    requires p <= e <= |s|
    requires forall j :: p <= j < e ==> s[j] != c
    requires e == |s| || s[e] == c
    ensures IndexOf(s, [c], p) == if e == |s| then None else Some(e)
  {
    var r := IndexOf(s, [c], p);
    if r.Some? {
      OccursAtChar(s, c, r.value);
    }
    if e < |s| {
      CharOccursAt(s, c, e);
    }
  }

  /** Split at a one-character separator, the first piece runs up to the first occurrence of that character. */
  lemma FirstPieceBeforeChar(s: string, c: char)
    ensures var piece := Split(s, [c])[0];
      && |piece| <= |s|
      && piece == s[..|piece|]
      && (forall i :: 0 <= i < |piece| ==> s[i] != c)
      && (|piece| == |s| || s[|piece|] == c)
  {
    var piece := Split(s, [c])[0];
    FirstPieceFrom(s, [c], 0);
    forall i | 0 <= i < |piece| ensures s[i] != c {
      if s[i] == c {
        CharOccursAt(s, c, i);
      }
    }
    if |piece| < |s| {
      OccursAtChar(s, c, |piece|);
    }
  }

  /**
   * `r` is the stretch of `s` from `a` that contains neither `c` nor an
   * occurrence of `sep`, and ends at a `c`, at an occurrence of `sep` or at
   * the end of `s`.
   */
  predicate IsCut(s: string, sep: string, c: char, a: nat, r: string) {
    && a + |r| <= |s|
    && s[a..a + |r|] == r
    && (forall j :: a <= j < a + |r| ==> s[j] != c && !OccursAt(s, sep, j))
    && (a + |r| == |s| || s[a + |r|] == c || OccursAt(s, sep, a + |r|))
  }

  /**
   * A prefix `r` of a stretch `piece` of `s` that starts at `a`, where `r` ends
   * at the first `c` of `piece` and `piece` ends at the next occurrence of
   * `sep`, is a stretch of `s` without `c` and without `sep` that ends at a
   * `c`, at an occurrence of `sep` or at the end of `s`.
   */
  lemma CutOfStretch(s: string, sep: string, c: char, a: nat, piece: string, r: string)
    requires a + |piece| <= |s| && piece == s[a..a + |piece|]
    requires forall j :: a <= j < a + |piece| ==> !OccursAt(s, sep, j)
    requires a + |piece| == |s| || OccursAt(s, sep, a + |piece|)
    requires |r| <= |piece| && r == piece[..|r|]
    requires forall k :: 0 <= k < |r| ==> piece[k] != c
    requires |r| == |piece| || piece[|r|] == c
    ensures IsCut(s, sep, c, a, r)
  {
    forall j | a <= j < a + |r| ensures s[j] != c {
      assert s[j] == piece[j - a];
    }
    if |r| < |piece| {
      assert s[a + |r|] == piece[|r|];
    }
  }

  /**
   * `s.split(sep)[1].split(c)[0]`: the text after the first occurrence of
   * `sep`, up to the first `c` or the next occurrence of `sep`, whichever
   * comes first, or to the end.
   */
  lemma SecondPieceCut(s: string, sep: string, c: char, i: nat)
    requires |sep| > 0 && IndexOf(s, sep, 0) == Some(i)
    ensures |Split(s, sep)| >= 2
    ensures IsCut(s, sep, c, i + |sep|, Split(Split(s, sep)[1], [c])[0])
  {
    SecondPiece(s, sep, i);
    var piece := Split(s, sep)[1];
    CutFrom(s, sep, c, i + |sep|, piece, Split(piece, [c])[0]);
  }

  /** The first piece at `c` of the piece of `s` that starts at `a`. */
  lemma CutFrom(s: string, sep: string, c: char, a: nat, piece: string, r: string)
    requires |sep| > 0 && a <= |s|
    requires piece == SplitFrom(s, sep, a)[0] && r == Split(piece, [c])[0]
    ensures IsCut(s, sep, c, a, r)
  {
    FirstPieceFrom(s, sep, a);
    FirstPieceBeforeChar(piece, c);
    CutOfStretch(s, sep, c, a, piece, r);
  }

  /** Where a join starts at `p` in `s`: its first piece, then a `c` and the join of the rest, if any. */
  lemma JoinHead(s: string, c: char, p: nat, pieces: seq<string>)
    requires |pieces| >= 1 && p <= |s|
    requires c !in pieces[0]
    requires s[p..] == Join(pieces, [c])
    ensures var e := p + |pieces[0]|;
      && e <= |s| && s[p..e] == pieces[0]
      && (forall j :: p <= j < e ==> s[j] != c)
      && (e == |s| || s[e] == c)
      && (|pieces| > 1 ==> e < |s| && s[e + 1..] == Join(pieces[1..], [c]))
      && (|pieces| == 1 ==> s[p..] == pieces[0])
  {
    var p0 := pieces[0];
    var e := p + |p0|;
    if |pieces| > 1 {
      assert s[p..] == p0 + [c] + Join(pieces[1..], [c]);
      assert s[p..][|p0|] == c;
      assert s[p..e] == s[p..][..|p0|];
      assert s[e + 1..] == s[p..][|p0| + 1..];
    } else {
      assert s[p..e] == s[p..];
    }
    forall j | p <= j < e ensures s[j] != c {
      assert s[j] == s[p..e][j - p];
    }
  }

  /** Splitting a join at a character that no piece contains gives back the pieces. */
  lemma {:induction false} SplitJoinAt(s: string, c: char, p: nat, pieces: seq<string>)
    requires |pieces| >= 1 && p <= |s|
    requires forall i :: 0 <= i < |pieces| ==> c !in pieces[i]
    requires s[p..] == Join(pieces, [c])
    ensures SplitFrom(s, [c], p) == pieces
    decreases |pieces|
  {
    if |pieces| == 1 {
      SplitJoinLast(s, c, p, pieces);
    } else {
      var next := p + |pieces[0]| + 1;
      SplitJoinStep(s, c, p, pieces, next);
      SplitJoinAt(s, c, next, pieces[1..]);
      HeadTail(pieces);
    }
  }

  /** The last piece of a join is the last piece of its split. */
  lemma SplitJoinLast(s: string, c: char, p: nat, pieces: seq<string>)
    requires |pieces| == 1 && p <= |s|
    requires c !in pieces[0]
    requires s[p..] == Join(pieces, [c])
    ensures SplitFrom(s, [c], p) == pieces
  {
    JoinHead(s, c, p, pieces);
    IndexOfChar(s, c, p, p + |pieces[0]|);
    SplitFromEnd(s, [c], p);
    Singleton(pieces);
  }

  /** The first piece of a join of several pieces is the first piece of its split, and the split goes on after the `c`. */
  lemma SplitJoinStep(s: string, c: char, p: nat, pieces: seq<string>, next: nat)
    requires |pieces| > 1 && p <= |s|
    requires c !in pieces[0]
    requires s[p..] == Join(pieces, [c])
    requires next == p + |pieces[0]| + 1
    ensures next <= |s| && s[next..] == Join(pieces[1..], [c])
    ensures SplitFrom(s, [c], p) == [pieces[0]] + SplitFrom(s, [c], next)
  {
    var e := p + |pieces[0]|;
    JoinHead(s, c, p, pieces);
    IndexOfChar(s, c, p, e);
    SplitFromStep(s, [c], p, e, next);
  }

  lemma SplitJoin(pieces: seq<string>, c: char)
    requires |pieces| >= 1
    requires forall i :: 0 <= i < |pieces| ==> c !in pieces[i]
    ensures Split(Join(pieces, [c]), [c]) == pieces
  {
    var s := Join(pieces, [c]);
    assert s[0..] == s;
    SplitJoinAt(s, c, 0, pieces);
  }
}
