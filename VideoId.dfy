/**
 * The video-id extractor: the regular expression `regexURL` of the resolver
 * together with the 11-character check applied to its seventh group.
 *
 * The pattern is `^.*(M1|M2|M3|M4|M5)\??v?=?([^#&?]*).*` with the five
 * markers `youtu.be/`, `v/`, `/u/\w/`, `embed/` and `watch?`. Under the
 * backtracking semantics of ECMAScript regular expressions (ECMA-262,
 * section 22.2) the greedy `^.*` first tries the longest prefix of the first
 * line, so the match uses the marker that starts furthest right on the first
 * line. Everything after the marker is optional or starred, so the first
 * choice there never has to be undone: each of `?`, `v` and `=` is skipped
 * when present, and group 7 is the longest following run of characters
 * outside `#&?`. The model states this directly instead of running a regex
 * engine.
 */
module VideoId {
  import opened Wrappers

  /** Length of a video id: the only capture length that is accepted. */
  const IdLength: nat := 11

  /** ECMAScript line terminators (ECMA-262, section 12.3): `.` never matches these. */
  predicate IsLineTerminator(c: char) {
    c == '\n' || c == '\r' || c == '\U{2028}' || c == '\U{2029}'
  }

  /** The class `\w` outside unicode mode. */
  predicate IsWordChar(c: char) {
    ('a' <= c <= 'z') || ('A' <= c <= 'Z') || ('0' <= c <= '9') || c == '_'
  }

  /** Characters excluded by the class `[^#&?]` of group 7. */
  predicate IsStopChar(c: char) {
    c == '#' || c == '&' || c == '?'
  }

  /** Marker `youtu.be/`, whose `.` is unescaped: any character but a line terminator. */
  predicate YoutuBeAt(s: string, k: nat) {
    k + 9 <= |s| && s[k..k + 5] == "youtu" && !IsLineTerminator(s[k + 5]) && s[k + 6..k + 9] == "be/"
  }

  /** Marker `v/`. */
  predicate VSlashAt(s: string, k: nat) {
    k + 2 <= |s| && s[k..k + 2] == "v/"
  }

  /** Marker `/u/\w/`: one word character between slashes. */
  predicate UserAt(s: string, k: nat) {
    k + 5 <= |s| && s[k..k + 3] == "/u/" && IsWordChar(s[k + 3]) && s[k + 4] == '/'
  }

  /** Marker `embed/`. */
  predicate EmbedAt(s: string, k: nat) {
    k + 6 <= |s| && s[k..k + 6] == "embed/"
  }

  /** Marker `watch?`. */
  predicate WatchAt(s: string, k: nat) {
    k + 6 <= |s| && s[k..k + 6] == "watch?"
  }

  /** Some marker starts at index `k`. */
  predicate MarkerAt(s: string, k: nat) {
    YoutuBeAt(s, k) || VSlashAt(s, k) || UserAt(s, k) || EmbedAt(s, k) || WatchAt(s, k)
  }

  /** Where the marker that starts at `k` ends, trying the alternatives in the pattern's order. */
  function MarkerEnd(s: string, k: nat): (r: Option<nat>)
    ensures r.Some? <==> MarkerAt(s, k)
    ensures r.Some? ==> k < r.value <= |s|
  {
    if YoutuBeAt(s, k) then Some(k + 9)
    else if VSlashAt(s, k) then Some(k + 2)
    else if UserAt(s, k) then Some(k + 5)
    else if EmbedAt(s, k) then Some(k + 6)
    else if WatchAt(s, k) then Some(k + 6)
    else None
  }

  /** The five alternatives begin with different characters, so at most one matches at any index. */
  lemma MarkersExclusive(s: string, k: nat)
    ensures YoutuBeAt(s, k) ==> !VSlashAt(s, k) && !UserAt(s, k) && !EmbedAt(s, k) && !WatchAt(s, k)
    ensures VSlashAt(s, k) ==> !UserAt(s, k) && !EmbedAt(s, k) && !WatchAt(s, k)
    ensures UserAt(s, k) ==> !EmbedAt(s, k) && !WatchAt(s, k)
    ensures EmbedAt(s, k) ==> !WatchAt(s, k)
  {
    if k < |s| {
      FirstChar(s, k, 9, "youtu.be/");
      FirstChar(s, k, 2, "v/");
      FirstChar(s, k, 3, "/u/");
      FirstChar(s, k, 6, "embed/");
      FirstChar(s, k, 6, "watch?");
    }
  }

  /** A slice equal to a literal starts with the literal's first character. */
  lemma FirstChar(s: string, k: nat, n: nat, lit: string)
    requires k < |s| && 0 < n <= |lit|
    ensures k + n <= |s| && s[k..k + n] == lit[..n] ==> s[k] == lit[0]
  {
    if k + n <= |s| && s[k..k + n] == lit[..n] {
      assert s[k..k + n][0] == lit[..n][0];
    }
  }

  /** The first line terminator of `s`, or `|s|`: how far the leading `.*` can reach. */
  function LineEnd(s: string): (e: nat)
    ensures e <= |s|
    ensures forall i :: 0 <= i < e ==> !IsLineTerminator(s[i])
    ensures e < |s| ==> IsLineTerminator(s[e])
  {
    if |s| == 0 || IsLineTerminator(s[0]) then 0 else 1 + LineEnd(s[1..])
  }

  /** The greedy backtracking of `^.*`: the largest index below `k` where a marker starts. */
  function LastMarkerBefore(s: string, k: nat): (r: Option<nat>)
    ensures r.Some? ==> r.value < k && MarkerAt(s, r.value)
    ensures r.Some? ==> forall j :: r.value < j < k ==> !MarkerAt(s, j)
    ensures r.None? ==> forall j :: 0 <= j < k ==> !MarkerAt(s, j)
  {
    if k == 0 then None
    else if MarkerEnd(s, k - 1).Some? then Some(k - 1)
    else LastMarkerBefore(s, k - 1)
  }

  /** The greedy `\??`, `v?` or `=?`: step over `c` when it is next. */
  function SkipIf(s: string, p: nat, c: char): nat
    requires p <= |s|
  {
    if p < |s| && s[p] == c then p + 1 else p
  }

  /** Where group 7 starts, after a marker ending at `m`. */
  function CaptureStart(s: string, m: nat): (p: nat)
    requires m <= |s|
    ensures m <= p <= m + 3 && p <= |s|
  {
    SkipIf(s, SkipIf(s, SkipIf(s, m, '?'), 'v'), '=')
  }

  /** The greedy `[^#&?]*`: where the run of non-stop characters from `p` ends. */
  function RunEnd(s: string, p: nat): (e: nat)
    requires p <= |s|
    ensures p <= e <= |s|
    ensures forall i :: p <= i < e ==> !IsStopChar(s[i])
    ensures e == |s| || IsStopChar(s[e])
    decreases |s| - p
  {
    if p == |s| || IsStopChar(s[p]) then p else RunEnd(s, p + 1)
  }

  /** `match[7]` of `url.match(regexURL)`, or None when the pattern does not match. */
  function Group7(s: string): (r: Option<string>)
    ensures r.Some? ==> forall c :: c in r.value ==> !IsStopChar(c)
  {
    match LastMarkerBefore(s, LineEnd(s) + 1)
    case None => None
    case Some(k) =>
      var p := CaptureStart(s, MarkerEnd(s, k).value);
      Some(s[p..RunEnd(s, p)])
  }

  /**
   * The id check of `getSongMetadata`: the seventh group when the pattern
   * matches and that group has exactly 11 characters, nothing otherwise.
   */
  function ExtractId(s: string): (r: Option<string>)
    ensures r.Some? ==> |r.value| == IdLength && forall c :: c in r.value ==> !IsStopChar(c)
    ensures r.Some? ==> Group7(s) == r
    ensures r.None? ==> Group7(s).None? || |Group7(s).value| != IdLength
  {
    match Group7(s)
    case Some(candidate) => if |candidate| == IdLength then Some(candidate) else None
    case None => None
  }

  /** Every marker starts with one of `y`, `v`, `/`, `e`, `w`. */
  lemma MarkerFirstChar(s: string, k: nat)
    requires MarkerAt(s, k)
    ensures k < |s| && (s[k] == 'y' || s[k] == 'v' || s[k] == '/' || s[k] == 'e' || s[k] == 'w')
  {
    if YoutuBeAt(s, k) {
      assert s[k..k + 5][0] == s[k];
    } else if VSlashAt(s, k) {
      assert s[k..k + 2][0] == s[k];
    } else if UserAt(s, k) {
      assert s[k..k + 3][0] == s[k];
    } else {
      assert s[k..k + 6][0] == s[k];
    }
  }

  /** Every marker ends with `/` or `?`. */
  lemma MarkerLastChar(s: string, k: nat)
    requires MarkerAt(s, k)
    ensures var e := MarkerEnd(s, k).value; s[e - 1] == '/' || s[e - 1] == '?'
  {
    if YoutuBeAt(s, k) {
      assert s[k + 6..k + 9][2] == s[k + 8];
    } else if VSlashAt(s, k) {
      assert s[k..k + 2][1] == s[k + 1];
    } else if UserAt(s, k) {
    } else {
      assert s[k..k + 6][5] == s[k + 5];
    }
  }

  /** A marker that starts with `v` is `v/`. */
  lemma MarkerStartingWithV(s: string, k: nat)
    requires MarkerAt(s, k) && s[k] == 'v'
    ensures VSlashAt(s, k) && s[k + 1] == '/'
  {
    if VSlashAt(s, k) {
      assert s[k..k + 2][1] == s[k + 1];
    }
  }

  /** Text without `/` and `?` holds no marker, since every marker ends with one of them. */
  lemma NoMarkerInPlainText(s: string, from: nat)
    requires forall i :: from <= i < |s| ==> s[i] != '/' && s[i] != '?'
    ensures forall j :: from <= j < |s| ==> !MarkerAt(s, j)
  {
    forall j | from <= j < |s| && MarkerAt(s, j) ensures false {
      MarkerLastChar(s, j);
    }
  }

  /** No marker can start at the first line terminator, so the `.*` of the pattern never has to reach past it. */
  lemma NoMarkerAtLineEnd(s: string)
    ensures !MarkerAt(s, LineEnd(s))
  {
    if MarkerAt(s, LineEnd(s)) {
      MarkerFirstChar(s, LineEnd(s));
    }
  }

  /** The pattern matches exactly when some marker starts on the first line of the input. */
  lemma Group7Matches(s: string)
    ensures Group7(s).Some? <==> exists j :: 0 <= j < LineEnd(s) && MarkerAt(s, j)
  {
    NoMarkerAtLineEnd(s);
    var r := LastMarkerBefore(s, LineEnd(s) + 1);
    if r.Some? {
      assert 0 <= r.value < LineEnd(s) && MarkerAt(s, r.value);
    }
  }

  /** Without a marker on the first line there is no video id. */
  lemma NoMarkerNoId(s: string)
    requires forall j :: 0 <= j < LineEnd(s) ==> !MarkerAt(s, j)
    ensures ExtractId(s).None?
  {
    Group7Matches(s);
  }

  /** `c` is the longest run of characters outside `#&?` that starts at index `p` of `s`. */
  ghost predicate IsGreedyRun(s: string, p: nat, c: string) {
    && p + |c| <= |s|
    && s[p..p + |c|] == c
    && (forall ch :: ch in c ==> !IsStopChar(ch))
    && (p + |c| == |s| || IsStopChar(s[p + |c|]))
  }

  /**
   * With `k` the rightmost marker on the first line, group 7 is the greedy run
   * that follows the marker and the optional `?`, `v` and `=`.
   */
  lemma RightmostMarkerCapture(s: string, k: nat)
    requires k < LineEnd(s) && MarkerAt(s, k)
    requires forall j :: k < j < LineEnd(s) ==> !MarkerAt(s, j)
    ensures Group7(s).Some?
    ensures IsGreedyRun(s, CaptureStart(s, MarkerEnd(s, k).value), Group7(s).value)
  {
    NoMarkerAtLineEnd(s);
    var r := LastMarkerBefore(s, LineEnd(s) + 1);
    assert r == Some(k);
    var p := CaptureStart(s, MarkerEnd(s, k).value);
    var c := s[p..RunEnd(s, p)];
    assert Group7(s) == Some(c);
    forall ch | ch in c ensures !IsStopChar(ch) {
      var i :| 0 <= i < |c| && c[i] == ch;
      assert c[i] == s[p + i];
    }
  }

  /** The greedy run is unique: there is one longest run at each index. */
  lemma {:induction false} GreedyRunUnique(s: string, p: nat, c: string, d: string)
    requires IsGreedyRun(s, p, c) && IsGreedyRun(s, p, d)
    ensures c == d
  {
  }
}
