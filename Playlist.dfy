/**
 * `getPlaylist`: the pagination over a playlist. The provider's
 * `playlistItems.list` is a page source from a request to one page of member
 * video ids and the next page token; `videos.list` is the batch lookup of
 * the Songs module. Both are function parameters.
 */
module Playlist {
  import opened Wrappers
  import opened Songs

  /** The sentinel token that asks for the first page. */
  const FirstPage: string := "first"

  /** `maxResults` of every membership request: the provider's largest page. */
  const PageSize: nat := 50

  /** A page token as JavaScript sees it: `None` is `null` or `undefined`. */
  type Token = Option<string>

  /** What one `playlistItems.list` call is asked for. */
  datatype PageRequest = PageRequest(playlistId: string, pageToken: Token, maxResults: nat)

  /** What one `playlistItems.list` call gives back: member ids in playlist order and the next page token. */
  datatype Page = Page(videoIds: seq<string>, nextPageToken: Token)

  type PageSource = PageRequest -> Page

  /** `!nextPageToken`: null, undefined and the empty string are falsy. */
  predicate Falsy(token: Token) {
    token.None? || token.value == ""
  }

  /** The request made for a truthy token: the start sentinel becomes a null token. */
  function RequestFor(playlist: string, token: Token): (r: PageRequest)
    ensures r.playlistId == playlist && r.maxResults == PageSize
    ensures r.pageToken.None? <==> token.None? || token == Some(FirstPage)
    ensures token != Some(FirstPage) ==> r.pageToken == token
  {
    PageRequest(playlist, if token == Some(FirstPage) then None else token, PageSize)
  }

  /** The page that follows a truthy token. */
  function NextToken(source: PageSource, playlist: string, token: Token): Token {
    source(RequestFor(playlist, token)).nextPageToken
  }

  /**
   * The chain of page tokens from `token` reaches a falsy token within `n`
   * pages. Nothing in `getPlaylist` guarantees this; it is what makes the
   * recursion end, and `n` serves only as its termination measure.
   */
  predicate EndsWithin(source: PageSource, playlist: string, token: Token, n: nat)
    decreases n
  {
    Falsy(token) || (n > 0 && EndsWithin(source, playlist, NextToken(source, playlist, token), n - 1))
  }

  /** A chain that ends within `n` pages ends within any larger number. */
  lemma {:induction false} EndsWithinMonotonic(source: PageSource, playlist: string, token: Token, n: nat, m: nat)
    requires EndsWithin(source, playlist, token, n) && n <= m
    ensures EndsWithin(source, playlist, token, m)
    decreases n
  {
    if !Falsy(token) {
      EndsWithinMonotonic(source, playlist, NextToken(source, playlist, token), n - 1, m - 1);
    }
  }

  /** The `playlistItems.list` requests made, in order. */
  function Requests(source: PageSource, playlist: string, token: Token, n: nat): seq<PageRequest>
    requires EndsWithin(source, playlist, token, n)
    decreases n
  {
    if Falsy(token) then []
    else [RequestFor(playlist, token)] + Requests(source, playlist, NextToken(source, playlist, token), n - 1)
  }

  /**
   * `getPlaylist(playlist, nextPageToken)`: nothing for a falsy token;
   * otherwise this page's songs, as the batch lookup returns them, followed
   * by the songs of the pages after it.
   */
  function GetPlaylist(source: PageSource, lookup: VideoLookup, playlist: string, token: Token, n: nat): seq<Song>
    requires EndsWithin(source, playlist, token, n)
    decreases n
  {
    if Falsy(token) then []
    else
      var page := source(RequestFor(playlist, token));
      SongsOf(lookup(page.videoIds)) + GetPlaylist(source, lookup, playlist, page.nextPageToken, n - 1)
  }

  /** A falsy token is the base case: no songs, and no page is requested. */
  lemma FalsyTokenConsultsNoPage(source: PageSource, lookup: VideoLookup, playlist: string, token: Token, n: nat)
    requires Falsy(token)
    ensures GetPlaylist(source, lookup, playlist, token, n) == []
    ensures Requests(source, playlist, token, n) == []
  {
  }

  /** The start sentinel requests the first page with a null token, of this playlist, fifty at a time. */
  lemma FirstRequestsNullToken(source: PageSource, playlist: string, n: nat)
    requires EndsWithin(source, playlist, Some(FirstPage), n)
    ensures |Requests(source, playlist, Some(FirstPage), n)| >= 1
    ensures Requests(source, playlist, Some(FirstPage), n)[0] == PageRequest(playlist, None, PageSize)
  {
  }

  /**
   * Every request is for the same playlist with the page size fixed at 50,
   * carries a null or non-empty token, and there are at most `n` of them.
   */
  lemma {:induction false} RequestsWellFormed(source: PageSource, playlist: string, token: Token, n: nat)
    requires EndsWithin(source, playlist, token, n)
    ensures |Requests(source, playlist, token, n)| <= n
    ensures forall r :: r in Requests(source, playlist, token, n) ==>
      r.playlistId == playlist && r.maxResults == PageSize && (r.pageToken.None? || r.pageToken.value != "")
    decreases n
  {
    if !Falsy(token) {
      RequestsWellFormed(source, playlist, NextToken(source, playlist, token), n - 1);
    }
  }

  /** The bound is a termination measure only: any bound under which the chain ends gives the same result. */
  lemma {:induction false} BoundIrrelevant(source: PageSource, lookup: VideoLookup, playlist: string, token: Token, n: nat, m: nat)
    requires EndsWithin(source, playlist, token, n) && EndsWithin(source, playlist, token, m)
    ensures GetPlaylist(source, lookup, playlist, token, n) == GetPlaylist(source, lookup, playlist, token, m)
    ensures Requests(source, playlist, token, n) == Requests(source, playlist, token, m)
    decreases n
  {
    if !Falsy(token) {
      BoundIrrelevant(source, lookup, playlist, NextToken(source, playlist, token), n - 1, m - 1);
    }
  }

  /** Concatenation of a sequence of song lists. */
  function Flatten<T>(parts: seq<seq<T>>): seq<T> {
    if |parts| == 0 then [] else parts[0] + Flatten(parts[1..])
  }

  /** The songs of each requested page, as the lookup resolves that page's ids. */
  function PageSongs(source: PageSource, lookup: VideoLookup, requests: seq<PageRequest>): (parts: seq<seq<Song>>)
    ensures |parts| == |requests|
    ensures forall i :: 0 <= i < |requests| ==> parts[i] == SongsOf(lookup(source(requests[i]).videoIds))
  {
    if |requests| == 0 then [] else [SongsOf(lookup(source(requests[0]).videoIds))] + PageSongs(source, lookup, requests[1..])
  }

  /**
   * The playlist is the concatenation, in request order, of the songs of
   * every page requested: pagination neither reorders nor drops pages.
   */
  lemma {:induction false} PlaylistIsPagesInOrder(source: PageSource, lookup: VideoLookup, playlist: string, token: Token, n: nat)
    requires EndsWithin(source, playlist, token, n)
    ensures GetPlaylist(source, lookup, playlist, token, n) == Flatten(PageSongs(source, lookup, Requests(source, playlist, token, n)))
    decreases n
  {
    if !Falsy(token) {
      var next := NextToken(source, playlist, token);
      var rs := Requests(source, playlist, next, n - 1);
      PlaylistIsPagesInOrder(source, lookup, playlist, next, n - 1);
      assert Requests(source, playlist, token, n) == [RequestFor(playlist, token)] + rs;
      assert ([RequestFor(playlist, token)] + rs)[1..] == rs;
    }
  }

  /** Every song of a playlist carries a canonical watch URL. */
  lemma {:induction false} PlaylistUrlsAreWatchUrls(source: PageSource, lookup: VideoLookup, playlist: string, token: Token, n: nat)
    requires EndsWithin(source, playlist, token, n)
    ensures forall song :: song in GetPlaylist(source, lookup, playlist, token, n) ==> IsWatchUrl(song.url)
    decreases n
  {
    if !Falsy(token) {
      var items := lookup(source(RequestFor(playlist, token)).videoIds);
      PlaylistUrlsAreWatchUrls(source, lookup, playlist, NextToken(source, playlist, token), n - 1);
      forall i | 0 <= i < |items| ensures IsWatchUrl(SongsOf(items)[i].url) {
        ToSongRoundTrip(items[i]);
      }
    }
  }

  /** The member ids of every page requested, in playlist order. */
  function MemberIds(source: PageSource, playlist: string, token: Token, n: nat): seq<string>
    requires EndsWithin(source, playlist, token, n)
    decreases n
  {
    if Falsy(token) then []
    else source(RequestFor(playlist, token)).videoIds + MemberIds(source, playlist, NextToken(source, playlist, token), n - 1)
  }

  /** A lookup that has every video: one record per requested id, in request order. */
  ghost predicate Complete(lookup: VideoLookup) {
    forall ids :: |lookup(ids)| == |ids| && forall i :: 0 <= i < |ids| ==> lookup(ids)[i].id == ids[i]
  }

  /**
   * With no removed videos the playlist has one song per member, in
   * membership order, each at the canonical URL of its member id.
   */
  lemma {:induction false} CompletePlaylistKeepsMembers(source: PageSource, lookup: VideoLookup, playlist: string, token: Token, n: nat)
    requires EndsWithin(source, playlist, token, n)
    requires Complete(lookup)
    ensures var songs := GetPlaylist(source, lookup, playlist, token, n);
      var ids := MemberIds(source, playlist, token, n);
      |songs| == |ids| && forall i :: 0 <= i < |ids| ==> songs[i].url == PrependUrl + ids[i]
    decreases n
  {
    if !Falsy(token) {
      var page := source(RequestFor(playlist, token));
      var next := page.nextPageToken;
      CompletePlaylistKeepsMembers(source, lookup, playlist, next, n - 1);
      var here: seq<Song> := SongsOf(lookup(page.videoIds));
      var rest: seq<Song> := GetPlaylist(source, lookup, playlist, next, n - 1);
      var restIds := MemberIds(source, playlist, next, n - 1);
      assert |here| == |page.videoIds|;
      forall i | 0 <= i < |page.videoIds| + |restIds|
        ensures (here + rest)[i].url == PrependUrl + (page.videoIds + restIds)[i]
      {
        if i < |page.videoIds| {
          assert here[i] == ToSong(lookup(page.videoIds)[i]);
        } else {
          assert (here + rest)[i] == rest[i - |here|];
        }
      }
    }
  }
}
