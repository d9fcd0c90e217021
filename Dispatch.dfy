/**
 * `getSongs`: the dispatcher between the playlist path and the single-video
 * path, and the playlist id taken from the link with `split`.
 */
module Dispatch {
  import opened Wrappers
  import opened Text
  import opened Songs
  import opened Playlist

  /** The substring that marks a playlist link. */
  const PlaylistMarker: string := "/playlist?list="

  /** `url.split('/playlist?list=')[1].split('&')[0]`, for a URL that contains the marker. */
  function PlaylistId(url: string): string
    requires Includes(url, PlaylistMarker)
  {
    SecondPiece(url, PlaylistMarker, IndexOf(url, PlaylistMarker, 0).value);
    Split(Split(url, PlaylistMarker)[1], "&")[0]
  }

  /**
   * The playlist id is the text of the URL after the first marker, up to the
   * first `&` or the next marker, whichever comes first, or to the end.
   */
  lemma PlaylistIdSpec(url: string)
    requires Includes(url, PlaylistMarker)
    ensures var a := IndexOf(url, PlaylistMarker, 0).value + |PlaylistMarker|;
      var id := PlaylistId(url);
      && a + |id| <= |url|
      && url[a..a + |id|] == id
      && (forall i :: a <= i < a + |id| ==> url[i] != '&' && !OccursAt(url, PlaylistMarker, i))
      && (a + |id| == |url| || url[a + |id|] == '&' || OccursAt(url, PlaylistMarker, a + |id|))
  {
    assert "&" == ['&'];
    SecondPieceCut(url, PlaylistMarker, '&', IndexOf(url, PlaylistMarker, 0).value);
  }

  /** The playlist id contains no `&`. */
  lemma PlaylistIdNoAmpersand(url: string)
    requires Includes(url, PlaylistMarker)
    ensures '&' !in PlaylistId(url)
  {
    PlaylistIdSpec(url);
  }

  /** The playlist id contains no playlist marker. */
  lemma PlaylistIdNoMarker(url: string)
    requires Includes(url, PlaylistMarker)
    ensures forall k: nat :: !OccursAt(PlaylistId(url), PlaylistMarker, k)
  {
    PlaylistIdSpec(url);
    NoOccurrenceInside(url, PlaylistMarker, IndexOf(url, PlaylistMarker, 0).value + |PlaylistMarker|, PlaylistId(url));
  }

  /** What `getSongs` resolves to: the songs of a playlist, or at most one song. */
  datatype Resolution = PlaylistSongs(songs: seq<Song>) | SingleSong(song: Option<Song>)

  /**
   * `getSongs(url)`: a URL containing `/playlist?list=` is resolved as the
   * playlist it names, starting from the first page; any other input as a
   * single video. `n` bounds the length of the playlist's page chain.
   */
  function GetSongs(url: string, source: PageSource, lookup: VideoLookup, n: nat): (r: Resolution)
    requires Includes(url, PlaylistMarker) ==> EndsWithin(source, PlaylistId(url), Some(FirstPage), n)
    ensures r.PlaylistSongs? <==> exists i :: OccursAt(url, PlaylistMarker, i)
    ensures r.PlaylistSongs? ==> r.songs == GetPlaylist(source, lookup, PlaylistId(url), Some(FirstPage), n)
    ensures r.SingleSong? ==> r.song == SongFromUrl(url, lookup)
  {
    if Includes(url, PlaylistMarker) then
      PlaylistSongs(GetPlaylist(source, lookup, PlaylistId(url), Some(FirstPage), n))
    else
      SingleSong(SongFromUrl(url, lookup))
  }

  /** A playlist link starts with the first page of the named playlist, asked for with a null token. */
  lemma PlaylistLinkFirstRequest(url: string, source: PageSource, n: nat)
    requires Includes(url, PlaylistMarker)
    requires EndsWithin(source, PlaylistId(url), Some(FirstPage), n)
    ensures var rs := Requests(source, PlaylistId(url), Some(FirstPage), n);
      |rs| >= 1 && rs[0] == PageRequest(PlaylistId(url), None, PageSize)
  {
    FirstRequestsNullToken(source, PlaylistId(url), n);
  }
}
