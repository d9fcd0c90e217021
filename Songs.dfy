/**
 * Songs and the single-video path: `songFromURL` and the part of
 * `getSongMetadata` that decides whether the provider is asked at all.
 * The provider's batch lookup (`videos.list`) is a function parameter.
 */
module Songs {
  import opened Wrappers
  import opened VideoId

  /** The fixed prefix of every canonical watch URL. */
  const PrependUrl: string := "https://www.youtube.com/watch?v="

  /** The fields of one `videos.list` item that a song is built from. */
  datatype VideoRecord = VideoRecord(id: string, title: string, duration: string, thumbnailUrl: string)

  /** A song as handed to the player: title, canonical URL, ISO-8601 duration, medium thumbnail. */
  datatype Song = Song(title: string, url: string, duration: string, thumbnailUrl: string)

  /** The provider's batch metadata lookup: the records it still has for the requested ids, in its own order. */
  type VideoLookup = seq<string> -> seq<VideoRecord>

  /** `new Song(item.snippet.title, prependURL + item.id, item.contentDetails.duration, item.snippet.thumbnails.medium.url)`. */
  function ToSong(item: VideoRecord): (song: Song)
    ensures IsWatchUrl(song.url) && WatchUrlId(song.url) == item.id
  {
    Song(item.title, PrependUrl + item.id, item.duration, item.thumbnailUrl)
  }

  /** `url` is a canonical watch URL: the fixed prefix followed by an id. */
  predicate IsWatchUrl(url: string) {
    |PrependUrl| <= |url| && url[..|PrependUrl|] == PrependUrl
  }

  /** The id at the end of a canonical watch URL. */
  function WatchUrlId(url: string): string
    requires IsWatchUrl(url)
  {
    url[|PrependUrl|..]
  }

  /** A song keeps the record's title, duration and thumbnail unchanged, and its URL gives back the record's id. */
  lemma ToSongRoundTrip(item: VideoRecord)
    ensures IsWatchUrl(ToSong(item).url) && WatchUrlId(ToSong(item).url) == item.id
    ensures ToSong(item).title == item.title && ToSong(item).duration == item.duration
    ensures ToSong(item).thumbnailUrl == item.thumbnailUrl
  {
    assert (PrependUrl + item.id)[..|PrependUrl|] == PrependUrl;
  }

  /** `items.map(item => new Song(...))`: one song per record, in the provider's order. */
  function SongsOf(items: seq<VideoRecord>): (songs: seq<Song>)
    ensures |songs| == |items|
    ensures forall i :: 0 <= i < |items| ==> songs[i] == ToSong(items[i])
  {
    if |items| == 0 then [] else [ToSong(items[0])] + SongsOf(items[1..])
  }

  /**
   * `songFromURL`: no song unless the extractor finds an id; otherwise the
   * provider is asked for that one id and the first record it returns becomes
   * the song (an empty answer makes `items[0]` undefined, hence no song).
   */
  function SongFromUrl(url: string, lookup: VideoLookup): (r: Option<Song>)
    ensures r.Some? <==> ExtractId(url).Some? && |lookup([ExtractId(url).value])| > 0
    ensures r.Some? ==> r.value == ToSong(lookup([ExtractId(url).value])[0])
  {
    match ExtractId(url)
    case None => None
    case Some(id) =>
      var items := lookup([id]);
      if |items| == 0 then None else Some(ToSong(items[0]))
  }

  /** When no id is extracted the provider is never consulted: the result is the same for every lookup. */
  lemma NoIdNoLookup(url: string, lookup1: VideoLookup, lookup2: VideoLookup)
    requires ExtractId(url).None?
    ensures SongFromUrl(url, lookup1) == SongFromUrl(url, lookup2) == None
  {
  }

  /** What YouTube itself uses as a video id: 11 characters from `A-Z a-z 0-9 _ -`. */
  predicate IsVideoId(id: string) {
    |id| == IdLength && forall i :: 0 <= i < |id| ==> IsWordChar(id[i]) || id[i] == '-'
  }

  /** The prefix is plain printable ASCII. */
  lemma PrefixPrintable(i: nat)
    requires i < |PrependUrl|
    ensures ' ' < PrependUrl[i] <= 'z'
  {
  }

  /** What may follow the id in a watch URL for the id still to be found: further parameters after `&` or `#`, with no `/` or `?`. */
  predicate IsTrailer(tail: string) {
    (|tail| == 0 || IsStopChar(tail[0])) && forall i :: 0 <= i < |tail| ==> tail[i] != '/' && tail[i] != '?'
  }

  /** The first line of a watch URL reaches past its id. */
  lemma WatchUrlLineEnd(id: string, tail: string)
    requires IsVideoId(id)
    ensures LineEnd(PrependUrl + id + tail) >= |PrependUrl| + |id|
  {
    var s := PrependUrl + id + tail;
    var n := |PrependUrl|;
    forall i | 0 <= i < n + |id| ensures !IsLineTerminator(s[i]) {
      if i >= n {
        assert s[i] == id[i - n];
        assert IsWordChar(id[i - n]) || id[i - n] == '-';
      } else {
        assert s[i] == PrependUrl[i];
        PrefixPrintable(i);
      }
    }
  }

  /** In a watch URL the marker `watch?` at index 24 is the last marker. */
  lemma WatchUrlLastMarker(id: string, tail: string)
    requires IsVideoId(id) && IsTrailer(tail)
    ensures WatchAt(PrependUrl + id + tail, 24)
    ensures forall j :: 24 < j < |PrependUrl + id + tail| ==> !MarkerAt(PrependUrl + id + tail, j)
  {
    var s := PrependUrl + id + tail;
    var n := |PrependUrl|;
    assert s[..n] == PrependUrl;
    assert s[24..30] == s[..n][24..30];
    WatchQueryHasNoMarker(s);
    forall i | n <= i < |s| ensures s[i] != '/' && s[i] != '?' {
      if i < n + |id| {
        assert s[i] == id[i - n];
        assert IsWordChar(id[i - n]) || id[i - n] == '-';
      } else {
        assert s[i] == tail[i - n - |id|];
      }
    }
    NoMarkerInPlainText(s, n);
  }

  /** After `watch?` no marker starts inside the query prefix `atch?v=` of a watch URL. */
  lemma WatchQueryHasNoMarker(s: string)
    requires |PrependUrl| <= |s| && s[..|PrependUrl|] == PrependUrl
    ensures forall j :: 24 < j < |PrependUrl| ==> !MarkerAt(s, j)
  {
    forall j | 24 < j < |PrependUrl| && MarkerAt(s, j) ensures false {
      assert s[j] == PrependUrl[j];
      MarkerFirstChar(s, j);
      assert j == 30;
      MarkerStartingWithV(s, j);
    }
  }

  /** In a watch URL group 7 starts right after `watch?v=`. */
  lemma WatchUrlCaptureStart(id: string, tail: string)
    requires IsVideoId(id)
    requires WatchAt(PrependUrl + id + tail, 24)
    ensures MarkerEnd(PrependUrl + id + tail, 24) == Some(30)
    ensures CaptureStart(PrependUrl + id + tail, 30) == |PrependUrl|
  {
    var s := PrependUrl + id + tail;
    MarkersExclusive(s, 24);
    assert s[30] == 'v' && s[31] == '=';
  }

  /**
   * The extractor recognises the canonical URL the resolver itself builds,
   * also with further parameters after the id, and gives back the id.
   */
  lemma WatchUrlRoundTrip(id: string, tail: string)
    requires IsVideoId(id) && IsTrailer(tail)
    ensures ExtractId(PrependUrl + id + tail) == Some(id)
  {
    var s := PrependUrl + id + tail;
    var n := |PrependUrl|;
    WatchUrlLineEnd(id, tail);
    WatchUrlLastMarker(id, tail);
    WatchUrlCaptureStart(id, tail);
    RightmostMarkerCapture(s, 24);
    var g := Group7(s).value;
    assert IsGreedyRun(s, n, id) by {
      assert s[n..n + |id|] == id;
      forall ch | ch in id ensures !IsStopChar(ch) {
        var i :| 0 <= i < |id| && id[i] == ch;
        assert IsWordChar(id[i]) || id[i] == '-';
      }
      if n + |id| < |s| {
        assert s[n + |id|] == tail[0];
      }
    }
    GreedyRunUnique(s, n, g, id);
  }

  /**
   * Resolving the canonical URL of a video asks the provider for that video,
   * and a provider that knows it yields a song with the same canonical URL.
   */
  lemma SongFromCanonicalUrl(id: string, lookup: VideoLookup)
    requires IsVideoId(id)
    requires |lookup([id])| > 0 && lookup([id])[0].id == id
    ensures SongFromUrl(PrependUrl + id, lookup) == Some(ToSong(lookup([id])[0]))
    ensures SongFromUrl(PrependUrl + id, lookup).value.url == PrependUrl + id
  {
    WatchUrlRoundTrip(id, "");
    assert PrependUrl + id + "" == PrependUrl + id;
  }
}
