# YouTube link resolver — a Dafny model

This project models the link-resolving core of the music bot's YouTube
utilities (`src/DJ/youtubeUtils.ts`). It has four parts:

- **Video-id extractor.** The regular expression `regexURL`, plus the check
  that its seventh group is exactly 11 characters long.
- **Dispatcher.** `getSongs` decides between a playlist link and a
  single-video link. For a playlist link it cuts the playlist id out of the
  URL with `split`.
- **Pagination.** `getPlaylist` walks a playlist page by page and maps every
  looked-up video to a `Song` with a canonical watch URL.
- **Timestamp.** `getTimestamp` picks one display format from the total
  duration and writes both durations in it, joined by `/`.

The YouTube Data API is not modelled as a service. Its two endpoints are
abstract function parameters:

- the page source `Playlist.PageSource` stands for `playlistItems.list`;
- the batch lookup `Songs.VideoLookup` stands for `videos.list`.

Modules:

| module | file | what it holds |
|---|---|---|
| `Wrappers` | `Wrappers.dfy` | `Option` |
| `Text` | `Text.dfy` | ECMAScript `indexOf`, `includes`, `split` with a string separator (ECMA-262, sections 22.1.3.9, 22.1.3.8 and 22.1.3.23), with `Join` as the inverse of `split` |
| `VideoId` | `VideoId.dfy` | the meaning of `regexURL` under ECMA-262 section 22.2 backtracking semantics, and the 11-character check |
| `Songs` | `Songs.dfy` | the `Song` record, `songFromURL`, and the round trip of the canonical watch URL through the extractor |
| `Playlist` | `Playlist.dfy` | `getPlaylist` over an abstract page source |
| `Dispatch` | `Dispatch.dfy` | `getSongs` and the playlist id |
| `Timestamp` | `Timestamp.dfy` | `getTimestamp` over whole-millisecond durations |

Notes on how the model reads the code:

- **Which marker wins.** The greedy `^.*` stays within the first line. So the
  match uses the marker that starts furthest right on the first line (modelled
  by `VideoId.LastMarkerBefore` and `VideoId.LineEnd`).
- **After the marker.** Each of the optional `?`, `v` and `=` is taken when it
  is present. Group 7 is the longest following run of characters outside
  `#&?`, and that run may cross a line terminator.
- **`getPlaylist` termination.** Nothing in the code guarantees that the
  recursion ends. The model therefore takes a bound `n` and requires that the
  token chain becomes falsy within `n` pages (`Playlist.EndsWithin`).
  `Playlist.BoundIrrelevant` shows that the result does not depend on `n`.
- **The `"first"` token.** It is compared at every level of the recursion, as
  in the code. A next-page token that happens to be the string `"first"`
  would also be sent as a null token.
- **An empty lookup.** When `videos.list` returns no items, `items[0]` is
  `undefined`, so `songFromURL` returns `null`. The model returns `None`.

## Model

| member | source | states |
|---|---|---|
| VideoId.MarkerEnd | src/DJ/youtubeUtils.ts:9 | one of the five alternatives `youtu.be/`, `v/`, `/u/\w/`, `embed/`, `watch?` matches at index k exactly when an end position exists, and that end lies after k and within the string |
| VideoId.MarkersExclusive | src/DJ/youtubeUtils.ts:9 | at most one of the five alternatives can match at any index |
| VideoId.MarkerFirstChar | src/DJ/youtubeUtils.ts:9 | every marker starts with `y`, `v`, `/`, `e` or `w` |
| VideoId.MarkerLastChar | src/DJ/youtubeUtils.ts:9 | every marker ends with `/` or `?` |
| VideoId.NoMarkerInPlainText | src/DJ/youtubeUtils.ts:9 | text without `/` and `?` contains no marker |
| VideoId.LineEnd | src/DJ/youtubeUtils.ts:9 | no character before the result is a line terminator (\n, \r, U+2028, U+2029), and the result is the length or a line terminator's index |
| VideoId.LastMarkerBefore | src/DJ/youtubeUtils.ts:9 | the result is a marker start below k with no marker start between it and k; None means no marker starts below k |
| VideoId.CaptureStart | src/DJ/youtubeUtils.ts:9 | group 7 starts between 0 and 3 characters after the marker, and within the string |
| VideoId.RunEnd | src/DJ/youtubeUtils.ts:9 | the run from p contains no `#`, `&` or `?`, and it stops at the end of the string or at one of those characters |
| VideoId.Group7 | src/DJ/youtubeUtils.ts:9 | group 7 never contains `#`, `&` or `?` |
| VideoId.Group7Matches | src/DJ/youtubeUtils.ts:9 | the pattern matches exactly when some marker starts on the first line |
| VideoId.NoMarkerNoId | src/DJ/youtubeUtils.ts:9 | with no marker on the first line there is no id |
| VideoId.RightmostMarkerCapture | src/DJ/youtubeUtils.ts:9 | when k is the rightmost marker on the first line, group 7 is the longest run of characters outside `#&?` that starts after the marker and the optional `?`, `v` and `=` |
| VideoId.GreedyRunUnique | src/DJ/youtubeUtils.ts:9 | each start index has only one longest run |
| VideoId.ExtractId | src/DJ/youtubeUtils.ts:72-76 | an id is exactly 11 characters with no `#&?`, and it is group 7; no id means the pattern did not match or group 7 does not have 11 characters |
| Songs.ToSongRoundTrip | src/DJ/youtubeUtils.ts:43 | a song's URL is a canonical watch URL whose id is the record's id; title, duration and thumbnail are copied unchanged |
| Songs.ToSong | src/DJ/youtubeUtils.ts:43 | the song's URL is a canonical watch URL from which `WatchUrlId` gives back the record's id |
| Songs.SongsOf | src/DJ/youtubeUtils.ts:42-44 | one song per record, in the provider's order, each song built from its record |
| Songs.SongFromUrl | src/DJ/youtubeUtils.ts:88-93 | there is a song exactly when an id is extracted and the lookup of that one id is non-empty; the song is built from the first record returned |
| Songs.NoIdNoLookup | src/DJ/youtubeUtils.ts:72-81 | without an id the result is None whatever the provider returns, so the provider is not consulted |
| Songs.WatchUrlLastMarker | src/DJ/youtubeUtils.ts:8-9 | in prefix + id + trailer, `watch?` at index 24 is a marker and no marker starts after it |
| Songs.WatchUrlRoundTrip | src/DJ/youtubeUtils.ts:8-9 | the extractor gives back the id (11 word characters or `-`) from the canonical URL the resolver builds, followed by a tail that is empty or starts with `#` or `&`, with no `/` or `?` anywhere in the tail |
| Songs.SongFromCanonicalUrl | src/DJ/youtubeUtils.ts:88-93 | when the lookup of an id returns that video first, resolving its canonical URL gives the song built from that record, and the song's URL is the same canonical URL |
| Playlist.EndsWithinMonotonic | src/DJ/youtubeUtils.ts:11-47 | a token chain that ends within n pages also ends within any larger bound |
| Playlist.FalsyTokenConsultsNoPage | src/DJ/youtubeUtils.ts:13-14 | a null or empty token gives no songs and requests no page |
| Playlist.FirstRequestsNullToken | src/DJ/youtubeUtils.ts:15-26 | the `"first"` sentinel requests this playlist's first page with a null token, 50 results at a time |
| Playlist.RequestFor | src/DJ/youtubeUtils.ts:15-26 | a request names the playlist with page size 50; its token is null exactly when the given token is null or the `"first"` sentinel, and any other token is passed through unchanged |
| Playlist.RequestsWellFormed | src/DJ/youtubeUtils.ts:20-26 | every request is for the same playlist with page size 50 and a null or non-empty token, and at most n requests are made |
| Playlist.BoundIrrelevant | src/DJ/youtubeUtils.ts:11-47 | any two bounds under which the chain ends give the same songs and the same requests |
| Playlist.GetPlaylist | src/DJ/youtubeUtils.ts:11-47 | computes `getPlaylist` under the termination bound; it has no contract of its own and is characterised by Playlist.FalsyTokenConsultsNoPage, Playlist.PlaylistIsPagesInOrder, Playlist.BoundIrrelevant, Playlist.PlaylistUrlsAreWatchUrls and Playlist.CompletePlaylistKeepsMembers |
| Playlist.PageSongs | src/DJ/youtubeUtils.ts:36-44 | one song list per request: the songs of the lookup of that page's member ids |
| Playlist.PlaylistIsPagesInOrder | src/DJ/youtubeUtils.ts:42-46 | the playlist is the concatenation, in request order, of every requested page's songs |
| Playlist.PlaylistUrlsAreWatchUrls | src/DJ/youtubeUtils.ts:42-44 | every song of a playlist has a canonical watch URL |
| Playlist.CompletePlaylistKeepsMembers | src/DJ/youtubeUtils.ts:30-46 | when the lookup returns every requested video, the playlist has one song per member, in membership order, each at `prefix + member id` |
| Dispatch.PlaylistIdSpec | src/DJ/youtubeUtils.ts:106-107 | the playlist id is the text of the URL after the first `/playlist?list=`. It stops at the first `&`, the next `/playlist?list=` or the end, whichever comes first, and contains none of them |
| Dispatch.PlaylistId | src/DJ/youtubeUtils.ts:106-107 | computes `url.split('/playlist?list=')[1].split('&')[0]` with Text.Split; it has no contract of its own and is characterised by Dispatch.PlaylistIdSpec, Dispatch.PlaylistIdNoAmpersand and Dispatch.PlaylistIdNoMarker |
| Dispatch.PlaylistIdNoAmpersand | src/DJ/youtubeUtils.ts:107 | the playlist id contains no `&` |
| Dispatch.PlaylistIdNoMarker | src/DJ/youtubeUtils.ts:106-107 | the playlist id contains no `/playlist?list=` |
| Dispatch.GetSongs | src/DJ/youtubeUtils.ts:104-111 | the playlist path is taken exactly when the URL contains `/playlist?list=`, and then the result is the playlist from the `"first"` token; otherwise the result is the single-video result |
| Dispatch.PlaylistLinkFirstRequest | src/DJ/youtubeUtils.ts:105-108 | a playlist link first requests the cut playlist id with a null token |
| Text.IndexOf | src/DJ/youtubeUtils.ts:105 | the result is the first occurrence at or after `from`; None exactly when there is none |
| Text.Includes | src/DJ/youtubeUtils.ts:105 | true exactly when the separator occurs somewhere |
| Text.Split | src/DJ/youtubeUtils.ts:106 | always yields at least one piece, so `[0]` is defined; Text.JoinSplit, Text.SplitJoin, Text.SplitPiecesAvoidSeparator and Text.SecondPieceCut characterise the pieces |
| Text.JoinSplit | src/DJ/youtubeUtils.ts:106 | joining the pieces of a split with the separator gives back the string |
| Text.SplitPiecesAvoidSeparator | src/DJ/youtubeUtils.ts:106-107 | no piece of a split contains the separator |
| Text.SecondPieceCut | src/DJ/youtubeUtils.ts:106-107 | `s.split(sep)[1].split(c)[0]` is the stretch after the first `sep`, up to the first `c`, the next `sep` or the end |
| Timestamp.FieldsValue | src/DJ/youtubeUtils.ts:118 | read in base 60, the fields give the duration's whole seconds |
| Timestamp.ChooseFormat | src/DJ/youtubeUtils.ts:117 | `hh:mm:ss` is chosen exactly when the total holds at least one whole hour, `mm:ss` otherwise |
| Timestamp.Pad2 | src/DJ/youtubeUtils.ts:118 | each field is written as two or more decimal digits |
| Timestamp.Render | src/DJ/youtubeUtils.ts:118 | computes `toFormat` as the padded fields joined by `:`; it has no contract of its own and is characterised by Timestamp.RenderFields, Timestamp.RenderRoundTrip and Timestamp.RenderWithoutSlash |
| Timestamp.RenderFields | src/DJ/youtubeUtils.ts:118 | a rendered duration splits at `:` into its padded fields |
| Timestamp.RenderRoundTrip | src/DJ/youtubeUtils.ts:118 | a rendered duration has 2 fields for `mm:ss` and 3 for `hh:mm:ss`, and it reads back as the duration's whole seconds |
| Timestamp.RenderWithoutSlash | src/DJ/youtubeUtils.ts:118 | a rendered duration contains no `/` |
| Timestamp.TimestampHalves | src/DJ/youtubeUtils.ts:118 | the one `/` of a timestamp separates the elapsed and total halves, both in the format chosen from the total |
| Timestamp.GetTimestamp | src/DJ/youtubeUtils.ts:113-119 | computes `getTimestamp` on whole-millisecond durations; it has no contract of its own and is characterised by Timestamp.TimestampHalves, Timestamp.TimestampSharesFormat and the two worked examples below |
| Timestamp.TimestampSharesFormat | src/DJ/youtubeUtils.ts:117-118 | both halves have the same number of fields: 2 when the total is under one hour, 3 otherwise (exactly one hour included); each half reads back as its duration |
| Timestamp.OneHourShowsHours | src/DJ/youtubeUtils.ts:117-118 | 90 s into a one-hour track shows `00:01:30/01:00:00` |
| Timestamp.UnderAnHourShowsMinutes | src/DJ/youtubeUtils.ts:117-118 | 90 s into a track one millisecond under an hour shows `01:30/59:59` |

## Left out

- **The YouTube Data API calls.** `playlistItems.list`, `videos.list` and
  `search.list` (lines 20-26, 36-40 and 77-81, plus 50-56 and 61-65 inside `searchYT`) are network I/O. The first
  two are function parameters. A page source returns member ids directly
  instead of `items[].snippet.resourceId.videoId`.
- **The API key** (line 7). It is process configuration.
- **`searchYT`** (lines 49-69). It is two chained API calls with no logic of
  its own.
- **The commented-out `ytdl` fallback** (lines 94-101). It is dead code.
- **Response shapes.**
  - Responses with no `items` field are not modelled: a missing `res` (lines 82-84)
    and a missing `data.items` (lines 30, 42, 57 and 85). The lookup always
    answers with a list.
  - Runtime failures from indexing an empty response, at lines 60 and 67 in
    `searchYT`, are not modelled.
- **Async sequencing.** The order of `await`s has no observable effect on the
  result here.
- **The `Song` class.** It comes from `./musicClasses`, which is not part of
  this model. `Songs.Song` is a record of its four constructor arguments.
- **ISO-8601 parsing.** `Duration.fromISO` of the total (line 115) is not
  modelled, nor are invalid durations. Both durations are given as whole
  milliseconds.
- **Hour comparison.** `as('hours') < 1` is a floating-point comparison. It is
  modelled as the exact integer comparison with 3 600 000 ms.
- **Luxon's `toFormat`.** The model writes out the behaviour the code relies
  on: floored fields, at least two digits, and the largest unit unbounded. It
  is not taken from Luxon's source.
- **Playlist bound.** Playlists whose token chain never ends are outside the
  model.
  - Playlist.GetPlaylist: is defined only when the token chain ends within the
    bound `n`. `getPlaylist` would recurse forever on such a chain.
  - Dispatch.GetSongs: is defined only when the token chain ends within the
    bound `n`, for the same reason.
- **Character counting.** Dafny characters are Unicode scalar values, while
  JavaScript strings are UTF-16 code units.
  - VideoId.ExtractId: may differ from the 11-character check on input with
    astral characters, which are one character in the model and two in
    `match[7].length`.
  - VideoId.MarkerEnd: the unescaped `.` of `youtu.be` matches one code unit
    in JavaScript but one whole character in the model, so `youtu😀be/` is a
    marker here and none there.
  - Lone surrogates cannot be written as Dafny characters at all, so inputs
    holding them are outside the model.
- **Provider failures.** `PageSource` and `VideoLookup` are total functions,
  so a rejected API call (a network error or an exhausted quota) is not
  modelled.
- **Playback position.** `stream: number` is narrowed to a `nat` of
  milliseconds; negative or fractional playback times are outside the model.
