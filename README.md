# YT Music Downloader bot, modelled in Dafny

A Telegram bot downloads the audio of YouTube videos as M4A files, tags
them, and sends them to the chat. A single video link gets one file. A
playlist link gets a track picker: a Telegram Mini App whose address carries
the track list. The tracks picked there are then downloaded one by one.

This project models the logic of `bot.py` and `downloader.py` that decides
what happens:

- who may use the bot (the `ALLOWED_USERS` allow-list);
- which handler a message reaches;
- how durations are shown;
- how a video title is split into performer and title;
- the per-user playlist cache, the selection filter and the limit on the
  picker address;
- the batch loop and the single-video handler, with the file size limit;
- how lyrics search terms are cleaned and which lyrics text is preferred;
- the thumbnail address;
- how the M4A tags are updated and the cover is cropped and shrunk;
- the download progress hook and its ten-point throttle.

Downloads, HTTP, image decoding, the MP4 library and the Telegram chat are
not modelled. Their results are inputs: a lookup function, a fetched image
or its error, the extractor's answer, the hook's status updates, and one
outcome per download. The handlers produce a log of what the bot does with
files and messages.

Modules, one per file:

| file | module | models |
|---|---|---|
| `wrappers.dfy` | `Wrappers` | `Option` and `Result` |
| `text.dfy` | `Text` | Python's `str.strip`, `in`, `str.split`, `int()` and decimal formatting, on `seq<char>` |
| `access.dfy` | `Access`, `AccessExamples` | `ALLOWED_USERS` and `is_allowed` |
| `routing.dfy` | `Routing` | URL tests and the order in which handlers are registered |
| `duration.dfy` | `Duration` | `format_duration` |
| `titles.dfy` | `Titles` | the "Artist - Title" split |
| `lyrics.dfy` | `Lyrics` | `fetch_lyrics`: the cleaning regex, the query, the preference |
| `videoinfo.dfy` | `VideoInfo` | `get_video_info` |
| `cover.dfy` | `Cover` | the cover's mode conversion, crop, shrink and encoding |
| `metadata.dfy` | `Metadata` | `embed_metadata` on the file's tag map (class `AudioFile`) |
| `progress.dfy` | `Progress` | `download_audio`'s progress hook (class `ProgressHook`) |
| `playlist.dfy` | `Playlist` | `playlist_cache` (class `PlaylistCache`), `handle_playlist_url`, the selection |
| `delivery.dfy` | `Delivery` | the batch in `handle_web_app_data`, `handle_youtube_url`, the size limit |

The progress throttle starts from `last_percent = -1` and reports a
percentage only when it is at least ten over the last one reported: raw
percentages 3, 7, 11, 15, 22, 31 report 11 and 22 (`Progress.ExampleThrottle`).
The picker limit is one check of the whole picker address against 2048
characters; a longer list is refused, not cut down.

## Model

| member | source | states |
|---|---|---|
| Text.Trim | bot.py:26 | `str.strip()`: the result has no whitespace at either end and is no longer than the input |
| Text.TrimDecomposes | bot.py:26 | the stripped text is the infix that is left after removing only whitespace from each end |
| Text.TrimSurrounded | bot.py:26 | stripping whitespace that surrounds a trimmed core gives back exactly that core |
| Text.TrimOfTrimmed | bot.py:26 | text with no whitespace at either end is left unchanged by stripping |
| Text.TrimIdempotent | bot.py:26 | stripping twice gives the same result as stripping once |
| Text.Find | bot.py:86 | the first index where the pattern occurs; no earlier index matches; `None` only when it occurs nowhere |
| Text.ContainsIff | bot.py:86 | the substring test `pat in s` holds exactly when the pattern occurs at some index |
| Text.ContainsInfix | bot.py:86 | a string built around the pattern contains it |
| Text.Split | bot.py:26 | `str.split(',')`: at least one part, and no part holds the separator |
| Text.JoinSplit | bot.py:26 | joining the parts of a split with the separator gives back the original string |
| Text.SplitJoin | bot.py:26 | splitting the join of separator-free parts gives back exactly those parts |
| Text.NatToDec | bot.py:126 | decimal digits with no leading zero |
| Text.DecValueOfNatToDec | bot.py:126 | the decimal digits have the value of the number |
| Text.ParseInt | bot.py:26 | `int()` succeeds only on non-empty text made of digits and at most one leading sign |
| Text.DecValueLeadingZeros | bot.py:26 | leading zeros do not change the value of a digit string |
| Text.SignedDigits | bot.py:26 | a digit string, bare or after `+` or `-`, reads as its value, negated after `-` |
| Text.ParseIntAccepts | bot.py:26 | `int()` accepts an optional `+` or `-`, any number of leading zeros and the digits of a number (`+5`, `007`, `-0`), giving the number, negated after `-` |
| Text.ParseIntRejects | bot.py:26 | `int()` rejects any text holding a character that is neither a digit nor a sign in front of digits (`5x`, `-`, `1-2`) |
| Text.IntToDecRoundTrip | bot.py:26 | `int()` of the decimal rendering of any integer, negative ones included, gives the integer back |
| Access.ParseIdsFails | bot.py:26 | building the allow-list fails exactly when some non-blank segment is not an integer |
| Access.ParseIdsMembers | bot.py:26 | after a successful parse, an id is in the set exactly when some stripped segment reads as that id |
| Access.ParseBlankSegments | bot.py:26 | segments that are all blank give the empty set |
| Access.SegmentsOfSpaces | bot.py:26 | every segment of a string made of whitespace and commas is whitespace |
| Access.BlankAdmitsEveryone | bot.py:24-26 | a string of whitespace and commas gives an empty allow-list, and the empty allow-list admits every user |
| Access.AdmittedIffListed | bot.py:77-81 | with a non-empty allow-list, a user is admitted exactly when some segment of the string names their id |
| Access.FormattedListRoundTrip | bot.py:24-26 | parsing any non-empty list of ids written as `"a,b,c"` gives exactly the set of those ids |
| Access.ParseIdsSkipsBlank | bot.py:26 | a blank segment contributes nothing |
| Access.ParseIdsAddsId | bot.py:26 | a segment naming an id adds that id to the ids of the other segments |
| AccessExamples.ExampleList | bot.py:24-26 | `"1, 2,,3"` gives `{1, 2, 3}` |
| Routing.CommandName | bot.py:94 | the command name is the longest prefix of the text with no whitespace and no `@`: it runs up to the first whitespace, the first `@`, or the end |
| Routing.TextRouting | bot.py:84-91 | for a text that is not `/start` or `/help`: the playlist handler exactly for playlist links, the video handler exactly for other YouTube links, and the catch-all exactly for texts without a YouTube host; every playlist link is a YouTube link |
| Routing.ExclusionIsRedundant | bot.py:328 | the video filter's `not is_playlist_url` never changes the handler a message reaches, because the playlist handler is registered earlier |
| Routing.PlaylistLinkRouted | bot.py:129 | any non-command text with a YouTube host followed by `list=` reaches the playlist handler |
| Routing.NonYoutubeFallsThrough | bot.py:442 | a non-command text without either host reaches the catch-all |
| Duration.TwoDigits | bot.py:126 | `{secs:02d}` for a number below 100 is two digits with that value |
| Duration.FormatDurationRoundTrip | bot.py:120-126 | for any non-zero number of seconds, reading `m:ss` back as `m*60 + ss` gives the input, negative input included |
| Duration.UnknownExactlyWhenMissing | bot.py:122-123 | `--:--` is shown exactly when the duration is missing or zero |
| Duration.FormatDurationShape | bot.py:124-126 | for a positive input, unbounded minutes `s // 60`, a colon, and two digits holding `s % 60` |
| Duration.ExampleLongTrack | bot.py:120-126 | 3725 seconds is shown as `62:05` |
| Titles.SplitTitle | bot.py:275-281 | the "Artist - Title" split; what it gives is stated by the lemmas below |
| Titles.SplitTitleWithSeparator | bot.py:275-278 | with a `" - "`, the performer and the title are the stripped text before and after its first occurrence: no separator starts earlier in the raw title, even one overlapping it (`"a - - b"` gives `a` and `- b`) |
| Titles.SplitTitleWithoutSeparator | bot.py:279-281 | without a `" - "`, the performer is the uploader, or `""` when there is none, and the title is unchanged |
| Titles.FirstSeparatorAfter | bot.py:371-374 | the first separator is found right after a performer that contains no `-` |
| Titles.SplitOnFirstSeparatorOnly | bot.py:371-374 | only the first separator splits; the remainder keeps any later ones |
| Titles.ThreePartTitle | bot.py:371-374 | `"A - B - C"` gives performer `A` and title `B - C` |
| Lyrics.SpaceRun | downloader.py:32 | `\s*`: a whitespace prefix, ended by a non-whitespace character or by the end |
| Lyrics.SpaceRunStops | downloader.py:32 | the whitespace run never passes a non-whitespace character |
| Lyrics.SpaceRunCovers | downloader.py:32 | the whitespace run covers every whitespace prefix |
| Lyrics.FirstClose | downloader.py:32 | `.*?[\)\]]`: the position found holds a closing bracket, and no line break or closing bracket comes before it; when there is none, every closing bracket is preceded by a line break |
| Lyrics.FirstCloseSkips | downloader.py:32 | the lazy match stops at the first closing bracket, when no line break comes before it |
| Lyrics.MatchLength | downloader.py:32 | a match is at least two characters long and stays inside the text |
| Lyrics.StripAnnotations | downloader.py:32-33 | `re.sub` never lengthens the text |
| Lyrics.StripIdentityIff | downloader.py:32-33 | the text is left unchanged exactly when no match starts anywhere in it |
| Lyrics.StripWithoutAnnotation | downloader.py:32-33 | with no match anywhere, nothing is removed |
| Lyrics.StripWithAnnotation | downloader.py:32-33 | with a match anywhere, the text gets strictly shorter |
| Lyrics.NoOpenNoAnnotation | downloader.py:32-33 | text with no opening bracket is unchanged, so an unmatched closing bracket is kept |
| Lyrics.NoCloseNoAnnotation | downloader.py:32-33 | text with no closing bracket is unchanged, so an unmatched opening bracket is kept |
| Lyrics.NoMatchInPlain | downloader.py:32 | no match starts inside text that has no opening bracket and does not end in whitespace |
| Lyrics.StripKeepsPlainPrefix | downloader.py:32-33 | such text stays unchanged in front of whatever follows it |
| Lyrics.DropAnnotation | downloader.py:32-33 | whitespace, an opening bracket, one line with no closing bracket, and any closing bracket are removed together; mixed pairs like `(x]` count |
| Lyrics.CleanTerm | downloader.py:32-33 | the search term has no whitespace at either end |
| Lyrics.CleanTrailingAnnotation | downloader.py:32-33 | `Song (Official Video)` is searched for as `Song`: a trimmed name with no brackets, followed by one annotation, cleans to the name |
| Lyrics.Choose | downloader.py:52-56 | lyrics, when returned, are never empty |
| Lyrics.FetchLyrics | downloader.py:21-66 | the query of the two cleaned terms and the choice of the answer; stated by the two lemmas below |
| Lyrics.FetchLyricsMeaning | downloader.py:21-66 | lyrics are returned exactly when the service found a non-empty synced or plain text; non-empty synced text wins, and plain text is used otherwise |
| Lyrics.ErrorsGiveNothing | downloader.py:58-66 | any HTTP status or other failure gives no lyrics |
| VideoInfo.ThumbnailUrl | downloader.py:88-89 | the address is the fixed prefix, the id and the fixed suffix |
| VideoInfo.ThumbnailRoundTrip | downloader.py:88-89 | the id (or `None`) can be read back from the thumbnail address |
| VideoInfo.ThumbnailInjective | downloader.py:88-89 | two thumbnails are equal exactly when the rendered ids are equal; a missing id collides only with the id `None` |
| VideoInfo.GetVideoInfoMeaning | downloader.py:88-96 | title, duration and uploader are copied; the thumbnail depends only on the id, whatever thumbnail the extractor reported |
| Cover.CenterSquareInside | downloader.py:146-150 | the crop box lies inside the image and is a square of side `min(w, h)`; it spans the shorter side and is centred on the longer one, with the extra pixel of an odd margin after it |
| Cover.ReshapeSide | downloader.py:145-156 | the final cover is square, of side `min(w, h, 600)`; it is never larger than the original, and its mode is kept |
| Cover.ToRgbModes | downloader.py:142-143 | only RGBA, P and LA become RGB; the size is unchanged |
| Cover.CoverArtMeaning | downloader.py:133-162 | a cover is made exactly when the image was fetched and decoded and its mode, after conversion, can be written as JPEG; it then has side `min(w, h, 600)` |
| Metadata.AudioFile.constructor | downloader.py:116 | opening the file loads its current tags |
| Metadata.AudioFile.Save | downloader.py:167 | the saved tags become the tags in memory |
| Metadata.AudioFile.EmbedMetadata | downloader.py:101-169 | the returned lyrics are the lyrics lookup's result; the new tags are `Tagged` of the old tags, the lyrics and the cover pipeline's result; the file is saved whether or not the cover failed |
| Metadata.TaggedBasic | downloader.py:119-123 | `©nam` and `©alb` hold the title, `©ART` and `aART` the artist, and `©gen` holds `Music` |
| Metadata.TaggedLyrics | downloader.py:126-128 | `©lyr` is written exactly when the lyrics are non-empty; otherwise any earlier `©lyr` stays |
| Metadata.TaggedCover | downloader.py:133-165 | `covr` is written exactly when a cover was made; after a failure, any earlier cover stays |
| Metadata.TaggedFrame | downloader.py:116-162 | no tag is removed, only the seven named keys can be added, and every other tag is unchanged |
| Metadata.TaggedIdempotent | downloader.py:116-162 | embedding the same data again leaves the tags unchanged |
| Progress.PercentOf | downloader.py:200 | `int(downloaded * 100 / total)` is the floor of the ratio, with no cap at 100 |
| Progress.StepThrottled | downloader.py:194-206 | one call keeps the throttle invariant and adds at most one report to the earlier ones |
| Progress.RunThrottled | downloader.py:192-206 | from `last_percent = -1`, reports rise by at least ten each time, and the first is at least 9 |
| Progress.ReportsSpread | downloader.py:201 | the k-th report is at least `9 + 10k` |
| Progress.ReportsBounded | downloader.py:199-203 | while the percentages stay within 100, the callback fires at most ten times |
| Progress.SilentRun | downloader.py:196-199 | with no callback, or no known total, nothing is reported |
| Progress.RunFile | downloader.py:204-205 | the recorded file is the one from the last `finished` update |
| Progress.ProgressHook.constructor | downloader.py:191-192 | the hook starts with no file and `last_percent = -1` |
| Progress.ProgressHook.Hook | downloader.py:194-206 | one call moves the hook's state by one `Step` |
| Progress.DownloadAudio | downloader.py:172-220 | the reports rise by at least ten from a first report of at least 9; the path is the last finished file's name, or the output directory when there is none or it is empty |
| Progress.ExampleThrottle | downloader.py:199-203 | raw percentages 3, 7, 11, 15, 22, 31 report 11 and 22 only |
| Playlist.ByIdKeys | bot.py:160 | the id map's keys are exactly the listed ids |
| Playlist.ByIdLastWins | bot.py:160 | each id maps to the last entry that carries it |
| Playlist.Select | bot.py:233 | no more tracks than ids selected |
| Playlist.SelectOne | bot.py:233 | one id gives its cached entry, or nothing when it is not cached |
| Playlist.SelectAppend | bot.py:233 | the tracks for two lists of ids joined together are each list's tracks in order; so order and duplicates are kept and unknown ids dropped |
| Playlist.SelectFromCache | bot.py:233 | every selected track is the cached entry of some selected id |
| Playlist.SelectEmpty | bot.py:233-237 | no track is found exactly when no selected id is cached |
| Playlist.PlaylistCache.constructor | bot.py:31 | the cache starts empty |
| Playlist.PlaylistCache.Put | bot.py:159-162 | storing a playlist replaces any earlier one of that user and leaves other users' entries unchanged |
| Playlist.PlaylistCache.Get | bot.py:227 | the user's entry when there is one, `None` otherwise |
| Playlist.PlaylistCache.Pop | bot.py:319 | the user's entry is removed, and removing a missing one is not an error |
| Playlist.PickerUrl | bot.py:172 | the picker address is six characters longer than the Mini App address and the payload together |
| Playlist.HandlePlaylistUrl | bot.py:129-209 | the reply is `PlaylistReplyFor`; the cache gets the stripped link and the id map whenever a non-empty playlist was fetched, even when the picker is then refused as too long |
| Playlist.PickerIffFits | bot.py:175 | the picker is offered exactly when the address is at most 2048 characters; at 2049 the playlist is refused as too large |
| Playlist.TooLargeIsCached | bot.py:159-182 | a too-large reply always comes with the playlist cached, and it reports the number of entries |
| Playlist.PickerCounts | bot.py:184-194 | the picker shows the number of entries, and mentions the full count only when the playlist has more |
| Delivery.RunBatch | bot.py:246-316 | the log is each track's events in order, followed by a final count of all tracks |
| Delivery.ItemStartsWithStatus | bot.py:250-255 | each track starts with its `[i/n]` status message, whatever happens after it |
| Delivery.ItemSent | bot.py:283-300 | `send_audio` is called for a track exactly when it was downloaded with a title and is at most the limit; a file exactly at the limit is sent |
| Delivery.ItemDeletes | bot.py:285-310 | the downloaded file is deleted when it is over the limit or was sent; it stays on disk when sending fails or the title is missing |
| Delivery.BatchStatuses | bot.py:246-255 | the batch has one status message per track, `[k/n]` for the k-th track: every track is attempted, in order |
| Delivery.ItemStatuses | bot.py:250-310 | each track sends exactly one status message |
| Delivery.HandleWebAppData | bot.py:212-325 | the reply is `WebAppReplyFor`; the user's cached playlist is removed only after a batch, and every other reply leaves the cache unchanged |
| Delivery.ErrorReplies | bot.py:219-325 | only text that is not JSON gets the format reply; JSON with no `get` fails at once with the generic error reply, and a `selected` value that cannot be iterated fails the same way only after a cached playlist was found |
| Delivery.BatchIff | bot.py:216-237 | a batch runs exactly when the user is allowed, the data is a JSON object whose `selected` is truthy and can be used, a playlist is cached and some selected string is one of its ids |
| Delivery.NoStringIds | bot.py:223-236 | a truthy `selected` that yields no string (such as `[1]`) is not treated as empty: it gets the expired reply without a cached playlist and the not-found reply with one |
| Delivery.NoStringElements | bot.py:233 | elements that are all non-strings leave no id to look up |
| Delivery.StringIds | bot.py:233-234 | the selected strings in order: exactly the elements that can equal a cached id, never more than the elements yielded |
| Delivery.DoneCountsTracks | bot.py:312-316 | the final message counts the tracks found, not the tracks sent |
| Delivery.LrcPathReplacesSuffix | bot.py:384 | `dir/name.m4a` gets the lyrics file `dir/name.lrc`, dots inside `name` included; `dir/.m4a` gets `dir/.m4a.lrc` |
| Delivery.StemOfM4a | bot.py:384 | `with_suffix` drops only the last suffix: the stem of `name.m4a` is `name`, dots inside it included; a bare `.m4a` has no suffix |
| Delivery.SingleSizeLimit | bot.py:388-415 | strictly over the limit: the audio and its lyrics file are deleted, the limit is reported, and `send_audio` is never called; at or under the limit it is called |
| Delivery.SingleOversized | bot.py:381-398 | over the limit the events are exactly: the lyrics file written (when there are lyrics), the audio deleted, the lyrics file deleted, the limit reported |
| Delivery.SingleWithinLimit | bot.py:381-411 | at or under the limit, `send_audio` is called right after the lyrics file is written, or first when there are no lyrics, with the split performer and title |
| Delivery.SingleDeletes | bot.py:388-430 | the audio file is deleted exactly when it is over the limit or everything was sent |
| Access.ParseIds | bot.py:26 | the set comprehension over the stripped segments, `int()` of any non-blank one failing the whole parse; stated by `ParseIdsFails` and `ParseIdsMembers` |
| Access.ParseAllowedUsers | bot.py:24-26 | `ALLOWED_USERS` from the raw variable: split on commas, then `ParseIds`; an empty variable gives the empty set |
| Access.IsAllowed | bot.py:77-81 | `is_allowed`: every user when the list is empty, otherwise exactly the listed ones; stated by `BlankAdmitsEveryone` and `AdmittedIffListed` |
| Routing.IsYoutubeUrl | bot.py:84-86 | `is_youtube_url`: a substring test on either host name |
| Routing.IsPlaylistUrl | bot.py:89-91 | `is_playlist_url`: a YouTube link holding `list=` |
| Routing.CommandOf | bot.py:94-108 | the command a text starting with `/` names, up to whitespace or `@` |
| Routing.Route | bot.py:94-443 | the first registered handler whose filter accepts the message; stated by `TextRouting` and the lemmas after it |
| Duration.FormatDuration | bot.py:120-126 | `format_duration`; stated by `FormatDurationRoundTrip`, `UnknownExactlyWhenMissing` and `FormatDurationShape` |
| VideoInfo.IdText | downloader.py:88-89 | the f-string rendering of the video id, `None` when it is missing |
| VideoInfo.GetVideoInfo | downloader.py:69-98 | `get_video_info`'s result from the extractor's answer; stated by `GetVideoInfoMeaning` |
| Cover.ToRgb | downloader.py:142-143 | the mode conversion; stated by `ToRgbModes` |
| Cover.CenterSquare | downloader.py:145-150 | the crop box; stated by `CenterSquareInside` |
| Cover.Reshape | downloader.py:145-156 | crop to the centred square, then shrink to 600 when wider; stated by `ReshapeSide` |
| Cover.EncodeJpeg | downloader.py:158-160 | saving as JPEG fails for a mode PIL cannot write as JPEG |
| Cover.CoverArt | downloader.py:133-165 | the whole cover pipeline, any failure giving an error; stated by `CoverArtMeaning` |
| Metadata.Tagged | downloader.py:116-165 | the tags after `embed_metadata`; stated by `TaggedBasic`, `TaggedLyrics`, `TaggedCover` and `TaggedFrame` |
| Progress.TotalOf | downloader.py:197 | `total_bytes or total_bytes_estimate or 0`: the first present non-zero count |
| Progress.Step | downloader.py:194-206 | one call of `progress_hook`; stated by `StepThrottled` |
| Progress.Run | downloader.py:194-206 | the hook's state after a sequence of updates; stated by `RunThrottled`, `SilentRun` and `RunFile` |
| Playlist.ById | bot.py:160 | `{e['id']: e for e in entries}`; stated by `ByIdKeys` and `ByIdLastWins` |
| Playlist.Fits | bot.py:175 | the picker address passes the length check at up to 2048 characters |
| Playlist.PlaylistReplyFor | bot.py:129-209 | `handle_playlist_url`'s reply; stated by `PickerIffFits`, `TooLargeIsCached` and `PickerCounts` |
| Delivery.MaxFileSizeMb | bot.py:33-39 | `MAX_FILE_SIZE_MB`: 2000 with a local Bot API server, 50 otherwise |
| Delivery.TooBig | bot.py:286 | the size test, strictly over the limit |
| Delivery.Credits | bot.py:274-281 | performer and title from the info, or the error `' - ' in None` raises |
| Delivery.Outcome | bot.py:257-310 | what follows a track's status message; it holds no status message |
| Delivery.ItemEvents | bot.py:250-310 | one track of the batch; stated by `ItemStartsWithStatus`, `ItemSent`, `ItemDeletes` and `ItemStatuses` |
| Delivery.BatchEvents | bot.py:246-310 | the tracks of the batch, in order; stated by `BatchStatuses` |
| Delivery.WebAppReplyFor | bot.py:212-325 | `handle_web_app_data`'s reply; stated by `BatchIff`, `ErrorReplies` and `DoneCountsTracks` |
| Delivery.LrcPath | bot.py:384 | `Path(p).with_suffix('.lrc')`; stated by `LrcPathReplacesSuffix` |
| Delivery.Stem | bot.py:384 | the last path component without its last suffix; stated by `StemOfM4a` |
| Delivery.SingleEvents | bot.py:338-439 | `handle_youtube_url` after the status message; stated by `SingleSizeLimit` and `SingleDeletes` |
| Delivery.HandleYoutubeUrl | bot.py:329-439 | the single-video handler: no events for a user not on the allow-list, and the size limit set by the Bot API server |

## Left out

- Telegram transport (`reply_to`, `edit_message_text`, `send_audio`, `send_document`, `delete_message`, polling): network I/O. The handlers produce a log of the calls that matter, not the message texts. The progress edits are left out of that log.
- A failure to send an error message inside the batch's `except` would leave the batch and skip the final message and the cache removal. The model assumes that sending the error message succeeds.
- yt-dlp (`extract_info`, `download`, the format string): foreign library behaviour. Its answers and progress updates are inputs (`VideoInfo.Extracted`, `Progress.HookEvent`, `Delivery.Attempt`).
- urllib, PIL and mutagen: network fetches, decoding, resampling, JPEG encoding and MP4 parsing are foreign calls. The fetched image is an input, pixels are not modelled, and the JPEG modes are PIL's list of writable modes.
- Metadata.AudioFile.EmbedMetadata: does not model errors from opening or saving the MP4 file, which propagate to the caller.
- Lyrics.FetchLyrics: the query's URL encoding, the request headers and timeout, and JSON decoding are not modelled. The service is a function from the two cleaned fields to a response. The 404 versus other-error distinction only changes logging.
- JSON and base64 of the picker payload: library calls. The encoded payload is an input of `HandlePlaylistUrl`, and only its length matters for the 2048 check.
- `json.loads` of the Mini App's data is a library call. Its result is an input, `Delivery.WebAppData`, reduced to what the handler looks at: not JSON, JSON with no `get`, or an object's `selected` value as the elements it yields (a string as `Some`, any other hashable element as `None`, which keeps the value truthy and matches no id) or the error the selection raises on it.
- Delivery.LrcPath: `pathlib`'s normalisation of the path (a trailing or doubled `/`, `.` components) and the `ValueError` of `with_suffix` on an empty name are not modelled; the path is taken as yt-dlp writes it, a directory and a file name.
- `get_playlist_info` is not part of this model. Its title, count and entries are an input.
- Scheduler and cleanup of old downloads and logs (`run_scheduler`, `daily_cleanup`, `cleanup_old_downloads`, logger.py): timers, threads and file times.
- cli.py: an interactive loop with no logic beyond the bot's.
- Environment loading: `ALLOWED_USERS`, `TELEGRAM_API_SERVER`, `WEBAPP_URL` and the proxy are parameters. A missing `BOT_TOKEN` stops start-up before any modelled code runs.
- Text.ParseInt: does not accept the underscores and non-ASCII digits that Python's `int()` accepts.
- Floating point: the file size in MB and the progress percentage use exact integers. This is exact for the size, because the division is by a power of two. For the percentage it is exact while the total is a whole number of bytes and `downloaded * 100` stays below 2^53; a fractional `total_bytes_estimate` is not modelled.
- Durations are whole seconds. A fractional duration from the extractor is not modelled.
- Progress.DownloadAudio: the directory fallback is the directory string as given. `pathlib`'s normalisation of it and the directory creation are not modelled.
- Delivery.SingleEvents: assumes the lyrics file still exists when it is sent, since it was written just before.
- Delivery.HandleYoutubeUrl: the status messages before the download ("getting info", "0%", "adding metadata", "sending") are not in the log.
