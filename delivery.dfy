/**
 * Sending audio: the batch that downloads the tracks picked in the Mini App,
 * and the handler for a single video link. Downloading, tagging and the chat
 * are outside the model; each attempt's outcome is an input, and the
 * handlers produce the log of what the bot does with files and messages.
 */
module Delivery {
  import opened Wrappers
  import Access
  import VideoInfo
  import Titles
  import Playlist

  /** `MAX_FILE_SIZE_MB`: 2000 with a local Bot API server, 50 with the public one. */
  function MaxFileSizeMb(apiServer: string): nat
  {
    if apiServer != [] then 2000 else 50
  }

  const BytesPerMb: nat := 1024 * 1024

  /**
   * `size / (1024 * 1024) > MAX_FILE_SIZE_MB`, on integers. Division by a
   * power of two is exact in floating point, so this is the same comparison.
   */
  predicate TooBig(sizeBytes: nat, limitMb: nat)
  {
    sizeBytes > limitMb * BytesPerMb
  }

  /** The message `' - ' in None` raises when the extractor gave no title. */
  const NoTitleError: string := "argument of type 'NoneType' is not iterable"

  /** What the bot does, in order, as far as files and messages go. */
  datatype Event =
    | Status(index: nat, count: nat, title: string)          // "[i/n] downloading <title>"
    | SendAudio(path: string, title: string, performer: string)  // `send_audio` called; it may still fail
    | SendDocument(path: string)                              // `send_document` called; it may still fail
    | FileWritten(path: string, contents: string)
    | FileDeleted(path: string)
    | TooLargeNotice(title: string)                          // batch: track skipped
    | LimitNotice(limitMb: nat)                              // single video: file over the limit
    | ErrorNotice(title: string, error: string)
    | StatusDeleted
    | Done(count: nat)                                        // "done, tracks downloaded: n"

  /**
   * How one download went: an exception before the tagging was finished
   * (status message, video info, download, tagging), or a downloaded file
   * with its info, its size, and the error of sending it, if sending failed.
   */
  datatype Attempt =
    | Raised(error: string)
    | Downloaded(info: VideoInfo.Info, path: string, sizeBytes: nat, sendError: Option<string>)

  /** Performer and title from the info, or the error when there is no title to split. */
  function Credits(info: VideoInfo.Info): Result<Titles.Credits>
  {
    if info.title.None? then Err(NoTitleError)
    else Ok(Titles.SplitTitle(info.title.value, info.uploader))
  }

  // ---------------------------------------------------------------------------
  // The batch

  /** One track of the batch and how its download went. */
  datatype Item = Item(track: Playlist.Entry, attempt: Attempt)

  /**
   * The events of item `index` (counted from 1) out of `count`. Every
   * failure is reported and the batch goes on; the file is deleted after
   * sending it, or when it is too large, but stays when sending fails.
   */
  function ItemEvents(index: nat, count: nat, limitMb: nat, item: Item): seq<Event>
  {
    [Status(index, count, item.track.title)] + Outcome(limitMb, item)
  }

  /** What follows a track's status message. */
  function Outcome(limitMb: nat, item: Item): (ev: seq<Event>)
    ensures forall k :: 0 <= k < |ev| ==> !ev[k].Status?
  {
    var name := item.track.title;
    match item.attempt
    case Raised(e) => [ErrorNotice(name, e)]
    case Downloaded(info, path, size, sendError) =>
      match Credits(info)
      case Err(e) => [ErrorNotice(name, e)]
      case Ok(c) =>
        if TooBig(size, limitMb) then [FileDeleted(path), TooLargeNotice(name)]
        else if sendError.None? then [SendAudio(path, c.title, c.performer), FileDeleted(path)]
        else [SendAudio(path, c.title, c.performer), ErrorNotice(name, sendError.value)]
  }

  /** The events of the first `|items|` tracks of a batch of `count`. */
  function BatchEvents(items: seq<Item>, count: nat, limitMb: nat): seq<Event>
  {
    if items == [] then []
    else BatchEvents(items[..|items| - 1], count, limitMb) + ItemEvents(|items|, count, limitMb, items[|items| - 1])
  }

  /**
   * The loop of `handle_web_app_data`: every track is attempted in order,
   * each failure caught for its own track, and the final message counts all
   * tracks, not the ones sent.
   */
  method RunBatch(items: seq<Item>, limitMb: nat) returns (log: seq<Event>)
    ensures log == BatchEvents(items, |items|, limitMb) + [Done(|items|)]
  {
    log := [];
    var i := 0;
    while i < |items|
      invariant 0 <= i <= |items|
      invariant log == BatchEvents(items[..i], |items|, limitMb)
    {
      assert items[..i + 1][..i] == items[..i];
      log := log + ItemEvents(i + 1, |items|, limitMb, items[i]);
      i := i + 1;
    }
    assert items[..i] == items;
    log := log + [Done(|items|)];
  }

  /** Each item's events start with its status message, whatever happens to it. */
  lemma ItemStartsWithStatus(index: nat, count: nat, limitMb: nat, item: Item)
    ensures var ev := ItemEvents(index, count, limitMb, item);
      |ev| >= 2 && ev[0] == Status(index, count, item.track.title)
  {
  }

  /**
   * A track's audio is sent exactly when it was downloaded with a title and
   * is within the limit; a file of exactly the limit is sent.
   */
  lemma ItemSent(index: nat, count: nat, limitMb: nat, item: Item)
    ensures (exists p, t, f :: SendAudio(p, t, f) in ItemEvents(index, count, limitMb, item)) <==>
      item.attempt.Downloaded? && item.attempt.info.title.Some? && item.attempt.sizeBytes <= limitMb * BytesPerMb
  {
    var ev := ItemEvents(index, count, limitMb, item);
    if item.attempt.Downloaded? && item.attempt.info.title.Some? && item.attempt.sizeBytes <= limitMb * BytesPerMb {
      var c := Credits(item.attempt.info).value;
      assert ev[1] == SendAudio(item.attempt.path, c.title, c.performer);
    }
  }

  /**
   * A downloaded file is deleted when it is too large or was sent; when
   * sending fails, or the info has no title, it stays on disk.
   */
  lemma ItemDeletes(index: nat, count: nat, limitMb: nat, item: Item)
    requires item.attempt.Downloaded?
    ensures var a := item.attempt;
      FileDeleted(a.path) in ItemEvents(index, count, limitMb, item) <==>
        a.info.title.Some? && (TooBig(a.sizeBytes, limitMb) || a.sendError.None?)
  {
    var ev := ItemEvents(index, count, limitMb, item);
    var a := item.attempt;
    if a.info.title.Some? {
      if TooBig(a.sizeBytes, limitMb) {
        assert ev[1] == FileDeleted(a.path);
      } else if a.sendError.None? {
        assert ev[2] == FileDeleted(a.path);
      }
    }
  }

  /** One status message per track, in order, so every track is attempted. */
  lemma {:induction false} BatchStatuses(items: seq<Item>, count: nat, limitMb: nat)
    ensures |Statuses(BatchEvents(items, count, limitMb))| == |items|
    ensures forall k :: 0 <= k < |items| ==> Statuses(BatchEvents(items, count, limitMb))[k] == Status(k + 1, count, items[k].track.title)
  {
    if items != [] {
      var init := items[..|items| - 1];
      BatchStatuses(init, count, limitMb);
      var ev := ItemEvents(|items|, count, limitMb, items[|items| - 1]);
      StatusesAppend(BatchEvents(init, count, limitMb), ev);
      ItemStatuses(|items|, count, limitMb, items[|items| - 1]);
    }
  }

  /** The status messages of a log, in order. */
  function Statuses(log: seq<Event>): (r: seq<Event>)
    ensures |r| <= |log|
  {
    if log == [] then []
    else Statuses(log[..|log| - 1]) + (if log[|log| - 1].Status? then [log[|log| - 1]] else [])
  }

  lemma {:induction false} StatusesAppend(a: seq<Event>, b: seq<Event>)
    ensures Statuses(a + b) == Statuses(a) + Statuses(b)
    decreases |b|
  {
    if b == [] {
      assert a + b == a;
    } else {
      var init := b[..|b| - 1];
      assert (a + b)[..|a + b| - 1] == a + init;
      StatusesAppend(a, init);
    }
  }

  /** An item's only status message is its first event. */
  lemma ItemStatuses(index: nat, count: nat, limitMb: nat, item: Item)
    ensures Statuses(ItemEvents(index, count, limitMb, item)) == [Status(index, count, item.track.title)]
  {
    var head := [Status(index, count, item.track.title)];
    var rest := Outcome(limitMb, item);
    StatusesAppend(head, rest);
    assert head[..0] == [];
    NoStatuses(rest);
  }

  lemma {:induction false} NoStatuses(log: seq<Event>)
    requires forall k :: 0 <= k < |log| ==> !log[k].Status?
    ensures Statuses(log) == []
  {
    if log != [] {
      NoStatuses(log[..|log| - 1]);
    }
  }

  // ---------------------------------------------------------------------------
  // The Mini App answer

  /**
   * The Mini App's data as the handler sees it after `json.loads`: text that
   * is not JSON, JSON that has no `get` (a list, a string, a number, `null`),
   * or an object, of which only `selected` is looked at.
   */
  datatype WebAppData =
    | NotJson
    | NotAnObject(error: string)
    | Object(selected: Selected)

  /**
   * The `selected` value. An absent key and every falsy value (`[]`, `""`,
   * `0`, `false`, `null`, `{}`) act as `Ids([])`. A truthy value that can be
   * iterated acts as the elements it yields, in order (a string yields its
   * characters, an object its keys): `Some(id)` for a string, `None` for any
   * other hashable element (`1`, `null`, `true`), which is truthy as part of
   * the value but matches no cached id. `Unusable` is a truthy value the
   * selection fails on: one that cannot be iterated (`5`, `true`), or that
   * yields an unhashable element (`[[1]]`).
   */
  datatype Selected = Ids(elements: seq<Option<string>>) | Unusable(error: string)

  /** The string elements, in order: the only ones a cached id can match. */
  function StringIds(elements: seq<Option<string>>): (ids: seq<string>)
    ensures |ids| <= |elements|
    ensures forall id :: id in ids <==> Some(id) in elements
  {
    if elements == [] then []
    else
      var init := elements[..|elements| - 1];
      var last := elements[|elements| - 1];
      assert elements == init + [last];
      StringIds(init) + if last.Some? then [last.value] else []
  }

  /** What the user is told when the Mini App sends its selection. */
  datatype WebAppReply =
    | Ignored              // user not on the allow-list
    | BadFormat            // the data is not JSON
    | Failed(error: string) // any other exception: "error: <e>"
    | NothingSelected
    | Expired              // no cached playlist for the user
    | NotFound             // none of the selected ids is cached
    | Batch(log: seq<Event>)

  /**
   * `handle_web_app_data`'s outcome. `attemptFor` gives the outcome of
   * downloading a track at a position of the batch, and `apiServer` the
   * configured Bot API server, which sets the size limit.
   */
  function WebAppReplyFor(allowed: set<int>, user: int, data: WebAppData,
                          sessions: map<int, Playlist.Session>, attemptFor: (nat, Playlist.Entry) -> Attempt,
                          apiServer: string): WebAppReply
  {
    if !Access.IsAllowed(allowed, user) then Ignored
    else match data
      case NotJson => BadFormat
      case NotAnObject(e) => Failed(e)
      case Object(selected) =>
        if selected == Ids([]) then NothingSelected
        else if user !in sessions then Expired
        else match selected
          case Unusable(e) => Failed(e)
          case Ids(elements) =>
            var tracks := Playlist.Select(StringIds(elements), sessions[user].entries);
            if tracks == [] then NotFound
            else
              var items := seq(|tracks|, k requires 0 <= k < |tracks| => Item(tracks[k], attemptFor(k, tracks[k])));
              Batch(BatchEvents(items, |items|, MaxFileSizeMb(apiServer)) + [Done(|items|)])
  }

  /**
   * `handle_web_app_data`. The user's cached playlist is dropped only after
   * the whole batch; every reply that starts no batch leaves the cache as it
   * was.
   */
  method HandleWebAppData(cache: Playlist.PlaylistCache, allowed: set<int>, user: int,
                          data: WebAppData, attemptFor: (nat, Playlist.Entry) -> Attempt,
                          apiServer: string)
    returns (reply: WebAppReply)
    modifies cache
    ensures reply == WebAppReplyFor(allowed, user, data, old(cache.sessions), attemptFor, apiServer)
    ensures cache.sessions == if reply.Batch? then old(cache.sessions) - {user} else old(cache.sessions)
  {
    if !Access.IsAllowed(allowed, user) {
      return Ignored;
    }
    if data.NotJson? {
      return BadFormat;
    }
    if data.NotAnObject? {
      return Failed(data.error);
    }
    var selected := data.selected;
    if selected == Ids([]) {
      return NothingSelected;
    }
    var cached := cache.Get(user);
    if cached.None? {
      return Expired;
    }
    if selected.Unusable? {
      return Failed(selected.error);
    }
    var tracks := Playlist.Select(StringIds(selected.elements), cached.value.entries);
    if tracks == [] {
      return NotFound;
    }
    var items := seq(|tracks|, k requires 0 <= k < |tracks| => Item(tracks[k], attemptFor(k, tracks[k])));
    var log := RunBatch(items, MaxFileSizeMb(apiServer));
    cache.Pop(user);
    reply := Batch(log);
  }

  /** A batch runs exactly when the user is allowed, picked something, and some picked id is still cached. */
  lemma BatchIff(allowed: set<int>, user: int, data: WebAppData,
                 sessions: map<int, Playlist.Session>, attemptFor: (nat, Playlist.Entry) -> Attempt, apiServer: string)
    ensures WebAppReplyFor(allowed, user, data, sessions, attemptFor, apiServer).Batch? <==>
      && Access.IsAllowed(allowed, user) && data.Object? && data.selected.Ids? && data.selected.elements != []
      && user in sessions
      && exists id :: Some(id) in data.selected.elements && id in sessions[user].entries
  {
    if Access.IsAllowed(allowed, user) && data.Object? && data.selected.Ids? && user in sessions {
      Playlist.SelectEmpty(StringIds(data.selected.elements), sessions[user].entries);
    }
  }

  /**
   * A selection that is truthy but holds no string id, such as `[1]`, is not
   * "nothing selected": it gets the expired reply when no playlist is cached
   * and the not-found reply when one is.
   */
  lemma NoStringIds(allowed: set<int>, user: int, elements: seq<Option<string>>,
                    sessions: map<int, Playlist.Session>, attemptFor: (nat, Playlist.Entry) -> Attempt, apiServer: string)
    requires Access.IsAllowed(allowed, user)
    requires elements != [] && forall k :: 0 <= k < |elements| ==> elements[k].None?
    ensures WebAppReplyFor(allowed, user, Object(Ids(elements)), sessions, attemptFor, apiServer) ==
      if user in sessions then NotFound else Expired
  {
    NoStringElements(elements);
  }

  lemma {:induction false} NoStringElements(elements: seq<Option<string>>)
    requires forall k :: 0 <= k < |elements| ==> elements[k].None?
    ensures StringIds(elements) == []
  {
    if elements != [] {
      NoStringElements(elements[..|elements| - 1]);
    }
  }

  /**
   * Only text that is not JSON gets the format reply. JSON that is not an
   * object fails at once with the generic error reply; a `selected` value the
   * selection cannot use fails the same way, but only once a playlist is
   * found cached, since the cache is checked first.
   */
  lemma ErrorReplies(allowed: set<int>, user: int, data: WebAppData,
                     sessions: map<int, Playlist.Session>, attemptFor: (nat, Playlist.Entry) -> Attempt, apiServer: string)
    ensures WebAppReplyFor(allowed, user, data, sessions, attemptFor, apiServer) == BadFormat <==>
      Access.IsAllowed(allowed, user) && data.NotJson?
    ensures WebAppReplyFor(allowed, user, data, sessions, attemptFor, apiServer).Failed? <==>
      && Access.IsAllowed(allowed, user)
      && (data.NotAnObject? || (data.Object? && data.selected.Unusable? && user in sessions))
    ensures var r := WebAppReplyFor(allowed, user, data, sessions, attemptFor, apiServer);
      r.Failed? ==> r.error == if data.NotAnObject? then data.error else data.selected.error
  {
  }

  /** The batch ends by reporting the number of tracks found, not the number sent. */
  lemma DoneCountsTracks(allowed: set<int>, user: int, data: WebAppData,
                         sessions: map<int, Playlist.Session>, attemptFor: (nat, Playlist.Entry) -> Attempt, apiServer: string)
    requires WebAppReplyFor(allowed, user, data, sessions, attemptFor, apiServer).Batch?
    ensures var log := WebAppReplyFor(allowed, user, data, sessions, attemptFor, apiServer).log;
      log[|log| - 1] == Done(|Playlist.Select(StringIds(data.selected.elements), sessions[user].entries)|)
  {
  }

  // ---------------------------------------------------------------------------
  // A single video

  /**
   * How a single download went: an exception before tagging was finished,
   * or the downloaded file with its info, the lyrics the tagging returned,
   * its size, and the errors of sending the audio and the lyrics file.
   */
  datatype SingleAttempt =
    | SingleRaised(error: string)
    | SingleDownloaded(info: VideoInfo.Info, path: string, lyrics: Option<string>, sizeBytes: nat,
                       sendError: Option<string>, documentError: Option<string>)

  /**
   * `Path(p).with_suffix('.lrc')`: the suffix of the last path component
   * (from its last dot, unless that dot starts or ends the name) is
   * replaced, or `.lrc` is appended when there is none.
   */
  function LrcPath(path: string): string
  {
    path[..LastSlash(path)] + Stem(path[LastSlash(path)..]) + ".lrc"
  }

  /** A file name without its suffix. */
  function Stem(name: string): string
  {
    var dot := LastIndexOf(name, '.');
    if dot.Some? && 0 < dot.value < |name| - 1 then name[..dot.value] else name
  }

  /** The index just after the last `/`, or 0. */
  function LastSlash(path: string): (i: nat)
    ensures i <= |path|
    ensures forall k :: i <= k < |path| ==> path[k] != '/'
  {
    match LastIndexOf(path, '/')
    case Some(k) => k + 1
    case None => 0
  }

  function LastIndexOf(s: string, c: char): (r: Option<nat>)
    ensures r.Some? ==> r.value < |s| && s[r.value] == c && forall k :: r.value < k < |s| ==> s[k] != c
    ensures r.None? ==> forall k :: 0 <= k < |s| ==> s[k] != c
  {
    if s == [] then None
    else if s[|s| - 1] == c then Some(|s| - 1)
    else LastIndexOf(s[..|s| - 1], c)
  }

  /**
   * `handle_youtube_url` for an allowed user: the events after the status
   * message. The lyrics file is written before the size check and removed
   * with the audio when the audio is too large; after sending, the status
   * message and both files are removed. Any exception leaves the files and
   * ends in an error notice.
   */
  function SingleEvents(attempt: SingleAttempt, limitMb: nat): seq<Event>
  {
    match attempt
    case SingleRaised(e) => [ErrorNotice("", e)]
    case SingleDownloaded(info, path, lyrics, size, sendError, documentError) =>
      match Credits(info)
      case Err(e) => [ErrorNotice("", e)]
      case Ok(c) =>
        var hasLyrics := lyrics.Some? && lyrics.value != [];
        var lrc := LrcPath(path);
        var written := if hasLyrics then [FileWritten(lrc, lyrics.value)] else [];
        if TooBig(size, limitMb) then
          written + [FileDeleted(path)] + (if hasLyrics then [FileDeleted(lrc)] else []) + [LimitNotice(limitMb)]
        else if sendError.Some? then
          written + [SendAudio(path, c.title, c.performer), ErrorNotice("", sendError.value)]
        else if hasLyrics && documentError.Some? then
          written + [SendAudio(path, c.title, c.performer), SendDocument(lrc), ErrorNotice("", documentError.value)]
        else
          written + [SendAudio(path, c.title, c.performer)] +
          (if hasLyrics then [SendDocument(lrc), FileDeleted(lrc)] else []) +
          [StatusDeleted, FileDeleted(path)]
  }

  /**
   * The whole single-video handler: nothing at all for a user not on the
   * allow-list. `apiServer` is the configured Bot API server, which sets the
   * size limit.
   */
  function HandleYoutubeUrl(allowed: set<int>, user: int, attempt: SingleAttempt, apiServer: string): seq<Event>
  {
    if !Access.IsAllowed(allowed, user) then [] else SingleEvents(attempt, MaxFileSizeMb(apiServer))
  }

  /**
   * Over the limit (strictly), nothing is sent, the audio and its lyrics
   * file are deleted and the limit is reported; at or under the limit the
   * audio is sent.
   */
  lemma SingleSizeLimit(info: VideoInfo.Info, path: string, lyrics: Option<string>, size: nat,
                        sendError: Option<string>, documentError: Option<string>, limitMb: nat)
    requires info.title.Some?
    ensures var ev := SingleEvents(SingleDownloaded(info, path, lyrics, size, sendError, documentError), limitMb);
      && (size > limitMb * BytesPerMb ==>
            && FileDeleted(path) in ev && LimitNotice(limitMb) in ev
            && (lyrics.Some? && lyrics.value != [] ==> FileDeleted(LrcPath(path)) in ev)
            && forall k :: 0 <= k < |ev| ==> !ev[k].SendAudio?)
      && (size <= limitMb * BytesPerMb ==> exists t, f :: SendAudio(path, t, f) in ev)
  {
    if TooBig(size, limitMb) {
      SingleOversized(info, path, lyrics, size, sendError, documentError, limitMb);
    } else {
      SingleWithinLimit(info, path, lyrics, size, sendError, documentError, limitMb);
    }
  }

  /** The oversized branch: the written lyrics file, both deletions and the notice, in that order. */
  lemma SingleOversized(info: VideoInfo.Info, path: string, lyrics: Option<string>, size: nat,
                        sendError: Option<string>, documentError: Option<string>, limitMb: nat)
    requires info.title.Some? && TooBig(size, limitMb)
    ensures SingleEvents(SingleDownloaded(info, path, lyrics, size, sendError, documentError), limitMb) ==
      if lyrics.Some? && lyrics.value != [] then
        [FileWritten(LrcPath(path), lyrics.value), FileDeleted(path), FileDeleted(LrcPath(path)), LimitNotice(limitMb)]
      else [FileDeleted(path), LimitNotice(limitMb)]
  {
  }

  /** Within the limit the audio is sent, right after the lyrics file is written, if it is. */
  lemma SingleWithinLimit(info: VideoInfo.Info, path: string, lyrics: Option<string>, size: nat,
                          sendError: Option<string>, documentError: Option<string>, limitMb: nat)
    requires info.title.Some? && !TooBig(size, limitMb)
    ensures var ev := SingleEvents(SingleDownloaded(info, path, lyrics, size, sendError, documentError), limitMb);
      var c := Credits(info).value;
      var k := if lyrics.Some? && lyrics.value != [] then 1 else 0;
      k < |ev| && ev[k] == SendAudio(path, c.title, c.performer)
  {
  }

  /** A downloaded audio file is removed exactly when it was too large or everything was sent. */
  lemma SingleDeletes(info: VideoInfo.Info, path: string, lyrics: Option<string>, size: nat,
                      sendError: Option<string>, documentError: Option<string>, limitMb: nat)
    requires info.title.Some?
    requires LrcPath(path) != path
    ensures FileDeleted(path) in SingleEvents(SingleDownloaded(info, path, lyrics, size, sendError, documentError), limitMb) <==>
      TooBig(size, limitMb) || (sendError.None? && (lyrics.None? || lyrics.value == [] || documentError.None?))
  {
    var ev := SingleEvents(SingleDownloaded(info, path, lyrics, size, sendError, documentError), limitMb);
    var c := Credits(info).value;
    var hasLyrics := lyrics.Some? && lyrics.value != [];
    var lrc := LrcPath(path);
    var written := if hasLyrics then [FileWritten(lrc, lyrics.value)] else [];
    var sent := SendAudio(path, c.title, c.performer);
    if TooBig(size, limitMb) {
      assert ev[|written|] == FileDeleted(path);
    } else if sendError.Some? {
      assert ev == written + [sent, ErrorNotice("", sendError.value)];
    } else if hasLyrics && documentError.Some? {
      assert ev == written + [sent, SendDocument(lrc), ErrorNotice("", documentError.value)];
    } else {
      assert ev[|ev| - 1] == FileDeleted(path);
    }
  }

  /** The last occurrence is the one after which the character does not occur again. */
  lemma {:induction false} LastIndexOfIs(s: string, c: char, i: nat)
    requires i < |s| && s[i] == c
    requires forall k :: i < k < |s| ==> s[k] != c
    ensures LastIndexOf(s, c) == Some(i)
    decreases |s|
  {
    if i < |s| - 1 {
      LastIndexOfIs(s[..|s| - 1], c, i);
    }
  }

  /** The last component of `dir + name` is `name` when `dir` ends in `/` and `name` has none. */
  lemma LastSlashAfterDir(dir: string, name: string)
    requires '/' !in name
    requires dir == [] || dir[|dir| - 1] == '/'
    ensures LastSlash(dir + name) == |dir|
  {
    var path := dir + name;
    forall k | |dir| <= k < |path| ensures path[k] != '/' {
      assert path[k] == name[k - |dir|];
    }
    if dir != [] {
      assert path[|dir| - 1] == '/';
      LastIndexOfIs(path, '/', |dir| - 1);
    }
  }

  /**
   * `with_suffix` drops only the last suffix: the stem of `name.m4a` is
   * `name`, dots inside it included (`Mr. Brightside.m4a`); a bare `.m4a` is
   * a hidden file with no suffix and keeps its whole name.
   */
  lemma StemOfM4a(stem: string)
    ensures Stem(stem + ".m4a") == if stem == [] then ".m4a" else stem
  {
    var name := stem + ".m4a";
    forall k | |stem| < k < |name| ensures name[k] != '.' {
      assert name[k] == ".m4a"[k - |stem|];
    }
    LastIndexOfIs(name, '.', |stem|);
    assert name[..|stem|] == stem;
    assert stem == [] ==> name == ".m4a";
  }

  /**
   * The lyrics file is named after the audio file, its suffix replaced:
   * `a/b.m4a` becomes `a/b.lrc`, and `a/.m4a` becomes `a/.m4a.lrc`.
   */
  lemma LrcPathReplacesSuffix(dir: string, stem: string)
    requires '/' !in stem
    requires dir == [] || dir[|dir| - 1] == '/'
    ensures LrcPath(dir + stem + ".m4a") == dir + (if stem == [] then ".m4a" else stem) + ".lrc"
  {
    var name := stem + ".m4a";
    var path := dir + name;
    assert dir + stem + ".m4a" == path;
    assert '/' !in name by {
      forall k | 0 <= k < |name| ensures name[k] != '/' {
        if k < |stem| { assert name[k] == stem[k]; }
      }
    }
    LastSlashAfterDir(dir, name);
    assert path[|dir|..] == name && path[..|dir|] == dir;
    StemOfM4a(stem);
  }
}
