/**
 * Playlists: the per-user cache of the last playlist offered, the handler
 * that fills it and offers the track picker (a Telegram Mini App whose
 * address carries the track list), and the filter that turns the ids picked
 * there into the tracks to download.
 */
module Playlist {
  import opened Wrappers
  import opened Text
  import Access

  /** A playlist entry as the playlist extractor lists it. */
  datatype Entry = Entry(id: string, title: string, duration: Option<int>)

  /** What is cached per user: the entries by id and the playlist link. */
  datatype Session = Session(entries: map<string, Entry>, url: string)

  /** `{e['id']: e for e in entries}`: a later entry with the same id replaces an earlier one. */
  function ById(entries: seq<Entry>): map<string, Entry>
  {
    if entries == [] then map[]
    else ById(entries[..|entries| - 1])[entries[|entries| - 1].id := entries[|entries| - 1]]
  }

  /** The keys are exactly the ids listed. */
  lemma {:induction false} ByIdKeys(entries: seq<Entry>)
    ensures ById(entries).Keys == set e | e in entries :: e.id
  {
    if entries != [] {
      var init := entries[..|entries| - 1];
      ByIdKeys(init);
      assert entries == init + [entries[|entries| - 1]];
      assert (set e | e in entries :: e.id) == (set e | e in init :: e.id) + {entries[|entries| - 1].id};
    }
  }

  /** Each id maps to the last entry that carries it. */
  lemma {:induction false} ByIdLastWins(entries: seq<Entry>, j: nat)
    requires j < |entries|
    requires forall k :: j < k < |entries| ==> entries[k].id != entries[j].id
    ensures entries[j].id in ById(entries) && ById(entries)[entries[j].id] == entries[j]
  {
    if j < |entries| - 1 {
      ByIdLastWins(entries[..|entries| - 1], j);
    }
  }

  /** `[entries[vid] for vid in selected_ids if vid in entries]`. */
  function Select(selected: seq<string>, entries: map<string, Entry>): (tracks: seq<Entry>)
    ensures |tracks| <= |selected|
  {
    if selected == [] then []
    else
      var last := selected[|selected| - 1];
      Select(selected[..|selected| - 1], entries) + (if last in entries then [entries[last]] else [])
  }

  /** One id: its entry when cached, nothing otherwise. */
  lemma SelectOne(id: string, entries: map<string, Entry>)
    ensures Select([id], entries) == if id in entries then [entries[id]] else []
  {
    assert [id][..0] == [];
  }

  /**
   * Selection keeps the order of the picked ids: the tracks for a
   * concatenation are the tracks for each part, one after the other. With
   * `SelectOne`, this says duplicates are kept and unknown ids dropped.
   */
  lemma {:induction false} SelectAppend(a: seq<string>, b: seq<string>, entries: map<string, Entry>)
    ensures Select(a + b, entries) == Select(a, entries) + Select(b, entries)
    decreases |b|
  {
    if b == [] {
      assert a + b == a;
    } else {
      var b' := b[..|b| - 1];
      assert (a + b)[..|a + b| - 1] == a + b';
      SelectAppend(a, b', entries);
    }
  }

  /** Every selected track is a cached entry, picked by one of the selected ids. */
  lemma {:induction false} SelectFromCache(selected: seq<string>, entries: map<string, Entry>)
    ensures forall t :: t in Select(selected, entries) ==> exists id :: id in selected && id in entries && t == entries[id]
  {
    if selected != [] {
      var init := selected[..|selected| - 1];
      SelectFromCache(init, entries);
      forall t | t in Select(selected, entries)
        ensures exists id :: id in selected && id in entries && t == entries[id]
      {
        if t in Select(init, entries) {
          var id :| id in init && id in entries && t == entries[id];
          assert id in selected;
        } else {
          assert selected[|selected| - 1] in selected;
        }
      }
    }
  }

  /** Nothing is selected exactly when no selected id is cached. */
  lemma {:induction false} SelectEmpty(selected: seq<string>, entries: map<string, Entry>)
    ensures Select(selected, entries) == [] <==> forall id :: id in selected ==> id !in entries
  {
    if selected != [] {
      var init := selected[..|selected| - 1];
      SelectEmpty(init, entries);
      assert selected == init + [selected[|selected| - 1]];
    }
  }

  /** `playlist_cache`: the last playlist offered to each user. */
  class PlaylistCache {
    var sessions: map<int, Session>

    constructor()
      ensures sessions == map[]
    {
      sessions := map[];
    }

    /** `playlist_cache[user_id] = ...`: overwrites any earlier playlist of the user. */
    method Put(user: int, session: Session)
      modifies this
      ensures sessions == old(sessions)[user := session]
    {
      sessions := sessions[user := session];
    }

    /** `playlist_cache.get(user_id)`. */
    method Get(user: int) returns (session: Option<Session>)
      ensures session.Some? <==> user in sessions
      ensures session.Some? ==> session.value == sessions[user]
    {
      if user in sessions {
        session := Some(sessions[user]);
      } else {
        session := None;
      }
    }

    /** `playlist_cache.pop(user_id, None)`: no error when the user has no entry. */
    method Pop(user: int)
      modifies this
      ensures sessions == old(sessions) - {user}
    {
      sessions := sessions - {user};
    }
  }

  // ---------------------------------------------------------------------------
  // Offering a playlist

  /** The extractor's answer for a playlist link. */
  datatype PlaylistInfo = PlaylistInfo(title: string, count: int, entries: seq<Entry>)

  const MaxUrlLength: nat := 2048

  /** What the user is told. */
  datatype PlaylistReply =
    | Ignored                                        // user not on the allow-list: no reply
    | NotConfigured                                  // no Mini App address configured
    | EmptyPlaylist
    | TooLarge(tracks: nat)                          // the picker address would exceed the limit
    | Picker(url: string, title: string, shown: nat, total: Option<int>)
    | Failed(error: string)

  /** The picker's address: the Mini App address with the encoded track list as `data`. */
  function PickerUrl(webAppUrl: string, payload: string): (url: string)
    ensures |url| == |webAppUrl| + 6 + |payload|
  {
    webAppUrl + "?data=" + payload
  }

  /** Whether the picker address fits: an address of exactly 2048 characters is accepted. */
  predicate Fits(url: string) { |url| <= MaxUrlLength }

  /**
   * `handle_playlist_url`'s reply. `fetched` is the extractor's answer (or
   * its error) and `payload` the encoded track list built from the entries.
   */
  function PlaylistReplyFor(allowed: set<int>, user: int, webAppUrl: string, fetched: Result<PlaylistInfo>, payload: string): PlaylistReply
  {
    if !Access.IsAllowed(allowed, user) then Ignored
    else if webAppUrl == [] then NotConfigured
    else if fetched.Err? then Failed(fetched.error)
    else if fetched.value.entries == [] then EmptyPlaylist
    else
      var info := fetched.value;
      var url := PickerUrl(webAppUrl, payload);
      if !Fits(url) then TooLarge(|info.entries|)
      else Picker(url, info.title, |info.entries|, if info.count > |info.entries| then Some(info.count) else None)
  }

  /** Whether the handler writes the cache: whenever a non-empty playlist was fetched, fitting or not. */
  predicate CachesPlaylist(allowed: set<int>, user: int, webAppUrl: string, fetched: Result<PlaylistInfo>)
  {
    Access.IsAllowed(allowed, user) && webAppUrl != [] && fetched.Ok? && fetched.value.entries != []
  }

  /**
   * `handle_playlist_url`. The cached entry is written before the length
   * check, so a playlist too long to offer still replaces the user's
   * previous one.
   */
  method HandlePlaylistUrl(cache: PlaylistCache, allowed: set<int>, user: int, webAppUrl: string,
                           text: string, fetched: Result<PlaylistInfo>, payload: string)
    returns (reply: PlaylistReply)
    modifies cache
    ensures reply == PlaylistReplyFor(allowed, user, webAppUrl, fetched, payload)
    ensures cache.sessions == if CachesPlaylist(allowed, user, webAppUrl, fetched)
      then old(cache.sessions)[user := Session(ById(fetched.value.entries), Trim(text))]
      else old(cache.sessions)
  {
    if !Access.IsAllowed(allowed, user) {
      return Ignored;
    }
    if webAppUrl == [] {
      return NotConfigured;
    }
    var url := Trim(text);
    if fetched.Err? {
      return Failed(fetched.error);
    }
    var info := fetched.value;
    if info.entries == [] {
      return EmptyPlaylist;
    }
    cache.Put(user, Session(ById(info.entries), url));
    var full := PickerUrl(webAppUrl, payload);
    if |full| > MaxUrlLength {
      return TooLarge(|info.entries|);
    }
    var total := if info.count > |info.entries| then Some(info.count) else None;
    reply := Picker(full, info.title, |info.entries|, total);
  }

  /**
   * The length check is strict: the picker is offered exactly when the
   * encoded list fits in what the limit leaves after the address and `?data=`.
   */
  lemma PickerIffFits(allowed: set<int>, user: int, webAppUrl: string, fetched: Result<PlaylistInfo>, payload: string)
    requires CachesPlaylist(allowed, user, webAppUrl, fetched)
    ensures PlaylistReplyFor(allowed, user, webAppUrl, fetched, payload).Picker? <==> |webAppUrl| + 6 + |payload| <= 2048
    ensures PlaylistReplyFor(allowed, user, webAppUrl, fetched, payload).TooLarge? <==> |webAppUrl| + 6 + |payload| > 2048
  {
  }

  /** A reply of too large always comes with the playlist cached. */
  lemma TooLargeIsCached(allowed: set<int>, user: int, webAppUrl: string, fetched: Result<PlaylistInfo>, payload: string)
    requires PlaylistReplyFor(allowed, user, webAppUrl, fetched, payload).TooLarge?
    ensures CachesPlaylist(allowed, user, webAppUrl, fetched)
    ensures PlaylistReplyFor(allowed, user, webAppUrl, fetched, payload).tracks == |fetched.value.entries|
  {
  }

  /** The picker mentions the full count only when the playlist holds more than was listed. */
  lemma PickerCounts(allowed: set<int>, user: int, webAppUrl: string, fetched: Result<PlaylistInfo>, payload: string)
    requires PlaylistReplyFor(allowed, user, webAppUrl, fetched, payload).Picker?
    ensures var r := PlaylistReplyFor(allowed, user, webAppUrl, fetched, payload);
      && r.shown == |fetched.value.entries| > 0
      && (r.total.Some? <==> fetched.value.count > r.shown)
      && |r.url| <= 2048
  {
  }
}
