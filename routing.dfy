/**
 * Which handler of the bot an incoming message reaches. The handlers are
 * registered in this order, and the first whose filter accepts the message
 * handles it: `/start`, `/help`, playlist links, Mini App data, single-video
 * links, and a catch-all for any other text.
 */
module Routing {
  import opened Wrappers
  import opened Text

  /** `is_youtube_url`: a plain substring test on either host name. */
  predicate IsYoutubeUrl(text: string)
  {
    Contains(text, "youtube.com") || Contains(text, "youtu.be")
  }

  /** `is_playlist_url`: a YouTube link that carries a `list=` parameter. */
  predicate IsPlaylistUrl(text: string)
  {
    IsYoutubeUrl(text) && Contains(text, "list=")
  }

  datatype Message =
    | TextMessage(text: string)
    | WebAppDataMessage(data: string)
    | OtherContent

  datatype Handler = Start | Help | PlaylistLink | WebAppData | VideoLink | Fallback

  /** The characters of a command name: up to the first whitespace or `@`. */
  function CommandName(s: string): (r: string)
    ensures |r| <= |s| && r == s[..|r|]
    ensures forall i :: 0 <= i < |r| ==> !IsSpace(r[i]) && r[i] != '@'
    ensures |r| == |s| || IsSpace(s[|r|]) || s[|r|] == '@'
  {
    if s == [] || IsSpace(s[0]) || s[0] == '@' then [] else [s[0]] + CommandName(s[1..])
  }

  /** The command a text names, as the bot library extracts it: `/name@bot args` names `name`. */
  function CommandOf(text: string): Option<string>
  {
    if text != [] && text[0] == '/' then Some(CommandName(text[1..])) else None
  }

  /** The handler a message reaches: the first registered filter that accepts it. */
  function Route(m: Message): Option<Handler>
  {
    match m
    case TextMessage(text) =>
      if CommandOf(text) == Some("start") then Some(Start)
      else if CommandOf(text) == Some("help") then Some(Help)
      else if IsPlaylistUrl(text) then Some(PlaylistLink)
      else if IsYoutubeUrl(text) && !IsPlaylistUrl(text) then Some(VideoLink)
      else Some(Fallback)
    case WebAppDataMessage(_) => Some(WebAppData)
    case OtherContent => None
  }

  /**
   * For a text that is not a command, the three link handlers partition all
   * texts: a playlist link never reaches the single-video handler, and a text
   * without a YouTube host falls through to the catch-all.
   */
  lemma TextRouting(text: string)
    requires CommandOf(text) !in {Some("start"), Some("help")}
    ensures Route(TextMessage(text)) == Some(PlaylistLink) <==> IsPlaylistUrl(text)
    ensures Route(TextMessage(text)) == Some(VideoLink) <==> IsYoutubeUrl(text) && !IsPlaylistUrl(text)
    ensures Route(TextMessage(text)) == Some(Fallback) <==> !IsYoutubeUrl(text)
    ensures IsPlaylistUrl(text) ==> IsYoutubeUrl(text)
  {
  }

  /**
   * The single-video filter's `not is_playlist_url` conjunct never decides
   * anything: because the playlist handler is registered first, a filter of
   * `is_youtube_url` alone would route every message the same way.
   */
  function RouteWithoutExclusion(m: Message): Option<Handler>
  {
    match m
    case TextMessage(text) =>
      if CommandOf(text) == Some("start") then Some(Start)
      else if CommandOf(text) == Some("help") then Some(Help)
      else if IsPlaylistUrl(text) then Some(PlaylistLink)
      else if IsYoutubeUrl(text) then Some(VideoLink)
      else Some(Fallback)
    case WebAppDataMessage(_) => Some(WebAppData)
    case OtherContent => None
  }

  lemma ExclusionIsRedundant(m: Message)
    ensures Route(m) == RouteWithoutExclusion(m)
  {
  }

  /** Any text that carries a YouTube host and `list=` and does not start with `/` reaches the playlist handler. */
  lemma PlaylistLinkRouted(a: string, host: string, b: string, c: string)
    requires host == "youtube.com" || host == "youtu.be"
    requires a != [] ==> a[0] != '/'
    ensures Route(TextMessage(a + host + b + "list=" + c)) == Some(PlaylistLink)
  {
    var text := a + host + b + "list=" + c;
    assert text == a + host + (b + "list=" + c);
    ContainsInfix(a, host, b + "list=" + c);
    assert text == (a + host + b) + "list=" + c;
    ContainsInfix(a + host + b, "list=", c);
    assert text[0] != '/' by {
      if a == [] { assert text[0] == host[0]; }
      else { assert text[0] == a[0]; }
    }
  }

  /** A text without either host, whatever else it holds, gets the catch-all reply. */
  lemma NonYoutubeFallsThrough(text: string)
    requires !Contains(text, "youtube.com") && !Contains(text, "youtu.be")
    requires text != [] ==> text[0] != '/'
    ensures Route(TextMessage(text)) == Some(Fallback)
  {
  }
}
