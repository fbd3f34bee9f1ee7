/**
 * `get_video_info`: the metadata kept from the extractor's answer. The
 * thumbnail is never the one the extractor reports: it is always rebuilt from
 * the video id as the fixed maximum-resolution image address.
 */
module VideoInfo {
  import opened Wrappers

  /** The fields of the extractor's answer that are read (any of them may be missing). */
  datatype Extracted = Extracted(
    id: Option<string>,
    title: Option<string>,
    duration: Option<int>,
    thumbnail: Option<string>,
    uploader: Option<string>)

  /** The four keys of the result. */
  datatype Info = Info(title: Option<string>, duration: Option<int>, thumbnail: string, uploader: Option<string>)

  const ThumbnailPrefix: string := "https://i.ytimg.com/vi/"
  const ThumbnailSuffix: string := "/maxresdefault.jpg"

  /** How an f-string renders an optional id: a missing one becomes `None`. */
  function IdText(id: Option<string>): string
  {
    if id.Some? then id.value else "None"
  }

  function ThumbnailUrl(id: Option<string>): (url: string)
    ensures |url| == |ThumbnailPrefix| + |IdText(id)| + |ThumbnailSuffix|
  {
    ThumbnailPrefix + IdText(id) + ThumbnailSuffix
  }

  /** The id part of a thumbnail address, if `url` has the thumbnail shape. */
  function ThumbnailId(url: string): Option<string>
  {
    var p, s := |ThumbnailPrefix|, |ThumbnailSuffix|;
    if |url| >= p + s && url[..p] == ThumbnailPrefix && url[|url| - s..] == ThumbnailSuffix
    then Some(url[p..|url| - s])
    else None
  }

  function GetVideoInfo(e: Extracted): Info
  {
    Info(e.title, e.duration, ThumbnailUrl(e.id), e.uploader)
  }

  /** The id can be read back from the thumbnail address. */
  lemma ThumbnailRoundTrip(id: Option<string>)
    ensures ThumbnailId(ThumbnailUrl(id)) == Some(IdText(id))
  {
    var url := ThumbnailUrl(id);
    var p, s := |ThumbnailPrefix|, |ThumbnailSuffix|;
    assert url[..p] == ThumbnailPrefix;
    assert url[|url| - s..] == ThumbnailSuffix;
    assert url[p..|url| - s] == IdText(id);
  }

  /** Distinct ids give distinct thumbnails; only a missing id and the id `None` collide. */
  lemma ThumbnailInjective(a: Option<string>, b: Option<string>)
    ensures ThumbnailUrl(a) == ThumbnailUrl(b) <==> IdText(a) == IdText(b)
  {
    if ThumbnailUrl(a) == ThumbnailUrl(b) {
      ThumbnailRoundTrip(a);
      ThumbnailRoundTrip(b);
    }
  }

  /**
   * The result carries the extractor's title, duration and uploader
   * unchanged, and a thumbnail that depends on the id alone: whatever
   * thumbnail the extractor reported is ignored.
   */
  lemma GetVideoInfoMeaning(e: Extracted, reported: Option<string>)
    ensures var info := GetVideoInfo(e);
      && info.title == e.title && info.duration == e.duration && info.uploader == e.uploader
      && ThumbnailId(info.thumbnail) == Some(IdText(e.id))
      && GetVideoInfo(e.(thumbnail := reported)) == info
  {
    ThumbnailRoundTrip(e.id);
  }
}
