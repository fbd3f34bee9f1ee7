/**
 * `embed_metadata`: the tags of the downloaded M4A file are updated in place,
 * key by key, the lyrics are looked up and stored when found, and the cover
 * is stored when the thumbnail could be turned into a JPEG; the file is saved
 * in every case.
 */
module Metadata {
  import opened Wrappers
  import opened Lyrics
  import opened Cover

  /** A tag value: a text atom, or an embedded JPEG cover (abstracted by the image it encodes). */
  datatype TagValue = Text(text: string) | Jpeg(image: Image)

  type Tags = map<string, seq<TagValue>>

  const TitleKey: string := "\U{a9}nam"
  const ArtistKey: string := "\U{a9}ART"
  const AlbumKey: string := "\U{a9}alb"
  const AlbumArtistKey: string := "aART"
  const GenreKey: string := "\U{a9}gen"
  const LyricsKey: string := "\U{a9}lyr"
  const CoverKey: string := "covr"

  const Genre: string := "Music"

  /** The five keys written on every call. */
  const BasicKeys: set<string> := {TitleKey, ArtistKey, AlbumKey, AlbumArtistKey, GenreKey}

  /** Python's truthiness of an optional string: present and non-empty. */
  predicate Truthy(s: Option<string>) { s.Some? && s.value != [] }

  /**
   * The tags after the update: the five basic tags, the lyrics when there
   * are some, the cover when it could be made, and every other tag as before.
   */
  function Tagged(tags: Tags, artist: string, title: string, lyrics: Option<string>, cover: Result<Image>): Tags
  {
    var basic := tags[TitleKey := [Text(title)]][ArtistKey := [Text(artist)]][AlbumKey := [Text(title)]]
                     [AlbumArtistKey := [Text(artist)]][GenreKey := [Text(Genre)]];
    var withLyrics := if Truthy(lyrics) then basic[LyricsKey := [Text(lyrics.value)]] else basic;
    if cover.Ok? then withLyrics[CoverKey := [Jpeg(cover.value)]] else withLyrics
  }

  /** An opened M4A file: the tags in memory and the tags last saved to disk. */
  class AudioFile {
    var tags: Tags
    var saved: Tags

    constructor(onDisk: Tags)
      ensures tags == onDisk && saved == onDisk
    {
      tags := onDisk;
      saved := onDisk;
    }

    /** `audio.save()`. */
    method Save()
      modifies this
      ensures saved == tags && tags == old(tags)
    {
      saved := tags;
    }

    /**
     * `embed_metadata`. The lyrics service and the thumbnail download are
     * parameters: `lookup` answers lyrics queries and `fetch` gives the
     * decoded image at an address, or the error of downloading or decoding it.
     * Returns the lyrics result.
     */
    method EmbedMetadata(artist: string, title: string, thumbnailUrl: string,
                         lookup: Query -> Response, fetch: string -> Result<Image>)
      returns (lyrics: Option<string>)
      modifies this
      ensures lyrics == FetchLyrics(artist, title, lookup)
      ensures tags == Tagged(old(tags), artist, title, lyrics, CoverArt(fetch(thumbnailUrl)))
      ensures saved == tags
    {
      tags := tags[TitleKey := [Text(title)]];
      tags := tags[ArtistKey := [Text(artist)]];
      tags := tags[AlbumKey := [Text(title)]];
      tags := tags[AlbumArtistKey := [Text(artist)]];
      tags := tags[GenreKey := [Text(Genre)]];

      lyrics := FetchLyrics(artist, title, lookup);
      if lyrics.Some? && lyrics.value != [] {
        tags := tags[LyricsKey := [Text(lyrics.value)]];
      }

      var fetched := fetch(thumbnailUrl);
      if fetched.Ok? {
        var img := fetched.value;
        if img.mode in ConvertedModes {
          img := img.(mode := "RGB");
        }
        if img.width != img.height {
          img := Crop(img, CenterSquare(img.width, img.height));
        }
        if img.width > MaxSide {
          img := Image(img.mode, MaxSide, MaxSide);
        }
        var encoded := EncodeJpeg(img);
        if encoded.Ok? {
          tags := tags[CoverKey := [Jpeg(encoded.value)]];
        }
      }
      Save();
    }
  }

  /** The five basic tags hold the title, the artist and the genre, whatever the file held before. */
  lemma TaggedBasic(tags: Tags, artist: string, title: string, lyrics: Option<string>, cover: Result<Image>)
    ensures var t := Tagged(tags, artist, title, lyrics, cover);
      && BasicKeys <= t.Keys
      && t[TitleKey] == t[AlbumKey] == [Text(title)]
      && t[ArtistKey] == t[AlbumArtistKey] == [Text(artist)]
      && t[GenreKey] == [Text(Genre)]
  {
  }

  /** The lyrics tag is written exactly when lyrics were found; otherwise it keeps whatever the file held, if anything. */
  lemma TaggedLyrics(tags: Tags, artist: string, title: string, lyrics: Option<string>, cover: Result<Image>)
    ensures var t := Tagged(tags, artist, title, lyrics, cover);
      && (Truthy(lyrics) ==> LyricsKey in t && t[LyricsKey] == [Text(lyrics.value)])
      && (!Truthy(lyrics) ==> (LyricsKey in t <==> LyricsKey in tags) && (LyricsKey in tags ==> t[LyricsKey] == tags[LyricsKey]))
  {
  }

  /** The cover tag is written exactly when the cover could be made; a failure leaves any earlier cover in place. */
  lemma TaggedCover(tags: Tags, artist: string, title: string, lyrics: Option<string>, cover: Result<Image>)
    ensures var t := Tagged(tags, artist, title, lyrics, cover);
      && (cover.Ok? ==> CoverKey in t && t[CoverKey] == [Jpeg(cover.value)])
      && (cover.Err? ==> (CoverKey in t <==> CoverKey in tags) && (CoverKey in tags ==> t[CoverKey] == tags[CoverKey]))
  {
  }

  /** No other tag is touched, and none is removed. */
  lemma TaggedFrame(tags: Tags, artist: string, title: string, lyrics: Option<string>, cover: Result<Image>)
    ensures var t := Tagged(tags, artist, title, lyrics, cover);
      && tags.Keys <= t.Keys
      && t.Keys <= tags.Keys + BasicKeys + {LyricsKey, CoverKey}
      && forall k :: k in tags && k !in BasicKeys && k != LyricsKey && k != CoverKey ==> t[k] == tags[k]
  {
  }

  /** Embedding twice with the same inputs gives the same tags as embedding once. */
  lemma TaggedIdempotent(tags: Tags, artist: string, title: string, lyrics: Option<string>, cover: Result<Image>)
    ensures var t := Tagged(tags, artist, title, lyrics, cover);
      Tagged(t, artist, title, lyrics, cover) == t
  {
    var t := Tagged(tags, artist, title, lyrics, cover);
    var t2 := Tagged(t, artist, title, lyrics, cover);
    TaggedFrame(t, artist, title, lyrics, cover);
    TaggedFrame(tags, artist, title, lyrics, cover);
    assert t2.Keys == t.Keys;
    forall k | k in t ensures t2[k] == t[k] {
    }
  }
}
