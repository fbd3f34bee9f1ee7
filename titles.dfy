/**
 * The "Artist - Title" heuristic the bot applies to a video title before
 * tagging and sending the audio. The same code sits in the playlist batch
 * loop and in the single-video handler.
 */
module Titles {
  import opened Wrappers
  import opened Text

  const Separator: string := " - "

  datatype Credits = Credits(performer: string, title: string)

  /**
   * Split on the first `" - "`: both sides stripped. Without a separator the
   * performer is the uploader (or empty when there is none) and the title is
   * the raw title, not stripped.
   */
  function SplitTitle(rawTitle: string, uploader: Option<string>): Credits
  {
    match Find(rawTitle, Separator)
    case Some(k) => Credits(Trim(rawTitle[..k]), Trim(rawTitle[k + |Separator|..]))
    case None => Credits(uploader.GetOr(""), rawTitle)
  }

  /**
   * With a separator, the performer is the stripped text before its first
   * occurrence and the title the stripped text after it: no separator starts
   * earlier in the raw title (even one overlapping this one, as in
   * `"a - - b"`), the text before holds none, and the text after may hold more.
   */
  lemma SplitTitleWithSeparator(rawTitle: string, uploader: Option<string>)
    requires Contains(rawTitle, Separator)
    ensures exists before, after ::
      && rawTitle == before + Separator + after
      && (forall j :: 0 <= j < |before| ==> !OccursAt(rawTitle, Separator, j))
      && !Contains(before, Separator)
      && SplitTitle(rawTitle, uploader) == Credits(Trim(before), Trim(after))
  {
    var k := Find(rawTitle, Separator).value;
    var before, after := rawTitle[..k], rawTitle[k + 3..];
    assert rawTitle == before + Separator + after;
    forall j: nat ensures !OccursAt(before, Separator, j) {
      if j + 3 <= k {
        assert rawTitle[j..j + 3] == before[j..j + 3];
        assert !OccursAt(rawTitle, Separator, j);
      }
    }
    ContainsIff(before, Separator);
    assert SplitTitle(rawTitle, uploader) == Credits(Trim(before), Trim(after));
  }

  /** Without a separator, the uploader stands in for the performer and the title is passed through. */
  lemma SplitTitleWithoutSeparator(rawTitle: string, uploader: Option<string>)
    requires !Contains(rawTitle, Separator)
    ensures SplitTitle(rawTitle, uploader).title == rawTitle
    ensures SplitTitle(rawTitle, uploader).performer == if uploader.Some? then uploader.value else ""
  {
  }

  /** The first separator is found right after a performer that holds no `-`. */
  lemma FirstSeparatorAfter(artist: string, rest: string)
    requires '-' !in artist
    ensures Find(artist + Separator + rest, Separator) == Some(|artist|)
  {
    var s := artist + Separator + rest;
    assert OccursAt(s, Separator, |artist|) by {
      assert s[|artist|..|artist| + 3] == Separator;
    }
    forall j: nat | j < |artist| ensures !OccursAt(s, Separator, j) {
      if j + 1 < |artist| {
        assert s[j + 1] == artist[j + 1];
      } else {
        assert s[j + 1] == ' ';
      }
      assert j + 3 <= |s| ==> s[j..j + 3][1] == s[j + 1];
    }
  }

  /**
   * Only the first separator splits: in `"A - B - C"` the performer is `A`
   * and the title `B - C`. Stated for any performer free of `-` and any
   * remainder, whatever separators the remainder holds.
   */
  lemma SplitOnFirstSeparatorOnly(artist: string, rest: string, uploader: Option<string>)
    requires '-' !in artist
    ensures SplitTitle(artist + Separator + rest, uploader) == Credits(Trim(artist), Trim(rest))
  {
    var s := artist + Separator + rest;
    FirstSeparatorAfter(artist, rest);
    assert s[..|artist|] == artist;
    assert s[|artist| + 3..] == rest;
  }

  /**
   * A title with two separators, `"A - B - C"`: the performer is `A`, and the
   * title keeps the second separator, `B - C`.
   */
  lemma ThreePartTitle(a: string, b: string, c: string, uploader: Option<string>)
    requires '-' !in a && IsTrimmed(a)
    requires b != [] && c != [] && IsTrimmed(b) && IsTrimmed(c)
    ensures SplitTitle(a + Separator + b + Separator + c, uploader) == Credits(a, b + Separator + c)
  {
    var rest := b + Separator + c;
    assert a + Separator + b + Separator + c == a + Separator + rest;
    SplitOnFirstSeparatorOnly(a, rest, uploader);
    assert rest[0] == b[0] && rest[|rest| - 1] == c[|c| - 1];
    TrimOfTrimmed(a);
    TrimOfTrimmed(rest);
  }
}
