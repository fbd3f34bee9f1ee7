/**
 * `fetch_lyrics`: the search terms are cleaned of bracketed annotations such
 * as `(Official Video)` or `[Lyrics]`, the lyrics service is asked, and the
 * synchronised text is preferred over the plain one.
 *
 * The cleaning is the substitution of every match of the regular expression
 * `\s*[\(\[].*?[\)\]]` by nothing, followed by stripping. The matcher is
 * written out below as Python's `re.sub` runs it: from left to right, trying
 * a match at each position, resuming after each match and otherwise copying
 * one character.
 */
module Lyrics {
  import opened Wrappers
  import opened Text

  predicate IsOpen(c: char) { c == '(' || c == '[' }

  predicate IsClose(c: char) { c == ')' || c == ']' }

  /** The number of whitespace characters `s` starts with (`\s*`, taken greedily). */
  function SpaceRun(s: string): (n: nat)
    ensures n <= |s|
    ensures AllSpace(s[..n])
    ensures n == |s| || !IsSpace(s[n])
  {
    if s != [] && IsSpace(s[0]) then
      var n := 1 + SpaceRun(s[1..]);
      assert s[..n] == [s[0]] + s[1..][..n - 1];
      n
    else 0
  }

  /** The run stops at the first character that is not whitespace. */
  lemma {:induction false} SpaceRunStops(s: string, i: nat)
    requires i < |s| && !IsSpace(s[i])
    ensures SpaceRun(s) <= i
    decreases i
  {
    if i > 0 && IsSpace(s[0]) {
      SpaceRunStops(s[1..], i - 1);
    }
  }

  /** The run covers every whitespace prefix. */
  lemma {:induction false} SpaceRunCovers(s: string, i: nat)
    requires i <= |s| && AllSpace(s[..i])
    ensures SpaceRun(s) >= i
    decreases i
  {
    if i > 0 {
      assert IsSpace(s[..i][0]);
      assert s[1..][..i - 1] == s[..i][1..];
      SpaceRunCovers(s[1..], i - 1);
    }
  }

  /**
   * The first closing bracket at or after `from`, as the lazy `.*?` finds it:
   * `.` does not match a line break, so a line break before any closing
   * bracket means there is none.
   */
  function FirstClose(s: string, from: nat): (r: Option<nat>)
    requires from <= |s|
    ensures r.Some? ==> from <= r.value < |s| && IsClose(s[r.value])
    ensures r.Some? ==> forall k :: from <= k < r.value ==> s[k] != '\n' && !IsClose(s[k])
    ensures r.None? ==> forall k :: from <= k < |s| && IsClose(s[k]) ==> exists j :: from <= j < k && s[j] == '\n'
    decreases |s| - from
  {
    if from == |s| || s[from] == '\n' then None
    else if IsClose(s[from]) then Some(from)
    else FirstClose(s, from + 1)
  }

  /**
   * The length of the match at the start of `s`, if there is one. Giving back
   * whitespace to `\s*` never helps, since a whitespace character is never an
   * opening bracket, so only the greedy run has to be tried.
   */
  function MatchLength(s: string): (r: Option<nat>)
    ensures r.Some? ==> 2 <= r.value <= |s|
  {
    var n := SpaceRun(s);
    if n < |s| && IsOpen(s[n]) then
      match FirstClose(s, n + 1)
      case Some(k) => Some(k + 1)
      case None => None
    else None
  }

  /** `re.sub(r'\s*[\(\[].*?[\)\]]', '', s)`. */
  function StripAnnotations(s: string): (r: string)
    ensures |r| <= |s|
  {
    if s == [] then []
    else match MatchLength(s)
      case Some(n) => StripAnnotations(s[n..])
      case None => [s[0]] + StripAnnotations(s[1..])
  }

  /** Some suffix of `s` starts with a match. */
  predicate HasAnnotation(s: string)
  {
    exists i :: 0 <= i < |s| && MatchLength(s[i..]).Some?
  }

  /** The search term sent for an artist or a title: annotations removed, then stripped. */
  function CleanTerm(s: string): (r: string)
    ensures IsTrimmed(r) && |r| <= |s|
  {
    Trim(StripAnnotations(s))
  }

  /** Without any match, nothing is removed. */
  lemma {:induction false} StripWithoutAnnotation(s: string)
    requires !HasAnnotation(s)
    ensures StripAnnotations(s) == s
    decreases |s|
  {
    if s != [] {
      assert s[0..] == s;
      assert MatchLength(s).None?;
      assert !HasAnnotation(s[1..]) by {
        forall i | 0 <= i < |s[1..]| ensures MatchLength(s[1..][i..]).None? {
          assert s[1..][i..] == s[i + 1..];
        }
      }
      StripWithoutAnnotation(s[1..]);
    }
  }

  /** With a match anywhere, the result is strictly shorter. */
  lemma {:induction false} StripWithAnnotation(s: string, i: nat)
    requires i < |s| && MatchLength(s[i..]).Some?
    ensures |StripAnnotations(s)| < |s|
    decreases |s|
  {
    if MatchLength(s).None? {
      assert i > 0 by { assert s[0..] == s; }
      assert s[1..][i - 1..] == s[i..];
      StripWithAnnotation(s[1..], i - 1);
    }
  }

  /** The text is left untouched exactly when no annotation occurs in it. */
  lemma StripIdentityIff(s: string)
    ensures StripAnnotations(s) == s <==> !HasAnnotation(s)
  {
    if HasAnnotation(s) {
      var i :| 0 <= i < |s| && MatchLength(s[i..]).Some?;
      StripWithAnnotation(s, i);
    } else {
      StripWithoutAnnotation(s);
    }
  }

  /** A text without an opening bracket holds no annotation. */
  lemma NoOpenNoAnnotation(s: string)
    requires forall k :: 0 <= k < |s| ==> !IsOpen(s[k])
    ensures StripAnnotations(s) == s
  {
    forall i | 0 <= i < |s| ensures MatchLength(s[i..]).None? {
      var n := SpaceRun(s[i..]);
      if n < |s[i..]| {
        assert s[i..][n] == s[i + n];
      }
    }
    StripWithoutAnnotation(s);
  }

  /** A text without a closing bracket holds no annotation, so an unmatched opening bracket is kept. */
  lemma NoCloseNoAnnotation(s: string)
    requires forall k :: 0 <= k < |s| ==> !IsClose(s[k])
    ensures StripAnnotations(s) == s
  {
    forall i | 0 <= i < |s| ensures MatchLength(s[i..]).None? {
      var t := s[i..];
      var n := SpaceRun(t);
      if n < |t| && IsOpen(t[n]) {
        assert forall k :: 0 <= k < |t| ==> !IsClose(t[k]);
        assert FirstClose(t, n + 1).None?;
      }
    }
    StripWithoutAnnotation(s);
  }

  /** Text free of opening brackets that does not end in whitespace. */
  predicate Plain(a: string)
  {
    (forall k :: 0 <= k < |a| ==> !IsOpen(a[k])) && (a == [] || !IsSpace(a[|a| - 1]))
  }

  /** No match starts inside plain text, whatever follows it. */
  lemma NoMatchInPlain(a: string, t: string)
    requires a != [] && Plain(a)
    ensures MatchLength(a + t).None?
  {
    var s := a + t;
    assert s[|a| - 1] == a[|a| - 1];
    SpaceRunStops(s, |a| - 1);
    assert s[SpaceRun(s)] == a[SpaceRun(s)];
  }

  /** Where no match starts, one character is copied. */
  lemma StripCopies(s: string)
    requires s != [] && MatchLength(s).None?
    ensures StripAnnotations(s) == [s[0]] + StripAnnotations(s[1..])
  {
  }

  lemma PlainTail(a: string)
    requires a != [] && Plain(a)
    ensures Plain(a[1..])
  {
    if |a| > 1 {
      assert a[1..][|a| - 2] == a[|a| - 1];
    }
  }

  lemma FirstThenRest(a: string, t: string, rest: string)
    requires a != []
    ensures (a + t)[0] == a[0]
    ensures [(a + t)[0]] + (a[1..] + rest) == a + rest
  {
    assert a == [a[0]] + a[1..];
  }

  /** Plain text is kept as it is in front of whatever follows. */
  lemma {:induction false} StripKeepsPlainPrefix(a: string, t: string)
    requires Plain(a)
    ensures StripAnnotations(a + t) == a + StripAnnotations(t)
    decreases |a|
  {
    if a == [] {
      assert a + t == t;
    } else {
      var s := a + t;
      NoMatchInPlain(a, t);
      StripCopies(s);
      assert s[1..] == a[1..] + t;
      PlainTail(a);
      StripKeepsPlainPrefix(a[1..], t);
      FirstThenRest(a, t, StripAnnotations(t));
    }
  }

  /**
   * Whitespace, an opening bracket, text on one line without a closing
   * bracket and a closing bracket form one match, removed as a whole.
   */
  lemma DropAnnotation(w: string, open: char, x: string, close: char, t: string)
    requires AllSpace(w) && IsOpen(open) && IsClose(close)
    requires forall k :: 0 <= k < |x| ==> !IsClose(x[k]) && x[k] != '\n'
    ensures StripAnnotations(w + [open] + x + [close] + t) == StripAnnotations(t)
  {
    var s := w + [open] + x + [close] + t;
    var n := SpaceRun(s);
    assert n == |w| by {
      assert s[..|w|] == w;
      SpaceRunCovers(s, |w|);
      SpaceRunStops(s, |w|);
    }
    FirstCloseSkips(s, |w| + 1, |x|);
    assert s[|w| + |x| + 2..] == t;
  }

  lemma {:induction false} FirstCloseSkips(s: string, from: nat, len: nat)
    requires from + len < |s| && IsClose(s[from + len])
    requires forall k :: from <= k < from + len ==> !IsClose(s[k]) && s[k] != '\n'
    ensures FirstClose(s, from) == Some(from + len)
    decreases len
  {
    if len > 0 {
      FirstCloseSkips(s, from + 1, len - 1);
    }
  }

  /**
   * `Song (Official Video)` is searched for as `Song`: a trimmed name free
   * of opening brackets followed by one trailing annotation cleans to the
   * name.
   */
  lemma CleanTrailingAnnotation(a: string, w: string, open: char, x: string, close: char)
    requires IsTrimmed(a) && forall k :: 0 <= k < |a| ==> !IsOpen(a[k])
    requires AllSpace(w) && IsOpen(open) && IsClose(close)
    requires forall k :: 0 <= k < |x| ==> !IsClose(x[k]) && x[k] != '\n'
    ensures CleanTerm(a + w + [open] + x + [close]) == a
  {
    var t := w + [open] + x + [close];
    assert a + w + [open] + x + [close] == a + (t + []);
    StripKeepsPlainPrefix(a, t + []);
    DropAnnotation(w, open, x, close, []);
    assert t + [] == w + [open] + x + [close] + [];
    assert StripAnnotations([]) == [];
    assert a + [] == a;
    TrimOfTrimmed(a);
  }

  // ---------------------------------------------------------------------------
  // The lyrics service

  /** The two fields sent to the service (`artist_name`, `track_name`). */
  datatype Query = Query(artistName: string, trackName: string)

  /**
   * What a lookup ends in: a JSON object whose `syncedLyrics` and
   * `plainLyrics` fields are strings or null/absent, an HTTP error status,
   * or any other failure (timeout, unreadable body).
   */
  datatype Response =
    | Found(synced: Option<string>, plain: Option<string>)
    | HttpError(code: int)
    | Failed

  function QueryFor(artist: string, title: string): Query
  {
    Query(CleanTerm(artist), CleanTerm(title))
  }

  /** `data.get('syncedLyrics') or data.get('plainLyrics')`, kept only when non-empty. */
  function Choose(r: Response): (lyrics: Option<string>)
    ensures lyrics.Some? ==> lyrics.value != []
  {
    match r
    case Found(synced, plain) =>
      if synced.Some? && synced.value != [] then synced
      else if plain.Some? && plain.value != [] then plain
      else None
    case _ => None
  }

  /**
   * `fetch_lyrics`. The service is a parameter: `lookup` gives its answer to
   * each query. Every failure ends in no lyrics, never in an error.
   */
  function FetchLyrics(artist: string, title: string, lookup: Query -> Response): Option<string>
  {
    Choose(lookup(QueryFor(artist, title)))
  }

  /**
   * Lyrics are returned only when the service answered with a non-empty
   * field, synchronised text winning over plain text.
   */
  lemma FetchLyricsMeaning(artist: string, title: string, lookup: Query -> Response)
    ensures var r := lookup(QueryFor(artist, title));
      var lyrics := FetchLyrics(artist, title, lookup);
      && (lyrics.Some? <==> r.Found? && ((r.synced.Some? && r.synced.value != []) || (r.plain.Some? && r.plain.value != [])))
      && (lyrics.Some? && r.synced.Some? && r.synced.value != [] ==> lyrics == r.synced)
      && (lyrics.Some? && (r.synced.None? || r.synced.value == []) ==> lyrics == r.plain)
  {
  }

  /** A failed lookup, whatever its status code, gives no lyrics. */
  lemma ErrorsGiveNothing(artist: string, title: string, lookup: Query -> Response)
    requires !lookup(QueryFor(artist, title)).Found?
    ensures FetchLyrics(artist, title, lookup) == None
  {
  }
}
