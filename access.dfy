/**
 * The bot's allow-list: `ALLOWED_USERS` is read once from a comma-separated
 * environment string, and every handler first asks `is_allowed`.
 */
module Access {
  import opened Wrappers
  import opened Text

  /**
   * The set comprehension over the comma-separated segments: each segment is
   * stripped, blank ones are skipped, the others go through `int()`. The first
   * segment `int()` rejects raises, which aborts the bot's start-up.
   */
  function ParseIds(segments: seq<string>): Result<set<int>>
  {
    if segments == [] then Ok({})
    else
      var head := Trim(segments[0]);
      if head == [] then ParseIds(segments[1..])
      else
        match ParseInt(head)
        case None => Err("invalid literal for int() with base 10: '" + head + "'")
        case Some(id) =>
          match ParseIds(segments[1..])
          case Err(e) => Err(e)
          case Ok(ids) => Ok({id} + ids)
  }

  /** `ALLOWED_USERS`: empty for an empty string, otherwise the ids of the segments. */
  function ParseAllowedUsers(raw: string): Result<set<int>>
  {
    if raw == [] then Ok({}) else ParseIds(Split(raw, ','))
  }

  /** `is_allowed`: an empty allow-list admits everybody. */
  predicate IsAllowed(allowed: set<int>, user: int)
  {
    allowed == {} || user in allowed
  }

  /** The id a segment contributes, if any. */
  predicate SegmentNames(segment: string, id: int)
  {
    ParseInt(Trim(segment)) == Some(id)
  }

  /** A non-blank segment that `int()` rejects. */
  predicate BadSegment(segment: string)
  {
    Trim(segment) != [] && ParseInt(Trim(segment)).None?
  }

  /** Parsing fails exactly when some segment is bad. */
  lemma {:induction false} ParseIdsFails(segments: seq<string>)
    ensures ParseIds(segments).Err? <==> exists k :: 0 <= k < |segments| && BadSegment(segments[k])
  {
    if segments != [] {
      var rest := segments[1..];
      ParseIdsFails(rest);
      if exists k :: 0 <= k < |rest| && BadSegment(rest[k]) {
        var k :| 0 <= k < |rest| && BadSegment(rest[k]);
        assert segments[k + 1] == rest[k];
      }
      if exists k :: 0 <= k < |segments| && BadSegment(segments[k]) {
        var k :| 0 <= k < |segments| && BadSegment(segments[k]);
        if k > 0 { assert rest[k - 1] == segments[k]; }
      }
    }
  }

  /** When parsing succeeds, the set holds exactly the ids the segments name. */
  lemma {:induction false} ParseIdsMembers(segments: seq<string>, id: int)
    requires ParseIds(segments).Ok?
    ensures id in ParseIds(segments).value <==> exists k :: 0 <= k < |segments| && SegmentNames(segments[k], id)
  {
    if segments != [] {
      var rest := segments[1..];
      assert ParseIds(rest).Ok?;
      ParseIdsMembers(rest, id);
      if exists k :: 0 <= k < |rest| && SegmentNames(rest[k], id) {
        var k :| 0 <= k < |rest| && SegmentNames(rest[k], id);
        assert segments[k + 1] == rest[k];
      }
      if exists k :: 0 <= k < |segments| && SegmentNames(segments[k], id) {
        var k :| 0 <= k < |segments| && SegmentNames(segments[k], id);
        if k > 0 { assert rest[k - 1] == segments[k]; }
      }
    }
  }

  /** Segments that are all blank contribute nothing. */
  lemma {:induction false} ParseBlankSegments(segments: seq<string>)
    requires forall k :: 0 <= k < |segments| ==> Trim(segments[k]) == []
    ensures ParseIds(segments) == Ok({})
  {
    if segments != [] {
      ParseBlankSegments(segments[1..]);
    }
  }

  lemma {:induction false} SegmentsOfSpaces(s: string, sep: char)
    requires forall i :: 0 <= i < |s| ==> IsSpace(s[i]) || s[i] == sep
    requires !IsSpace(sep)
    ensures forall k :: 0 <= k < |Split(s, sep)| ==> AllSpace(Split(s, sep)[k])
  {
    if s != [] {
      SegmentsOfSpaces(s[1..], sep);
    }
  }

  /** A string of only whitespace and commas yields an empty allow-list, which admits every user. */
  lemma BlankAdmitsEveryone(raw: string, user: int)
    requires forall i :: 0 <= i < |raw| ==> IsSpace(raw[i]) || raw[i] == ','
    ensures ParseAllowedUsers(raw) == Ok({})
    ensures IsAllowed(ParseAllowedUsers(raw).value, user)
  {
    if raw != [] {
      var segments := Split(raw, ',');
      SegmentsOfSpaces(raw, ',');
      forall k | 0 <= k < |segments| ensures Trim(segments[k]) == [] {
        TrimSurrounded(segments[k], [], []);
        assert segments[k] + [] + [] == segments[k];
      }
      ParseBlankSegments(segments);
    }
  }

  /** Some comma-separated segment of `raw` names `user`. */
  predicate Listed(raw: string, user: int)
  {
    var segments := Split(raw, ',');
    exists k :: 0 <= k < |segments| && SegmentNames(segments[k], user)
  }

  /** With a non-empty allow-list, a user is admitted exactly when some segment names their id. */
  lemma AdmittedIffListed(raw: string, user: int)
    requires ParseAllowedUsers(raw).Ok? && ParseAllowedUsers(raw).value != {}
    ensures IsAllowed(ParseAllowedUsers(raw).value, user) <==> Listed(raw, user)
  {
    var segments := Split(raw, ',');
    var ids := ParseAllowedUsers(raw).value;
    assert raw != [];
    assert ParseIds(segments) == Ok(ids);
    ParseIdsMembers(segments, user);
  }

  function FormatIds(ids: seq<int>): (r: seq<string>)
    ensures |r| == |ids|
    ensures forall k :: 0 <= k < |r| ==> r[k] == IntToDec(ids[k])
  {
    if ids == [] then [] else [IntToDec(ids[0])] + FormatIds(ids[1..])
  }

  lemma DecimalIsTrimmed(i: int)
    ensures IsTrimmed(IntToDec(i)) && ',' !in IntToDec(i)
  {
    var d := NatToDec(if i < 0 then -i else i);
    assert forall c :: c in d ==> IsDigit(c);
  }

  /** Writing ids as `"1,2,3"` and parsing the string back gives exactly that set of ids. */
  lemma {:induction false} FormattedListRoundTrip(ids: seq<int>)
    requires |ids| >= 1
    ensures ParseAllowedUsers(Join(FormatIds(ids), ',')) == Ok(set x | x in ids)
  {
    var parts := FormatIds(ids);
    forall k | 0 <= k < |parts|
      ensures ',' !in parts[k] && Trim(parts[k]) == parts[k] && parts[k] != [] && SegmentNames(parts[k], ids[k])
    {
      DecimalIsTrimmed(ids[k]);
      TrimSurrounded([], parts[k], []);
      assert [] + parts[k] + [] == parts[k];
      IntToDecRoundTrip(ids[k]);
    }
    SplitJoin(parts, ',');
    var raw := Join(parts, ',');
    assert |Join(parts, ',')| >= |parts[0]| >= 1 by {
      JoinLength(parts, ',');
    }
    assert ParseAllowedUsers(raw) == ParseIds(parts);
    NamedIds(parts, ids);
  }

  lemma {:induction false} NamedIds(parts: seq<string>, ids: seq<int>)
    requires |parts| == |ids|
    requires forall k :: 0 <= k < |parts| ==> Trim(parts[k]) == parts[k] && parts[k] != [] && SegmentNames(parts[k], ids[k])
    ensures ParseIds(parts) == Ok(set x | x in ids)
  {
    if parts != [] {
      assert SegmentNames(parts[0], ids[0]) && Trim(parts[0]) == parts[0] != [];
      assert ParseInt(parts[0]) == Some(ids[0]);
      NamedIds(parts[1..], ids[1..]);
      assert ParseIds(parts[1..]) == Ok(set x | x in ids[1..]);
      assert ParseIds(parts) == Ok({ids[0]} + (set x | x in ids[1..]));
      ElementsOfCons(ids);
    } else {
      assert (set x | x in ids) == {};
    }
  }

  lemma ElementsOfCons(ids: seq<int>)
    requires ids != []
    ensures (set x | x in ids) == {ids[0]} + (set x | x in ids[1..])
  {
    assert ids == [ids[0]] + ids[1..];
  }

  lemma ExampleSegments()
    ensures Split("1, 2,,3", ',') == ["1", " 2", "", "3"]
  {
    assert "3"[1..] == [];
    assert ['3'] + [] == "3";
    assert Split("3", ',') == ["3"];
    assert ",3"[1..] == "3";
    assert Split(",3", ',') == ["", "3"];
    assert ",,3"[1..] == ",3";
    assert Split(",,3", ',') == ["", "", "3"];
    assert "2,,3"[1..] == ",,3";
    assert ['2'] + "" == "2";
    assert Split("2,,3", ',') == ["2", "", "3"];
    assert " 2,,3"[1..] == "2,,3";
    assert [' '] + "2" == " 2";
    assert Split(" 2,,3", ',') == [" 2", "", "3"];
    assert ", 2,,3"[1..] == " 2,,3";
    assert Split(", 2,,3", ',') == ["", " 2", "", "3"];
    assert "1, 2,,3"[1..] == ", 2,,3";
    assert ['1'] + "" == "1";
  }

  lemma ParseIdsSkipsBlank(segment: string, rest: seq<string>)
    requires Trim(segment) == []
    ensures ParseIds([segment] + rest) == ParseIds(rest)
  {
    assert ([segment] + rest)[1..] == rest;
  }

  lemma ParseIdsAddsId(segment: string, rest: seq<string>, id: int, ids: set<int>)
    requires ParseInt(Trim(segment)) == Some(id)
    requires ParseIds(rest) == Ok(ids)
    ensures ParseIds([segment] + rest) == Ok({id} + ids)
  {
    assert ([segment] + rest)[1..] == rest;
  }
}

/** Worked examples of the allow-list parser. */
module AccessExamples {
  import opened Wrappers
  import opened Text
  import opened Access

  lemma TrimOfId(pad: string, digits: string, id: int)
    requires AllSpace(pad) && IsTrimmed(digits) && ParseInt(digits) == Some(id)
    ensures ParseInt(Trim(pad + digits)) == Some(id)
  {
    TrimSurrounded(pad, digits, []);
    assert pad + digits + [] == pad + digits;
  }

  lemma ExampleTrimOne()
    ensures ParseInt(Trim("1")) == Some(1)
  {
    TrimOfId([], "1", 1);
    assert [] + "1" == "1";
  }

  lemma ExampleTrimTwo()
    ensures ParseInt(Trim(" 2")) == Some(2)
  {
    TrimOfId(" ", "2", 2);
    assert " " + "2" == " 2";
  }

  lemma ExampleTrimThree()
    ensures ParseInt(Trim("3")) == Some(3)
  {
    TrimOfId([], "3", 3);
    assert [] + "3" == "3";
  }

  lemma ExampleTail(c: string, d: string)
    requires Trim(c) == [] && ParseInt(Trim(d)) == Some(3)
    ensures ParseIds([c, d]) == Ok({3})
  {
    ParseIdsAddsId(d, [], 3, {});
    assert [d] + [] == [d];
    assert {3} + {} == {3};
    ParseIdsSkipsBlank(c, [d]);
    assert [c] + [d] == [c, d];
  }

  lemma ExampleIds(a: string, b: string, c: string, d: string)
    requires ParseInt(Trim(a)) == Some(1) && ParseInt(Trim(b)) == Some(2)
    requires Trim(c) == [] && ParseInt(Trim(d)) == Some(3)
    ensures ParseIds([a, b, c, d]) == Ok({1, 2, 3})
  {
    ExampleTail(c, d);
    ParseIdsAddsId(b, [c, d], 2, {3});
    assert [b] + [c, d] == [b, c, d];
    ParseIdsAddsId(a, [b, c, d], 1, {2} + {3});
    assert [a] + [b, c, d] == [a, b, c, d];
    assert {1} + ({2} + {3}) == {1, 2, 3};
  }

  /** Segments are stripped and blank ones skipped: `"1, 2,,3"` names the users 1, 2 and 3. */
  lemma ExampleList()
    ensures ParseAllowedUsers("1, 2,,3") == Ok({1, 2, 3})
  {
    ExampleSegments();
    ExampleTrimOne();
    ExampleTrimTwo();
    ExampleTrimThree();
    TrimSurrounded([], [], []);
    ExampleIds("1", " 2", "", "3");
  }
}
