/** Making file names that come from a peer harmless: single names and relative paths, as bytes. */
module FileNames {
  import opened ProtocolTypes

  type Name = seq<uint8>

  const NUL: uint8 := 0x00
  const SPACE: uint8 := 0x20
  const DOT: uint8 := 0x2e
  const SLASH: uint8 := 0x2f
  const COLON: uint8 := 0x3a
  const BACKSLASH: uint8 := 0x5c
  const UNDERSCORE: uint8 := 0x5f
  const UNNAMED: Name := [0x75, 0x6e, 0x6e, 0x61, 0x6d, 0x65, 0x64]

  predicate IsSeparator(ch: uint8) {
    ch == SLASH || ch == BACKSLASH
  }

  predicate IsForbidden(ch: uint8) {
    IsSeparator(ch) || ch == COLON || ch == NUL
  }

  predicate IsEdge(ch: uint8) {
    ch == SPACE || ch == DOT
  }

  /** A harmless name: not empty, free of separators, colons and NUL, with no space or dot at either end. */
  predicate Clean(name: Name) {
    && name != []
    && (forall i :: 0 <= i < |name| ==> !IsForbidden(name[i]))
    && !IsEdge(name[0]) && !IsEdge(name[|name| - 1])
  }

  // ----- display names

  function Mask(value: Name): (r: Name)
    ensures |r| == |value|
  {
    seq(|value|, i requires 0 <= i < |value| => if IsForbidden(value[i]) then UNDERSCORE else value[i])
  }

  function TrimEnd(s: Name): Name {
    if s != [] && IsEdge(s[|s| - 1]) then TrimEnd(s[..|s| - 1]) else s
  }

  function MaskLead(s: Name): Name {
    if s != [] && IsEdge(s[0]) then [UNDERSCORE] + MaskLead(s[1..]) else s
  }

  function DisplayName(value: Name): Name {
    var r := MaskLead(TrimEnd(Mask(value)));
    if r == [] || r == [DOT] || r == [DOT, DOT] then UNNAMED else r
  }

  method SanitizeDisplayName(value: Name) returns (result: Name)
    ensures result == DisplayName(value)
  {
    hide TrimEnd, MaskLead;
    result := [];
    for i := 0 to |value|
      invariant result == Mask(value)[..i]
    {
      result := result + [if IsForbidden(value[i]) then UNDERSCORE else value[i]];
    }
    assert result == Mask(value);
    result := DropTrailingEdges(result);
    result := MaskLeadingEdges(result);
    if result == [] || result == [DOT] || result == [DOT, DOT] {
      result := UNNAMED;
    }
  }

  method DropTrailingEdges(s: Name) returns (result: Name)
    ensures result == TrimEnd(s)
  {
    result := s;
    while result != [] && IsEdge(result[|result| - 1])
      invariant TrimEnd(result) == TrimEnd(s)
    {
      result := result[..|result| - 1];
    }
  }

  method MaskLeadingEdges(s: Name) returns (result: Name)
    ensures result == MaskLead(s)
  {
    result := s;
    var lead := 0;
    while lead < |result| && IsEdge(result[lead])
      invariant lead <= |result| == |s|
      invariant forall i :: lead <= i < |s| ==> result[i] == s[i]
      invariant MaskLead(s) == result[..lead] + MaskLead(s[lead..])
    {
      assert s[lead..][1..] == s[lead + 1..];
      result := result[lead := UNDERSCORE];
      assert result[..lead + 1] == result[..lead] + [UNDERSCORE];
      lead := lead + 1;
    }
    assert result[lead..] == s[lead..];
  }

  lemma {:induction false} TrimEndEnds(s: Name)
    ensures TrimEnd(s) <= s && (TrimEnd(s) != [] ==> !IsEdge(TrimEnd(s)[|TrimEnd(s)| - 1]))
  {
    if s != [] && IsEdge(s[|s| - 1]) {
      TrimEndEnds(s[..|s| - 1]);
    }
  }

  lemma {:induction false} MaskLeadStarts(s: Name)
    ensures |MaskLead(s)| == |s| && (s != [] ==> !IsEdge(MaskLead(s)[0]))
    ensures forall i :: 0 <= i < |s| ==> MaskLead(s)[i] in {s[i], UNDERSCORE}
  {
    if s != [] && IsEdge(s[0]) {
      MaskLeadStarts(s[1..]);
    }
  }

  lemma UnnamedIsClean()
    ensures Clean(UNNAMED)
  {
  }

  lemma CleanNameStays(value: Name)
    requires Clean(value)
    ensures DisplayName(value) == value
  {
    assert Mask(value) == value;
  }

  /** Sanitising always yields a clean name, and clean names are exactly the ones it leaves alone. */
  lemma DisplayNameIsClean(value: Name)
    ensures Clean(DisplayName(value))
    ensures DisplayName(value) == value <==> Clean(value)
  {
    hide TrimEnd, MaskLead;
    var masked := Mask(value);
    var trimmed := TrimEnd(masked);
    TrimEndEnds(masked);
    MaskLeadStarts(trimmed);
    UnnamedIsClean();
    var r := MaskLead(trimmed);
    forall i | 0 <= i < |r| ensures !IsForbidden(r[i]) {
      assert trimmed[i] == masked[i];
    }
    if Clean(value) {
      CleanNameStays(value);
    }
  }

  // ----- relative paths

  /** The pieces between separators; a path with n separators has n + 1 of them. */
  function Split(value: Name): (segments: seq<Name>)
    ensures segments != []
  {
    if value == [] then [[]]
    else
      var init, ch := Split(value[..|value| - 1]), value[|value| - 1];
      if IsSeparator(ch) then init + [[]]
      else init[..|init| - 1] + [init[|init| - 1] + [ch]]
  }

  /** A segment collected character by character, colons and NUL already masked. */
  function MaskSegment(segment: Name): (r: Name)
    ensures |r| == |segment|
  {
    seq(|segment|, i requires 0 <= i < |segment| =>
          if segment[i] == COLON || segment[i] == NUL then UNDERSCORE else segment[i])
  }

  function Flush(result: Name, segment: Name): Name {
    if segment == [] then result
    else
      var safe := DisplayName(segment);
      if safe == [] || safe == UNNAMED then result
      else (if result == [] then [] else result + [SLASH]) + safe
  }

  function FlushAll(segments: seq<Name>): Name {
    if segments == [] then [] else Flush(FlushAll(segments[..|segments| - 1]), MaskSegment(segments[|segments| - 1]))
  }

  function RelativePath(value: Name): Name {
    var result := FlushAll(Split(value));
    if result == [] then DisplayName(value) else result
  }

  lemma FlushOneMore(segments: seq<Name>, segment: Name)
    ensures FlushAll(segments + [segment]) == Flush(FlushAll(segments), MaskSegment(segment))
  {
  }

  method SanitizeRelativePath(value: Name) returns (result: Name)
    ensures result == RelativePath(value)
  {
    hide DisplayName, FlushAll, Flush, Split;
    result := [];
    var segment: Name := [];
    ghost var done: seq<Name>, last: Name := [], [];
    FlushAllOfNone();
    SplitSingle([]);
    for i := 0 to |value|
      invariant Split(value[..i]) == done + [last]
      invariant result == FlushAll(done) && segment == MaskSegment(last)
    {
      SplitOneMore(value[..i], value[i], done, last);
      assert value[..i] + [value[i]] == value[..i + 1];
      if IsSeparator(value[i]) {
        FlushOneMore(done, last);
        result := Flush(result, segment);
        segment := [];
        done, last := done + [last], [];
      } else {
        segment := segment + [if value[i] == COLON || value[i] == NUL then UNDERSCORE else value[i]];
        last := last + [value[i]];
      }
    }
    assert value[..|value|] == value;
    FlushOneMore(done, last);
    result := Flush(result, segment);
    if result == [] {
      result := SanitizeDisplayName(value);
    }
  }

  lemma SplitOneMore(value: Name, ch: uint8, done: seq<Name>, last: Name)
    requires Split(value) == done + [last]
    ensures Split(value + [ch]) == done + if IsSeparator(ch) then [last, []] else [last + [ch]]
  {
    assert (value + [ch])[..|value|] == value;
  }

  lemma FlushAllOfNone()
    ensures FlushAll([]) == []
  {
  }

  /** A path all of whose pieces are clean and none of them the placeholder, joined by slashes. */
  ghost predicate GoodPath(path: Name) {
    && BACKSLASH !in path
    && forall s :: s in Split(path) ==> Clean(s) && s != UNNAMED
  }

  ghost predicate NormalPath(path: Name) {
    path == UNNAMED || GoodPath(path)
  }

  /** No piece of the path can climb or hide: each is clean, so none is empty, `.` or `..`. */
  ghost predicate SafePath(path: Name) {
    forall s :: s in Split(path) ==> Clean(s) && s != [DOT] && s != [DOT, DOT]
  }

  lemma {:induction false} SplitAppend(path: Name, segment: Name)
    requires forall i :: 0 <= i < |segment| ==> !IsSeparator(segment[i])
    ensures Split(path + [SLASH] + segment) == Split(path) + [segment]
  {
    var whole := path + [SLASH] + segment;
    if segment == [] {
      assert whole[..|whole| - 1] == path;
    } else {
      var init := segment[..|segment| - 1];
      SplitAppend(path, init);
      assert whole[..|whole| - 1] == path + [SLASH] + init;
      assert init + [segment[|segment| - 1]] == segment;
    }
  }

  lemma {:induction false} SplitSingle(segment: Name)
    requires forall i :: 0 <= i < |segment| ==> !IsSeparator(segment[i])
    ensures Split(segment) == [segment]
  {
    if segment != [] {
      SplitSingle(segment[..|segment| - 1]);
      assert segment[..|segment| - 1] + [segment[|segment| - 1]] == segment;
    }
  }

  lemma GoodPathGrows(path: Name, segment: Name)
    requires path == [] || GoodPath(path)
    requires Clean(segment) && segment != UNNAMED
    ensures GoodPath((if path == [] then [] else path + [SLASH]) + segment)
  {
    SplitAppend(path, segment);
    SplitSingle(segment);
    hide Split;
    assert [] + segment == segment;
    assert BACKSLASH !in segment;
  }

  /** Whatever is flushed is the empty path or a good one. */
  lemma {:induction false} FlushAllIsGood(segments: seq<Name>)
    ensures FlushAll(segments) == [] || GoodPath(FlushAll(segments))
  {
    if segments != [] {
      hide DisplayName, GoodPath, Clean;
      var result := FlushAll(segments[..|segments| - 1]);
      var segment := MaskSegment(segments[|segments| - 1]);
      FlushAllIsGood(segments[..|segments| - 1]);
      DisplayNameIsClean(segment);
      if DisplayName(segment) != UNNAMED {
        GoodPathGrows(result, DisplayName(segment));
      }
    }
  }

  /** Flushing the pieces of a good path one by one builds that path. */
  lemma {:induction false} FlushRebuilds(path: Name)
    requires GoodPath(path)
    ensures FlushAll(Split(path)) == path
  {
    var k := LastSeparator(path);
    var segment := path[k + 1..];
    if k < 0 {
      SplitSingle(path);
      FlushGoodSegment([], path);
      assert FlushAll([path]) == Flush([], MaskSegment(path));
    } else {
      assert path == path[..k] + [SLASH] + segment;
      SplitAppend(path[..k], segment);
      assert Split(path)[..|Split(path)| - 1] == Split(path[..k]);
      assert segment in Split(path);
      FlushRebuilds(path[..k]);
      FlushGoodSegment(path[..k], segment);
      SplitOfEmpty(path[..k]);
    }
  }

  lemma SplitOfEmpty(path: Name)
    requires GoodPath(path)
    ensures path != []
  {
    assert Split([]) == [[]];
    assert [] in Split([]);
  }

  lemma FlushGoodSegment(result: Name, segment: Name)
    requires Clean(segment) && segment != UNNAMED
    ensures Flush(result, MaskSegment(segment)) == (if result == [] then [] else result + [SLASH]) + segment
  {
    DisplayNameIsClean(segment);
    MaskSegmentOfClean(segment);
  }

  function LastSeparator(path: Name): (k: int)
    ensures -1 <= k < |path|
    ensures k >= 0 ==> IsSeparator(path[k])
    ensures forall i :: k < i < |path| ==> !IsSeparator(path[i])
  {
    if path == [] then -1
    else if IsSeparator(path[|path| - 1]) then |path| - 1
    else LastSeparator(path[..|path| - 1])
  }

  /** Sanitised paths are normal, and normal paths are exactly the ones sanitising leaves alone, so it is
      idempotent. */
  lemma RelativePathIsNormal(value: Name)
    ensures NormalPath(RelativePath(value))
    ensures RelativePath(value) == value <==> NormalPath(value)
  {
    hide DisplayName, Clean;
    FlushAllIsGood(Split(value));
    DisplayNameIsClean(value);
    CleanNameIsNormal(DisplayName(value));
    if value == UNNAMED {
      UnnamedStays();
    } else if GoodPath(value) {
      FlushRebuilds(value);
      SplitOfEmpty(value);
    }
  }

  lemma CleanNameIsNormal(name: Name)
    requires Clean(name)
    ensures NormalPath(name)
  {
    SplitSingle(name);
  }

  lemma UnnamedStays()
    ensures RelativePath(UNNAMED) == UNNAMED
  {
    hide DisplayName, Split, FlushAll, MaskSegment;
    UnnamedIsClean();
    SplitSingle(UNNAMED);
    CleanNameStays(UNNAMED);
    FlushOneMore([], UNNAMED);
    FlushAllOfNone();
    assert [] + [UNNAMED] == [UNNAMED];
    MaskSegmentOfClean(UNNAMED);
  }

  lemma MaskSegmentOfClean(segment: Name)
    requires Clean(segment)
    ensures MaskSegment(segment) == segment
  {
  }

  lemma NormalPathIsSafe(path: Name)
    requires NormalPath(path)
    ensures SafePath(path)
  {
    UnnamedIsClean();
    SplitSingle(UNNAMED);
  }
}
