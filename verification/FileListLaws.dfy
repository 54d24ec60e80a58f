/** What the file-list codec promises: sanitised round trips, and safe paths in everything it accepts. */
module FileListLaws {
  import opened ProtocolTypes
  import opened FileNames
  import opened FileListCodec

  // ----- integers

  lemma Gets16(bytes: ByteBuffer, offset: nat, v: uint16)
    requires offset + 2 <= |bytes| && bytes[offset..offset + 2] == L16(v)
    ensures Get16(bytes, offset) == v
  {
    assert bytes[offset] == bytes[offset..offset + 2][0] && bytes[offset + 1] == bytes[offset..offset + 2][1];
  }

  lemma Gets32(bytes: ByteBuffer, offset: nat, v: uint32)
    requires offset + 4 <= |bytes| && bytes[offset..offset + 4] == L32(v)
    ensures Get32(bytes, offset) == v
  {
    var field := bytes[offset..offset + 4];
    assert bytes[offset..offset + 2] == field[..2] == L16(v % 0x1_0000);
    assert bytes[offset + 2..offset + 4] == field[2..] == L16(v / 0x1_0000);
    Gets16(bytes, offset, v % 0x1_0000);
    Gets16(bytes, offset + 2, v / 0x1_0000);
  }

  lemma Gets64(bytes: ByteBuffer, offset: nat, v: uint64)
    requires offset + 8 <= |bytes| && bytes[offset..offset + 8] == L64(v)
    ensures Get64(bytes, offset) == v
  {
    var field := bytes[offset..offset + 8];
    assert bytes[offset..offset + 4] == field[..4] == L32(v % 0x1_0000_0000);
    assert bytes[offset + 4..offset + 8] == field[4..] == L32(v / 0x1_0000_0000);
    Gets32(bytes, offset, v % 0x1_0000_0000);
    Gets32(bytes, offset + 4, v / 0x1_0000_0000);
  }

  // ----- one record

  predicate FitsString(s: Name, maxBytes: nat) {
    |s| <= maxBytes && |s| <= MAX_STRING
  }

  /** A written string reads back as its first 65535 bytes, unless that is more than the reader admits. */
  lemma StringReadsBack(pre: ByteBuffer, s: Name, post: ByteBuffer, maxBytes: nat)
    ensures var n := Min(|s|, MAX_STRING);
            ParseString(pre + StringField(s) + post, |pre|, maxBytes)
              == if n > maxBytes then None else Some((s[..n], |pre| + |StringField(s)|))
  {
    var bytes, o, n := pre + StringField(s) + post, |pre|, Min(|s|, MAX_STRING);
    assert bytes[o..o + 2] == L16(n);
    Gets16(bytes, o, n);
    assert bytes[o + 2..o + 2 + n] == s[..n];
  }

  lemma FixedFieldsReadBack(pre: ByteBuffer, f: FileDescriptor, post: ByteBuffer)
    ensures var bytes, o := pre + FixedFields(f) + post, |pre|;
            && Get64(bytes, o) == f.objectId && Get64(bytes, o + 8) == f.sizeBytes
            && Get64(bytes, o + 16) == f.lastModifiedUsec && (bytes[o + 24] != 0 <==> f.directory)
  {
    var bytes, o := pre + FixedFields(f) + post, |pre|;
    var g := FixedFields(f);
    assert bytes[o..o + 8] == g[0..8] == L64(f.objectId);
    assert bytes[o + 8..o + 16] == g[8..16] == L64(f.sizeBytes);
    assert bytes[o + 16..o + 24] == g[16..24] == L64(f.lastModifiedUsec);
    assert bytes[o + 24] == g[24];
    Gets64(bytes, o, f.objectId);
    Gets64(bytes, o + 8, f.sizeBytes);
    Gets64(bytes, o + 16, f.lastModifiedUsec);
  }

  ghost predicate FitsEntry(f: FileDescriptor, maxName: nat) {
    FitsString(Normal(f).displayName, maxName) && FitsString(Normal(f).relativePath, 8 * maxName)
  }

  /** Sanitising twice is sanitising once, including the fallback of the path to the name. */
  lemma NormalIsNormal(f: FileDescriptor)
    ensures DisplayName(Normal(f).displayName) == Normal(f).displayName
    ensures PathOr(RelativePath(Normal(f).relativePath), Normal(f).displayName) == Normal(f).relativePath
    ensures Normal(Normal(f)) == Normal(f)
  {
    hide DisplayName, RelativePath, GoodPath;
    var name, path := DisplayName(f.displayName), RelativePath(f.relativePath);
    DisplayNameIsClean(f.displayName);
    DisplayNameIsClean(name);
    CleanNameIsNormal(name);
    RelativePathIsNormal(f.relativePath);
    RelativePathIsNormal(path);
    RelativePathIsNormal(name);
  }

  lemma SanitisedLength(raw: Name)
    ensures |raw| == MAX_STRING ==> |DisplayName(raw)| <= MAX_STRING && |RelativePath(raw)| <= MAX_STRING
  {
    DisplayNameShrinks(raw);
    FlushAllShrinks(raw);
  }

  lemma DisplayNameShrinks(raw: Name)
    ensures |DisplayName(raw)| <= if |raw| < 7 then 7 else |raw|
  {
    TrimEndEnds(Mask(raw));
    MaskLeadStarts(TrimEnd(Mask(raw)));
  }

  function TotalLength(segments: seq<Name>): nat {
    if segments == [] then 0 else TotalLength(segments[..|segments| - 1]) + |segments[|segments| - 1]| + 1
  }

  lemma {:induction false} SplitTotal(value: Name)
    ensures TotalLength(Split(value)) == |value| + 1
  {
    if value != [] {
      var init := Split(value[..|value| - 1]);
      SplitTotal(value[..|value| - 1]);
      assert (init + [[]])[..|init|] == init;
    }
  }

  /** Each flushed piece is no longer than the collected one: a short piece that becomes the placeholder is dropped. */
  lemma {:induction false} FlushedTotal(segments: seq<Name>)
    ensures |FlushAll(segments)| <= TotalLength(segments)
    ensures FlushAll(segments) != [] ==> |FlushAll(segments)| < TotalLength(segments)
  {
    if segments != [] {
      var segment := MaskSegment(segments[|segments| - 1]);
      FlushedTotal(segments[..|segments| - 1]);
      PieceShrinks(segment);
      hide DisplayName;
    }
  }

  lemma PieceShrinks(segment: Name)
    ensures DisplayName(segment) != UNNAMED ==> |DisplayName(segment)| <= |segment|
  {
    TrimEndEnds(Mask(segment));
    MaskLeadStarts(TrimEnd(Mask(segment)));
  }

  lemma FlushAllShrinks(raw: Name)
    ensures |RelativePath(raw)| <= if |raw| < 7 then 7 else |raw|
  {
    SplitTotal(raw);
    FlushedTotal(Split(raw));
    DisplayNameShrinks(raw);
    hide DisplayName, Split, FlushAll, TotalLength;
  }

  /** A record reads back as its normal form exactly when its sanitised strings fit, and then the reader
      stands behind it. */
  lemma EntryReadsBack(pre: ByteBuffer, f: FileDescriptor, post: ByteBuffer, maxName: nat)
    ensures var parsed := ParseEntry(pre + Entry(f) + post, |pre|, 1, maxName);
            && (parsed.Some? && parsed.value.0 == Normal(f) <==> FitsEntry(f, maxName))
            && (FitsEntry(f, maxName) ==> parsed.value.1 == |pre| + |Entry(f)|)
  {
    hide StringField, FixedFields, DisplayName, RelativePath, ParseString, Get64;
    var name, path := Normal(f).displayName, Normal(f).relativePath;
    var a, b, c := FixedFields(f), StringField(name), StringField(path);
    Regroup(pre, a, b, c, post);
    NormalIsNormal(f);
    FixedFieldsReadBack(pre, f, b + c + post);
    StringReadsBack(pre + a, name, c + post, maxName);
    StringReadsBack(pre + a + b, path, post, 8 * maxName);
    SanitisedLength(name[..Min(|name|, MAX_STRING)]);
    SanitisedLength(path[..Min(|path|, MAX_STRING)]);
    assert name[..|name|] == name && path[..|path|] == path;
  }

  lemma Regroup(pre: ByteBuffer, a: ByteBuffer, b: ByteBuffer, c: ByteBuffer, post: ByteBuffer)
    ensures pre + (a + b + c) + post == pre + a + (b + c + post)
    ensures pre + (a + b + c) + post == (pre + a) + b + (c + post)
    ensures pre + (a + b + c) + post == (pre + a + b) + c + post
  {
  }

  // ----- whole lists

  function NormalList(files: seq<FileDescriptor>): (r: seq<FileDescriptor>)
    ensures |r| == |files|
  {
    seq(|files|, i requires 0 <= i < |files| => Normal(files[i]))
  }

  ghost predicate FitsEntries(files: seq<FileDescriptor>, maxName: nat) {
    forall f :: f in files ==> FitsEntry(f, maxName)
  }

  lemma {:induction false} EntriesReadBack(pre: ByteBuffer, files: seq<FileDescriptor>, post: ByteBuffer, maxName: nat)
    ensures var parsed := ParseEntries(pre + Entries(files) + post, |pre|, 1, maxName, |files|);
            && (parsed.Some? && parsed.value.0 == NormalList(files) <==> FitsEntries(files, maxName))
            && (FitsEntries(files, maxName) ==> parsed.value.1 == |pre| + |Entries(files)|)
  {
    hide *;
    if files == [] {
      NoEntries(pre, post, maxName);
      assert files == [];
    } else {
      var init, last := files[..|files| - 1], files[|files| - 1];
      assert files == init + [last];
      OneMoreEntry(pre, init, last, post, maxName);
      EntriesReadBack(pre, init, Entry(last) + post, maxName);
      EntryReadsBack(pre + Entries(init), last, post, maxName);
    }
  }

  lemma NoEntries(pre: ByteBuffer, post: ByteBuffer, maxName: nat)
    ensures NormalList([]) == [] && FitsEntries([], maxName) && Entries([]) == []
    ensures ParseEntries(pre + Entries([]) + post, |pre|, 1, maxName, 0) == Some(([], |pre|))
  {
  }

  /** What one more file adds to the bytes, to the normal form, to the limits and to the parse. */
  lemma OneMoreEntry(pre: ByteBuffer, init: seq<FileDescriptor>, last: FileDescriptor, post: ByteBuffer, maxName: nat)
    ensures |Entries(init + [last])| == |Entries(init)| + |Entry(last)|
    ensures pre + Entries(init + [last]) + post == pre + Entries(init) + (Entry(last) + post)
    ensures pre + Entries(init + [last]) + post == (pre + Entries(init)) + Entry(last) + post
    ensures FitsEntries(init + [last], maxName) <==> FitsEntries(init, maxName) && FitsEntry(last, maxName)
    ensures var bytes := pre + Entries(init + [last]) + post;
            var before, after := ParseEntries(bytes, |pre|, 1, maxName, |init|),
              ParseEntries(bytes, |pre|, 1, maxName, |init| + 1);
            (after.Some? <==> before.Some? && ParseEntry(bytes, before.value.1, 1, maxName).Some?)
            && (after.Some? ==>
                  var e := ParseEntry(bytes, before.value.1, 1, maxName).value;
                  after.value.1 == e.1
                  && (after.value.0 == NormalList(init + [last])
                      <==> before.value.0 == NormalList(init) && e.0 == Normal(last)))
  {
    hide FitsEntry, Entry, ParseEntry, Normal;
    assert (init + [last])[..|init|] == init;
    assert NormalList(init + [last]) == NormalList(init) + [Normal(last)];
    assert last in init + [last];
    var bytes := pre + Entries(init + [last]) + post;
    ParsedCount(bytes, |pre|, 1, maxName, |init|);
    var after := ParseEntries(bytes, |pre|, 1, maxName, |init| + 1);
    if after.Some? && after.value.0 == NormalList(init + [last]) {
      assert after.value.0[..|init|] == NormalList(init) && after.value.0[|init|] == Normal(last);
    }
  }

  ghost predicate Fits(files: seq<FileDescriptor>, maxFiles: nat, maxName: nat) {
    |files| <= maxFiles && |files| < 0x1_0000_0000 && FitsEntries(files, maxName)
  }

  lemma HeaderReadsBack(n: uint32, rest: ByteBuffer)
    ensures var bytes := MAGIC + L16(1) + L16(1) + L32(n) + rest;
            bytes[..4] == MAGIC && Get16(bytes, 4) == 1 && Get16(bytes, 6) == 1 && Get32(bytes, 8) == n
  {
    var bytes := MAGIC + L16(1) + L16(1) + L32(n) + rest;
    assert bytes[4..6] == L16(1) && bytes[6..8] == L16(1) && bytes[8..12] == L32(n);
    Gets16(bytes, 4, 1);
    Gets16(bytes, 6, 1);
    Gets32(bytes, 8, n);
  }

  /** Decoding an encoded list yields its sanitised normal form exactly when the sanitised names, paths and
      the number of files fit the decoder's limits and the format. */
  lemma DecodeEncode(files: seq<FileDescriptor>, maxFiles: nat, maxName: nat)
    ensures DecodeSpec(FileList(files), maxFiles, maxName) == Files(NormalList(files))
            <==> Fits(files, maxFiles, maxName)
  {
    hide FitsEntries, Entries, ParseEntries, Get16, Get32, L16, L32;
    var n := |files| % 0x1_0000_0000;
    var header := MAGIC + L16(1) + L16(1) + L32(n);
    HeaderReadsBack(n, Entries(files));
    assert FileList(files) == header + Entries(files) + [];
    EntriesReadBack(header, files, [], maxName);
    ParsedCount(FileList(files), 12, 1, maxName, n);
  }

  lemma {:induction false} ParsedCount(bytes: ByteBuffer, offset: nat, minor: uint16, maxName: nat, count: nat)
    ensures var parsed := ParseEntries(bytes, offset, minor, maxName, count); parsed.Some? ==> |parsed.value.0| == count
  {
    hide ParseEntry;
    if count > 0 {
      ParsedCount(bytes, offset, minor, maxName, count - 1);
    }
  }

  /** Encoding what was decoded gives the bytes that were sent: sanitising changes nothing the second time. */
  lemma {:induction false} EncodeNormal(files: seq<FileDescriptor>)
    ensures Entries(NormalList(files)) == Entries(files)
    ensures FileList(NormalList(files)) == FileList(files)
  {
    if files != [] {
      hide Normal;
      var init, last := files[..|files| - 1], files[|files| - 1];
      EncodeNormal(init);
      NormalIsNormal(last);
      assert NormalList(files)[..|files| - 1] == NormalList(init);
      SameEntry(last);
    }
  }

  lemma SameEntry(f: FileDescriptor)
    ensures Entry(Normal(f)) == Entry(f)
  {
    NormalIsNormal(f);
    hide DisplayName, RelativePath, StringField;
  }

  // ----- safety of everything accepted

  lemma EntryIsSafe(bytes: ByteBuffer, offset: nat, minor: uint16, maxName: nat)
    requires ParseEntry(bytes, offset, minor, maxName).Some?
    ensures var f := ParseEntry(bytes, offset, minor, maxName).value.0; SafePath(f.relativePath) && Clean(f.displayName)
  {
    hide DisplayName, RelativePath, SafePath, Clean, ParseString, Get64;
    var rawName := ParseString(bytes, offset + 25, maxName).value.0;
    var second := ParseString(bytes, offset + 25, maxName).value.1;
    DisplayNameIsClean(rawName);
    CleanNameIsNormal(DisplayName(rawName));
    NormalPathIsSafe(DisplayName(rawName));
    if minor > 0 {
      var rawPath := ParseString(bytes, second, 8 * maxName).value.0;
      RelativePathIsNormal(rawPath);
      NormalPathIsSafe(RelativePath(rawPath));
    }
  }

  lemma {:induction false} EntriesAreSafe(bytes: ByteBuffer, offset: nat, minor: uint16, maxName: nat, count: nat)
    requires ParseEntries(bytes, offset, minor, maxName, count).Some?
    ensures forall f :: f in ParseEntries(bytes, offset, minor, maxName, count).value.0 ==>
              SafePath(f.relativePath) && Clean(f.displayName)
  {
    hide ParseEntry, SafePath, Clean;
    if count > 0 {
      EntriesAreSafe(bytes, offset, minor, maxName, count - 1);
      EntryIsSafe(bytes, ParseEntries(bytes, offset, minor, maxName, count - 1).value.1, minor, maxName);
    }
  }

  /** Whatever bytes a peer sends, every file in a list that decodes has a clean name and a relative path
      whose pieces are all clean: none is empty, `.` or `..`, none holds a backslash, colon or NUL, and none
      starts or ends with a space or a dot. */
  lemma DecodedPathsAreSafe(bytes: ByteBuffer, maxFiles: nat, maxName: nat)
    requires DecodeSpec(bytes, maxFiles, maxName).Files?
    ensures forall f :: f in DecodeSpec(bytes, maxFiles, maxName).files ==>
              SafePath(f.relativePath) && Clean(f.displayName)
  {
    hide SafePath, Clean;
    EntriesAreSafe(bytes, 12, Get16(bytes, 6), maxName, Get32(bytes, 8));
  }

  // ----- the layout

  /** The number in the `width` bytes at `offset`, least significant byte first. */
  function LittleEndian(bytes: ByteBuffer, offset: nat, width: nat): nat
    requires offset + width <= |bytes|
    decreases width
  {
    if width == 0 then 0 else bytes[offset] + 256 * LittleEndian(bytes, offset + 1, width - 1)
  }

  lemma GetsLittleEndian16(bytes: ByteBuffer, offset: nat)
    requires offset + 2 <= |bytes|
    ensures Get16(bytes, offset) == LittleEndian(bytes, offset, 2)
  {
    assert LittleEndian(bytes, offset + 1, 1) == bytes[offset + 1];
  }

  lemma {:induction false} LittleEndianSplits(bytes: ByteBuffer, offset: nat, low: nat, high: nat)
    requires offset + low + high <= |bytes|
    ensures LittleEndian(bytes, offset, low + high)
         == LittleEndian(bytes, offset, low) + Places(low) * LittleEndian(bytes, offset + low, high)
    decreases low
  {
    if low > 0 {
      LittleEndianSplits(bytes, offset + 1, low - 1, high);
      assert LittleEndian(bytes, offset, low + high)
             == bytes[offset] + 256 * LittleEndian(bytes, offset + 1, low - 1 + high);
      Regroups(bytes[offset], LittleEndian(bytes, offset + 1, low - 1), Places(low - 1),
               LittleEndian(bytes, offset + low, high));
    }
  }

  lemma Regroups(first: nat, rest: nat, place: nat, high: nat)
    ensures first + 256 * (rest + place * high) == first + 256 * rest + 256 * place * high
  {
  }

  function Places(n: nat): nat {
    if n == 0 then 1 else 256 * Places(n - 1)
  }

  lemma GetsLittleEndian32(bytes: ByteBuffer, offset: nat)
    requires offset + 4 <= |bytes|
    ensures Get32(bytes, offset) == LittleEndian(bytes, offset, 4)
  {
    LittleEndianSplits(bytes, offset, 2, 2);
    assert Places(2) == 0x1_0000;
    GetsLittleEndian16(bytes, offset);
    GetsLittleEndian16(bytes, offset + 2);
  }

  lemma GetsLittleEndian64(bytes: ByteBuffer, offset: nat)
    requires offset + 8 <= |bytes|
    ensures Get64(bytes, offset) == LittleEndian(bytes, offset, 8)
  {
    LittleEndianSplits(bytes, offset, 4, 4);
    assert Places(4) == 0x1_0000_0000;
    GetsLittleEndian32(bytes, offset);
    GetsLittleEndian32(bytes, offset + 4);
  }

  /** Where everything stands in an encoded list. */
  lemma ListLayout(files: seq<FileDescriptor>)
    requires |files| < 0x1_0000_0000
    ensures var b := FileList(files);
            && |b| >= 12 && b[..4] == [0x46, 0x44, 0x46, 0x4c] && b[12..] == Entries(files)
            && LittleEndian(b, 4, 2) == 1 && LittleEndian(b, 6, 2) == 1 && LittleEndian(b, 8, 4) == |files|
  {
    hide L16, L32, Get16, Get32, LittleEndian, Entries;
    HeaderReadsBack(|files|, Entries(files));
    var b := FileList(files);
    GetsLittleEndian16(b, 4);
    GetsLittleEndian16(b, 6);
    GetsLittleEndian32(b, 8);
  }

  /** Where everything stands in the record of a file: two names, each behind its length. */
  lemma EntryLayout(f: FileDescriptor)
    ensures var e, name, path := Entry(f), Normal(f).displayName, Normal(f).relativePath;
            var n, m := Min(|name|, 65535), Min(|path|, 65535);
            && |e| == 29 + n + m
            && LittleEndian(e, 0, 8) == f.objectId && LittleEndian(e, 8, 8) == f.sizeBytes
            && LittleEndian(e, 16, 8) == f.lastModifiedUsec && e[24] == (if f.directory then 1 else 0)
            && LittleEndian(e, 25, 2) == n && e[27..27 + n] == name[..n]
            && LittleEndian(e, 27 + n, 2) == m && e[29 + n..] == path[..m]
  {
    hide L16, L64, Get16, Get64, LittleEndian, Normal;
    var e, name, path := Entry(f), Normal(f).displayName, Normal(f).relativePath;
    var n, m := Min(|name|, 65535), Min(|path|, 65535);
    FixedFieldsReadBack([], f, StringField(name) + StringField(path));
    assert [] + FixedFields(f) + (StringField(name) + StringField(path)) == e;
    GetsLittleEndian64(e, 0);
    GetsLittleEndian64(e, 8);
    GetsLittleEndian64(e, 16);
    assert e[25..27] == L16(n);
    Gets16(e, 25, n);
    GetsLittleEndian16(e, 25);
    assert e[27 + n..29 + n] == L16(m);
    Gets16(e, 27 + n, m);
    GetsLittleEndian16(e, 27 + n);
  }

  /** The names a record carries: sanitised, and the display name where there is no path of its own. */
  lemma NormalExactly(f: FileDescriptor)
    ensures var name, path := DisplayName(f.displayName), RelativePath(f.relativePath);
            && Normal(f) == f.(displayName := name, relativePath := Normal(f).relativePath)
            && Normal(f).relativePath == if path == [0x75, 0x6e, 0x6e, 0x61, 0x6d, 0x65, 0x64] then name else path
  {
    hide DisplayName, RelativePath;
    RelativePathIsNormal(f.relativePath);
    NothingIsNotNormal();
  }

  lemma NothingIsNotNormal()
    ensures !NormalPath([])
  {
    assert Split([]) == [[]];
    assert [] in Split([]);
  }

  /** Why a list is refused: unsupported for its version, too large for its count alone, and otherwise malformed. */
  lemma RefusedBecause(bytes: ByteBuffer, maxFiles: nat, maxName: nat)
    requires DecodeSpec(bytes, maxFiles, maxName).Refused?
    ensures var status := DecodeSpec(bytes, maxFiles, maxName).status;
            if |bytes| < 12 || bytes[..4] != [0x46, 0x44, 0x46, 0x4c] then status == 202
            else
              && (status == 103 <==> LittleEndian(bytes, 4, 2) != 1 || LittleEndian(bytes, 6, 2) > 1)
              && (status == 109 <==> LittleEndian(bytes, 4, 2) == 1 && LittleEndian(bytes, 6, 2) <= 1
                                     && LittleEndian(bytes, 8, 4) > maxFiles)
              && status in {103, 109, 202}
  {
    hide ParseEntries, LittleEndian, Get16, Get32;
    if |bytes| >= 12 {
      GetsLittleEndian16(bytes, 4);
      GetsLittleEndian16(bytes, 6);
      GetsLittleEndian32(bytes, 8);
    }
  }

  lemma OldEntryHasNoPath(bytes: ByteBuffer, offset: nat, maxName: nat)
    requires ParseEntry(bytes, offset, 0, maxName).Some?
    ensures var f := ParseEntry(bytes, offset, 0, maxName).value.0; f.relativePath == f.displayName
  {
    hide DisplayName, RelativePath, ParseString, Get64;
  }

  /** Lists of the first minor version carry no paths: each file's path is its display name. */
  lemma {:induction false} OldListsHaveNoPaths(bytes: ByteBuffer, offset: nat, maxName: nat, count: nat)
    requires ParseEntries(bytes, offset, 0, maxName, count).Some?
    ensures forall f :: f in ParseEntries(bytes, offset, 0, maxName, count).value.0 ==> f.relativePath == f.displayName
  {
    hide ParseEntry;
    if count > 0 {
      OldListsHaveNoPaths(bytes, offset, maxName, count - 1);
      OldEntryHasNoPath(bytes, ParseEntries(bytes, offset, 0, maxName, count - 1).value.1, maxName);
    }
  }
}
