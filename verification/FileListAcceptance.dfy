/** Which bytes the file-list decoder accepts, and what it makes of them, whoever wrote them. */
module FileListAcceptance {
  import opened ProtocolTypes
  import opened FileNames
  import opened FileListCodec
  import opened FileListLaws

  /** A record as it stands in the bytes: any names, any flag. */
  datatype SentFile = SentFile(
    objectId: uint64,
    sizeBytes: uint64,
    lastModifiedUsec: uint64,
    flag: uint8,
    name: Name,
    path: Name)

  /** What the receiver makes of a record: both names sanitised, and the name for the path where there is none. */
  function Received(f: SentFile, withPaths: bool): FileDescriptor {
    var name, path := DisplayName(f.name), RelativePath(f.path);
    var given := withPaths && path != [] && path != [0x75, 0x6e, 0x6e, 0x61, 0x6d, 0x65, 0x64];
    FileDescriptor(f.objectId, name, if given then path else name, f.sizeBytes, f.lastModifiedUsec, f.flag != 0)
  }

  /** `f` stands at bytes [offset, next): numbers, flag, then each name behind its two-byte length and within its limit;
      without paths the second name is left out. */
  ghost predicate StandsAt(bytes: ByteBuffer, offset: nat, next: nat, withPaths: bool, maxName: nat, f: SentFile) {
    var n, m := |f.name|, |f.path|;
    && n <= maxName && (if withPaths then m <= 8 * maxName && next == offset + 29 + n + m
                        else m == 0 && next == offset + 27 + n)
    && next <= |bytes|
    && LittleEndian(bytes, offset, 8) == f.objectId && LittleEndian(bytes, offset + 8, 8) == f.sizeBytes
    && LittleEndian(bytes, offset + 16, 8) == f.lastModifiedUsec && bytes[offset + 24] == f.flag
    && LittleEndian(bytes, offset + 25, 2) == n && bytes[offset + 27..offset + 27 + n] == f.name
    && (withPaths ==> LittleEndian(bytes, offset + 27 + n, 2) == m && bytes[offset + 29 + n..next] == f.path)
  }

  lemma NumbersStand(bytes: ByteBuffer, offset: nat)
    requires offset + 25 <= |bytes|
    ensures Get64(bytes, offset) == LittleEndian(bytes, offset, 8)
    ensures Get64(bytes, offset + 8) == LittleEndian(bytes, offset + 8, 8)
    ensures Get64(bytes, offset + 16) == LittleEndian(bytes, offset + 16, 8)
  {
    GetsLittleEndian64(bytes, offset);
    GetsLittleEndian64(bytes, offset + 8);
    GetsLittleEndian64(bytes, offset + 16);
  }

  /** A name is read exactly where it stands behind its length. */
  lemma StringExactly(bytes: ByteBuffer, offset: nat, maxBytes: nat, s: Name, next: nat)
    ensures ParseString(bytes, offset, maxBytes) == Some((s, next)) <==>
              && |s| <= maxBytes && next == offset + 2 + |s| <= |bytes|
              && LittleEndian(bytes, offset, 2) == |s| && bytes[offset + 2..next] == s
  {
    if offset + 2 <= |bytes| {
      GetsLittleEndian16(bytes, offset);
    }
    hide LittleEndian, Get16;
  }

  lemma EntryReads(bytes: ByteBuffer, offset: nat, minor: uint16, maxName: nat, f: SentFile, next: nat)
    requires StandsAt(bytes, offset, next, minor != 0, maxName, f)
    ensures ParseEntry(bytes, offset, minor, maxName) == Some((Received(f, minor != 0), next))
  {
    hide LittleEndian, Get64, ParseString, DisplayName, RelativePath;
    var second := offset + 27 + |f.name|;
    NumbersStand(bytes, offset);
    StringExactly(bytes, offset + 25, maxName, f.name, second);
    StringExactly(bytes, second, 8 * maxName, f.path, next);
  }

  lemma EntryWasRead(bytes: ByteBuffer, offset: nat, minor: uint16, maxName: nat) returns (f: SentFile)
    requires ParseEntry(bytes, offset, minor, maxName).Some?
    ensures var (d, next) := ParseEntry(bytes, offset, minor, maxName).value;
            StandsAt(bytes, offset, next, minor != 0, maxName, f) && d == Received(f, minor != 0)
  {
    hide LittleEndian, Get64, ParseString, DisplayName, RelativePath;
    var (name, second) := ParseString(bytes, offset + 25, maxName).value;
    NumbersStand(bytes, offset);
    StringExactly(bytes, offset + 25, maxName, name, second);
    var path := [];
    if minor != 0 {
      var (given, next) := ParseString(bytes, second, 8 * maxName).value;
      StringExactly(bytes, second, 8 * maxName, given, next);
      path := given;
    }
    f := SentFile(Get64(bytes, offset), Get64(bytes, offset + 8), Get64(bytes, offset + 16), bytes[offset + 24],
                  name, path);
  }

  // ----- whole lists

  /** The records stand one behind the other, from one end to the next. */
  ghost predicate StandInLine(bytes: ByteBuffer, withPaths: bool, maxName: nat, sent: seq<SentFile>, ends: seq<nat>) {
    && |ends| == |sent| + 1
    && forall i :: 0 <= i < |sent| ==> StandsAt(bytes, ends[i], ends[i + 1], withPaths, maxName, sent[i])
  }

  function AllReceived(sent: seq<SentFile>, withPaths: bool): seq<FileDescriptor> {
    seq(|sent|, i requires 0 <= i < |sent| => Received(sent[i], withPaths))
  }

  lemma {:induction false} EntriesRead(bytes: ByteBuffer, minor: uint16, maxName: nat, sent: seq<SentFile>,
                                       ends: seq<nat>)
    requires StandInLine(bytes, minor != 0, maxName, sent, ends)
    ensures ParseEntries(bytes, ends[0], minor, maxName, |sent|)
         == Some((AllReceived(sent, minor != 0), ends[|sent|]))
  {
    hide StandsAt, Received, ParseEntry;
    if sent != [] {
      var k := |sent| - 1;
      EntriesRead(bytes, minor, maxName, sent[..k], ends[..k + 1]);
      EntryReads(bytes, ends[k], minor, maxName, sent[k], ends[k + 1]);
      assert AllReceived(sent, minor != 0) == AllReceived(sent[..k], minor != 0) + [Received(sent[k], minor != 0)];
    } else {
      assert AllReceived(sent, minor != 0) == [];
    }
  }

  lemma {:induction false} EntriesWereRead(bytes: ByteBuffer, offset: nat, minor: uint16, maxName: nat, count: nat)
    returns (sent: seq<SentFile>, ends: seq<nat>)
    requires ParseEntries(bytes, offset, minor, maxName, count).Some?
    ensures |sent| == count && StandInLine(bytes, minor != 0, maxName, sent, ends)
    ensures ends[0] == offset && ParseEntries(bytes, offset, minor, maxName, count).value.1 == ends[count]
    ensures ParseEntries(bytes, offset, minor, maxName, count).value.0 == AllReceived(sent, minor != 0)
  {
    hide StandsAt, Received, ParseEntry;
    sent, ends := [], [offset];
    if count > 0 {
      sent, ends := EntriesWereRead(bytes, offset, minor, maxName, count - 1);
      var f := EntryWasRead(bytes, ends[count - 1], minor, maxName);
      var next := ParseEntry(bytes, ends[count - 1], minor, maxName).value.1;
      assert AllReceived(sent + [f], minor != 0) == AllReceived(sent, minor != 0) + [Received(f, minor != 0)];
      sent, ends := sent + [f], ends + [next];
    }
  }

  /** The bytes of a list: magic, a version this decoder knows, the count, and the records up to the end. */
  ghost predicate IsListOf(bytes: ByteBuffer, maxFiles: nat, maxName: nat, sent: seq<SentFile>, ends: seq<nat>) {
    && |bytes| >= 12 && bytes[..4] == [0x46, 0x44, 0x46, 0x4c]
    && LittleEndian(bytes, 4, 2) == 1 && LittleEndian(bytes, 6, 2) <= 1
    && LittleEndian(bytes, 8, 4) == |sent| <= maxFiles
    && StandInLine(bytes, LittleEndian(bytes, 6, 2) == 1, maxName, sent, ends)
    && ends[0] == 12 && ends[|sent|] == |bytes|
  }

  /** The decoder accepts exactly the bytes of a list within its limits, and hands on each record as received. */
  lemma AcceptedExactly(bytes: ByteBuffer, maxFiles: nat, maxName: nat, files: seq<FileDescriptor>)
    ensures DecodeSpec(bytes, maxFiles, maxName) == Files(files) <==>
              exists sent, ends ::
                && IsListOf(bytes, maxFiles, maxName, sent, ends)
                && files == AllReceived(sent, LittleEndian(bytes, 6, 2) == 1)
  {
    hide LittleEndian, Get16, Get32, StandsAt, StandInLine, ParseEntries, AllReceived;
    if |bytes| >= 12 {
      GetsLittleEndian16(bytes, 4);
      GetsLittleEndian16(bytes, 6);
      GetsLittleEndian32(bytes, 8);
    }
    if DecodeSpec(bytes, maxFiles, maxName) == Files(files) {
      var sent, ends := EntriesWereRead(bytes, 12, Get16(bytes, 6), maxName, Get32(bytes, 8));
      assert IsListOf(bytes, maxFiles, maxName, sent, ends);
    }
    if exists sent, ends ::
        IsListOf(bytes, maxFiles, maxName, sent, ends) && files == AllReceived(sent, LittleEndian(bytes, 6, 2) == 1)
    {
      var sent, ends :| IsListOf(bytes, maxFiles, maxName, sent, ends)
        && files == AllReceived(sent, LittleEndian(bytes, 6, 2) == 1);
      EntriesRead(bytes, Get16(bytes, 6), maxName, sent, ends);
    }
  }
}
