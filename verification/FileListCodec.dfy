/** The FDFL file list: a little-endian record per file, with names sanitised on both sides. */
module FileListCodec {
  import opened ProtocolTypes
  import opened FileNames

  const MAGIC: ByteBuffer := [0x46, 0x44, 0x46, 0x4c]
  const MAX_STRING: nat := 65535

  datatype FileDescriptor = FileDescriptor(
    objectId: uint64,
    displayName: Name,
    relativePath: Name,
    sizeBytes: uint64,
    lastModifiedUsec: uint64,
    directory: bool)

  datatype DecodeOutcome = Files(files: seq<FileDescriptor>) | Refused(status: uint16)

  // ----- little-endian integers

  function L16(v: uint16): (b: ByteBuffer)
    ensures |b| == 2
  {
    [v % 0x100, v / 0x100]
  }

  function L32(v: uint32): (b: ByteBuffer)
    ensures |b| == 4
  {
    L16(v % 0x1_0000) + L16(v / 0x1_0000)
  }

  function L64(v: uint64): (b: ByteBuffer)
    ensures |b| == 8
  {
    L32(v % 0x1_0000_0000) + L32(v / 0x1_0000_0000)
  }

  function Get16(bytes: ByteBuffer, offset: nat): uint16
    requires offset + 2 <= |bytes|
  {
    (bytes[offset] as int) + (bytes[offset + 1] as int) * 0x100
  }

  function Get32(bytes: ByteBuffer, offset: nat): uint32
    requires offset + 4 <= |bytes|
  {
    Get16(bytes, offset) + Get16(bytes, offset + 2) * 0x1_0000
  }

  function Get64(bytes: ByteBuffer, offset: nat): uint64
    requires offset + 8 <= |bytes|
  {
    Get32(bytes, offset) + Get32(bytes, offset + 4) * 0x1_0000_0000
  }

  // ----- the record of one file

  /** The relative path the encoder writes and the decoder stores: the display name when it has none. */
  function PathOr(path: Name, displayName: Name): Name {
    if path == [] || path == UNNAMED then displayName else path
  }

  function Normal(f: FileDescriptor): FileDescriptor {
    var name := DisplayName(f.displayName);
    f.(displayName := name, relativePath := PathOr(RelativePath(f.relativePath), name))
  }

  /** A length-prefixed string; anything longer than the 16-bit length is cut. */
  function StringField(s: Name): ByteBuffer {
    L16(Min(|s|, MAX_STRING)) + s[..Min(|s|, MAX_STRING)]
  }

  function FixedFields(f: FileDescriptor): (b: ByteBuffer)
    ensures |b| == 25
  {
    L64(f.objectId) + L64(f.sizeBytes) + L64(f.lastModifiedUsec) + [if f.directory then 1 else 0]
  }

  function Entry(f: FileDescriptor): ByteBuffer {
    FixedFields(f) + StringField(Normal(f).displayName) + StringField(Normal(f).relativePath)
  }

  function Entries(files: seq<FileDescriptor>): ByteBuffer {
    if files == [] then [] else Entries(files[..|files| - 1]) + Entry(files[|files| - 1])
  }

  function FileList(files: seq<FileDescriptor>): ByteBuffer {
    MAGIC + L16(1) + L16(1) + L32(|files| % 0x1_0000_0000) + Entries(files)
  }

  method Encode(files: seq<FileDescriptor>) returns (output: ByteBuffer)
    ensures output == FileList(files)
  {
    hide StringField, FixedFields, DisplayName, RelativePath, L16, L32;
    output := MAGIC + L16(1) + L16(1) + L32(|files| % 0x1_0000_0000);
    ghost var header := output;
    for i := 0 to |files|
      invariant output == header + Entries(files[..i])
    {
      assert files[..i + 1][..i] == files[..i];
      var displayName := SanitizeDisplayName(files[i].displayName);
      var relativePath := SanitizeRelativePath(files[i].relativePath);
      if relativePath == [] || relativePath == UNNAMED {
        relativePath := displayName;
      }
      output := output + (FixedFields(files[i]) + StringField(displayName) + StringField(relativePath));
    }
    assert files[..|files|] == files;
  }

  // ----- parsing

  /** The string at `offset` and the offset behind it. */
  function ParseString(bytes: ByteBuffer, offset: nat, maxBytes: nat): Option<(Name, nat)> {
    if offset + 2 > |bytes| then None
    else
      var length: nat := Get16(bytes, offset);
      if length > maxBytes || offset + 2 + length > |bytes| then None
      else Some((bytes[offset + 2..offset + 2 + length], offset + 2 + length))
  }

  function ParseEntry(bytes: ByteBuffer, offset: nat, minor: uint16, maxName: nat): Option<(FileDescriptor, nat)> {
    if offset + 25 > |bytes| then None
    else
      match ParseString(bytes, offset + 25, maxName)
      case None => None
      case Some((rawName, second)) =>
        var name := DisplayName(rawName);
        var f := FileDescriptor(Get64(bytes, offset), name, [], Get64(bytes, offset + 8), Get64(bytes, offset + 16),
                                bytes[offset + 24] != 0);
        if minor == 0 then Some((f.(relativePath := name), second))
        else
          match ParseString(bytes, second, 8 * maxName)
          case None => None
          case Some((rawPath, next)) => Some((f.(relativePath := PathOr(RelativePath(rawPath), name)), next))
  }

  function ParseEntries(bytes: ByteBuffer, offset: nat, minor: uint16, maxName: nat,
                        count: nat): Option<(seq<FileDescriptor>, nat)> {
    if count == 0 then Some(([], offset))
    else
      match ParseEntries(bytes, offset, minor, maxName, count - 1)
      case None => None
      case Some((files, next)) =>
        match ParseEntry(bytes, next, minor, maxName)
        case None => None
        case Some((f, end)) => Some((files + [f], end))
  }

  function DecodeSpec(bytes: ByteBuffer, maxFiles: nat, maxName: nat): DecodeOutcome {
    if |bytes| < 12 || bytes[..4] != MAGIC then Refused(STATUS_PROTOCOL_ERROR)
    else if Get16(bytes, 4) != 1 || Get16(bytes, 6) > 1 then Refused(STATUS_UNSUPPORTED)
    else if Get32(bytes, 8) > maxFiles then Refused(STATUS_TOO_LARGE)
    else
      match ParseEntries(bytes, 12, Get16(bytes, 6), maxName, Get32(bytes, 8))
      case None => Refused(STATUS_PROTOCOL_ERROR)
      case Some((files, end)) => if end != |bytes| then Refused(STATUS_PROTOCOL_ERROR) else Files(files)
  }

  /** A cursor over the received bytes. A number that does not fit leaves it where it is; a string whose bytes do
      not fit, or are too many, leaves it behind the string's length. */
  class BinaryReader {
    const bytes: ByteBuffer
    var offset: nat

    constructor (bytes: ByteBuffer)
      ensures this.bytes == bytes && offset == 0
    {
      this.bytes := bytes;
      offset := 0;
    }

    method ReadU8() returns (value: Option<uint8>)
      modifies this
      ensures value == (if old(offset) + 1 > |bytes| then None else Some(bytes[old(offset)]))
      ensures offset == old(offset) + if value.Some? then 1 else 0
    {
      if offset + 1 > |bytes| {
        return None;
      }
      value := Some(bytes[offset]);
      offset := offset + 1;
    }

    method ReadU16() returns (value: Option<uint16>)
      modifies this
      ensures value == (if old(offset) + 2 > |bytes| then None else Some(Get16(bytes, old(offset))))
      ensures offset == old(offset) + if value.Some? then 2 else 0
    {
      if offset + 2 > |bytes| {
        return None;
      }
      value := Some(Get16(bytes, offset));
      offset := offset + 2;
    }

    method ReadU32() returns (value: Option<uint32>)
      modifies this
      ensures value == (if old(offset) + 4 > |bytes| then None else Some(Get32(bytes, old(offset))))
      ensures offset == old(offset) + if value.Some? then 4 else 0
    {
      if offset + 4 > |bytes| {
        return None;
      }
      value := Some(Get32(bytes, offset));
      offset := offset + 4;
    }

    method ReadU64() returns (value: Option<uint64>)
      modifies this
      ensures value == (if old(offset) + 8 > |bytes| then None else Some(Get64(bytes, old(offset))))
      ensures offset == old(offset) + if value.Some? then 8 else 0
    {
      if offset + 8 > |bytes| {
        return None;
      }
      value := Some(Get64(bytes, offset));
      offset := offset + 8;
    }

    method ReadString(maxBytes: nat) returns (value: Option<Name>)
      modifies this
      ensures var parsed := ParseString(bytes, old(offset), maxBytes);
              if parsed.Some? then value == Some(parsed.value.0) && offset == parsed.value.1
              else value == None && offset == old(offset) + if old(offset) + 2 > |bytes| then 0 else 2
    {
      var length := ReadU16();
      if length == None || length.value > maxBytes || offset + length.value > |bytes| {
        return None;
      }
      value := Some(bytes[offset..offset + length.value]);
      offset := offset + length.value;
    }

    method ReadEntry(minor: uint16, maxName: nat) returns (file: Option<FileDescriptor>)
      modifies this
      ensures var parsed := ParseEntry(bytes, old(offset), minor, maxName);
              if parsed.Some? then file == Some(parsed.value.0) && offset == parsed.value.1 else file == None
    {
      hide ParseString, DisplayName, RelativePath, Get64;
      var objectId := ReadU64();
      if objectId == None {
        return None;
      }
      var sizeBytes := ReadU64();
      if sizeBytes == None {
        return None;
      }
      var lastModified := ReadU64();
      if lastModified == None {
        return None;
      }
      var directory := ReadU8();
      if directory == None {
        return None;
      }
      var rawName := ReadString(maxName);
      if rawName == None {
        return None;
      }
      var displayName := SanitizeDisplayName(rawName.value);
      var relativePath := [];
      if minor >= 1 {
        var rawPath := ReadString(maxName * 8);
        if rawPath == None {
          return None;
        }
        relativePath := SanitizeRelativePath(rawPath.value);
      }
      if relativePath == [] || relativePath == UNNAMED {
        relativePath := displayName;
      }
      file := Some(FileDescriptor(objectId.value, displayName, relativePath, sizeBytes.value, lastModified.value,
                                  directory.value != 0));
    }
  }

  method Decode(bytes: ByteBuffer, maxFiles: nat, maxName: nat) returns (outcome: DecodeOutcome)
    ensures outcome == DecodeSpec(bytes, maxFiles, maxName)
  {
    hide ParseEntry, Get32, Get16;
    if |bytes| < 12 || bytes[..4] != MAGIC {
      return Refused(STATUS_PROTOCOL_ERROR);
    }
    var reader := new BinaryReader(bytes);
    var _ := reader.ReadU32();
    var major := reader.ReadU16();
    var minor := reader.ReadU16();
    var count := reader.ReadU32();
    if major.value != 1 || minor.value > 1 {
      return Refused(STATUS_UNSUPPORTED);
    }
    if count.value > maxFiles {
      return Refused(STATUS_TOO_LARGE);
    }
    var files := [];
    for i := 0 to count.value
      invariant ParseEntries(bytes, 12, minor.value, maxName, i) == Some((files, reader.offset))
    {
      var file := reader.ReadEntry(minor.value, maxName);
      if file == None {
        EntriesStayFailed(bytes, 12, minor.value, maxName, i + 1, count.value);
        return Refused(STATUS_PROTOCOL_ERROR);
      }
      files := files + [file.value];
    }
    if reader.offset != |bytes| {
      return Refused(STATUS_PROTOCOL_ERROR);
    }
    outcome := Files(files);
  }

  lemma {:induction false} EntriesStayFailed(bytes: ByteBuffer, offset: nat, minor: uint16, maxName: nat, n: nat,
                                             count: nat)
    requires n <= count && ParseEntries(bytes, offset, minor, maxName, n) == None
    ensures ParseEntries(bytes, offset, minor, maxName, count) == None
  {
    hide ParseEntry;
    if n < count {
      EntriesStayFailed(bytes, offset, minor, maxName, n, count - 1);
    }
  }
}
