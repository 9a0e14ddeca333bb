/**
  Writing a stored-entry ZIP archive byte by byte, reading it back, and the
  round trip between the two.
  Source: frontend/src/utils/antennaTemplate.js, frontend/src/utils/antennaImport.js
*/
module ZipArchive {
  import opened Wrappers
  import opened Crc32
  import opened ZipFormat

  // ---------- The archive as a value

  function LocalSection(files: seq<File>): Bytes {
    if files == [] then []
    else
      var last := files[|files| - 1];
      LocalSection(files[..|files| - 1]) + (LocalHeader(last) + last.content)
  }

  function CentralSection(files: seq<File>): Bytes {
    if files == [] then []
    else
      var rest := files[..|files| - 1];
      CentralSection(rest) + CentralHeader(files[|files| - 1], |LocalSection(rest)|)
  }

  function Zip(files: seq<File>): Bytes {
    LocalSection(files) + CentralSection(files)
    + EndRecord(|files|, |CentralSection(files)|, |LocalSection(files)|)
  }

  // ---------- The writer's loops

  method SetUint16(view: array<Byte>, offset: nat, value: nat)
    requires offset + 2 <= view.Length
    modifies view
    ensures view[..offset + 2] == old(view[..offset]) + U16(value)
  {
    view[offset] := U16(value)[0];
    view[offset + 1] := U16(value)[1];
  }

  method SetUint32(view: array<Byte>, offset: nat, value: nat)
    requires offset + 4 <= view.Length
    modifies view
    ensures view[..offset + 4] == old(view[..offset]) + U32(value)
  {
    SetUint16(view, offset, value % 0x1_0000);
    SetUint16(view, offset + 2, value / 0x1_0000);
  }

  method SetBytes(view: array<Byte>, bytes: Bytes, offset: nat)
    requires offset + |bytes| <= view.Length
    modifies view
    ensures view[..offset + |bytes|] == old(view[..offset]) + bytes
    ensures view[offset + |bytes|..] == old(view[offset + |bytes|..])
  {
    forall i | 0 <= i < |bytes| {
      view[offset + i] := bytes[i];
    }
  }

  /** The first 14 bytes of a local header: everything before the checksum. */
  method SetLocalStart(header: array<Byte>)
    requires header.Length >= 14
    modifies header
    ensures header[..14] == [] + U32(LOCAL_SIGNATURE) + U16(20) + U16(0) + U16(0) + U16(0) + U16(0)
  {
    hide U16, U32;
    SetUint32(header, 0, LOCAL_SIGNATURE);
    SetUint16(header, 4, 20);
    SetUint16(header, 6, 0);
    SetUint16(header, 8, 0);
    SetUint16(header, 10, 0);
    SetUint16(header, 12, 0);
  }

  method WriteLocalHeader(file: File, checksum: nat) returns (header: array<Byte>)
    requires checksum == Checksum(file.content)
    ensures fresh(header) && header[..] == LocalHeader(file)
  {
    hide U16, U32, Checksum;
    header := new Byte[30 + |file.path|](_ => 0);
    SetLocalStart(header);
    SetUint32(header, 14, checksum);
    SetUint32(header, 18, |file.content|);
    SetUint32(header, 22, |file.content|);
    SetUint16(header, 26, |file.path|);
    SetUint16(header, 28, 0);
    FlattenLocal(LocalFields(file));
    SetBytes(header, file.path, 30);
  }

  lemma FlattenLocal(f: seq<Bytes>)
    requires |f| == 11
    ensures Flatten(f) == [] + f[0] + f[1] + f[2] + f[3] + f[4] + f[5] + f[6] + f[7] + f[8] + f[9] + f[10]
  {
    assert Joined(f, 1) == [] + f[0];
    assert Joined(f, 3) == Joined(f, 1) + f[1] + f[2];
    assert Joined(f, 5) == Joined(f, 3) + f[3] + f[4];
    assert Joined(f, 7) == Joined(f, 5) + f[5] + f[6];
    assert Joined(f, 9) == Joined(f, 7) + f[7] + f[8];
    assert Joined(f, 11) == Joined(f, 9) + f[9] + f[10];
  }

  /** The first 28 bytes of a central header: everything before the three lengths. */
  method SetCentralStart(header: array<Byte>, size: nat, checksum: nat)
    requires header.Length >= 28
    modifies header
    ensures header[..28] == [] + U32(CENTRAL_SIGNATURE) + U16(20) + U16(20) + U16(0) + U16(0) + U16(0) + U16(0)
                               + U32(checksum) + U32(size) + U32(size)
  {
    hide U16, U32;
    SetUint32(header, 0, CENTRAL_SIGNATURE);
    SetUint16(header, 4, 20);
    SetUint16(header, 6, 20);
    SetUint16(header, 8, 0);
    SetUint16(header, 10, 0);
    SetUint16(header, 12, 0);
    SetUint16(header, 14, 0);
    SetUint32(header, 16, checksum);
    SetUint32(header, 20, size);
    SetUint32(header, 24, size);
  }

  method WriteCentralHeader(file: File, checksum: nat, localOffset: nat) returns (header: array<Byte>)
    requires checksum == Checksum(file.content)
    ensures fresh(header) && header[..] == CentralHeader(file, localOffset)
  {
    hide U16, U32, Checksum;
    header := new Byte[46 + |file.path|](_ => 0);
    SetCentralStart(header, |file.content|, checksum);
    SetUint16(header, 28, |file.path|);
    SetUint16(header, 30, 0);
    SetUint16(header, 32, 0);
    SetUint16(header, 34, 0);
    SetUint16(header, 36, 0);
    SetUint32(header, 38, 0);
    SetUint32(header, 42, localOffset);
    FlattenCentral(CentralFields(file, localOffset));
    SetBytes(header, file.path, 46);
  }

  lemma FlattenCentral(f: seq<Bytes>)
    requires |f| == 17
    ensures Flatten(f) == [] + f[0] + f[1] + f[2] + f[3] + f[4] + f[5] + f[6] + f[7] + f[8] + f[9] + f[10]
                          + f[11] + f[12] + f[13] + f[14] + f[15] + f[16]
  {
    assert Joined(f, 1) == [] + f[0];
    assert Joined(f, 3) == Joined(f, 1) + f[1] + f[2];
    assert Joined(f, 5) == Joined(f, 3) + f[3] + f[4];
    assert Joined(f, 7) == Joined(f, 5) + f[5] + f[6];
    assert Joined(f, 9) == Joined(f, 7) + f[7] + f[8];
    assert Joined(f, 11) == Joined(f, 9) + f[9] + f[10];
    assert Joined(f, 13) == Joined(f, 11) + f[11] + f[12];
    assert Joined(f, 15) == Joined(f, 13) + f[13] + f[14];
    assert Joined(f, 17) == Joined(f, 15) + f[15] + f[16];
  }

  method WriteEndRecord(count: nat, centralSize: nat, centralOffset: nat) returns (header: array<Byte>)
    ensures fresh(header) && header[..] == EndRecord(count, centralSize, centralOffset)
  {
    hide U16, U32;
    header := new Byte[22](_ => 0);
    SetUint32(header, 0, END_SIGNATURE);
    SetUint16(header, 4, 0);
    SetUint16(header, 6, 0);
    SetUint16(header, 8, count);
    SetUint16(header, 10, count);
    SetUint32(header, 12, centralSize);
    SetUint32(header, 16, centralOffset);
    SetUint16(header, 20, 0);
    FlattenEnd(EndFields(count, centralSize, centralOffset));
  }

  lemma FlattenEnd(f: seq<Bytes>)
    requires |f| == 8
    ensures Flatten(f) == [] + f[0] + f[1] + f[2] + f[3] + f[4] + f[5] + f[6] + f[7]
  {
    assert Joined(f, 1) == [] + f[0];
    assert Joined(f, 3) == Joined(f, 1) + f[1] + f[2];
    assert Joined(f, 5) == Joined(f, 3) + f[3] + f[4];
    assert Joined(f, 7) == Joined(f, 5) + f[5] + f[6];
    assert Joined(f, 8) == Joined(f, 7) + f[7];
  }

  function TotalLength(parts: seq<Bytes>): nat {
    |Flatten(parts)|
  }

  /** One output buffer of the summed length, filled part by part. */
  method ConcatUint8Arrays(parts: seq<Bytes>) returns (output: array<Byte>)
    ensures fresh(output) && output[..] == Flatten(parts)
  {
    var total := 0;
    for i := 0 to |parts|
      invariant total == |Joined(parts, i)|
    {
      total := total + |parts[i]|;
    }
    output := new Byte[total](_ => 0);
    var offset := 0;
    for i := 0 to |parts|
      invariant fresh(output) && output.Length == |Flatten(parts)|
      invariant offset == |Joined(parts, i)| <= output.Length && output[..offset] == Joined(parts, i)
    {
      JoinedPrefix(parts, i + 1, |parts|);
      SetBytes(output, parts[i], offset);
      offset := offset + |parts[i]|;
    }
  }

  lemma FlattenNothing()
    ensures Flatten([]) == []
  {
  }

  lemma ChecksumIs(data: Bytes)
    ensures Checksum(data) == BitwiseCrc32(AsBits(data)) as nat
  {
  }

  lemma SectionsGrow(files: seq<File>, i: nat)
    requires i < |files|
    ensures LocalSection(files[..i + 1]) == LocalSection(files[..i]) + LocalHeader(files[i]) + files[i].content
    ensures CentralSection(files[..i + 1]) ==
            CentralSection(files[..i]) + CentralHeader(files[i], |LocalSection(files[..i])|)
  {
    hide LocalHeader, CentralHeader;
    assert files[..i + 1][..i] == files[..i];
  }

  lemma {:induction false} JoinedSame(s: seq<Bytes>, t: seq<Bytes>, k: nat)
    requires k <= |s| && s <= t
    ensures Joined(t, k) == Joined(s, k)
  {
    if k > 0 {
      JoinedSame(s, t, k - 1);
    }
  }

  lemma FlattenPush(parts: seq<Bytes>, part: Bytes)
    ensures Flatten(parts + [part]) == Flatten(parts) + part
  {
    JoinedSame(parts, parts + [part], |parts|);
  }

  lemma {:induction false} FlattenAppend(s: seq<Bytes>, t: seq<Bytes>)
    ensures Flatten(s + t) == Flatten(s) + Flatten(t)
  {
    if t == [] {
      assert s + t == s;
    } else {
      var init, last := t[..|t| - 1], t[|t| - 1];
      FlattenAppend(s, init);
      assert s + t == (s + init) + [last] && t == init + [last];
      FlattenPush(s + init, last);
      FlattenPush(init, last);
    }
  }

  // ---------- The reader

  datatype ZipError = NotAnArchive | BadCentralDirectory | BadLocalHeader | UnsupportedMethod | OutOfRange | BadData

  /** Decompression of method 8 entries; it belongs to the browser and is left arbitrary. */
  type Inflater = Bytes -> Result<Bytes, ZipError>

  type Entries = map<Bytes, Bytes>

  /** DataView getters throw when the field does not fit. */
  function Read16(bytes: Bytes, offset: nat): Result<nat, ZipError> {
    if offset + 2 <= |bytes| then Ok(Get16(bytes, offset)) else Err(OutOfRange)
  }

  function Read32(bytes: Bytes, offset: nat): Result<nat, ZipError> {
    if offset + 4 <= |bytes| then Ok(Get32(bytes, offset)) else Err(OutOfRange)
  }

  /** `Uint8Array.slice` clips both ends to the array. */
  function Slice(bytes: Bytes, start: nat, end: nat): Bytes
    requires start <= end
  {
    var hi := if end < |bytes| then end else |bytes|;
    var lo := if start < hi then start else hi;
    bytes[lo..hi]
  }

  function ReplaceBackslashes(path: Bytes): (r: Bytes)
    ensures |r| == |path|
  {
    seq(|path|, i requires 0 <= i < |path| => if path[i] == 0x5C then 0x2F else path[i])
  }

  /** The last position up to `offset` that holds the end signature. */
  function EndFrom(bytes: Bytes, offset: int): (r: Result<nat, ZipError>)
    requires offset + 22 <= |bytes|
    ensures r.Ok? ==> r.value <= offset && Get32(bytes, r.value) == END_SIGNATURE
    ensures r.Ok? ==> forall later :: r.value < later <= offset ==> Get32(bytes, later) != END_SIGNATURE
    ensures r.Err? ==> r.error == NotAnArchive && forall k :: 0 <= k <= offset ==> Get32(bytes, k) != END_SIGNATURE
    decreases offset + 1
  {
    if offset < 0 then Err(NotAnArchive)
    else if Get32(bytes, offset) == END_SIGNATURE then Ok(offset)
    else EndFrom(bytes, offset - 1)
  }

  method FindEndOfCentralDirectory(bytes: Bytes) returns (r: Result<nat, ZipError>)
    ensures r == EndFrom(bytes, |bytes| - 22)
    ensures r.Ok? ==>
              && r.value + 22 <= |bytes| && Get32(bytes, r.value) == END_SIGNATURE
              && forall later :: r.value < later <= |bytes| - 22 ==> Get32(bytes, later) != END_SIGNATURE
    ensures r.Err? ==> forall k :: 0 <= k <= |bytes| - 22 ==> Get32(bytes, k) != END_SIGNATURE
  {
    var offset := |bytes| - 22;
    while offset >= 0
      invariant -22 <= offset && offset + 22 <= |bytes| && (offset < -1 ==> offset == |bytes| - 22)
      invariant EndFrom(bytes, |bytes| - 22) == EndFrom(bytes, offset)
    {
      if Get32(bytes, offset) == END_SIGNATURE {
        return Ok(offset);
      }
      offset := offset - 1;
    }
    return Err(NotAnArchive);
  }

  function ReadZipEntry(bytes: Bytes, offset: nat, size: nat, zipMethod: nat, inflate: Inflater): Result<Bytes, ZipError> {
    match Read32(bytes, offset)
    case Err(e) => Err(e)
    case Ok(signature) =>
      if signature != LOCAL_SIGNATURE then Err(BadLocalHeader)
      else
        match (Read16(bytes, offset + 26), Read16(bytes, offset + 28))
        case (Ok(nameLength), Ok(extraLength)) =>
          var start := offset + 30 + nameLength + extraLength;
          var data := Slice(bytes, start, start + size);
          if zipMethod == 0 then Ok(data)
          else if zipMethod == 8 then inflate(data)
          else Err(UnsupportedMethod)
        case _ => Err(OutOfRange)
  }

  /** What one central directory record tells. */
  datatype Central = Central(zipMethod: nat, size: nat, nameLength: nat, extraLength: nat, commentLength: nat, localOffset: nat)

  function ReadCentral(bytes: Bytes, offset: nat): Result<Central, ZipError> {
    match Read32(bytes, offset)
    case Err(e) => Err(e)
    case Ok(signature) =>
      if signature != CENTRAL_SIGNATURE then Err(BadCentralDirectory)
      else if offset + 46 > |bytes| then Err(OutOfRange)
      else Ok(Central(Get16(bytes, offset + 10), Get32(bytes, offset + 20), Get16(bytes, offset + 28),
                      Get16(bytes, offset + 30), Get16(bytes, offset + 32), Get32(bytes, offset + 42)))
  }

  /** The entries that `left` records from `offset` on add to `entries`. */
  function ReadEntries(bytes: Bytes, offset: nat, left: nat, entries: Entries, inflate: Inflater): Result<Entries, ZipError>
    decreases left
  {
    if left == 0 then Ok(entries)
    else
      match ReadCentral(bytes, offset)
      case Err(e) => Err(e)
      case Ok(c) =>
        match ReadZipEntry(bytes, c.localOffset, c.size, c.zipMethod, inflate)
        case Err(e) => Err(e)
        case Ok(data) =>
          var path := Slice(bytes, offset + 46, offset + 46 + c.nameLength);
          ReadEntries(bytes, offset + 46 + c.nameLength + c.extraLength + c.commentLength, left - 1,
                      entries[ReplaceBackslashes(path) := data], inflate)
  }

  function Unzip(bytes: Bytes, inflate: Inflater): Result<Entries, ZipError> {
    match EndFrom(bytes, |bytes| - 22)
    case Err(e) => Err(e)
    case Ok(end) =>
      if end + 20 > |bytes| then Err(OutOfRange)
      else ReadEntries(bytes, Get32(bytes, end + 16), Get16(bytes, end + 10), map[], inflate)
  }

  method UnzipWorkbookEntries(bytes: Bytes, inflate: Inflater) returns (r: Result<Entries, ZipError>)
    ensures r == Unzip(bytes, inflate)
  {
    hide EndFrom, ReadCentral, ReadZipEntry, Get16, Get32, Slice, ReplaceBackslashes;
    var found := FindEndOfCentralDirectory(bytes);
    if found.Err? {
      return Err(found.error);
    }
    var entryCount: nat := Get16(bytes, found.value + 10);
    var offset: nat := Get32(bytes, found.value + 16);
    var entries: Entries := map[];
    ghost var all := ReadEntries(bytes, offset, entryCount, entries, inflate);
    for index := 0 to entryCount
      invariant all == ReadEntries(bytes, offset, entryCount - index, entries, inflate) == Unzip(bytes, inflate)
    {
      var central := ReadCentral(bytes, offset);
      if central.Err? {
        return Err(central.error);
      }
      var c := central.value;
      var path := Slice(bytes, offset + 46, offset + 46 + c.nameLength);
      var data := ReadZipEntry(bytes, c.localOffset, c.size, c.zipMethod, inflate);
      if data.Err? {
        return Err(data.error);
      }
      entries := entries[ReplaceBackslashes(path) := data.value];
      offset := offset + 46 + c.nameLength + c.extraLength + c.commentLength;
    }
    return Ok(entries);
  }
}
