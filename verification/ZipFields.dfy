/**
  Every field of a written archive, byte by byte: signatures, versions, checksums, sizes, lengths and
  offsets of the local records, the central directory and the end record.
  Source: frontend/src/utils/antennaTemplate.js
*/
module ZipFields {
  import opened Crc32
  import opened ZipFormat
  import opened ZipArchive
  import opened ZipRoundTrip

  // ---------- Little-endian words

  function Word16(b: Bytes, o: nat): nat
    requires o + 2 <= |b|
  {
    b[o] as nat + 0x100 * b[o + 1] as nat
  }

  function Word32(b: Bytes, o: nat): nat
    requires o + 4 <= |b|
  {
    b[o] as nat + 0x100 * b[o + 1] as nat + 0x1_0000 * b[o + 2] as nat + 0x100_0000 * b[o + 3] as nat
  }

  lemma WordsAreFields(b: Bytes, o: nat)
    ensures o + 2 <= |b| ==> Word16(b, o) == Get16(b, o)
    ensures o + 4 <= |b| ==> Word32(b, o) == Get32(b, o)
  {
  }

  // ---------- Where the records start

  /** Local records follow each other from the first byte on: 30 bytes, the name, the content. */
  function LocalStart(files: seq<File>, i: nat): nat
    requires i <= |files|
  {
    if i == 0 then 0 else LocalStart(files, i - 1) + 30 + |files[i - 1].path| + |files[i - 1].content|
  }

  /** The size of the first `i` central records: 46 bytes and the name each. */
  function DirectorySize(files: seq<File>, i: nat): nat
    requires i <= |files|
  {
    if i == 0 then 0 else DirectorySize(files, i - 1) + 46 + |files[i - 1].path|
  }

  /** Central records follow each other behind the local ones. */
  function CentralStart(files: seq<File>, i: nat): nat
    requires i <= |files|
  {
    LocalStart(files, |files|) + DirectorySize(files, i)
  }

  lemma {:induction false} LocalStartIsLength(files: seq<File>, i: nat)
    requires i <= |files|
    ensures |LocalSection(files[..i])| == LocalStart(files, i)
  {
    hide LocalHeader;
    if i == 0 {
      assert files[..0] == [];
    } else {
      LocalStartIsLength(files, i - 1);
      SectionsGrow(files, i - 1);
      LocalHeaderReads(files[i - 1]);
    }
  }

  lemma {:induction false} CentralStartIsOffset(files: seq<File>, i: nat)
    requires i <= |files|
    ensures CentralOffset(files, i) == CentralStart(files, i)
  {
    hide LocalSection, CentralSection;
    if i == 0 {
      LocalStartIsLength(files, |files|);
      assert files[..|files|] == files && files[..0] == [];
      EmptySections();
    } else {
      CentralStartIsOffset(files, i - 1);
      NextOffset(files, i - 1);
    }
  }

  // ---------- The fields

  /** The checksum of the content, from the definition of CRC-32. */
  function Crc(file: File): nat {
    BitwiseCrc32(seq(|file.content|, k requires 0 <= k < |file.content| => file.content[k] as bv8)) as nat
  }

  /** The local record of a file at `o`: its fields, its name, its content. */
  ghost predicate IsLocalRecord(b: Bytes, o: nat, file: File) {
    var n, size := |file.path|, |file.content|;
    && o + 30 + n + size <= |b|
    && Word32(b, o) == 0x0403_4B50 && Word16(b, o + 4) == 20 && Word16(b, o + 6) == 0 && Word16(b, o + 8) == 0
    && Word16(b, o + 10) == 0 && Word16(b, o + 12) == 0 && Word32(b, o + 14) == Crc(file)
    && Word32(b, o + 18) == size % 0x1_0000_0000 && Word32(b, o + 22) == size % 0x1_0000_0000
    && Word16(b, o + 26) == n % 0x1_0000 && Word16(b, o + 28) == 0
    && b[o + 30..o + 30 + n] == file.path && b[o + 30 + n..o + 30 + n + size] == file.content
  }

  /** The central record of a file at `o`: its fields, among them where its local record starts, and its name. */
  ghost predicate IsCentralRecord(b: Bytes, o: nat, file: File, localStart: nat) {
    var n, size := |file.path|, |file.content|;
    && o + 46 + n <= |b|
    && Word32(b, o) == 0x0201_4B50 && Word16(b, o + 4) == 20 && Word16(b, o + 6) == 20 && Word16(b, o + 8) == 0
    && Word16(b, o + 10) == 0 && Word16(b, o + 12) == 0 && Word16(b, o + 14) == 0 && Word32(b, o + 16) == Crc(file)
    && Word32(b, o + 20) == size % 0x1_0000_0000 && Word32(b, o + 24) == size % 0x1_0000_0000
    && Word16(b, o + 28) == n % 0x1_0000 && Word16(b, o + 30) == 0 && Word16(b, o + 32) == 0 && Word16(b, o + 34) == 0
    && Word16(b, o + 36) == 0 && Word32(b, o + 38) == 0 && Word32(b, o + 42) == localStart % 0x1_0000_0000
    && b[o + 46..o + 46 + n] == file.path
  }

  /** The end record at `o`, the last 22 bytes. */
  ghost predicate IsEndRecord(b: Bytes, o: nat, count: nat, centralSize: nat, centralStart: nat) {
    && o + 22 == |b|
    && Word32(b, o) == 0x0605_4B50 && Word16(b, o + 4) == 0 && Word16(b, o + 6) == 0
    && Word16(b, o + 8) == count % 0x1_0000 && Word16(b, o + 10) == count % 0x1_0000
    && Word32(b, o + 12) == centralSize % 0x1_0000_0000 && Word32(b, o + 16) == centralStart % 0x1_0000_0000
    && Word16(b, o + 20) == 0
  }

  /** The `i`-th field of a record is the value it was made from. */
  lemma FieldReads(fields: seq<Bytes>, i: nat, more: Bytes, value: nat)
    requires i < |fields| && fields[i] in {U16(value), U32(value)}
    ensures OffsetOf(fields, i) + |fields[i]| <= |Flatten(fields) + more|
    ensures |fields[i]| == 2 ==> Word16(Flatten(fields) + more, OffsetOf(fields, i)) == value % 0x1_0000
    ensures |fields[i]| == 4 ==> Word32(Flatten(fields) + more, OffsetOf(fields, i)) == value % 0x1_0000_0000
  {
    hide Get16, Get32, U16, U32, OffsetOf, Flatten, Word16, Word32;
    FieldAt(fields, i, more);
    WordsAreFields(Flatten(fields) + more, OffsetOf(fields, i));
    Get16Back(value);
    Get32Back(value);
    FieldWidths(value);
  }

  lemma FieldWidths(value: nat)
    ensures |U16(value)| == 2 && |U32(value)| == 4
  {
  }

  lemma ChecksumFits(file: File)
    ensures Checksum(file.content) == Crc(file) < 0x1_0000_0000
  {
    assert AsBits(file.content) == seq(|file.content|, k requires 0 <= k < |file.content| => file.content[k] as bv8);
  }

  lemma LocalFieldsRead(file: File)
    ensures IsLocalRecord(LocalHeader(file) + file.content, 0, file)
  {
    hide U16, U32, OffsetOf, Flatten, Checksum, Word16, Word32, Crc;
    var f, more := LocalFields(file), file.path + file.content;
    LocalLayout(file);
    ChecksumFits(file);
    LocalWidths(file);
    FieldReads(f, 0, more, LOCAL_SIGNATURE);
    FieldReads(f, 1, more, 20);
    FieldReads(f, 2, more, 0);
    FieldReads(f, 3, more, 0);
    FieldReads(f, 4, more, 0);
    FieldReads(f, 5, more, 0);
    FieldReads(f, 6, more, Checksum(file.content));
    FieldReads(f, 7, more, |file.content|);
    FieldReads(f, 8, more, |file.content|);
    FieldReads(f, 9, more, |file.path|);
    FieldReads(f, 10, more, 0);
    assert LocalHeader(file) + file.content == Flatten(f) + more;
  }

  lemma LocalWidths(file: File)
    ensures var f := LocalFields(file);
            && |f[0]| == 4 && |f[1]| == 2 && |f[2]| == 2 && |f[3]| == 2 && |f[4]| == 2 && |f[5]| == 2
            && |f[6]| == 4 && |f[7]| == 4 && |f[8]| == 4 && |f[9]| == 2 && |f[10]| == 2
  {
    hide U16, U32, Checksum;
  }

  lemma CentralFieldsRead(file: File, localStart: nat)
    ensures IsCentralRecord(CentralHeader(file, localStart), 0, file, localStart)
  {
    hide U16, U32, OffsetOf, Flatten, Checksum, Word16, Word32, Crc;
    var f := CentralFields(file, localStart);
    CentralLayout(file, localStart);
    ChecksumFits(file);
    CentralWidths(file, localStart);
    FieldReads(f, 0, file.path, CENTRAL_SIGNATURE);
    FieldReads(f, 1, file.path, 20);
    FieldReads(f, 2, file.path, 20);
    FieldReads(f, 3, file.path, 0);
    FieldReads(f, 4, file.path, 0);
    FieldReads(f, 5, file.path, 0);
    FieldReads(f, 6, file.path, 0);
    FieldReads(f, 7, file.path, Checksum(file.content));
    FieldReads(f, 8, file.path, |file.content|);
    FieldReads(f, 9, file.path, |file.content|);
    FieldReads(f, 10, file.path, |file.path|);
    FieldReads(f, 11, file.path, 0);
    FieldReads(f, 12, file.path, 0);
    FieldReads(f, 13, file.path, 0);
    FieldReads(f, 14, file.path, 0);
    FieldReads(f, 15, file.path, 0);
    FieldReads(f, 16, file.path, localStart);
  }

  lemma CentralWidths(file: File, localStart: nat)
    ensures var f := CentralFields(file, localStart);
            && |f[0]| == 4 && |f[1]| == 2 && |f[2]| == 2 && |f[3]| == 2 && |f[4]| == 2 && |f[5]| == 2 && |f[6]| == 2
            && |f[7]| == 4 && |f[8]| == 4 && |f[9]| == 4 && |f[10]| == 2 && |f[11]| == 2 && |f[12]| == 2
            && |f[13]| == 2 && |f[14]| == 2 && |f[15]| == 4 && |f[16]| == 4
  {
    hide U16, U32, Checksum;
  }

  lemma EndFieldsRead(count: nat, centralSize: nat, centralStart: nat)
    ensures IsEndRecord(EndRecord(count, centralSize, centralStart), 0, count, centralSize, centralStart)
  {
    hide U16, U32, OffsetOf, Flatten, Word16, Word32;
    var f := EndFields(count, centralSize, centralStart);
    EndLayout(count, centralSize, centralStart);
    EndWidths(count, centralSize, centralStart);
    assert Flatten(f) + [] == Flatten(f);
    FieldReads(f, 0, [], END_SIGNATURE);
    FieldReads(f, 1, [], 0);
    FieldReads(f, 2, [], 0);
    FieldReads(f, 3, [], count);
    FieldReads(f, 4, [], count);
    FieldReads(f, 5, [], centralSize);
    FieldReads(f, 6, [], centralStart);
    FieldReads(f, 7, [], 0);
  }

  lemma EndWidths(count: nat, centralSize: nat, centralStart: nat)
    ensures var f := EndFields(count, centralSize, centralStart);
            && |f[0]| == 4 && |f[1]| == 2 && |f[2]| == 2 && |f[3]| == 2 && |f[4]| == 2 && |f[5]| == 4 && |f[6]| == 4 && |f[7]| == 2
  {
    hide U16, U32;
  }

  // ---------- The archive

  lemma PartIn(b: Bytes, pre: Bytes, mid: Bytes, post: Bytes, from: nat, to: nat)
    requires b == pre + mid + post && from <= to <= |mid|
    ensures b[|pre| + from..|pre| + to] == mid[from..to]
  {
  }

  /** Words are read the same from a part as from the whole it lies in. */
  lemma WordsIn(b: Bytes, pre: Bytes, mid: Bytes, post: Bytes)
    requires b == pre + mid + post
    ensures forall o: nat, p: nat :: o + 2 <= |mid| && p == |pre| + o ==> Word16(b, p) == Word16(mid, o)
    ensures forall o: nat, p: nat :: o + 4 <= |mid| && p == |pre| + o ==> Word32(b, p) == Word32(mid, o)
  {
    forall o: nat, p: nat | o + 2 <= |mid| && p == |pre| + o ensures Word16(b, p) == Word16(mid, o) {
      PartIn(b, pre, mid, post, o, o + 2);
    }
  }

  lemma LocalRecordInside(b: Bytes, pre: Bytes, mid: Bytes, post: Bytes, file: File)
    requires b == pre + mid + post && IsLocalRecord(mid, 0, file)
    ensures IsLocalRecord(b, |pre|, file)
  {
    hide Word16, Word32, Crc;
    var n, size := |file.path|, |file.content|;
    WordsIn(b, pre, mid, post);
    PartIn(b, pre, mid, post, 30, 30 + n);
    PartIn(b, pre, mid, post, 30 + n, 30 + n + size);
  }

  lemma CentralRecordInside(b: Bytes, pre: Bytes, mid: Bytes, post: Bytes, file: File, localStart: nat)
    requires b == pre + mid + post && IsCentralRecord(mid, 0, file, localStart)
    ensures IsCentralRecord(b, |pre|, file, localStart)
  {
    hide Word16, Word32, Crc;
    WordsIn(b, pre, mid, post);
    PartIn(b, pre, mid, post, 46, 46 + |file.path|);
  }

  lemma EndRecordInside(b: Bytes, pre: Bytes, mid: Bytes, count: nat, centralSize: nat, centralStart: nat)
    requires b == pre + mid + [] && IsEndRecord(mid, 0, count, centralSize, centralStart)
    ensures IsEndRecord(b, |pre|, count, centralSize, centralStart)
  {
    hide Word16, Word32;
    WordsIn(b, pre, mid, []);
  }

  /** A complete archive of `files`: both records of every file and the end record, each where it belongs. */
  ghost predicate IsArchiveOf(b: Bytes, files: seq<File>) {
    && (forall i: nat :: i < |files| ==> IsLocalRecord(b, LocalStart(files, i), files[i]))
    && (forall i: nat :: i < |files| ==> IsCentralRecord(b, CentralStart(files, i), files[i], LocalStart(files, i)))
    && IsEndRecord(b, CentralStart(files, |files|), |files|, DirectorySize(files, |files|), LocalStart(files, |files|))
  }

  /**
    Every field of a written archive. In particular the words at 14 in the local record and at 16 in the
    central record of each file are the CRC-32 of its content.
  */
  lemma ArchiveIsComplete(files: seq<File>)
    ensures IsArchiveOf(Zip(files), files)
  {
    hide IsLocalRecord, IsCentralRecord, IsEndRecord, Zip, CentralStart, LocalStart, DirectorySize;
    forall i: nat | i < |files|
      ensures IsLocalRecord(Zip(files), LocalStart(files, i), files[i])
      ensures IsCentralRecord(Zip(files), CentralStart(files, i), files[i], LocalStart(files, i))
    {
      RecordsOf(files, i);
    }
    EndOf(files);
  }

  lemma RecordsOf(files: seq<File>, i: nat)
    requires i < |files|
    ensures IsLocalRecord(Zip(files), LocalStart(files, i), files[i])
    ensures IsCentralRecord(Zip(files), CentralStart(files, i), files[i], LocalStart(files, i))
  {
    hide IsLocalRecord, IsCentralRecord, Zip, LocalSection, CentralSection, LocalHeader, CentralHeader;
    LocalStartIsLength(files, i);
    CentralStartIsOffset(files, i);
    var behind := LocalRecordAt(files, i);
    LocalFieldsRead(files[i]);
    LocalRecordInside(Zip(files), LocalSection(files[..i]), LocalHeader(files[i]) + files[i].content, behind, files[i]);
    behind := CentralRecordAt(files, i);
    CentralFieldsRead(files[i], LocalStart(files, i));
    CentralRecordInside(Zip(files), LocalSection(files) + CentralSection(files[..i]), CentralHeader(files[i], LocalStart(files, i)),
                        behind, files[i], LocalStart(files, i));
  }

  lemma EndOf(files: seq<File>)
    ensures IsEndRecord(Zip(files), CentralStart(files, |files|), |files|, DirectorySize(files, |files|), LocalStart(files, |files|))
  {
    hide IsEndRecord, LocalSection, CentralSection, EndRecord;
    LocalStartIsLength(files, |files|);
    CentralStartIsOffset(files, 0);
    CentralStartIsOffset(files, |files|);
    assert files[..|files|] == files && files[..0] == [];
    EmptySections();
    var pre := LocalSection(files) + CentralSection(files);
    EndFieldsRead(|files|, |CentralSection(files)|, |LocalSection(files)|);
    assert Zip(files) == pre + EndRecord(|files|, |CentralSection(files)|, |LocalSection(files)|) + [];
    EndRecordInside(Zip(files), pre, EndRecord(|files|, |CentralSection(files)|, |LocalSection(files)|),
                    |files|, |CentralSection(files)|, |LocalSection(files)|);
  }

  method CreateZip(files: seq<File>) returns (archive: array<Byte>)
    ensures archive[..] == Zip(files) && IsArchiveOf(archive[..], files)
  {
    hide Flatten, LocalHeader, CentralHeader, EndRecord, Checksum, IsArchiveOf;
    ArchiveIsComplete(files);
    var localParts: seq<Bytes>, centralParts: seq<Bytes> := [], [];
    var offset := 0;
    FlattenNothing();
    for i := 0 to |files|
      invariant Flatten(localParts) == LocalSection(files[..i]) && offset == |LocalSection(files[..i])|
      invariant Flatten(centralParts) == CentralSection(files[..i])
    {
      var bits := ComputeCrc32(AsBits(files[i].content));
      ChecksumIs(files[i].content);
      var localHeader := WriteLocalHeader(files[i], bits as nat);
      var centralHeader := WriteCentralHeader(files[i], bits as nat, offset);
      SectionsGrow(files, i);
      FlattenPush(localParts, localHeader[..]);
      FlattenPush(localParts + [localHeader[..]], files[i].content);
      FlattenPush(centralParts, centralHeader[..]);
      localParts := localParts + [localHeader[..]] + [files[i].content];
      centralParts := centralParts + [centralHeader[..]];
      offset := offset + localHeader.Length + |files[i].content|;
    }
    assert files[..|files|] == files;
    var end := WriteEndRecord(|files|, TotalLength(centralParts), offset);
    FlattenAppend(localParts, centralParts);
    FlattenPush(localParts + centralParts, end[..]);
    archive := ConcatUint8Arrays(localParts + centralParts + [end[..]]);
  }
}
