/**
  The reader on archives of any origin, with extra fields, comments and compressed entries: exactly which
  bytes it reads as an archive, and what it makes of them.
  Source: frontend/src/utils/antennaImport.js
*/
module ZipReader {
  import opened Wrappers
  import opened ZipFormat
  import opened ZipArchive
  import opened ZipFields

  /** One entry as its central record tells it, with its name and its stored bytes. */
  datatype Entry = Entry(path: Bytes, data: Bytes, zipMethod: nat, size: nat, nameLength: nat, extraLength: nat,
                         commentLength: nat, localStart: nat)

  /** `part` is what lies at `start`, up to `length` bytes, or fewer where the bytes end before. */
  predicate IsPart(b: Bytes, start: nat, length: nat, part: Bytes) {
    && |part| <= length && (part != [] ==> start + |part| <= |b|)
    && (|part| < length ==> start + |part| >= |b|)
    && forall k :: 0 <= k < |part| ==> part[k] == b[start + k]
  }

  /** The central record at `o`. */
  predicate IsCentral(b: Bytes, o: nat, e: Entry) {
    && o + 46 <= |b| && Word32(b, o) == 0x0201_4B50
    && Word16(b, o + 10) == e.zipMethod && Word32(b, o + 20) == e.size
    && Word16(b, o + 28) == e.nameLength && Word16(b, o + 30) == e.extraLength && Word16(b, o + 32) == e.commentLength
    && Word32(b, o + 42) == e.localStart
    && IsPart(b, o + 46, e.nameLength, e.path)
  }

  /** The local record: its own name and extra field, whose lengths may differ from the central ones, lie before the data. */
  predicate IsLocal(b: Bytes, e: Entry) {
    var o := e.localStart;
    && o + 30 <= |b| && Word32(b, o) == 0x0403_4B50
    && IsPart(b, o + 30 + Word16(b, o + 26) + Word16(b, o + 28), e.size, e.data)
  }

  /** The directory at `o`: each record starts where the name, extra field and comment of the one before end. */
  predicate IsDirectory(b: Bytes, o: nat, entries: seq<Entry>)
    decreases |entries|
  {
    entries == [] ||
    (&& IsCentral(b, o, entries[0]) && IsLocal(b, entries[0])
     && IsDirectory(b, o + 46 + entries[0].nameLength + entries[0].extraLength + entries[0].commentLength, entries[1..]))
  }

  /** Stored entries are their data, deflated ones what decompression makes of it. */
  function ContentOf(e: Entry, inflate: Inflater): Result<Bytes, ZipError> {
    if e.zipMethod == 0 then Ok(e.data) else if e.zipMethod == 8 then inflate(e.data) else Err(UnsupportedMethod)
  }

  /** All entries, later ones in place of earlier ones with the same normalised path; the first content that fails decides. */
  function Extracted(entries: seq<Entry>, found: Entries, inflate: Inflater): Result<Entries, ZipError> {
    if entries == [] then Ok(found)
    else
      match ContentOf(entries[0], inflate)
      case Err(e) => Err(e)
      case Ok(content) => Extracted(entries[1..], found[ReplaceBackslashes(entries[0].path) := content], inflate)
  }

  /** The last end record is at `end`, and the directory it points to holds as many entries as it counts. */
  predicate IsArchive(b: Bytes, end: nat, entries: seq<Entry>) {
    && end + 22 <= |b| && Word32(b, end) == 0x0605_4B50
    && (forall later :: end < later <= |b| - 22 ==> Word32(b, later) != 0x0605_4B50)
    && Word16(b, end + 10) == |entries| && IsDirectory(b, Word32(b, end + 16), entries)
  }

  // ---------- Reading

  lemma PartIsSlice(b: Bytes, start: nat, length: nat, part: Bytes)
    ensures IsPart(b, start, length, part) <==> part == Slice(b, start, start + length)
  {
    var slice := Slice(b, start, start + length);
    assert forall k :: 0 <= k < |slice| ==> slice[k] == b[start + k];
    if IsPart(b, start, length, part) {
      assert |part| == |slice|;
      assert forall k :: 0 <= k < |part| ==> part[k] == slice[k];
    }
  }

  lemma CentralIsRead(b: Bytes, o: nat, e: Entry)
    ensures IsCentral(b, o, e)
       <==> && ReadCentral(b, o) == Ok(Central(e.zipMethod, e.size, e.nameLength, e.extraLength, e.commentLength, e.localStart))
            && e.path == Slice(b, o + 46, o + 46 + e.nameLength)
  {
    hide Get16, Get32, Word16, Word32, Slice, IsPart;
    WordsAreFields(b, o);
    WordsAreFields(b, o + 10);
    WordsAreFields(b, o + 20);
    WordsAreFields(b, o + 28);
    WordsAreFields(b, o + 30);
    WordsAreFields(b, o + 32);
    WordsAreFields(b, o + 42);
    PartIsSlice(b, o + 46, e.nameLength, e.path);
  }

  lemma LocalIsRead(b: Bytes, e: Entry, inflate: Inflater)
    requires IsLocal(b, e)
    ensures ReadZipEntry(b, e.localStart, e.size, e.zipMethod, inflate) == ContentOf(e, inflate)
  {
    hide Get16, Get32, Word16, Word32, Slice, IsPart;
    var o := e.localStart;
    WordsAreFields(b, o);
    WordsAreFields(b, o + 26);
    WordsAreFields(b, o + 28);
    PartIsSlice(b, o + 30 + Word16(b, o + 26) + Word16(b, o + 28), e.size, e.data);
  }

  lemma {:induction false} DirectoryIsRead(b: Bytes, o: nat, entries: seq<Entry>, found: Entries, inflate: Inflater)
    requires IsDirectory(b, o, entries)
    ensures ReadEntries(b, o, |entries|, found, inflate) == Extracted(entries, found, inflate)
    decreases |entries|
  {
    hide ReadCentral, ReadZipEntry, IsCentral, IsLocal, Slice, ReplaceBackslashes, ContentOf;
    if entries != [] {
      var e := entries[0];
      CentralIsRead(b, o, e);
      LocalIsRead(b, e, inflate);
      if ContentOf(e, inflate).Ok? {
        DirectoryIsRead(b, o + 46 + e.nameLength + e.extraLength + e.commentLength, entries[1..],
                        found[ReplaceBackslashes(e.path) := ContentOf(e, inflate).value], inflate);
      }
    }
  }

  lemma LocalOf(b: Bytes, o: nat, size: nat, zipMethod: nat, inflate: Inflater) returns (data: Bytes)
    requires ReadZipEntry(b, o, size, zipMethod, inflate).Ok?
    ensures o + 30 <= |b| && Word32(b, o) == 0x0403_4B50
    ensures IsPart(b, o + 30 + Word16(b, o + 26) + Word16(b, o + 28), size, data)
  {
    hide Get16, Get32, Word16, Word32, Slice, IsPart;
    WordsAreFields(b, o);
    WordsAreFields(b, o + 26);
    WordsAreFields(b, o + 28);
    var start := o + 30 + Word16(b, o + 26) + Word16(b, o + 28);
    data := Slice(b, start, start + size);
    PartIsSlice(b, start, size, data);
  }

  /** Whatever the reader accepts is a directory. */
  lemma {:induction false} DirectoryOf(b: Bytes, o: nat, left: nat, found: Entries, inflate: Inflater) returns (entries: seq<Entry>)
    requires ReadEntries(b, o, left, found, inflate).Ok?
    ensures |entries| == left && IsDirectory(b, o, entries)
    decreases left
  {
    hide ReadCentral, ReadZipEntry, IsCentral, IsLocal, Slice, ReplaceBackslashes;
    entries := [];
    if left > 0 {
      var e := FirstEntry(b, o, left, found, inflate);
      var content := ReadZipEntry(b, e.localStart, e.size, e.zipMethod, inflate).value;
      var rest := DirectoryOf(b, o + 46 + e.nameLength + e.extraLength + e.commentLength, left - 1,
                              found[ReplaceBackslashes(e.path) := content], inflate);
      entries := [e] + rest;
      assert entries[1..] == rest;
    }
  }

  lemma FirstEntry(b: Bytes, o: nat, left: nat, found: Entries, inflate: Inflater) returns (e: Entry)
    requires left > 0 && ReadEntries(b, o, left, found, inflate).Ok?
    ensures IsCentral(b, o, e) && IsLocal(b, e) && ReadZipEntry(b, e.localStart, e.size, e.zipMethod, inflate).Ok?
    ensures ReadEntries(b, o + 46 + e.nameLength + e.extraLength + e.commentLength, left - 1,
              found[ReplaceBackslashes(e.path) := ReadZipEntry(b, e.localStart, e.size, e.zipMethod, inflate).value], inflate).Ok?
  {
    hide ReadCentral, ReadZipEntry, IsCentral, Slice, ReplaceBackslashes, IsPart;
    var c := ReadCentral(b, o).value;
    var data := LocalOf(b, c.localOffset, c.size, c.zipMethod, inflate);
    e := Entry(Slice(b, o + 46, o + 46 + c.nameLength), data, c.zipMethod, c.size, c.nameLength, c.extraLength, c.commentLength, c.localOffset);
    CentralIsRead(b, o, e);
  }

  lemma EndIsFound(b: Bytes, end: nat)
    ensures EndFrom(b, |b| - 22) == Ok(end)
       <==> && end + 22 <= |b| && Word32(b, end) == 0x0605_4B50
            && forall later :: end < later <= |b| - 22 ==> Word32(b, later) != 0x0605_4B50
  {
    hide Get16, Get32, Word16, Word32;
    forall k: nat ensures k + 4 <= |b| ==> Word32(b, k) == Get32(b, k) {
      WordsAreFields(b, k);
    }
  }

  /** Reading an archive gives its entries, whatever extra fields, comments and gaps it has. */
  lemma ArchivesAreRead(b: Bytes, end: nat, entries: seq<Entry>, inflate: Inflater)
    requires IsArchive(b, end, entries)
    ensures Unzip(b, inflate) == Extracted(entries, map[], inflate)
  {
    hide EndFrom, ReadEntries, Get16, Get32, Word16, Word32, IsDirectory;
    EndIsFound(b, end);
    WordsAreFields(b, end + 10);
    WordsAreFields(b, end + 16);
    DirectoryIsRead(b, Word32(b, end + 16), entries, map[], inflate);
  }

  ghost predicate ReadsAs(b: Bytes, inflate: Inflater, result: Entries) {
    exists end, entries :: IsArchive(b, end, entries) && Extracted(entries, map[], inflate) == Ok(result)
  }

  /** The reader succeeds on exactly the archives whose contents can be extracted, and returns what they hold. */
  lemma ReadsExactlyArchives(b: Bytes, inflate: Inflater, result: Entries)
    ensures Unzip(b, inflate) == Ok(result) <==> ReadsAs(b, inflate, result)
  {
    hide EndFrom, ReadEntries, Get16, Get32, Word16, Word32, IsDirectory, Extracted;
    if Unzip(b, inflate) == Ok(result) {
      var end := EndFrom(b, |b| - 22).value;
      EndIsFound(b, end);
      WordsAreFields(b, end + 10);
      WordsAreFields(b, end + 16);
      var entries := DirectoryOf(b, Word32(b, end + 16), Word16(b, end + 10), map[], inflate);
      assert IsArchive(b, end, entries);
      ArchivesAreRead(b, end, entries, inflate);
    }
    if ReadsAs(b, inflate, result) {
      var end, entries :| IsArchive(b, end, entries) && Extracted(entries, map[], inflate) == Ok(result);
      ArchivesAreRead(b, end, entries, inflate);
    }
  }
}
