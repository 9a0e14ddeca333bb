/**
  Reading back what the writer wrote: every entry, by its normalised path,
  with its exact content.
  Source: frontend/src/utils/antennaTemplate.js, frontend/src/utils/antennaImport.js
*/
module ZipRoundTrip {
  import opened Wrappers
  import opened ZipFormat
  import opened ZipArchive

  /** All sizes but the number of files fit the fields that record them. */
  predicate SizesFit(files: seq<File>) {
    && |LocalSection(files)| < 0x1_0000_0000
    && forall i :: 0 <= i < |files| ==> |files[i].path| < 0x1_0000 && |files[i].content| < 0x1_0000_0000
  }

  /** The number of files fits its field as well. */
  predicate Fits(files: seq<File>) {
    SizesFit(files) && |files| < 0x1_0000
  }

  /** What a reader's map holds after all files: later entries replace earlier ones of the same path. */
  function LastWins(files: seq<File>): Entries {
    if files == [] then map[]
    else
      var last := files[|files| - 1];
      LastWins(files[..|files| - 1])[ReplaceBackslashes(last.path) := last.content]
  }

  // ---------- Where the records lie

  lemma {:induction false} LocalPrefix(files: seq<File>, i: nat)
    requires i <= |files|
    ensures LocalSection(files[..i]) <= LocalSection(files)
    decreases |files|
  {
    if i < |files| {
      var rest := files[..|files| - 1];
      assert rest[..i] == files[..i];
      LocalPrefix(rest, i);
    } else {
      assert files[..i] == files;
    }
  }

  lemma {:induction false} CentralPrefix(files: seq<File>, i: nat)
    requires i <= |files|
    ensures CentralSection(files[..i]) <= CentralSection(files)
    decreases |files|
  {
    if i < |files| {
      var rest := files[..|files| - 1];
      assert rest[..i] == files[..i];
      CentralPrefix(rest, i);
    } else {
      assert files[..i] == files;
    }
  }

  function ArchiveTail(files: seq<File>): Bytes {
    CentralSection(files) + EndRecord(|files|, |CentralSection(files)|, |LocalSection(files)|)
  }

  lemma ZipIsSectionsThenTail(files: seq<File>)
    ensures Zip(files) == LocalSection(files) + ArchiveTail(files)
  {
    hide LocalSection, CentralSection, EndRecord;
  }

  /** File `i`'s local record stands at the length of the local records before it. */
  lemma LocalRecordAt(files: seq<File>, i: nat) returns (post: Bytes)
    requires i < |files|
    ensures Zip(files) == LocalSection(files[..i]) + (LocalHeader(files[i]) + files[i].content) + post
  {
    hide LocalSection, Zip, ArchiveTail, LocalHeader;
    LocalPrefix(files, i + 1);
    SectionsGrow(files, i);
    ZipIsSectionsThenTail(files);
    post := RecordInside(Zip(files), LocalSection(files), ArchiveTail(files),
                         LocalSection(files[..i]), LocalHeader(files[i]), files[i].content);
  }

  lemma RecordInside(zip: Bytes, whole: Bytes, tail: Bytes, pre: Bytes, header: Bytes, content: Bytes) returns (post: Bytes)
    requires zip == whole + tail && pre + header + content <= whole
    ensures zip == pre + (header + content) + post
  {
    var here := pre + header + content;
    post := whole[|here|..] + tail;
    assert whole == here + whole[|here|..];
    assert here == pre + (header + content);
  }

  /** File `i`'s central record stands behind all local records and the central records before it. */
  lemma CentralRecordAt(files: seq<File>, i: nat) returns (post: Bytes)
    requires i < |files|
    ensures Zip(files) == (LocalSection(files) + CentralSection(files[..i]))
                          + CentralHeader(files[i], |LocalSection(files[..i])|) + post
  {
    hide LocalSection, CentralSection, CentralHeader, EndRecord;
    CentralPrefix(files, i + 1);
    SectionsGrow(files, i);
    post := Zip(files)[|LocalSection(files)| + |CentralSection(files[..i + 1])|..];
    assert Zip(files) == LocalSection(files) + CentralSection(files[..i + 1]) + post;
  }

  // ---------- Reading one record

  lemma LocalHeaderReads(file: File)
    ensures var h := LocalHeader(file);
            && |h| == 30 + |file.path|
            && Get32(h, 0) == LOCAL_SIGNATURE
            && Get16(h, 26) == |file.path| % 0x1_0000 && Get16(h, 28) == 0
  {
    hide Get16, Get32, U16, U32, OffsetOf, Flatten, Checksum;
    var f := LocalFields(file);
    LocalLayout(file);
    FieldAt(f, 0, file.path);
    FieldAt(f, 9, file.path);
    FieldAt(f, 10, file.path);
    Get32Back(LOCAL_SIGNATURE);
    Get16Back(|file.path|);
    Get16Back(0);
  }

  lemma CentralHeaderReads(file: File, localOffset: nat)
    ensures var h := CentralHeader(file, localOffset);
            && |h| == 46 + |file.path|
            && Get32(h, 0) == CENTRAL_SIGNATURE && Get16(h, 10) == 0
            && Get32(h, 20) == |file.content| % 0x1_0000_0000
            && Get16(h, 28) == |file.path| % 0x1_0000 && Get16(h, 30) == 0 && Get16(h, 32) == 0
            && Get32(h, 42) == localOffset % 0x1_0000_0000
  {
    hide Get16, Get32, U16, U32, OffsetOf, Flatten, Checksum;
    var f := CentralFields(file, localOffset);
    CentralLayout(file, localOffset);
    FieldAt(f, 0, file.path);
    FieldAt(f, 4, file.path);
    FieldAt(f, 8, file.path);
    FieldAt(f, 10, file.path);
    FieldAt(f, 11, file.path);
    FieldAt(f, 12, file.path);
    FieldAt(f, 16, file.path);
    Get32Back(CENTRAL_SIGNATURE);
    Get32Back(|file.content|);
    Get32Back(localOffset);
    Get16Back(|file.path|);
    Get16Back(0);
  }

  lemma EndRecordReads(count: nat, centralSize: nat, centralOffset: nat)
    ensures var e := EndRecord(count, centralSize, centralOffset);
            && |e| == 22 && Get32(e, 0) == END_SIGNATURE
            && Get16(e, 10) == count % 0x1_0000 && Get32(e, 16) == centralOffset % 0x1_0000_0000
  {
    hide Get16, Get32, U16, U32, OffsetOf, Flatten;
    var f := EndFields(count, centralSize, centralOffset);
    EndLayout(count, centralSize, centralOffset);
    assert Flatten(f) + [] == Flatten(f);
    FieldAt(f, 0, []);
    FieldAt(f, 4, []);
    FieldAt(f, 6, []);
    Get32Back(END_SIGNATURE);
    Get32Back(centralOffset);
    Get16Back(count);
  }

  lemma SliceInside(pre: Bytes, head: Bytes, mid: Bytes, post: Bytes)
    ensures Slice(pre + (head + mid) + post, |pre| + |head|, |pre| + |head| + |mid|) == mid
  {
  }

  lemma EntryReadsBack(files: seq<File>, i: nat, inflate: Inflater)
    requires SizesFit(files) && i < |files|
    ensures ReadZipEntry(Zip(files), |LocalSection(files[..i])|, |files[i].content|, 0, inflate) == Ok(files[i].content)
  {
    hide LocalSection, Zip, Get16, Get32, LocalHeader, Slice;
    var pre, file := LocalSection(files[..i]), files[i];
    var post := LocalRecordAt(files, i);
    var h := LocalHeader(file);
    LocalHeaderReads(file);
    assert pre + (h + file.content) + post == pre + h + (file.content + post);
    GetInside(pre, h, file.content + post, 0);
    GetInside(pre, h, file.content + post, 26);
    GetInside(pre, h, file.content + post, 28);
    SliceInside(pre, h, file.content, post);
  }

  lemma CentralReadInside(pre: Bytes, h: Bytes, post: Bytes)
    requires |h| >= 46 && Get32(h, 0) == CENTRAL_SIGNATURE
    ensures ReadCentral(pre + h + post, |pre|) ==
            Ok(Central(Get16(h, 10), Get32(h, 20), Get16(h, 28), Get16(h, 30), Get16(h, 32), Get32(h, 42)))
  {
    hide Get16, Get32;
    GetInside(pre, h, post, 0);
    GetInside(pre, h, post, 10);
    GetInside(pre, h, post, 20);
    GetInside(pre, h, post, 28);
    GetInside(pre, h, post, 30);
    GetInside(pre, h, post, 32);
    GetInside(pre, h, post, 42);
  }

  lemma CentralReadsBack(files: seq<File>, i: nat)
    requires SizesFit(files) && i < |files|
    ensures var offset := |LocalSection(files)| + |CentralSection(files[..i])|;
            && ReadCentral(Zip(files), offset) ==
               Ok(Central(0, |files[i].content|, |files[i].path|, 0, 0, |LocalSection(files[..i])|))
            && Slice(Zip(files), offset + 46, offset + 46 + |files[i].path|) == files[i].path
  {
    hide LocalSection, CentralSection, Zip, Get16, Get32, Slice, CentralHeader, ReadCentral;
    var file, localOffset := files[i], |LocalSection(files[..i])|;
    var pre := LocalSection(files) + CentralSection(files[..i]);
    var post := CentralRecordAt(files, i);
    LocalPrefix(files, i);
    CentralHeaderReads(file, localOffset);
    CentralReadInside(pre, CentralHeader(file, localOffset), post);
    PathBehindHeader(pre, file, localOffset, post);
  }

  lemma PathBehindHeader(pre: Bytes, file: File, localOffset: nat, post: Bytes)
    ensures Slice(pre + CentralHeader(file, localOffset) + post, |pre| + 46, |pre| + 46 + |file.path|) == file.path
  {
    hide Slice, OffsetOf;
    CentralLayout(file, localOffset);
    SliceInside(pre, Flatten(CentralFields(file, localOffset)), file.path, post);
  }

  // ---------- Reading all records

  lemma OneEntryRead(bytes: Bytes, offset: nat, left: nat, entries: Entries, inflate: Inflater,
                     path: Bytes, content: Bytes, localOffset: nat)
    requires left > 0
    requires ReadCentral(bytes, offset) == Ok(Central(0, |content|, |path|, 0, 0, localOffset))
    requires Slice(bytes, offset + 46, offset + 46 + |path|) == path
    requires ReadZipEntry(bytes, localOffset, |content|, 0, inflate) == Ok(content)
    ensures ReadEntries(bytes, offset, left, entries, inflate) ==
            ReadEntries(bytes, offset + 46 + |path|, left - 1, entries[ReplaceBackslashes(path) := content], inflate)
  {
    hide ReadCentral, ReadZipEntry, Slice, ReplaceBackslashes;
  }

  function CentralOffset(files: seq<File>, i: nat): nat
    requires i <= |files|
  {
    |LocalSection(files)| + |CentralSection(files[..i])|
  }

  lemma NextEntryRead(files: seq<File>, i: nat, left: nat, inflate: Inflater)
    requires SizesFit(files) && i < |files| && left > 0
    ensures ReadEntries(Zip(files), CentralOffset(files, i), left, LastWins(files[..i]), inflate)
         == ReadEntries(Zip(files), CentralOffset(files, i + 1), left - 1, LastWins(files[..i + 1]), inflate)
  {
    hide LocalSection, CentralSection, Zip, ReadCentral, ReadZipEntry, Slice, ReadEntries, ReplaceBackslashes, LastWins, SizesFit;
    var file := files[i];
    CentralReadsBack(files, i);
    EntryReadsBack(files, i, inflate);
    OneEntryRead(Zip(files), CentralOffset(files, i), left, LastWins(files[..i]), inflate,
                 file.path, file.content, |LocalSection(files[..i])|);
    LastWinsStep(files, i);
    NextOffset(files, i);
  }

  lemma NextOffset(files: seq<File>, i: nat)
    requires i < |files|
    ensures CentralOffset(files, i + 1) == CentralOffset(files, i) + 46 + |files[i].path|
  {
    hide LocalSection, CentralSection, CentralHeader;
    CentralHeaderReads(files[i], |LocalSection(files[..i])|);
    SectionsGrow(files, i);
  }

  /** Reading stops after `n` records, however many follow. */
  lemma {:induction false} EntriesReadBack(files: seq<File>, i: nat, n: nat, inflate: Inflater)
    requires SizesFit(files) && i <= n <= |files|
    ensures ReadEntries(Zip(files), CentralOffset(files, i), n - i, LastWins(files[..i]), inflate) == Ok(LastWins(files[..n]))
    decreases n - i
  {
    hide Zip, ReadEntries, LastWins, SizesFit, CentralOffset;
    if i == n {
      NoEntriesLeft(Zip(files), CentralOffset(files, i), LastWins(files[..n]), inflate);
    } else {
      NextEntryRead(files, i, n - i, inflate);
      EntriesReadBack(files, i + 1, n, inflate);
    }
  }

  lemma LastWinsStep(files: seq<File>, i: nat)
    requires i < |files|
    ensures LastWins(files[..i + 1]) == LastWins(files[..i])[ReplaceBackslashes(files[i].path) := files[i].content]
  {
    hide ReplaceBackslashes;
    assert files[..i + 1][..i] == files[..i];
  }

  lemma NoEntriesLeft(bytes: Bytes, offset: nat, entries: Entries, inflate: Inflater)
    ensures ReadEntries(bytes, offset, 0, entries, inflate) == Ok(entries)
  {
  }

  /** The files that the 16 bits of the count field can tell of. */
  function Counted(files: seq<File>): (r: seq<File>)
    ensures |r| < 0x1_0000 && (|files| < 0x1_0000 ==> r == files)
  {
    files[..|files| % 0x1_0000]
  }

  /**
    What reading a written archive gives, for every list of files whose sizes fit: as many files as the
    count field can tell, the number of files modulo 65536, by their normalised paths.
  */
  lemma UnzipReadsWhatIsCounted(files: seq<File>, inflate: Inflater)
    requires SizesFit(files)
    ensures Unzip(Zip(files), inflate) == Ok(LastWins(Counted(files)))
  {
    hide LocalSection, CentralSection, EndRecord, ReadEntries, Get16, Get32;
    var pre := LocalSection(files) + CentralSection(files);
    var end := EndRecord(|files|, |CentralSection(files)|, |LocalSection(files)|);
    EndRecordReads(|files|, |CentralSection(files)|, |LocalSection(files)|);
    assert Zip(files) == pre + end + [];
    GetInside(pre, end, [], 0);
    GetInside(pre, end, [], 10);
    GetInside(pre, end, [], 16);
    EmptySections();
    assert files[..0] == [];
    EntriesReadBack(files, 0, |files| % 0x1_0000, inflate);
  }

  /**
    The round trip: for every list of files whose sizes and number fit their fields, reading the written
    archive yields exactly the map of normalised paths to contents, whatever decompressor is installed.
  */
  lemma UnzipReadsWhatZipWrote(files: seq<File>, inflate: Inflater)
    requires Fits(files)
    ensures Unzip(Zip(files), inflate) == Ok(LastWins(files))
  {
    hide Unzip, Zip, LastWins, SizesFit;
    UnzipReadsWhatIsCounted(files, inflate);
  }

  lemma EmptySections()
    ensures CentralSection([]) == [] && LastWins([]) == map[]
  {
  }

  // ---------- Distinct paths

  predicate DistinctPlainPaths(files: seq<File>) {
    && (forall i, j :: 0 <= i < j < |files| ==> files[i].path != files[j].path)
    && (forall i :: 0 <= i < |files| ==> 0x5C !in files[i].path)
  }

  lemma PlainPathKept(path: Bytes)
    requires 0x5C !in path
    ensures ReplaceBackslashes(path) == path
  {
    forall i | 0 <= i < |path| ensures path[i] != 0x5C {
      assert path[i] in path;
    }
  }

  ghost predicate HoldsExactly(entries: Entries, files: seq<File>) {
    && |entries| == |files|
    && (forall i :: 0 <= i < |files| ==> files[i].path in entries && entries[files[i].path] == files[i].content)
    && (forall p :: p in entries ==> exists i :: 0 <= i < |files| && files[i].path == p)
  }

  lemma {:induction false} LastWinsIsExact(files: seq<File>)
    requires DistinctPlainPaths(files)
    ensures HoldsExactly(LastWins(files), files)
  {
    hide ReplaceBackslashes, HoldsExactly, LastWins;
    if files == [] {
      EmptySections();
      NothingHeld();
    } else {
      var rest, last := files[..|files| - 1], files[|files| - 1];
      LastWinsIsExact(rest);
      PlainPathKept(last.path);
      HoldsOneMore(LastWins(rest), rest, last);
      LastWinsStep(files, |rest|);
      assert files == rest + [last] == files[..|rest| + 1];
    }
  }

  lemma NothingHeld()
    ensures HoldsExactly(map[], [])
  {
  }

  lemma HoldsOneMore(entries: Entries, rest: seq<File>, last: File)
    requires HoldsExactly(entries, rest) && forall i :: 0 <= i < |rest| ==> rest[i].path != last.path
    ensures HoldsExactly(entries[last.path := last.content], rest + [last])
  {
    var files := rest + [last];
    var more := entries[last.path := last.content];
    assert last.path !in entries;
    forall p | p in more ensures exists i :: 0 <= i < |files| && files[i].path == p {
      if p == last.path {
        assert files[|rest|].path == p;
      } else {
        var i :| 0 <= i < |rest| && rest[i].path == p;
        assert files[i].path == p;
      }
    }
  }

  /** With distinct, backslash-free paths the reader recovers exactly the written path and content pairs. */
  lemma RoundTrip(files: seq<File>, inflate: Inflater)
    requires Fits(files) && DistinctPlainPaths(files)
    ensures Unzip(Zip(files), inflate).Ok? && HoldsExactly(Unzip(Zip(files), inflate).value, files)
  {
    hide Unzip, Zip;
    UnzipReadsWhatZipWrote(files, inflate);
    LastWinsIsExact(files);
  }

  /** The files that come back, for distinct and backslash-free paths: the written ones if and only if their number fits. */
  lemma RoundTripIffCountFits(files: seq<File>, inflate: Inflater)
    requires SizesFit(files) && DistinctPlainPaths(files)
    ensures Unzip(Zip(files), inflate).Ok?
    ensures HoldsExactly(Unzip(Zip(files), inflate).value, files) <==> |files| < 0x1_0000
  {
    hide Unzip, Zip, LastWins, SizesFit;
    UnzipReadsWhatIsCounted(files, inflate);
    LastWinsIsExact(Counted(files));
  }

  /** The count limit is real: 65536 files wrap the entry count to zero, and the reader finds nothing. */
  lemma CountWrapLosesEverything(files: seq<File>, inflate: Inflater)
    requires |files| == 0x1_0000
    ensures Unzip(Zip(files), inflate) == Ok(map[])
  {
    hide LocalSection, CentralSection, EndRecord, ReadEntries, Get16, Get32;
    var pre := LocalSection(files) + CentralSection(files);
    var end := EndRecord(|files|, |CentralSection(files)|, |LocalSection(files)|);
    EndRecordReads(|files|, |CentralSection(files)|, |LocalSection(files)|);
    assert Zip(files) == pre + end + [];
    GetInside(pre, end, [], 0);
    GetInside(pre, end, [], 10);
    GetInside(pre, end, [], 16);
    NoEntriesLeft(Zip(files), Get32(end, 16), map[], inflate);
  }
}
