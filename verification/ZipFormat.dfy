/**
  The byte layout of the workbook container: little-endian fields and the
  three records of sections 4.3.7, 4.3.12 and 4.3.16 of the PKWARE APPNOTE.
  Source: frontend/src/utils/antennaTemplate.js, frontend/src/utils/antennaImport.js
*/
module ZipFormat {
  import opened Arithmetic
  import opened Crc32

  type Byte = x: int | 0 <= x < 256

  type Bytes = seq<Byte>

  datatype File = File(path: Bytes, content: Bytes)

  const LOCAL_SIGNATURE := 0x0403_4B50
  const CENTRAL_SIGNATURE := 0x0201_4B50
  const END_SIGNATURE := 0x0605_4B50

  // ---------- Little-endian fields; DataView setters keep the low bits only

  function U16(n: nat): (b: Bytes)
    ensures |b| == 2 && b[0] == n % 0x100 && b[1] == (n / 0x100) % 0x100
  {
    [n % 0x100, (n / 0x100) % 0x100]
  }

  function U32(n: nat): (b: Bytes)
    ensures |b| == 4
  {
    U16(n % 0x1_0000) + U16(n / 0x1_0000)
  }

  function Get16(b: Bytes, offset: nat): nat
    requires offset + 2 <= |b|
  {
    var low: int, high: int := b[offset], b[offset + 1];
    low + 0x100 * high
  }

  function Get32(b: Bytes, offset: nat): nat
    requires offset + 4 <= |b|
  {
    Get16(b, offset) + 0x1_0000 * Get16(b, offset + 2)
  }

  lemma Get16Back(n: nat)
    ensures Get16(U16(n), 0) == n % 0x1_0000
  {
  }

  lemma Get32Back(n: nat)
    ensures Get32(U32(n), 0) == n % 0x1_0000_0000
  {
    var low, high := U16(n % 0x1_0000), U16(n / 0x1_0000);
    Get16Back(n % 0x1_0000);
    Get16Back(n / 0x1_0000);
    GetInside(low, high, [], 0);
    GetInside([], low, high, 0);
    hide U16, Get16;
    assert low + high + [] == U32(n) && [] + low + high == U32(n);
    ModProduct(n, 0x1_0000, 0x1_0000);
  }

  /** A field is read the same from a part as from the whole it lies in. */
  lemma GetInside(pre: Bytes, mid: Bytes, post: Bytes, offset: nat)
    ensures offset + 2 <= |mid| ==> Get16(pre + mid + post, |pre| + offset) == Get16(mid, offset)
    ensures offset + 4 <= |mid| ==> Get32(pre + mid + post, |pre| + offset) == Get32(mid, offset)
  {
    var whole := pre + mid + post;
    assert forall i :: 0 <= i < |mid| ==> whole[|pre| + i] == mid[i];
  }

  // ---------- Records as lists of fields

  /** The first `k` parts in one piece. */
  function Joined(parts: seq<Bytes>, k: nat): Bytes
    requires k <= |parts|
  {
    if k == 0 then [] else Joined(parts, k - 1) + parts[k - 1]
  }

  function Flatten(parts: seq<Bytes>): Bytes {
    Joined(parts, |parts|)
  }

  /** Where the `i`-th field of a record starts. */
  function OffsetOf(fields: seq<Bytes>, i: nat): nat
    requires i <= |fields|
  {
    if i == 0 then 0 else OffsetOf(fields, i - 1) + |fields[i - 1]|
  }

  lemma {:induction false} JoinedLength(fields: seq<Bytes>, i: nat)
    requires i <= |fields|
    ensures |Joined(fields, i)| == OffsetOf(fields, i)
  {
    if i > 0 {
      JoinedLength(fields, i - 1);
    }
  }

  lemma {:induction false} JoinedPrefix(fields: seq<Bytes>, i: nat, k: nat)
    requires i <= k <= |fields|
    ensures Joined(fields, i) <= Joined(fields, k)
    decreases k
  {
    if i < k {
      JoinedPrefix(fields, i, k - 1);
    }
  }

  lemma FieldSplit(fields: seq<Bytes>, i: nat, more: Bytes) returns (pre: Bytes, post: Bytes)
    requires i < |fields|
    ensures |pre| == OffsetOf(fields, i) && Flatten(fields) + more == pre + fields[i] + post
  {
    JoinedPrefix(fields, i + 1, |fields|);
    JoinedLength(fields, i);
    pre := Joined(fields, i);
    post := Flatten(fields)[|pre| + |fields[i]|..] + more;
  }

  /** Reading at a field's offset reads the field. */
  lemma FieldAt(fields: seq<Bytes>, i: nat, more: Bytes)
    requires i < |fields|
    ensures OffsetOf(fields, i) + |fields[i]| <= |Flatten(fields) + more|
    ensures |fields[i]| == 2 ==> Get16(Flatten(fields) + more, OffsetOf(fields, i)) == Get16(fields[i], 0)
    ensures |fields[i]| == 4 ==> Get32(Flatten(fields) + more, OffsetOf(fields, i)) == Get32(fields[i], 0)
  {
    hide Get16, Get32, Flatten, OffsetOf;
    var pre, post := FieldSplit(fields, i, more);
    GetInside(pre, fields[i], post, 0);
  }

  function AsBits(data: Bytes): seq<bv8> {
    seq(|data|, i requires 0 <= i < |data| => data[i] as bv8)
  }

  function Checksum(data: Bytes): nat {
    BitwiseCrc32(AsBits(data)) as nat
  }

  function LocalFields(file: File): seq<Bytes> {
    [U32(LOCAL_SIGNATURE), U16(20), U16(0), U16(0), U16(0), U16(0), U32(Checksum(file.content)),
     U32(|file.content|), U32(|file.content|), U16(|file.path|), U16(0)]
  }

  function CentralFields(file: File, localOffset: nat): seq<Bytes> {
    [U32(CENTRAL_SIGNATURE), U16(20), U16(20), U16(0), U16(0), U16(0), U16(0), U32(Checksum(file.content)),
     U32(|file.content|), U32(|file.content|), U16(|file.path|), U16(0), U16(0), U16(0), U16(0), U32(0),
     U32(localOffset)]
  }

  function EndFields(count: nat, centralSize: nat, centralOffset: nat): seq<Bytes> {
    [U32(END_SIGNATURE), U16(0), U16(0), U16(count), U16(count), U32(centralSize), U32(centralOffset), U16(0)]
  }

  /** The local header's layout: checksum at 14, sizes from 18, name length at 26, extra length at 28, 30 bytes in all. */
  lemma LocalLayout(file: File)
    ensures var f := LocalFields(file);
            && |Flatten(f)| == 30 && OffsetOf(f, 0) == 0 && OffsetOf(f, 1) == 4 && OffsetOf(f, 2) == 6 && OffsetOf(f, 3) == 8
            && OffsetOf(f, 4) == 10 && OffsetOf(f, 5) == 12 && OffsetOf(f, 6) == 14 && OffsetOf(f, 7) == 18 && OffsetOf(f, 8) == 22
            && OffsetOf(f, 9) == 26 && OffsetOf(f, 10) == 28
  {
    var f := LocalFields(file);
    assert OffsetOf(f, 1) == 4 && OffsetOf(f, 2) == 6 && OffsetOf(f, 3) == 8 && OffsetOf(f, 4) == 10;
    assert OffsetOf(f, 5) == 12 && OffsetOf(f, 6) == 14 && OffsetOf(f, 7) == 18 && OffsetOf(f, 8) == 22;
    assert OffsetOf(f, 9) == 26 && OffsetOf(f, 10) == 28 && OffsetOf(f, 11) == 30;
    JoinedLength(f, 11);
  }

  /**
    The central header's layout: method at 10, checksum at 16, sizes from 20, name, extra and comment
    lengths from 28, local offset at 42, 46 bytes in all.
  */
  lemma CentralLayout(file: File, localOffset: nat)
    ensures var f := CentralFields(file, localOffset);
            && |Flatten(f)| == 46 && OffsetOf(f, 0) == 0 && OffsetOf(f, 1) == 4 && OffsetOf(f, 2) == 6 && OffsetOf(f, 3) == 8
            && OffsetOf(f, 4) == 10 && OffsetOf(f, 5) == 12 && OffsetOf(f, 6) == 14 && OffsetOf(f, 7) == 16 && OffsetOf(f, 8) == 20
            && OffsetOf(f, 9) == 24 && OffsetOf(f, 10) == 28 && OffsetOf(f, 11) == 30 && OffsetOf(f, 12) == 32
            && OffsetOf(f, 13) == 34 && OffsetOf(f, 14) == 36 && OffsetOf(f, 15) == 38 && OffsetOf(f, 16) == 42
  {
    var f := CentralFields(file, localOffset);
    assert OffsetOf(f, 1) == 4 && OffsetOf(f, 2) == 6 && OffsetOf(f, 3) == 8 && OffsetOf(f, 4) == 10;
    assert OffsetOf(f, 5) == 12 && OffsetOf(f, 6) == 14 && OffsetOf(f, 7) == 16 && OffsetOf(f, 8) == 20;
    assert OffsetOf(f, 9) == 24 && OffsetOf(f, 10) == 28 && OffsetOf(f, 11) == 30 && OffsetOf(f, 12) == 32;
    assert OffsetOf(f, 13) == 34 && OffsetOf(f, 14) == 36 && OffsetOf(f, 15) == 38 && OffsetOf(f, 16) == 42;
    assert OffsetOf(f, 17) == 46;
    JoinedLength(f, 17);
  }

  /** The end record's layout: entry count at 10, central directory offset at 16, 22 bytes in all. */
  lemma EndLayout(count: nat, centralSize: nat, centralOffset: nat)
    ensures var f := EndFields(count, centralSize, centralOffset);
            && |Flatten(f)| == 22 && OffsetOf(f, 0) == 0 && OffsetOf(f, 1) == 4 && OffsetOf(f, 2) == 6 && OffsetOf(f, 3) == 8
            && OffsetOf(f, 4) == 10 && OffsetOf(f, 5) == 12 && OffsetOf(f, 6) == 16 && OffsetOf(f, 7) == 20
  {
    var f := EndFields(count, centralSize, centralOffset);
    assert OffsetOf(f, 1) == 4 && OffsetOf(f, 2) == 6 && OffsetOf(f, 3) == 8 && OffsetOf(f, 4) == 10;
    assert OffsetOf(f, 5) == 12 && OffsetOf(f, 6) == 16 && OffsetOf(f, 7) == 20 && OffsetOf(f, 8) == 22;
    JoinedLength(f, 8);
  }

  function LocalHeader(file: File): Bytes {
    Flatten(LocalFields(file)) + file.path
  }

  function CentralHeader(file: File, localOffset: nat): Bytes {
    Flatten(CentralFields(file, localOffset)) + file.path
  }

  function EndRecord(count: nat, centralSize: nat, centralOffset: nat): Bytes {
    Flatten(EndFields(count, centralSize, centralOffset))
  }
}
