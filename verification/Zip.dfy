/** The stored-only ZIP writer and the central-directory reader.
    Models createZip of apps/web/src/lib/zip.ts and readZipEntries of
    apps/web/src/mocks/zip-entries.ts; record layouts as in sections 4.3.7, 4.3.12 and
    4.3.16 of the PKWARE APPNOTE. */
module Zip {
  import opened Bytes
  import opened ZipNames
  import Crc32
  import Sequences

  const LOCAL_SIGNATURE: nat := 0x0403_4b50
  const ENTRY_SIGNATURE: nat := 0x0201_4b50
  const END_SIGNATURE: nat := 0x0605_4b50
  const UTF8_NAMES: nat := 0x0800
  const VERSION: nat := 20
  const U16_LIMIT: nat := 0x1_0000

  datatype File = File(name: string, content: seq<Byte>)

  /** Text encoding and lower-casing are parameters. */
  datatype Text = Text(encode: string -> seq<Byte>, decode: seq<Byte> -> string, lower: string -> string)

  const MARK: char := '\U{FEFF}'

  predicate Marked(name: string) {
    name != "" && name[0] == MARK
  }

  function WithoutMark(name: string): string {
    if Marked(name) then name[1..] else name
  }

  /** UTF-8 text comes back as it was, but for one leading byte-order mark, which the
      decoder swallows. */
  ghost predicate LawfulText(text: Text) {
    && LawfulLower(text.lower)
    && forall s: string {:trigger text.encode(s)} :: text.decode(text.encode(s)) == WithoutMark(s)
  }

  datatype Stamp = Stamp(time: nat, date: nat)

  /** A file as it goes into the archive. */
  datatype Part = Part(name: seq<Byte>, crc: nat, content: seq<Byte>)

  // ----- records -----

  /** One little-endian field of a record. Fields the writer never sets are zero. */
  datatype Field = Field(value: nat, width: nat)

  function StartOf(fields: seq<Field>, k: nat): nat
    requires k <= |fields|
  {
    if k == 0 then 0 else StartOf(fields, k - 1) + fields[k - 1].width
  }

  /** The first `k` fields, one behind the other. */
  function FieldBytes(fields: seq<Field>, k: nat): (bytes: seq<Byte>)
    requires k <= |fields|
    ensures |bytes| == StartOf(fields, k)
  {
    if k == 0 then [] else FieldBytes(fields, k - 1) + ToLE(fields[k - 1].value, fields[k - 1].width)
  }

  function RecordBytes(fields: seq<Field>): (bytes: seq<Byte>) {
    FieldBytes(fields, |fields|)
  }

  lemma {:induction false} FieldAt(fields: seq<Field>, n: nat, k: nat)
    requires k < n <= |fields|
    ensures StartOf(fields, k) + fields[k].width <= StartOf(fields, n)
    ensures FieldBytes(fields, n)[StartOf(fields, k)..StartOf(fields, k) + fields[k].width] == ToLE(fields[k].value, fields[k].width)
  {
    if k < n - 1 {
      FieldAt(fields, n - 1, k);
      assert FieldBytes(fields, n)[StartOf(fields, k)..StartOf(fields, k) + fields[k].width]
          == FieldBytes(fields, n - 1)[StartOf(fields, k)..StartOf(fields, k) + fields[k].width];
    }
  }

  function LocalFields(part: Part, stamp: Stamp): (fields: seq<Field>)
    ensures |fields| == 11
  {
    [Field(LOCAL_SIGNATURE, 4), Field(VERSION, 2), Field(UTF8_NAMES, 2), Field(0, 2), Field(stamp.time, 2), Field(stamp.date, 2),
     Field(part.crc, 4), Field(|part.content|, 4), Field(|part.content|, 4), Field(|part.name|, 2), Field(0, 2)]
  }

  function EntryFields(part: Part, stamp: Stamp, offset: nat): (fields: seq<Field>)
    ensures |fields| == 17
  {
    [Field(ENTRY_SIGNATURE, 4), Field(VERSION, 2), Field(VERSION, 2), Field(UTF8_NAMES, 2), Field(0, 2),
     Field(stamp.time, 2), Field(stamp.date, 2), Field(part.crc, 4), Field(|part.content|, 4), Field(|part.content|, 4),
     Field(|part.name|, 2), Field(0, 2), Field(0, 2), Field(0, 2), Field(0, 2), Field(0, 4), Field(offset, 4)]
  }

  function EndFields(count: nat, directorySize: nat, offset: nat): (fields: seq<Field>)
    ensures |fields| == 7
  {
    [Field(END_SIGNATURE, 4), Field(0, 4), Field(count, 2), Field(count, 2), Field(directorySize, 4), Field(offset, 4), Field(0, 2)]
  }

  /** Field offsets are fixed by the widths. */
  lemma Starts(fields: seq<Field>, k: nat, at: nat)
    requires k < |fields| && StartOf(fields, k) == at
    ensures StartOf(fields, k + 1) == at + fields[k].width
  {
  }

  lemma LocalStarts(part: Part, stamp: Stamp)
    ensures var f := LocalFields(part, stamp); StartOf(f, 6) == 14 && StartOf(f, 8) == 22 && StartOf(f, 11) == 30
  {
    var f := LocalFields(part, stamp);
    Starts(f, 0, 0);
    Starts(f, 1, 4);
    Starts(f, 2, 6);
    Starts(f, 3, 8);
    Starts(f, 4, 10);
    Starts(f, 5, 12);
    Starts(f, 6, 14);
    Starts(f, 7, 18);
    Starts(f, 8, 22);
    Starts(f, 9, 26);
    Starts(f, 10, 28);
  }

  predicate EntryWidths(f: seq<Field>) {
    && |f| == 17 && f[0].width == 4 && f[1].width == 2 && f[2].width == 2 && f[3].width == 2 && f[4].width == 2
    && f[5].width == 2 && f[6].width == 2 && f[7].width == 4 && f[8].width == 4 && f[9].width == 4 && f[10].width == 2
    && f[11].width == 2 && f[12].width == 2 && f[13].width == 2 && f[14].width == 2 && f[15].width == 4 && f[16].width == 4
  }

  lemma EntryOffsets(f: seq<Field>)
    requires EntryWidths(f)
    ensures StartOf(f, 9) == 24 && StartOf(f, 10) == 28 && StartOf(f, 11) == 30 && StartOf(f, 12) == 32
    ensures StartOf(f, 16) == 42 && StartOf(f, 17) == 46
  {
    Starts(f, 0, 0);
    Starts(f, 1, 4);
    Starts(f, 2, 6);
    Starts(f, 3, 8);
    Starts(f, 4, 10);
    Starts(f, 5, 12);
    Starts(f, 6, 14);
    Starts(f, 7, 16);
    Starts(f, 8, 20);
    Starts(f, 9, 24);
    Starts(f, 10, 28);
    Starts(f, 11, 30);
    Starts(f, 12, 32);
    Starts(f, 13, 34);
    Starts(f, 14, 36);
    Starts(f, 15, 38);
    Starts(f, 16, 42);
  }

  lemma EntryStarts(part: Part, stamp: Stamp, offset: nat)
    ensures var f := EntryFields(part, stamp, offset);
      && StartOf(f, 9) == 24 && StartOf(f, 10) == 28 && StartOf(f, 11) == 30 && StartOf(f, 12) == 32
      && StartOf(f, 16) == 42 && StartOf(f, 17) == 46
  {
    EntryOffsets(EntryFields(part, stamp, offset));
  }

  lemma EndStarts(count: nat, directorySize: nat, offset: nat)
    ensures var f := EndFields(count, directorySize, offset);
      StartOf(f, 3) == 10 && StartOf(f, 5) == 16 && StartOf(f, 7) == 22
  {
    var f := EndFields(count, directorySize, offset);
    Starts(f, 0, 0);
    Starts(f, 1, 4);
    Starts(f, 2, 8);
    Starts(f, 3, 10);
    Starts(f, 4, 12);
    Starts(f, 5, 16);
    Starts(f, 6, 20);
  }

  function LocalHeader(part: Part, stamp: Stamp): (bytes: seq<Byte>)
    ensures |bytes| == 30
  {
    LocalStarts(part, stamp);
    RecordBytes(LocalFields(part, stamp))
  }

  function DirectoryEntry(part: Part, stamp: Stamp, offset: nat): (bytes: seq<Byte>)
    ensures |bytes| == 46
  {
    EntryStarts(part, stamp, offset);
    RecordBytes(EntryFields(part, stamp, offset))
  }

  function EndRecord(count: nat, directorySize: nat, offset: nat): (bytes: seq<Byte>)
    ensures |bytes| == 22
  {
    EndStarts(count, directorySize, offset);
    RecordBytes(EndFields(count, directorySize, offset))
  }

  // ----- the archive -----

  /** Where the local header of part `n` starts. */
  function Offset(parts: seq<Part>, n: nat): nat
    requires n <= |parts|
  {
    if n == 0 then 0 else Offset(parts, n - 1) + 30 + |parts[n - 1].name| + |parts[n - 1].content|
  }

  function DirectorySize(parts: seq<Part>, n: nat): nat
    requires n <= |parts|
  {
    if n == 0 then 0 else DirectorySize(parts, n - 1) + 46 + |parts[n - 1].name|
  }

  function PartBytes(part: Part, stamp: Stamp): (bytes: seq<Byte>)
    ensures |bytes| == 30 + |part.name| + |part.content|
  {
    LocalHeader(part, stamp) + part.name + part.content
  }

  function EntryBytes(part: Part, stamp: Stamp, offset: nat): (bytes: seq<Byte>)
    ensures |bytes| == 46 + |part.name|
  {
    DirectoryEntry(part, stamp, offset) + part.name
  }

  function Body(parts: seq<Part>, stamp: Stamp, n: nat): (bytes: seq<Byte>)
    requires n <= |parts|
    ensures |bytes| == Offset(parts, n)
  {
    if n == 0 then [] else Body(parts, stamp, n - 1) + PartBytes(parts[n - 1], stamp)
  }

  function Directory(parts: seq<Part>, stamp: Stamp, n: nat): (bytes: seq<Byte>)
    requires n <= |parts|
    ensures |bytes| == DirectorySize(parts, n)
  {
    if n == 0 then [] else Directory(parts, stamp, n - 1) + EntryBytes(parts[n - 1], stamp, Offset(parts, n - 1))
  }

  function ZipBytes(parts: seq<Part>, stamp: Stamp): seq<Byte> {
    var n := |parts|;
    Body(parts, stamp, n) + Directory(parts, stamp, n) + EndRecord(n, DirectorySize(parts, n), Offset(parts, n))
  }

  // ----- writing -----

  /** Sets the fields of a fresh record one after the other. */
  method WriteRecord(fields: seq<Field>, size: nat) returns (bytes: seq<Byte>)
    requires StartOf(fields, |fields|) == size
    ensures bytes == RecordBytes(fields)
  {
    var buffer := new Byte[size](_ => 0);
    var at, k := 0, 0;
    while k < |fields|
      invariant 0 <= k <= |fields| && at == StartOf(fields, k) <= size
      invariant buffer[..at] == FieldBytes(fields, k)
    {
      FieldAt(fields, |fields|, k);
      PutLE(buffer, at, fields[k].value, fields[k].width);
      at := at + fields[k].width;
      k := k + 1;
    }
    bytes := buffer[..];
  }

  method ChecksumOf(table: seq<Crc32.Word>, content: seq<Byte>) returns (crc: nat)
    requires Crc32.IsTable(table)
    ensures crc == Crc32.Value(Crc32.Remainder(content)) < U32_LIMIT
  {
    var word := Crc32.Checksum(table, content);
    Crc32.WordOfValue(word);
    crc := Crc32.Value(word);
  }

  function PartOf(text: Text, file: File, name: string): Part {
    Part(text.encode(name), Crc32.Value(Crc32.Remainder(file.content)), file.content)
  }

  function PartsOf(text: Text, files: seq<File>, names: seq<string>): (parts: seq<Part>)
    requires |names| == |files|
    ensures |parts| == |files|
    ensures forall i :: 0 <= i < |files| ==> parts[i] == PartOf(text, files[i], names[i])
  {
    seq(|files|, i requires 0 <= i < |files| => PartOf(text, files[i], names[i]))
  }

  function Names(files: seq<File>): (names: seq<string>)
    ensures |names| == |files| && forall i :: 0 <= i < |files| ==> names[i] == files[i].name
  {
    seq(|files|, i requires 0 <= i < |files| => files[i].name)
  }

  /** The archive of the files under names that are all different ignoring case. */
  method CreateZip(text: Text, files: seq<File>, stamp: Stamp) returns (zip: seq<Byte>, names: seq<string>)
    requires LawfulLower(text.lower)
    ensures |names| == |files|
    ensures forall i :: 0 <= i < |files| ==> IsFirstFree(text.lower, files[i].name, Lowered(text.lower, names[..i]), names[i])
    ensures forall i, j :: 0 <= i < j < |names| ==> text.lower(names[i]) != text.lower(names[j])
    ensures zip == ZipBytes(PartsOf(text, files, names), stamp)
  {
    names := UniqueNames(text.lower, Names(files));
    var table := Crc32.BuildTable();
    zip := WriteParts(table[..], text, files, names, stamp);
  }

  method WriteParts(table: seq<Crc32.Word>, text: Text, files: seq<File>, names: seq<string>, stamp: Stamp) returns (zip: seq<Byte>)
    requires Crc32.IsTable(table) && |names| == |files|
    ensures zip == ZipBytes(PartsOf(text, files, names), stamp)
  {
    ghost var parts := PartsOf(text, files, names);
    var body, directory, i := [], [], 0;
    while i < |files|
      invariant 0 <= i <= |files|
      invariant body == Body(parts, stamp, i) && directory == Directory(parts, stamp, i)
    {
      var part, entry := WritePart(table, text, files[i], names[i], stamp, |body|);
      body := body + part;
      directory := directory + entry;
      i := i + 1;
    }
    EndStarts(|files|, |directory|, |body|);
    var end := WriteRecord(EndFields(|files|, |directory|, |body|), 22);
    zip := body + directory + end;
  }

  /** Header, name and content of one file, and its directory entry. */
  method WritePart(table: seq<Crc32.Word>, text: Text, file: File, name: string, stamp: Stamp, offset: nat)
    returns (body: seq<Byte>, entry: seq<Byte>)
    requires Crc32.IsTable(table)
    ensures body == PartBytes(PartOf(text, file, name), stamp)
    ensures entry == EntryBytes(PartOf(text, file, name), stamp, offset)
  {
    var crc := ChecksumOf(table, file.content);
    var part := Part(text.encode(name), crc, file.content);
    LocalStarts(part, stamp);
    var local := WriteRecord(LocalFields(part, stamp), 30);
    EntryStarts(part, stamp, offset);
    var header := WriteRecord(EntryFields(part, stamp, offset), 46);
    body := local + part.name + part.content;
    entry := header + part.name;
  }

  // ----- reading -----

  function U16(bytes: seq<Byte>, at: nat): nat
    requires at + 2 <= |bytes|
  {
    FromLE(bytes[at..at + 2])
  }

  function U32(bytes: seq<Byte>, at: nat): nat
    requires at + 4 <= |bytes|
  {
    FromLE(bytes[at..at + 4])
  }

  /** What listing an archive yields. A name that runs past the end makes the view throw. */
  datatype Listing = NotZip | Throws | Entries(entries: seq<(string, nat)>)

  datatype EntryRead = NoEntry | BeyondEnd | Found(entry: (string, nat), next: nat)

  function ReadEntry(text: Text, bytes: seq<Byte>, offset: nat): EntryRead {
    if offset + 46 > |bytes| || U32(bytes, offset) != ENTRY_SIGNATURE then NoEntry
    else
      var size, nameLength := U32(bytes, offset + 24), U16(bytes, offset + 28);
      var extraLength, commentLength := U16(bytes, offset + 30), U16(bytes, offset + 32);
      if offset + 46 + nameLength > |bytes| then BeyondEnd
      else
        Found((text.decode(bytes[offset + 46..offset + 46 + nameLength]), size),
              offset + 46 + nameLength + extraLength + commentLength)
  }

  function ListFrom(text: Text, bytes: seq<Byte>, offset: nat, count: nat): Listing
    decreases count
  {
    if count == 0 then Entries([])
    else
      match ReadEntry(text, bytes, offset)
      case NoEntry => NotZip
      case BeyondEnd => Throws
      case Found(entry, next) => Behind([entry], ListFrom(text, bytes, next, count - 1))
  }

  /** A listing with these entries in front, unless it failed. */
  function Behind(entries: seq<(string, nat)>, listing: Listing): Listing {
    match listing
    case Entries(rest) => Entries(entries + rest)
    case other => other
  }

  lemma BehindBehind(a: seq<(string, nat)>, b: seq<(string, nat)>, listing: Listing)
    ensures Behind(a, Behind(b, listing)) == Behind(a + b, listing)
    ensures Behind([], listing) == listing
  {
    if listing.Entries? {
      assert a + (b + listing.entries) == (a + b) + listing.entries;
      assert [] + listing.entries == listing.entries;
    }
  }

  /** The last place, at most 65,535 bytes before the end, where an end record can start. */
  predicate IsEnd(bytes: seq<Byte>, end: nat) {
    && end + 22 <= |bytes| && |bytes| <= end + 22 + 0xffff && U32(bytes, end) == END_SIGNATURE
    && forall at :: end < at <= |bytes| - 22 ==> U32(bytes, at) != END_SIGNATURE
  }

  method FindEnd(bytes: seq<Byte>) returns (end: int)
    ensures end >= 0 ==> IsEnd(bytes, end)
    ensures end < 0 ==> forall at: nat :: !IsEnd(bytes, at)
  {
    end := -1;
    var at := |bytes| - 22;
    while at >= 0 && at >= |bytes| - 22 - 0xffff
      invariant at <= |bytes| - 22
      invariant forall later :: at < later <= |bytes| - 22 && later >= 0 ==> U32(bytes, later) != END_SIGNATURE
      decreases at
    {
      if U32(bytes, at) == END_SIGNATURE {
        return at;
      }
      at := at - 1;
    }
  }

  method ReadZipEntries(text: Text, bytes: seq<Byte>) returns (r: Listing)
    ensures r == NotZip || exists end: nat :: IsEnd(bytes, end)
    ensures forall end: nat :: IsEnd(bytes, end) ==> r == ListFrom(text, bytes, U32(bytes, end + 16), U16(bytes, end + 10))
  {
    var end := FindEnd(bytes);
    if end < 0 {
      return NotZip;
    }
    var count, offset := U16(bytes, end + 10), U32(bytes, end + 16);
    r := ReadDirectory(text, bytes, offset, count);
  }

  method ReadDirectory(text: Text, bytes: seq<Byte>, start: nat, count: nat) returns (r: Listing)
    ensures r == ListFrom(text, bytes, start, count)
  {
    var entries, offset: nat, n: nat := [], start, 0;
    BehindBehind([], [], ListFrom(text, bytes, start, count));
    while n < count
      invariant 0 <= n <= count
      invariant ListFrom(text, bytes, start, count) == Behind(entries, ListFrom(text, bytes, offset, count - n))
    {
      match ReadEntry(text, bytes, offset) {
        case NoEntry => return NotZip;
        case BeyondEnd => return Throws;
        case Found(entry, next) =>
          BehindBehind(entries, [entry], ListFrom(text, bytes, next, count - n - 1));
          entries, offset := entries + [entry], next;
      }
      n := n + 1;
    }
    assert entries + [] == entries;
    return Entries(entries);
  }

  // ----- reading what was written -----

  /** The limits of the format without its 64-bit extension. */
  predicate Fits(parts: seq<Part>) {
    && Offset(parts, |parts|) < U32_LIMIT
    && forall i :: 0 <= i < |parts| ==> |parts[i].name| < U16_LIMIT && |parts[i].content| < U32_LIMIT
  }

  lemma FromToU16(value: nat)
    ensures FromLE(ToLE(value, 2)) == value % U16_LIMIT
  {
    FromToLE(value, 2);
    Pow256Values();
  }

  lemma EntryReads(part: Part, stamp: Stamp, offset: nat)
    requires |part.name| < U16_LIMIT && |part.content| < U32_LIMIT && offset < U32_LIMIT
    ensures var e := DirectoryEntry(part, stamp, offset);
      && U32(e, 0) == ENTRY_SIGNATURE && U32(e, 24) == |part.content| && U16(e, 28) == |part.name|
      && U16(e, 30) == 0 && U16(e, 32) == 0 && U32(e, 42) == offset
  {
    var f := EntryFields(part, stamp, offset);
    EntryStarts(part, stamp, offset);
    FieldAt(f, 17, 0);
    FieldAt(f, 17, 9);
    FieldAt(f, 17, 10);
    FieldAt(f, 17, 11);
    FieldAt(f, 17, 12);
    FieldAt(f, 17, 16);
    FromToU32(ENTRY_SIGNATURE);
    FromToU32(|part.content|);
    FromToU16(|part.name|);
    FromToU16(0);
    FromToU32(offset);
  }

  lemma EndReads(count: nat, directorySize: nat, offset: nat)
    requires offset < U32_LIMIT
    ensures var e := EndRecord(count, directorySize, offset);
      U32(e, 0) == END_SIGNATURE && U16(e, 10) == count % U16_LIMIT && U32(e, 16) == offset
  {
    var f := EndFields(count, directorySize, offset);
    EndStarts(count, directorySize, offset);
    FieldAt(f, 7, 0);
    FieldAt(f, 7, 3);
    FieldAt(f, 7, 5);
    FromToU32(END_SIGNATURE);
    FromToU16(count);
    FromToU32(offset);
  }

  /** Entry `i` of the directory, its name, and what follows it. */
  lemma {:induction false} EntryInDirectory(parts: seq<Part>, stamp: Stamp, n: nat, i: nat)
    requires i < n <= |parts|
    ensures DirectorySize(parts, i + 1) <= DirectorySize(parts, n)
    ensures var at := DirectorySize(parts, i);
      && Directory(parts, stamp, n)[at..at + 46] == DirectoryEntry(parts[i], stamp, Offset(parts, i))
      && Directory(parts, stamp, n)[at + 46..at + 46 + |parts[i].name|] == parts[i].name
  {
    var at, last := DirectorySize(parts, i), EntryBytes(parts[n - 1], stamp, Offset(parts, n - 1));
    assert Directory(parts, stamp, n) == Directory(parts, stamp, n - 1) + last;
    if i < n - 1 {
      EntryInDirectory(parts, stamp, n - 1, i);
      assert Directory(parts, stamp, n)[..DirectorySize(parts, n - 1)] == Directory(parts, stamp, n - 1);
      Sequences.SliceOfTake(Directory(parts, stamp, n), DirectorySize(parts, n - 1), at, at + 46);
      Sequences.SliceOfTake(Directory(parts, stamp, n), DirectorySize(parts, n - 1), at + 46, at + 46 + |parts[i].name|);
    }
  }

  /** Part `i` lies at its offset. */
  lemma {:induction false} PartInBody(parts: seq<Part>, stamp: Stamp, n: nat, i: nat)
    requires i < n <= |parts|
    ensures Offset(parts, i + 1) <= Offset(parts, n)
    ensures Body(parts, stamp, n)[Offset(parts, i)..Offset(parts, i + 1)] == PartBytes(parts[i], stamp)
  {
    var last := PartBytes(parts[n - 1], stamp);
    assert Body(parts, stamp, n) == Body(parts, stamp, n - 1) + last;
    if i < n - 1 {
      PartInBody(parts, stamp, n - 1, i);
      assert Body(parts, stamp, n)[..Offset(parts, n - 1)] == Body(parts, stamp, n - 1);
      Sequences.SliceOfTake(Body(parts, stamp, n), Offset(parts, n - 1), Offset(parts, i), Offset(parts, i + 1));
    }
  }

  lemma {:induction false} OffsetGrows(parts: seq<Part>, i: nat, n: nat)
    requires i <= n <= |parts|
    ensures Offset(parts, i) <= Offset(parts, n) && DirectorySize(parts, i) <= DirectorySize(parts, n)
  {
    if i < n { OffsetGrows(parts, i, n - 1); }
  }

  /** The listing of one file: its name and its size. */
  function Item(text: Text, part: Part): (string, nat) {
    (text.decode(part.name), |part.content|)
  }

  function Listed(text: Text, parts: seq<Part>, from: nat, to: nat): seq<(string, nat)>
    requires from <= to <= |parts|
    decreases |parts| - from
  {
    if from == to then [] else [Item(text, parts[from])] + Listed(text, parts, from + 1, to)
  }

  lemma DirectoryInZip(parts: seq<Part>, stamp: Stamp)
    ensures var zip := ZipBytes(parts, stamp);
      var start, end := Offset(parts, |parts|), Offset(parts, |parts|) + DirectorySize(parts, |parts|);
      |zip| == end + 22 && zip[start..end] == Directory(parts, stamp, |parts|) && zip[..start] == Body(parts, stamp, |parts|)
  {
  }

  lemma EntryBytesInZip(parts: seq<Part>, stamp: Stamp, i: nat, zip: seq<Byte>, start: nat, at: nat)
    requires i < |parts| && zip == ZipBytes(parts, stamp)
    requires start == Offset(parts, |parts|) && at == start + DirectorySize(parts, i)
    ensures at + 46 + |parts[i].name| == start + DirectorySize(parts, i + 1) <= |zip|
    ensures zip[at..at + 46] == DirectoryEntry(parts[i], stamp, Offset(parts, i))
    ensures zip[at + 46..at + 46 + |parts[i].name|] == parts[i].name
  {
    var n := |parts|;
    DirectoryInZip(parts, stamp);
    EntryInDirectory(parts, stamp, n, i);
    var from, end := DirectorySize(parts, i), start + DirectorySize(parts, n);
    Sequences.SliceOfSlice(zip, start, end, from, from + 46);
    Sequences.SliceOfSlice(zip, start, end, from + 46, from + 46 + |parts[i].name|);
  }

  /** The archive read at the place of entry `i`. */
  lemma EntryInZip(parts: seq<Part>, stamp: Stamp, i: nat, zip: seq<Byte>, at: nat)
    requires Fits(parts) && i < |parts| && zip == ZipBytes(parts, stamp)
    requires at == Offset(parts, |parts|) + DirectorySize(parts, i)
    ensures at + 46 + |parts[i].name| == Offset(parts, |parts|) + DirectorySize(parts, i + 1) <= |zip|
    ensures U32(zip, at) == ENTRY_SIGNATURE && U32(zip, at + 24) == |parts[i].content|
    ensures U16(zip, at + 28) == |parts[i].name| && U16(zip, at + 30) == 0 && U16(zip, at + 32) == 0
    ensures U32(zip, at + 42) == Offset(parts, i)
    ensures zip[at + 46..at + 46 + |parts[i].name|] == parts[i].name
  {
    OffsetGrows(parts, i, |parts|);
    EntryReads(parts[i], stamp, Offset(parts, i));
    EntryBytesInZip(parts, stamp, i, zip, Offset(parts, |parts|), at);
    EntryFieldsInZip(zip, at, DirectoryEntry(parts[i], stamp, Offset(parts, i)));
  }

  lemma EntryFieldsInZip(zip: seq<Byte>, at: nat, entry: seq<Byte>)
    requires |entry| == 46 && at + 46 <= |zip| && zip[at..at + 46] == entry
    ensures U32(zip, at) == U32(entry, 0) && U32(zip, at + 24) == U32(entry, 24) && U16(zip, at + 28) == U16(entry, 28)
    ensures U16(zip, at + 30) == U16(entry, 30) && U16(zip, at + 32) == U16(entry, 32) && U32(zip, at + 42) == U32(entry, 42)
  {
    Sequences.SliceOfSlice(zip, at, at + 46, 0, 4);
    Sequences.SliceOfSlice(zip, at, at + 46, 24, 28);
    Sequences.SliceOfSlice(zip, at, at + 46, 28, 30);
    Sequences.SliceOfSlice(zip, at, at + 46, 30, 32);
    Sequences.SliceOfSlice(zip, at, at + 46, 32, 34);
    Sequences.SliceOfSlice(zip, at, at + 46, 42, 46);
  }

  function Place(parts: seq<Part>, i: nat): nat
    requires i <= |parts|
  {
    Offset(parts, |parts|) + DirectorySize(parts, i)
  }

  /** Entry `i` reads as it was written, and is followed by the next one. */
  ghost predicate ReadsAt(text: Text, parts: seq<Part>, zip: seq<Byte>, i: nat)
    requires i < |parts|
  {
    ReadEntry(text, zip, Place(parts, i)) == Found(Item(text, parts[i]), Place(parts, i + 1))
  }

  lemma {:induction false} EntryListed(text: Text, parts: seq<Part>, stamp: Stamp, zip: seq<Byte>, i: nat)
    requires Fits(parts) && i < |parts| && zip == ZipBytes(parts, stamp)
    ensures ReadsAt(text, parts, zip, i)
  {
    EntryInZip(parts, stamp, i, zip, Place(parts, i));
  }

  lemma {:induction false} ListsFrom(text: Text, parts: seq<Part>, zip: seq<Byte>, i: nat, to: nat)
    requires i <= to <= |parts|
    requires forall k :: i <= k < to ==> ReadsAt(text, parts, zip, k)
    ensures ListFrom(text, zip, Place(parts, i), to - i) == Entries(Listed(text, parts, i, to))
    decreases |parts| - i
  {
    if i < to {
      assert ReadsAt(text, parts, zip, i);
      ListsFrom(text, parts, zip, i + 1, to);
      ListOne(text, zip, Place(parts, i), Place(parts, i + 1), Item(text, parts[i]), to - i, Listed(text, parts, i + 1, to));
    }
  }

  lemma {:induction false} ListOne(text: Text, bytes: seq<Byte>, offset: nat, next: nat, entry: (string, nat),
                                   count: nat, later: seq<(string, nat)>)
    requires count > 0 && ReadEntry(text, bytes, offset) == Found(entry, next)
    requires ListFrom(text, bytes, next, count - 1) == Entries(later)
    ensures ListFrom(text, bytes, offset, count) == Entries([entry] + later)
  {
  }

  lemma {:induction false} EndInZip(parts: seq<Part>, stamp: Stamp, zip: seq<Byte>)
    requires Fits(parts) && zip == ZipBytes(parts, stamp)
    ensures |zip| >= 22 && IsEnd(zip, |zip| - 22)
    ensures U16(zip, |zip| - 12) == |parts| % U16_LIMIT && U32(zip, |zip| - 6) == Offset(parts, |parts|)
  {
    var n, end := |parts|, |zip| - 22;
    EndReads(n, DirectorySize(parts, n), Offset(parts, n));
    assert zip[end..end + 22] == EndRecord(n, DirectorySize(parts, n), Offset(parts, n));
    Sequences.SliceOfSlice(zip, end, end + 22, 0, 4);
    Sequences.SliceOfSlice(zip, end, end + 22, 10, 12);
    Sequences.SliceOfSlice(zip, end, end + 22, 16, 20);
  }

  lemma {:induction false} ListsPrefix(text: Text, parts: seq<Part>, stamp: Stamp, zip: seq<Byte>, count: nat)
    requires Fits(parts) && zip == ZipBytes(parts, stamp) && count <= |parts|
    ensures ListFrom(text, zip, Offset(parts, |parts|), count) == Entries(Listed(text, parts, 0, count))
  {
    forall k | 0 <= k < count ensures ReadsAt(text, parts, zip, k) {
      EntryListed(text, parts, stamp, zip, k);
    }
    ListsFrom(text, parts, zip, 0, count);
  }

  lemma EndIsUnique(bytes: seq<Byte>, a: nat, b: nat)
    requires IsEnd(bytes, a) && IsEnd(bytes, b)
    ensures a == b
  {
  }

  lemma {:induction false} ShorterList(text: Text, parts: seq<Part>, count: nat)
    requires count <= |parts|
    ensures Listed(text, parts, 0, count) == Listed(text, parts, 0, |parts|) <==> count == |parts|
  {
    ListedLength(text, parts, 0, count);
    ListedLength(text, parts, 0, |parts|);
  }

  /** Reading back an archive within the size limits lists its files in order, as far as
      the 16-bit count reaches: all of them exactly when there are fewer than 65,536. */
  lemma {:induction false} ZipListsItsFiles(text: Text, parts: seq<Part>, stamp: Stamp, zip: seq<Byte>, end: nat)
    requires Fits(parts) && zip == ZipBytes(parts, stamp) && IsEnd(zip, end)
    ensures var listing := ListFrom(text, zip, U32(zip, end + 16), U16(zip, end + 10));
      && listing == Entries(Listed(text, parts, 0, |parts| % U16_LIMIT))
      && (listing == Entries(Listed(text, parts, 0, |parts|)) <==> |parts| < U16_LIMIT)
  {
    var count := |parts| % U16_LIMIT;
    EndFound(parts, stamp, zip, end);
    ListsPrefix(text, parts, stamp, zip, count);
    ShorterList(text, parts, count);
  }

  lemma {:induction false} EndFound(parts: seq<Part>, stamp: Stamp, zip: seq<Byte>, end: nat)
    requires Fits(parts) && zip == ZipBytes(parts, stamp) && IsEnd(zip, end)
    ensures U16(zip, end + 10) == |parts| % U16_LIMIT && U32(zip, end + 16) == Offset(parts, |parts|)
  {
    EndInZip(parts, stamp, zip);
    EndIsUnique(zip, end, |zip| - 22);
  }

  lemma {:induction false} ListedLength(text: Text, parts: seq<Part>, from: nat, to: nat)
    requires from <= to <= |parts|
    ensures |Listed(text, parts, from, to)| == to - from
    decreases |parts| - from
  {
    if from < to { ListedLength(text, parts, from + 1, to); }
  }

  lemma {:induction false} OffsetRecorded(parts: seq<Part>, stamp: Stamp, i: nat, zip: seq<Byte>, place: nat)
    requires Fits(parts) && i < |parts| && zip == ZipBytes(parts, stamp) && place == Place(parts, i)
    ensures place + 46 <= |zip| && U32(zip, place + 42) == Offset(parts, i)
  {
    EntryInZip(parts, stamp, i, zip, place);
  }

  lemma {:induction false} FileAtOffset(parts: seq<Part>, stamp: Stamp, i: nat, zip: seq<Byte>)
    requires Fits(parts) && i < |parts| && zip == ZipBytes(parts, stamp)
    ensures Offset(parts, i + 1) <= |zip| && zip[Offset(parts, i)..Offset(parts, i + 1)] == PartBytes(parts[i], stamp)
  {
    var n := |parts|;
    DirectoryInZip(parts, stamp);
    PartInBody(parts, stamp, n, i);
    Sequences.SliceOfTake(zip, Offset(parts, n), Offset(parts, i), Offset(parts, i + 1));
  }

  /** The offset recorded for a file leads to its header, its name and its bytes. */
  lemma {:induction false} OffsetsLeadToFiles(parts: seq<Part>, stamp: Stamp, i: nat, zip: seq<Byte>)
    requires Fits(parts) && i < |parts| && zip == ZipBytes(parts, stamp)
    ensures Place(parts, i) + 46 <= |zip| && U32(zip, Place(parts, i) + 42) == Offset(parts, i)
    ensures Offset(parts, i + 1) <= |zip| && zip[Offset(parts, i)..Offset(parts, i + 1)] == PartBytes(parts[i], stamp)
  {
    OffsetRecorded(parts, stamp, i, zip, Place(parts, i));
    FileAtOffset(parts, stamp, i, zip);
  }

  /** Names and sizes, in order. */
  function Inventory(files: seq<File>, names: seq<string>): (items: seq<(string, nat)>)
    requires |names| == |files|
    ensures |items| == |files| && forall i :: 0 <= i < |files| ==> items[i] == (names[i], |files[i].content|)
  {
    seq(|files|, i requires 0 <= i < |files| => (names[i], |files[i].content|))
  }

  /** What the reader shows of the names: decoding drops a leading byte-order mark. */
  function Shown(files: seq<File>, names: seq<string>): (items: seq<(string, nat)>)
    requires |names| == |files|
    ensures |items| == |files| && forall i :: 0 <= i < |files| ==> items[i] == (WithoutMark(names[i]), |files[i].content|)
  {
    seq(|files|, i requires 0 <= i < |files| => (WithoutMark(names[i]), |files[i].content|))
  }

  lemma {:induction false} ListedIsShown(text: Text, files: seq<File>, names: seq<string>, from: nat)
    requires |names| == |files| && from <= |files| && LawfulText(text)
    ensures Listed(text, PartsOf(text, files, names), from, |files|) == Shown(files, names)[from..]
    decreases |files| - from
  {
    if from < |files| {
      ListedIsShown(text, files, names, from + 1);
      assert text.decode(text.encode(names[from])) == WithoutMark(names[from]);
    }
  }

  lemma ShownIsInventory(files: seq<File>, names: seq<string>)
    requires |names| == |files|
    ensures Shown(files, names) == Inventory(files, names) <==> forall i :: 0 <= i < |names| ==> !Marked(names[i])
  {
    if i :| 0 <= i < |names| && Marked(names[i]) {
      assert Shown(files, names)[i].0 != Inventory(files, names)[i].0;
    }
  }

  lemma {:induction false} InventoryListed(text: Text, files: seq<File>, names: seq<string>, stamp: Stamp,
                                           zip: seq<Byte>, end: nat, listing: Listing)
    requires |names| == |files| && Fits(PartsOf(text, files, names)) && LawfulText(text)
    requires zip == ZipBytes(PartsOf(text, files, names), stamp) && IsEnd(zip, end)
    requires listing == ListFrom(text, zip, U32(zip, end + 16), U16(zip, end + 10))
    ensures |files| < U16_LIMIT ==> listing == Entries(Shown(files, names))
    ensures |files| >= U16_LIMIT ==> listing.Entries? && |listing.entries| < |files|
  {
    var parts := PartsOf(text, files, names);
    ZipListsItsFiles(text, parts, stamp, zip, end);
    CountReach(|files|);
    var count: nat := |files| % U16_LIMIT;
    PrefixShown(text, files, names, parts, count, listing);
  }

  /** How far the 16-bit count reaches. */
  lemma CountReach(n: nat)
    ensures n % U16_LIMIT <= n && (n % U16_LIMIT == n <==> n < U16_LIMIT)
  {
  }

  lemma {:induction false} PrefixShown(text: Text, files: seq<File>, names: seq<string>, parts: seq<Part>, count: nat,
                                       listing: Listing)
    requires |names| == |files| && count <= |files| && LawfulText(text) && parts == PartsOf(text, files, names)
    requires listing == Entries(Listed(text, parts, 0, count))
    ensures count == |files| ==> listing == Entries(Shown(files, names))
    ensures listing.Entries? && |listing.entries| == count
  {
    ListedLength(text, PartsOf(text, files, names), 0, count);
    ListedIsShown(text, files, names, 0);
    assert Shown(files, names)[0..] == Shown(files, names);
  }

  lemma {:induction false} EndExists(parts: seq<Part>, stamp: Stamp, zip: seq<Byte>) returns (end: nat)
    requires Fits(parts) && zip == ZipBytes(parts, stamp)
    ensures IsEnd(zip, end)
  {
    EndInZip(parts, stamp, zip);
    end := |zip| - 22;
  }

  /** A unique name starts with a mark exactly when the name it was made from does. */
  lemma UniqueKeepsMark(lower: string -> string, name: string, taken: set<string>, chosen: string)
    requires IsFirstFree(lower, name, taken, chosen)
    ensures Marked(chosen) <==> Marked(name)
  {
    var k: nat :| chosen == Candidate(name, k);
    LastDotInside(name);
  }

  /** Writing an archive and reading its directory back gives the unique names and the
      sizes of all files in order: within the 32-bit limits, exactly when there are fewer
      than 65,536 files and no file name starts with a byte-order mark. */
  method WriteThenList(text: Text, files: seq<File>, stamp: Stamp) returns (listing: Listing, names: seq<string>)
    requires LawfulText(text)
    ensures |names| == |files| && forall i, j :: 0 <= i < j < |names| ==> text.lower(names[i]) != text.lower(names[j])
    ensures Fits(PartsOf(text, files, names)) ==>
      (listing == Entries(Inventory(files, names))
       <==> |files| < U16_LIMIT && forall i :: 0 <= i < |files| ==> !Marked(files[i].name))
  {
    var zip;
    zip, names := CreateZip(text, files, stamp);
    listing := ReadZipEntries(text, zip);
    if Fits(PartsOf(text, files, names)) {
      var end := EndExists(PartsOf(text, files, names), stamp, zip);
      InventoryListed(text, files, names, stamp, zip, end, listing);
      ShownIsInventory(files, names);
      MarksOfNames(text.lower, files, names);
    }
  }

  lemma MarksOfNames(lower: string -> string, files: seq<File>, names: seq<string>)
    requires |names| == |files|
    requires forall i :: 0 <= i < |files| ==> IsFirstFree(lower, files[i].name, Lowered(lower, names[..i]), names[i])
    ensures forall i :: 0 <= i < |files| ==> (Marked(names[i]) <==> Marked(files[i].name))
  {
    forall i | 0 <= i < |files| ensures Marked(names[i]) <==> Marked(files[i].name) {
      UniqueKeepsMark(lower, files[i].name, Lowered(lower, names[..i]), names[i]);
    }
  }

  /** Two files whose different unique names are listed as one. */
  lemma MarkedNameIsLost(text: Text, a: seq<Byte>, b: seq<Byte>, names: seq<string>, stamp: Stamp, zip: seq<Byte>, end: nat)
    requires LawfulText(text) && text.lower("a") != text.lower([MARK] + "a")
    requires |names| == 2 && IsFirstFree(text.lower, "a", {}, names[0])
    requires IsFirstFree(text.lower, [MARK] + "a", {text.lower(names[0])}, names[1])
    requires var parts := PartsOf(text, [File("a", a), File([MARK] + "a", b)], names);
      Fits(parts) && zip == ZipBytes(parts, stamp) && IsEnd(zip, end)
    ensures names == ["a", [MARK] + "a"]
    ensures ListFrom(text, zip, U32(zip, end + 16), U16(zip, end + 10)) == Entries([("a", |a|), ("a", |b|)])
  {
    var files := [File("a", a), File([MARK] + "a", b)];
    assert names[0] == Candidate("a", 0) && names[1] == Candidate([MARK] + "a", 0);
    InventoryListed(text, files, names, stamp, zip, end, ListFrom(text, zip, U32(zip, end + 16), U16(zip, end + 10)));
    assert ([MARK] + "a")[1..] == "a";
    assert Shown(files, names) == [("a", |a|), ("a", |b|)];
  }

  /** The checksum stored with a file is the remainder of its content. */
  lemma StoredChecksum(text: Text, file: File, name: string, stamp: Stamp)
    ensures U32(LocalHeader(PartOf(text, file, name), stamp), 14) == Crc32.Value(Crc32.Remainder(file.content))
  {
    var part := PartOf(text, file, name);
    LocalStarts(part, stamp);
    FieldAt(LocalFields(part, stamp), 11, 6);
    Crc32.WordOfValue(Crc32.Remainder(file.content));
    FromToU32(part.crc);
  }
}
