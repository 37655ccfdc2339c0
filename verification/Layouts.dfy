/** Every binary format by byte offset: which field lies where.
    The offsets are those of zip.ts, production_crypto.rs and format.rs. */
module Layouts {
  import opened Bytes
  import Z = Zip
  import P = ProductionCrypto
  import C = Container
  import Sequences

  /** The field of `width` bytes at `at` holds the low bytes of `value`. */
  predicate Holds(record: seq<Byte>, at: nat, width: nat, value: nat) {
    at + width <= |record| && record[at..at + width] == ToLE(value, width)
  }

  // ----- ZIP records -----

  lemma FieldHolds(fields: seq<Z.Field>, k: nat, at: nat)
    requires k < |fields| && Z.StartOf(fields, k) == at
    ensures Holds(Z.RecordBytes(fields), at, fields[k].width, fields[k].value)
    ensures Z.StartOf(fields, k + 1) == at + fields[k].width
  {
    Z.FieldAt(fields, |fields|, k);
  }

  lemma LocalHeaderByOffset(part: Z.Part, stamp: Z.Stamp)
    ensures var local := Z.LocalHeader(part, stamp);
      && Holds(local, 0, 4, 0x0403_4b50) && Holds(local, 4, 2, 20) && Holds(local, 6, 2, 0x0800) && Holds(local, 8, 2, 0)
      && Holds(local, 10, 2, stamp.time) && Holds(local, 12, 2, stamp.date) && Holds(local, 14, 4, part.crc)
      && Holds(local, 18, 4, |part.content|) && Holds(local, 22, 4, |part.content|)
      && Holds(local, 26, 2, |part.name|) && Holds(local, 28, 2, 0)
  {
    var f := Z.LocalFields(part, stamp);
    FieldHolds(f, 0, 0);
    FieldHolds(f, 1, 4);
    FieldHolds(f, 2, 6);
    FieldHolds(f, 3, 8);
    FieldHolds(f, 4, 10);
    FieldHolds(f, 5, 12);
    FieldHolds(f, 6, 14);
    FieldHolds(f, 7, 18);
    FieldHolds(f, 8, 22);
    FieldHolds(f, 9, 26);
    FieldHolds(f, 10, 28);
  }

  lemma EntryFront(part: Z.Part, stamp: Z.Stamp, offset: nat)
    ensures var entry := Z.DirectoryEntry(part, stamp, offset);
      Holds(entry, 0, 4, 0x0201_4b50) && Holds(entry, 4, 2, 20) && Holds(entry, 6, 2, 20) && Holds(entry, 8, 2, 0x0800)
    ensures Z.StartOf(Z.EntryFields(part, stamp, offset), 4) == 10
  {
    var f := Z.EntryFields(part, stamp, offset);
    FieldHolds(f, 0, 0);
    FieldHolds(f, 1, 4);
    FieldHolds(f, 2, 6);
    FieldHolds(f, 3, 8);
  }

  lemma EntryMiddle(part: Z.Part, stamp: Z.Stamp, offset: nat)
    requires Z.StartOf(Z.EntryFields(part, stamp, offset), 4) == 10
    ensures var entry := Z.DirectoryEntry(part, stamp, offset);
      && Holds(entry, 10, 2, 0) && Holds(entry, 12, 2, stamp.time) && Holds(entry, 14, 2, stamp.date)
      && Holds(entry, 16, 4, part.crc)
    ensures Z.StartOf(Z.EntryFields(part, stamp, offset), 8) == 20
  {
    var f := Z.EntryFields(part, stamp, offset);
    FieldHolds(f, 4, 10);
    FieldHolds(f, 5, 12);
    FieldHolds(f, 6, 14);
    FieldHolds(f, 7, 16);
  }

  lemma EntryBack(part: Z.Part, stamp: Z.Stamp, offset: nat)
    requires Z.StartOf(Z.EntryFields(part, stamp, offset), 8) == 20
    ensures var entry := Z.DirectoryEntry(part, stamp, offset);
      && Holds(entry, 20, 4, |part.content|) && Holds(entry, 24, 4, |part.content|)
      && Holds(entry, 28, 2, |part.name|) && Holds(entry, 30, 2, 0) && Holds(entry, 32, 2, 0) && Holds(entry, 42, 4, offset)
  {
    var f := Z.EntryFields(part, stamp, offset);
    FieldHolds(f, 8, 20);
    FieldHolds(f, 9, 24);
    FieldHolds(f, 10, 28);
    FieldHolds(f, 11, 30);
    FieldHolds(f, 12, 32);
    Z.EntryStarts(part, stamp, offset);
    FieldHolds(f, 16, 42);
  }

  lemma DirectoryEntryByOffset(part: Z.Part, stamp: Z.Stamp, offset: nat)
    ensures var entry := Z.DirectoryEntry(part, stamp, offset);
      && Holds(entry, 0, 4, 0x0201_4b50) && Holds(entry, 4, 2, 20) && Holds(entry, 6, 2, 20) && Holds(entry, 8, 2, 0x0800)
      && Holds(entry, 10, 2, 0) && Holds(entry, 12, 2, stamp.time) && Holds(entry, 14, 2, stamp.date)
      && Holds(entry, 16, 4, part.crc) && Holds(entry, 20, 4, |part.content|) && Holds(entry, 24, 4, |part.content|)
      && Holds(entry, 28, 2, |part.name|) && Holds(entry, 30, 2, 0) && Holds(entry, 32, 2, 0) && Holds(entry, 42, 4, offset)
  {
    EntryFront(part, stamp, offset);
    EntryMiddle(part, stamp, offset);
    EntryBack(part, stamp, offset);
  }

  /** The directory says of a file what its own header says. */
  lemma EntryAgreesWithHeader(part: Z.Part, stamp: Z.Stamp, offset: nat)
    ensures var (local, entry) := (Z.LocalHeader(part, stamp), Z.DirectoryEntry(part, stamp, offset));
      entry[6..32] == local[4..30]
  {
    var local, entry := Z.LocalHeader(part, stamp), Z.DirectoryEntry(part, stamp, offset);
    LocalHeaderByOffset(part, stamp);
    DirectoryEntryByOffset(part, stamp, offset);
    Cuts(local, 4);
    Cuts(entry, 6);
  }

  /** The 26 bytes from `at` on are the fields of one header. */
  lemma Cuts(record: seq<Byte>, at: nat)
    requires at + 26 <= |record|
    ensures record[at..at + 26] == record[at..at + 2] + record[at + 2..at + 4] + record[at + 4..at + 6] + record[at + 6..at + 8]
      + record[at + 8..at + 10] + record[at + 10..at + 14] + record[at + 14..at + 18] + record[at + 18..at + 22]
      + record[at + 22..at + 24] + record[at + 24..at + 26]
  {
  }

  lemma EndRecordByOffset(count: nat, directorySize: nat, offset: nat)
    ensures var end := Z.EndRecord(count, directorySize, offset);
      && Holds(end, 0, 4, 0x0605_4b50) && Holds(end, 8, 2, count) && Holds(end, 10, 2, count)
      && Holds(end, 12, 4, directorySize) && Holds(end, 16, 4, offset) && Holds(end, 20, 2, 0)
  {
    var f := Z.EndFields(count, directorySize, offset);
    FieldHolds(f, 0, 0);
    FieldHolds(f, 1, 4);
    FieldHolds(f, 2, 8);
    FieldHolds(f, 3, 10);
    FieldHolds(f, 4, 12);
    FieldHolds(f, 5, 16);
    FieldHolds(f, 6, 20);
  }

  // ----- IDX1, DAT1, SIG1 -----

  lemma RecordByOffset(record: P.IndexRecord)
    ensures var bytes := P.RecordBytes(record);
      Holds(bytes, 0, 8, record.offset) && Holds(bytes, 8, 4, record.ciphertextLength) && Holds(bytes, 12, 4, record.plaintextLength)
  {
  }

  /** The magic "IDX1", the count, and for each record its offset, its ciphertext length and
      its plaintext length. */
  lemma Idx1ByOffset(records: seq<P.IndexRecord>, k: nat)
    requires k < |records|
    ensures var bytes := P.Idx1Bytes(records);
      && bytes[..4] == [0x49, 0x44, 0x58, 0x31] && Holds(bytes, 4, 4, |records|)
      && Holds(bytes, 8 + 16 * k, 8, records[k].offset)
      && Holds(bytes, 16 + 16 * k, 4, records[k].ciphertextLength)
      && Holds(bytes, 20 + 16 * k, 4, records[k].plaintextLength)
  {
    var bytes, table := P.Idx1Bytes(records), P.RecordTable(records);
    P.TableAt(records, k);
    RecordByOffset(records[k]);
    assert bytes[8..] == table;
    Sequences.SliceOfDrop(bytes, 8, 16 * k, 16 * k + 16);
    Within(bytes, 8 + 16 * k, P.RecordBytes(records[k]), 0, 8, records[k].offset);
    Within(bytes, 8 + 16 * k, P.RecordBytes(records[k]), 8, 4, records[k].ciphertextLength);
    Within(bytes, 8 + 16 * k, P.RecordBytes(records[k]), 12, 4, records[k].plaintextLength);
  }

  /** A field of a record that lies at `at`. */
  lemma Within(bytes: seq<Byte>, at: nat, record: seq<Byte>, field: nat, width: nat, value: nat)
    requires at + |record| <= |bytes| && bytes[at..at + |record|] == record && Holds(record, field, width, value)
    ensures Holds(bytes, at + field, width, value)
  {
    Sequences.SliceOfSlice(bytes, at, at + |record|, field, field + width);
  }

  lemma Dat1ByOffset(count: nat)
    ensures P.Dat1Prefix(count)[..4] == [0x44, 0x41, 0x54, 0x31] && Holds(P.Dat1Prefix(count), 4, 4, count)
  {
  }

  /** The magic "SIG1", version and algorithm 1, the key id padded with zeros to 32 bytes,
      and the signature. */
  lemma SignatureByOffset(block: P.SignatureBlock)
    requires P.ValidKeyId(block.prefix.keyId) && |block.signature| == 64
    ensures var (bytes, id) := (P.EncodeBlock(block), block.prefix.keyId);
      && bytes[..4] == [0x53, 0x49, 0x47, 0x31] && Holds(bytes, 4, 2, 1) && Holds(bytes, 6, 2, 1)
      && bytes[8..8 + |id|] == id && (forall i :: 8 + |id| <= i < 40 ==> bytes[i] == 0)
      && bytes[40..] == block.signature
  {
    var bytes, id := P.EncodeBlock(block), block.prefix.keyId;
    P.PrefixFields(P.SIG1, ToLE(1, 2), id, Zeros(32 - |id|));
    assert bytes[..40] == P.EncodePrefix(block.prefix);
    Sequences.SliceOfTake(bytes, 40, 4, 6);
    Sequences.SliceOfTake(bytes, 40, 6, 8);
    Sequences.SliceOfTake(bytes, 40, 8, 40);
    assert bytes[8..40] == id + Zeros(32 - |id|);
    assert bytes[8..8 + |id|] == bytes[8..40][..|id|];
    forall i | 8 + |id| <= i < 40 ensures bytes[i] == 0 {
      assert bytes[i] == bytes[8..40][i - 8];
    }
  }

  // ----- the prelude -----

  lemma HoldsInFront(a: seq<Byte>, b: seq<Byte>, at: nat, width: nat, value: nat)
    requires Holds(a, at, width, value)
    ensures Holds(a + b, at, width, value)
  {
    assert (a + b)[..|a|] == a;
    Sequences.SliceOfTake(a + b, |a|, at, at + width);
  }

  lemma HoldsBehind(a: seq<Byte>, b: seq<Byte>, at: nat, width: nat, value: nat)
    requires Holds(b, at, width, value)
    ensures Holds(a + b, |a| + at, width, value)
  {
    assert (a + b)[|a|..] == b;
    Sequences.SliceOfDrop(a + b, |a|, at, at + width);
  }

  lemma TableEntryByOffset(offset: nat, length: nat)
    ensures Holds(C.EntryBytes(offset, length), 0, 8, offset) && Holds(C.EntryBytes(offset, length), 8, 8, length)
  {
  }

  /** Entry `k` of a table of entries. */
  predicate TableHolds(entries: seq<Byte>, k: nat, offset: nat, length: nat) {
    Holds(entries, 16 * k, 8, offset) && Holds(entries, 16 * k + 8, 8, length)
  }

  lemma FirstEntry(offset: nat, length: nat, rest: seq<Byte>)
    ensures TableHolds(C.EntryBytes(offset, length) + rest, 0, offset, length)
  {
    TableEntryByOffset(offset, length);
    HoldsInFront(C.EntryBytes(offset, length), rest, 0, 8, offset);
    HoldsInFront(C.EntryBytes(offset, length), rest, 8, 8, length);
  }

  lemma LaterEntry(head: seq<Byte>, rest: seq<Byte>, k: nat, offset: nat, length: nat)
    requires |head| == 16 && TableHolds(rest, k, offset, length)
    ensures TableHolds(head + rest, k + 1, offset, length)
  {
    HoldsBehind(head, rest, 16 * k, 8, offset);
    HoldsBehind(head, rest, 16 * k + 8, 8, length);
  }

  /** One length more in front moves the table and every offset on. */
  lemma {:induction false} EntriesStep(length: nat, later: seq<nat>, start: nat, k: nat, before: seq<nat>, section: nat)
    requires TableHolds(C.PreludeEntries(later, start + length), k, start + length + C.Total(before), section)
    ensures TableHolds(C.PreludeEntries([length] + later, start), k + 1, start + C.Total([length] + before), section)
  {
    C.LengthsCons(length, later, start);
    C.LengthsCons(length, before, start);
    LaterEntry(C.EntryBytes(start, length), C.PreludeEntries(later, start + length), k, start + length + C.Total(before), section);
  }

  lemma {:induction false} FirstOfTable(length: nat, later: seq<nat>, start: nat)
    ensures TableHolds(C.PreludeEntries([length] + later, start), 0, start, length)
  {
    C.LengthsCons(length, later, start);
    FirstEntry(start, length, C.PreludeEntries(later, start + length));
  }

  /** Each section starts behind the sections before it. */
  lemma {:induction false} EntriesByOffset(lengths: seq<nat>, start: nat, k: nat)
    requires k < |lengths|
    ensures TableHolds(C.PreludeEntries(lengths, start), k, start + C.Total(lengths[..k]), lengths[k])
    decreases k
  {
    var length, later := lengths[0], lengths[1..];
    assert lengths == [length] + later;
    if k == 0 {
      FirstOfTable(length, later, start);
    } else {
      EntriesByOffset(later, start + length, k - 1);
      assert lengths[..k] == [length] + later[..k - 1] && lengths[k] == later[k - 1];
      EntriesStep(length, later, start, k - 1, later[..k - 1], lengths[k]);
    }
  }

  lemma PreludeHead()
    ensures var head := C.MAGIC + C.VERSION + C.RESERVED;
      head[..8] == [0x53, 0x4f, 0x4c, 0x41, 0x52, 0x43, 0x48, 0] && Holds(head, 8, 4, 1) && Holds(head, 12, 4, 0)
  {
    assert ToLE(1, 4) == [1, 0, 0, 0] && ToLE(0, 4) == [0, 0, 0, 0];
  }

  /** The magic "SOLARCH", version 1, four zero bytes, and a table that gives each section's
      offset, right behind the sections before it, and its length. */
  lemma PreludeByOffset(lengths: seq<nat>, k: nat)
    requires |lengths| == 5 && k < 5
    ensures var prelude := C.PreludeBytes(lengths);
      && prelude[..8] == [0x53, 0x4f, 0x4c, 0x41, 0x52, 0x43, 0x48, 0] && Holds(prelude, 8, 4, 1) && Holds(prelude, 12, 4, 0)
      && Holds(prelude, 16 + 16 * k, 8, 96 + C.Total(lengths[..k])) && Holds(prelude, 24 + 16 * k, 8, lengths[k])
  {
    EntriesByOffset(lengths, 96, k);
    PreludeHead();
    InPrelude(C.MAGIC + C.VERSION + C.RESERVED, C.PreludeEntries(lengths, 96), k, 96 + C.Total(lengths[..k]), lengths[k]);
  }

  lemma InPrelude(head: seq<Byte>, entries: seq<Byte>, k: nat, offset: nat, length: nat)
    requires |head| == 16 && Holds(head, 8, 4, 1) && Holds(head, 12, 4, 0) && TableHolds(entries, k, offset, length)
    ensures var prelude := head + entries;
      && prelude[..8] == head[..8] && Holds(prelude, 8, 4, 1) && Holds(prelude, 12, 4, 0)
      && Holds(prelude, 16 + 16 * k, 8, offset) && Holds(prelude, 24 + 16 * k, 8, length)
  {
    HoldsInFront(head, entries, 8, 4, 1);
    HoldsInFront(head, entries, 12, 4, 0);
    HoldsBehind(head, entries, 16 * k, 8, offset);
    HoldsBehind(head, entries, 16 * k + 8, 8, length);
    assert (head + entries)[..8] == head[..8];
  }
}
