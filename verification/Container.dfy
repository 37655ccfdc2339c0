/** The `.slr` prelude and container codec.
    Models crates/solarch-core/src/format.rs and integrity.rs. */
module Container {
  import opened Outcomes
  import opened Results
  import opened Bytes
  import opened Streams
  import Manifests
  import Sequences

  const MAGIC: seq<Byte> := [0x53, 0x4f, 0x4c, 0x41, 0x52, 0x43, 0x48, 0]
  const VERSION: seq<Byte> := [1, 0, 0, 0]
  const RESERVED: seq<Byte> := [0, 0, 0, 0]
  const PRELUDE_LEN: nat := 96
  const MAX_HEADER: nat := 65_536
  const MAX_CONTAINER: nat := 1_073_741_824
  const MAX_ENCRYPTED_MANIFEST: nat := 16_777_216
  const MAX_ENCRYPTED_INDEX: nat := 262_168
  const MAX_ENCRYPTED_DATA: nat := 8 + 536_870_912 + 16_384 * 16
  const SIGNATURE_BLOCK_LEN: nat := 104

  datatype Range = Range(start: nat, end: nat)

  function Minimum(section: nat): nat {
    match section case 0 => 1 case 1 => 17 case 2 => 24 case 3 => 8 case _ => SIGNATURE_BLOCK_LEN
  }

  function Cap(section: nat): nat {
    match section
    case 0 => MAX_HEADER
    case 1 => MAX_ENCRYPTED_MANIFEST
    case 2 => MAX_ENCRYPTED_INDEX
    case 3 => MAX_ENCRYPTED_DATA
    case _ => SIGNATURE_BLOCK_LEN
  }

  // ----- the layout a list of section lengths stands for -----

  predicate Fits(length: nat, section: nat) {
    Minimum(section) <= length <= Cap(section)
  }

  /** Lengths of the sections from number `first` on. */
  predicate ValidLengthsFrom(lengths: seq<nat>, first: nat) {
    |lengths| + first == 5 && forall i :: 0 <= i < |lengths| ==> Fits(lengths[i], first + i)
  }

  predicate ValidLengths(lengths: seq<nat>) {
    ValidLengthsFrom(lengths, 0)
  }

  function Total(lengths: seq<nat>): nat {
    if lengths == [] then 0 else lengths[0] + Total(lengths[1..])
  }

  lemma TotalOfFive(lengths: seq<nat>)
    requires |lengths| == 5
    ensures Total(lengths) == lengths[0] + lengths[1] + lengths[2] + lengths[3] + lengths[4]
  {
    assert lengths[1..][1..] == lengths[2..] && lengths[2..][1..] == lengths[3..];
    assert lengths[3..][1..] == lengths[4..] && lengths[4..][1..] == [];
    assert Total(lengths[4..]) == lengths[4] && Total(lengths[3..]) == lengths[3] + lengths[4];
    assert Total(lengths[2..]) == lengths[2] + lengths[3] + lengths[4];
  }

  /** Even at every cap the container stays below the 1 GiB limit. */
  lemma CapsFitContainer(lengths: seq<nat>)
    requires ValidLengths(lengths)
    ensures PRELUDE_LEN + Total(lengths) <= MAX_CONTAINER
  {
    TotalOfFive(lengths);
    assert Cap(0) == MAX_HEADER && Cap(1) == MAX_ENCRYPTED_MANIFEST && Cap(2) == MAX_ENCRYPTED_INDEX;
  }

  /** Consecutive ranges of the given lengths: they tile [start, start + Total). */
  function Tiling(lengths: seq<nat>, start: nat): (ranges: seq<Range>)
    ensures |ranges| == |lengths|
  {
    if lengths == [] then [] else [Range(start, start + lengths[0])] + Tiling(lengths[1..], start + lengths[0])
  }

  function PreludeEntries(lengths: seq<nat>, start: nat): (bytes: seq<Byte>)
    ensures |bytes| == 16 * |lengths|
  {
    if lengths == [] then []
    else ToLE(start, 8) + ToLE(lengths[0], 8) + PreludeEntries(lengths[1..], start + lengths[0])
  }

  function PreludeBytes(lengths: seq<nat>): (bytes: seq<Byte>)
    ensures |bytes| == 16 + 16 * |lengths|
  {
    MAGIC + VERSION + RESERVED + PreludeEntries(lengths, PRELUDE_LEN)
  }

  // ----- reading a prelude -----

  function CheckedRange(offset: nat, length: nat, total: nat): Result<Range> {
    if offset + length >= U64_LIMIT || offset + length > total then Err(OutOfBounds)
    else Ok(Range(offset, offset + length))
  }

  /** The checks on section `i` of a full prelude. */
  function SectionAt(prelude: seq<Byte>, total: nat, i: nat, expected: nat): Result<Range>
    requires |prelude| >= PRELUDE_LEN && i < 5
  {
    var base := 16 + i * 16;
    var offset, length := FromLE(prelude[base..base + 8]), FromLE(prelude[base + 8..base + 16]);
    var _ :- Need(length != 0, InvalidChunkMetadata);
    var range :- CheckedRange(offset, length, total);
    var _ :- Need(range.start == expected, OutOfBounds);
    var _ :- Need(Minimum(i) <= length <= Cap(i) && (i == 4 ==> length == SIGNATURE_BLOCK_LEN), LimitExceeded);
    Ok(range)
  }

  /** Sections `i`, `i + 1`, ..., 4, the first of them expected at `expected`. */
  function SectionsFrom(prelude: seq<Byte>, total: nat, i: nat, expected: nat): (r: Result<seq<Range>>)
    requires |prelude| >= PRELUDE_LEN && i <= 5
    decreases 5 - i
  {
    if i == 5 then if expected == total then Ok([]) else Err(OutOfBounds)
    else
      var range :- SectionAt(prelude, total, i, expected);
      var rest :- SectionsFrom(prelude, total, i + 1, range.end);
      Ok([range] + rest)
  }

  function PreludeHead(prelude: seq<Byte>, sizeBytes: nat): Result<()> {
    var _ :- Need(|prelude| >= 8, TruncatedInput);
    var _ :- Need(prelude[..8] == MAGIC, InvalidMagic);
    var _ :- Need(|prelude| >= PRELUDE_LEN, TruncatedInput);
    var _ :- Need(sizeBytes <= MAX_CONTAINER, LimitExceeded);
    var _ :- Need(prelude[8..12] == VERSION, UnsupportedVersion);
    Need(prelude[12..16] == RESERVED, InvalidHeader)
  }

  function SectionRangesOf(prelude: seq<Byte>, sizeBytes: nat): Result<seq<Range>> {
    var _ :- PreludeHead(prelude, sizeBytes);
    SectionsFrom(prelude, sizeBytes, 0, PRELUDE_LEN)
  }

  /** Sections already read, in front of the outcome for the later ones. */
  function Behind(ranges: seq<Range>, later: Result<seq<Range>>): Result<seq<Range>> {
    match later
    case Ok(rest) => Ok(ranges + rest)
    case Err(e) => Err(e)
  }

  lemma BehindOne(ranges: seq<Range>, range: Range, later: Result<seq<Range>>)
    ensures Behind(ranges, Behind([range], later)) == Behind(ranges + [range], later)
    ensures Behind([], later) == later
  {
    if later.Ok? {
      assert [] + later.value == later.value;
      assert ranges + ([range] + later.value) == (ranges + [range]) + later.value;
    }
  }

  method SectionRanges(prelude: seq<Byte>, sizeBytes: nat) returns (r: Result<seq<Range>>)
    ensures r == SectionRangesOf(prelude, sizeBytes)
  {
    var _ :- PreludeHead(prelude, sizeBytes);
    var ranges, expected: nat, i := [], PRELUDE_LEN, 0;
    ghost var all := SectionsFrom(prelude, sizeBytes, 0, PRELUDE_LEN);
    BehindOne([], Range(0, 0), all);
    while i < 5
      invariant 0 <= i <= 5
      invariant all == Behind(ranges, SectionsFrom(prelude, sizeBytes, i, expected))
    {
      var range :- SectionAt(prelude, sizeBytes, i, expected);
      BehindOne(ranges, range, SectionsFrom(prelude, sizeBytes, i + 1, range.end));
      expected := range.end;
      ranges := ranges + [range];
      i := i + 1;
    }
    if expected != sizeBytes {
      return Err(OutOfBounds);
    }
    assert ranges + [] == ranges;
    return Ok(ranges);
  }

  function EntryBytes(offset: nat, length: nat): (bytes: seq<Byte>)
    ensures |bytes| == 16
  {
    ToLE(offset, 8) + ToLE(length, 8)
  }

  lemma EntryDecodes(entry: seq<Byte>, offset: nat, length: nat)
    requires |entry| == 16 && offset < U64_LIMIT && length < U64_LIMIT
    ensures entry == EntryBytes(offset, length) <==> FromLE(entry[..8]) == offset && FromLE(entry[8..]) == length
  {
    assert entry == entry[..8] + entry[8..];
    var expected := EntryBytes(offset, length);
    assert expected[..8] == ToLE(offset, 8) && expected[8..] == ToLE(length, 8);
    FromToU64(offset);
    FromToU64(length);
    ToFromLE(entry[..8]);
    ToFromLE(entry[8..]);
  }

  /** A section is accepted exactly when its table entry encodes the expected offset
      and a length within bounds that stays inside the file. */
  lemma SectionAccepted(prelude: seq<Byte>, total: nat, i: nat, expected: nat, length: nat)
    requires |prelude| >= PRELUDE_LEN && i < 5 && expected + length <= total < U64_LIMIT
    ensures SectionAt(prelude, total, i, expected) == Ok(Range(expected, expected + length))
      <==> && prelude[16 + 16 * i..32 + 16 * i] == EntryBytes(expected, length)
           && Fits(length, i)
  {
    var base := 16 + i * 16;
    EntryHalves(prelude, base);
    EntryDecodes(prelude[base..base + 16], expected, length);
  }

  lemma EntryHalves(prelude: seq<Byte>, base: nat)
    requires base + 16 <= |prelude|
    ensures prelude[base..base + 16][..8] == prelude[base..base + 8]
    ensures prelude[base..base + 16][8..] == prelude[base + 8..base + 16]
  {
    var entry := prelude[base..base + 16];
    Sequences.SliceOfSlice(prelude, base, base + 16, 0, 8);
    Sequences.SliceOfSlice(prelude, base, base + 16, 8, 16);
    assert entry[..8] == entry[0..8] && entry[8..] == entry[8..16];
  }

  lemma ValidLengthsCons(length: nat, rest: seq<nat>, i: nat)
    requires i < 5
    ensures ValidLengthsFrom([length] + rest, i) <==> Fits(length, i) && ValidLengthsFrom(rest, i + 1)
  {
    var all := [length] + rest;
    if ValidLengthsFrom(all, i) {
      assert Fits(all[0], i + 0);
      forall k | 0 <= k < |rest| ensures Fits(rest[k], i + 1 + k) {
        assert rest[k] == all[k + 1] && Fits(all[k + 1], i + (k + 1));
      }
    }
    if Fits(length, i) && ValidLengthsFrom(rest, i + 1) {
      forall k | 0 <= k < |all| ensures Fits(all[k], i + k) {
        if k > 0 { assert all[k] == rest[k - 1] && Fits(rest[k - 1], i + 1 + (k - 1)); }
      }
    }
  }

  lemma {:induction false} SectionsCons(prelude: seq<Byte>, total: nat, i: nat, expected: nat) returns (range: Range)
    requires |prelude| >= PRELUDE_LEN && i < 5 && SectionsFrom(prelude, total, i, expected).Ok?
    ensures SectionAt(prelude, total, i, expected) == Ok(range) && expected == range.start <= range.end <= total
    ensures SectionsFrom(prelude, total, i + 1, range.end).Ok?
    ensures SectionsFrom(prelude, total, i, expected).value == [range] + SectionsFrom(prelude, total, i + 1, range.end).value
  {
    range := SectionAt(prelude, total, i, expected).value;
  }

  /** Putting one length in front extends the tiling, the total and the table alike. */
  lemma {:induction false} LengthsCons(length: nat, rest: seq<nat>, start: nat)
    ensures Tiling([length] + rest, start) == [Range(start, start + length)] + Tiling(rest, start + length)
    ensures Total([length] + rest) == length + Total(rest)
    ensures PreludeEntries([length] + rest, start) == EntryBytes(start, length) + PreludeEntries(rest, start + length)
  {
    assert ([length] + rest)[1..] == rest;
  }

  lemma {:induction false} TilingCons(range: Range, rest: seq<nat>)
    requires range.start <= range.end
    ensures Tiling([range.end - range.start] + rest, range.start) == [range] + Tiling(rest, range.end)
  {
    LengthsCons(range.end - range.start, rest, range.start);
  }

  /** The table from entry `i` on encodes `lengths`, which fill the file from `expected`. */
  ghost predicate Describes(lengths: seq<nat>, prelude: seq<Byte>, total: nat, i: nat, expected: nat)
    requires |prelude| >= PRELUDE_LEN && i <= 5
  {
    && ValidLengthsFrom(lengths, i)
    && total == expected + Total(lengths)
    && prelude[16 + 16 * i..96] == PreludeEntries(lengths, expected)
  }

  lemma {:induction false} DescribesCons(prelude: seq<Byte>, total: nat, i: nat, range: Range, rest: seq<nat>)
    requires |prelude| >= PRELUDE_LEN && i < 5 && total < U64_LIMIT && range.start <= range.end <= total
    requires SectionAt(prelude, total, i, range.start) == Ok(range)
    requires Describes(rest, prelude, total, i + 1, range.end)
    ensures Describes([range.end - range.start] + rest, prelude, total, i, range.start)
  {
    var length := range.end - range.start;
    SectionAccepted(prelude, total, i, range.start, length);
    ValidLengthsCons(length, rest, i);
    TableCons(prelude, i, length, rest, range.start);
  }

  lemma {:induction false} TableCons(prelude: seq<Byte>, i: nat, length: nat, rest: seq<nat>, start: nat)
    requires |prelude| >= PRELUDE_LEN && i < 5
    requires prelude[16 + 16 * i..32 + 16 * i] == EntryBytes(start, length)
    requires prelude[32 + 16 * i..96] == PreludeEntries(rest, start + length)
    ensures prelude[16 + 16 * i..96] == PreludeEntries([length] + rest, start)
    ensures Total([length] + rest) == length + Total(rest)
  {
    LengthsCons(length, rest, start);
  }

  /** An accepted section table is the encoding of its lengths, and the sections tile
      what is left of the file without a gap. */
  lemma {:induction false} SectionsAreTiled(prelude: seq<Byte>, total: nat, i: nat, expected: nat)
    returns (lengths: seq<nat>)
    requires |prelude| >= PRELUDE_LEN && i <= 5 && total < U64_LIMIT
    requires SectionsFrom(prelude, total, i, expected).Ok?
    ensures Describes(lengths, prelude, total, i, expected)
    ensures SectionsFrom(prelude, total, i, expected).value == Tiling(lengths, expected)
    decreases 5 - i
  {
    if i == 5 {
      lengths := [];
    } else {
      var range := SectionsCons(prelude, total, i, expected);
      var rest := SectionsAreTiled(prelude, total, i + 1, range.end);
      DescribesCons(prelude, total, i, range, rest);
      lengths := [range.end - range.start] + rest;
      TilingCons(range, rest);
    }
  }

  lemma FirstEntryAccepted(prelude: seq<Byte>, total: nat, i: nat, expected: nat, lengths: seq<nat>)
    requires |prelude| >= PRELUDE_LEN && i < 5
    requires ValidLengthsFrom(lengths, i) && total == expected + Total(lengths) < U64_LIMIT
    requires prelude[16 + 16 * i..96] == PreludeEntries(lengths, expected)
    ensures SectionAt(prelude, total, i, expected) == Ok(Range(expected, expected + lengths[0]))
    ensures prelude[16 + 16 * (i + 1)..96] == PreludeEntries(lengths[1..], expected + lengths[0])
    ensures ValidLengthsFrom(lengths[1..], i + 1)
  {
    assert lengths == [lengths[0]] + lengths[1..];
    ValidLengthsCons(lengths[0], lengths[1..], i);
    TableUncons(prelude, i, lengths, expected);
    assert Total(lengths) >= lengths[0];
    SectionAccepted(prelude, total, i, expected, lengths[0]);
  }

  lemma {:induction false} TableUncons(prelude: seq<Byte>, i: nat, lengths: seq<nat>, start: nat)
    requires |prelude| >= PRELUDE_LEN && i < 5 && lengths != []
    requires prelude[16 + 16 * i..96] == PreludeEntries(lengths, start)
    ensures prelude[16 + 16 * i..32 + 16 * i] == EntryBytes(start, lengths[0])
    ensures prelude[16 + 16 * (i + 1)..96] == PreludeEntries(lengths[1..], start + lengths[0])
  {
    EntriesCons(lengths, start);
  }

  /** Conversely the encoding of valid lengths is accepted. */
  lemma {:induction false} TiledIsAccepted(prelude: seq<Byte>, total: nat, i: nat, expected: nat, lengths: seq<nat>)
    requires |prelude| >= PRELUDE_LEN && i <= 5
    requires ValidLengthsFrom(lengths, i) && total == expected + Total(lengths) < U64_LIMIT
    requires prelude[16 + 16 * i..96] == PreludeEntries(lengths, expected)
    ensures SectionsFrom(prelude, total, i, expected) == Ok(Tiling(lengths, expected))
    decreases 5 - i
  {
    if i < 5 {
      var next := expected + lengths[0];
      FirstEntryAccepted(prelude, total, i, expected, lengths);
      TiledIsAccepted(prelude, total, i + 1, next, lengths[1..]);
      SectionsStep(prelude, total, i, expected, Range(expected, next), Tiling(lengths[1..], next));
      TilingOpen(lengths, expected);
    }
  }

  lemma {:induction false} TilingOpen(lengths: seq<nat>, start: nat)
    requires lengths != []
    ensures Tiling(lengths, start)
         == [Range(start, start + lengths[0])] + Tiling(lengths[1..], start + lengths[0])
  {
  }

  lemma SectionsStep(prelude: seq<Byte>, total: nat, i: nat, expected: nat, range: Range, rest: seq<Range>)
    requires |prelude| >= PRELUDE_LEN && i < 5
    requires SectionAt(prelude, total, i, expected) == Ok(range)
    requires SectionsFrom(prelude, total, i + 1, range.end) == Ok(rest)
    ensures SectionsFrom(prelude, total, i, expected) == Ok([range] + rest)
  {
  }

  lemma EntriesCons(lengths: seq<nat>, start: nat)
    requires lengths != []
    ensures PreludeEntries(lengths, start)[..16] == EntryBytes(start, lengths[0])
    ensures PreludeEntries(lengths, start)[16..] == PreludeEntries(lengths[1..], start + lengths[0])
  {
    assert PreludeEntries(lengths, start)
        == EntryBytes(start, lengths[0]) + PreludeEntries(lengths[1..], start + lengths[0]);
  }

  /** The table determines the lengths. */
  lemma {:induction false} EntriesInjective(a: seq<nat>, b: seq<nat>, start: nat)
    requires |a| == |b| && PreludeEntries(a, start) == PreludeEntries(b, start)
    requires start + Total(a) < U64_LIMIT && start + Total(b) < U64_LIMIT
    ensures a == b
  {
    if a != [] {
      EntriesCons(a, start);
      EntriesCons(b, start);
      EntryDecodes(EntryBytes(start, a[0]), start, a[0]);
      EntryDecodes(EntryBytes(start, b[0]), start, b[0]);
      EntriesInjective(a[1..], b[1..], start + a[0]);
      assert a == [a[0]] + a[1..] && b == [b[0]] + b[1..];
    }
  }

  lemma PreludeParts(prelude: seq<Byte>, lengths: seq<nat>)
    requires |prelude| >= PRELUDE_LEN && |lengths| == 5
    ensures prelude[..96] == PreludeBytes(lengths)
      <==> && prelude[..8] == MAGIC && prelude[8..12] == VERSION && prelude[12..16] == RESERVED
           && prelude[16..96] == PreludeEntries(lengths, PRELUDE_LEN)
  {
    var p := PreludeBytes(lengths);
    assert p[..8] == MAGIC && p[8..12] == VERSION && p[12..16] == RESERVED;
    assert p[16..96] == PreludeEntries(lengths, PRELUDE_LEN);
    assert prelude[..96] == prelude[..8] + prelude[8..12] + prelude[12..16] + prelude[16..96];
    if prelude[..96] == p {
      assert prelude[..8] == prelude[..96][..8] && prelude[8..12] == prelude[..96][8..12];
      assert prelude[12..16] == prelude[..96][12..16] && prelude[16..96] == prelude[..96][16..96];
    }
  }

  lemma {:induction false} TilingInjective(a: seq<nat>, b: seq<nat>, start: nat)
    requires Tiling(a, start) == Tiling(b, start)
    ensures a == b
  {
    assert |Tiling(a, start)| == |Tiling(b, start)|;
    if a != [] {
      var ta, tb := Tiling(a, start), Tiling(b, start);
      assert ta[0] == tb[0] && ta[1..] == tb[1..];
      TilingInjective(a[1..], b[1..], start + a[0]);
      assert a == [a[0]] + a[1..] && b == [b[0]] + b[1..];
    }
  }

  /** The prelude parser accepts exactly the encodings of valid section lengths that
      add up to the file size, and returns the tiling they stand for. */
  lemma PreludeAccepted(prelude: seq<Byte>, sizeBytes: nat, lengths: seq<nat>)
    requires ValidLengths(lengths)
    ensures SectionRangesOf(prelude, sizeBytes) == Ok(Tiling(lengths, PRELUDE_LEN))
      <==> |prelude| >= PRELUDE_LEN && prelude[..96] == PreludeBytes(lengths) && sizeBytes == PRELUDE_LEN + Total(lengths)
  {
    CapsFitContainer(lengths);
    if |prelude| >= PRELUDE_LEN { PreludeParts(prelude, lengths); }
    if |prelude| >= PRELUDE_LEN && prelude[..96] == PreludeBytes(lengths) && sizeBytes == PRELUDE_LEN + Total(lengths) {
      TiledIsAccepted(prelude, sizeBytes, 0, PRELUDE_LEN, lengths);
    }
    if SectionRangesOf(prelude, sizeBytes) == Ok(Tiling(lengths, PRELUDE_LEN)) {
      var found := SectionsAreTiled(prelude, sizeBytes, 0, PRELUDE_LEN);
      TilingInjective(found, lengths, PRELUDE_LEN);
    }
  }

  lemma PreludeShape(prelude: seq<Byte>, sizeBytes: nat) returns (lengths: seq<nat>)
    requires SectionRangesOf(prelude, sizeBytes).Ok?
    ensures ValidLengths(lengths)
    ensures SectionRangesOf(prelude, sizeBytes) == Ok(Tiling(lengths, PRELUDE_LEN))
    ensures |prelude| >= PRELUDE_LEN && prelude[..96] == PreludeBytes(lengths)
    ensures sizeBytes == PRELUDE_LEN + Total(lengths)
  {
    lengths := SectionsAreTiled(prelude, sizeBytes, 0, PRELUDE_LEN);
    PreludeAccepted(prelude, sizeBytes, lengths);
  }

  /** Only the first 96 bytes and the size are looked at. */
  lemma OnlyThePreludeMatters(bytes: seq<Byte>, prefix: seq<Byte>)
    requires prefix == if |bytes| < PRELUDE_LEN then bytes[..|bytes|] else bytes[..PRELUDE_LEN]
    ensures SectionRangesOf(prefix, |bytes|) == SectionRangesOf(bytes, |bytes|)
  {
    if |bytes| < PRELUDE_LEN {
      assert bytes[..|bytes|] == bytes;
    } else {
      assert prefix[..8] == bytes[..8] && prefix[8..12] == bytes[8..12] && prefix[12..16] == bytes[12..16];
      SectionsOfPrefix(bytes, 0, PRELUDE_LEN);
    }
  }

  lemma {:induction false} SectionOfPrefix(bytes: seq<Byte>, i: nat, expected: nat)
    requires |bytes| >= PRELUDE_LEN && i < 5
    ensures SectionAt(bytes[..PRELUDE_LEN], |bytes|, i, expected) == SectionAt(bytes, |bytes|, i, expected)
  {
    var base := 16 + i * 16;
    Sequences.SliceOfTake(bytes, PRELUDE_LEN, base, base + 8);
    Sequences.SliceOfTake(bytes, PRELUDE_LEN, base + 8, base + 16);
  }

  lemma {:induction false} SectionsOfPrefix(bytes: seq<Byte>, i: nat, expected: nat)
    requires |bytes| >= PRELUDE_LEN && i <= 5
    ensures SectionsFrom(bytes[..PRELUDE_LEN], |bytes|, i, expected) == SectionsFrom(bytes, |bytes|, i, expected)
    decreases 5 - i
  {
    if i < 5 {
      var section := SectionAt(bytes, |bytes|, i, expected);
      SectionOfPrefix(bytes, i, expected);
      if section.Ok? { SectionsOfPrefix(bytes, i + 1, section.value.end); }
    }
  }

  // ----- writing a prelude -----

  method WriteEntry(buffer: array<Byte>, at: nat, offset: nat, length: nat)
    requires at + 16 <= buffer.Length
    modifies buffer
    ensures buffer[..at + 16] == old(buffer[..at]) + EntryBytes(offset, length)
  {
    ghost var before := buffer[..at];
    PutLE(buffer, at, offset, 8);
    PutLE(buffer, at + 8, length, 8);
    EntryBehind(before, offset, length);
  }

  lemma EntryBehind(before: seq<Byte>, offset: nat, length: nat)
    ensures (before + ToLE(offset, 8)) + ToLE(length, 8) == before + EntryBytes(offset, length)
  {
  }

  lemma PreludeHeadWritten(bytes: array<Byte>)
    requires bytes.Length == 96 && bytes[..10] == MAGIC + ToLE(1, 2)
    requires forall i :: 10 <= i < 96 ==> bytes[i] == 0
    ensures bytes[..16] == MAGIC + VERSION + RESERVED
  {
    assert ToLE(1, 2) == [1, 0] by { assert ToLE(1, 2) == [1 % 256] + ToLE(0, 1) && ToLE(0, 1) == [0] + ToLE(0, 0); }
    assert forall i :: 0 <= i < 10 ==> bytes[i] == bytes[..10][i];
  }

  lemma NoEntries(before: seq<Byte>, lengths: seq<nat>, start: nat)
    ensures before + PreludeEntries(lengths[|lengths|..], start) == before
    ensures Total(lengths[|lengths|..]) == 0
  {
  }

  method WritePrelude(lengths: seq<nat>) returns (prelude: seq<Byte>, offset: nat)
    requires |lengths| == 5
    ensures prelude == PreludeBytes(lengths) && offset == PRELUDE_LEN + Total(lengths)
  {
    var bytes := new Byte[96](_ => 0);
    forall i | 0 <= i < 8 { bytes[i] := MAGIC[i]; }
    assert bytes[..8] == MAGIC;
    PutLE(bytes, 8, 1, 2);
    PreludeHeadWritten(bytes);
    offset := PRELUDE_LEN;
    var index := 0;
    while index < 5
      invariant 0 <= index <= 5 && bytes.Length == 96
      invariant bytes[..16 + 16 * index] + PreludeEntries(lengths[index..], offset) == PreludeBytes(lengths)
      invariant offset + Total(lengths[index..]) == PRELUDE_LEN + Total(lengths)
    {
      assert lengths[index..][1..] == lengths[index + 1..];
      EntriesAppend(bytes[..16 + 16 * index], lengths, index, offset);
      WriteEntry(bytes, 16 + 16 * index, offset, lengths[index]);
      offset := offset + lengths[index];
      index := index + 1;
    }
    NoEntries(bytes[..96], lengths, offset);
    assert bytes[..96] == bytes[..];
    prelude := bytes[..];
  }

  lemma EntriesAppend(before: seq<Byte>, lengths: seq<nat>, i: nat, start: nat)
    requires i < |lengths|
    ensures (before + EntryBytes(start, lengths[i])) + PreludeEntries(lengths[i + 1..], start + lengths[i])
         == before + PreludeEntries(lengths[i..], start)
  {
    assert lengths[i..][1..] == lengths[i + 1..];
  }

  /** Encodes exactly the valid section lengths; the final self-check rejects the rest. */
  method EncodePrelude(lengths: seq<nat>) returns (r: Result<seq<Byte>>)
    requires |lengths| == 5
    ensures r.Ok? <==> ValidLengths(lengths)
    ensures r.Ok? ==> r.value == PreludeBytes(lengths)
  {
    if ValidLengths(lengths) { ValidLengthsBounds(lengths); }
    if 0 in lengths
       || lengths[0] > MAX_HEADER
       || lengths[1] > MAX_ENCRYPTED_MANIFEST
       || lengths[2] > MAX_ENCRYPTED_INDEX
       || lengths[3] > MAX_ENCRYPTED_DATA
       || lengths[4] != SIGNATURE_BLOCK_LEN
    {
      return Err(LimitExceeded);
    }
    TotalOfFive(lengths);
    var bytes, offset := WritePrelude(lengths);
    if offset > MAX_CONTAINER {
      return Err(LimitExceeded);
    }
    assert bytes[..96] == bytes;
    if ValidLengths(lengths) {
      PreludeAccepted(bytes, offset, lengths);
    }
    var _ :- SectionRanges(bytes, offset);
    OnlyValidLengthsPass(lengths, offset);
    return Ok(bytes);
  }

  lemma ValidLengthsBounds(lengths: seq<nat>)
    requires ValidLengths(lengths)
    ensures 0 !in lengths && lengths[0] <= MAX_HEADER && lengths[1] <= MAX_ENCRYPTED_MANIFEST
    ensures lengths[2] <= MAX_ENCRYPTED_INDEX && lengths[3] <= MAX_ENCRYPTED_DATA && lengths[4] == SIGNATURE_BLOCK_LEN
  {
    assert forall i :: 0 <= i < 5 ==> Fits(lengths[i], 0 + i);
  }

  lemma OnlyValidLengthsPass(lengths: seq<nat>, sizeBytes: nat)
    requires |lengths| == 5 && PRELUDE_LEN + Total(lengths) < U64_LIMIT
    requires SectionRangesOf(PreludeBytes(lengths), sizeBytes).Ok?
    ensures ValidLengths(lengths)
  {
    var found := PreludeShape(PreludeBytes(lengths), sizeBytes);
    var prelude := PreludeBytes(lengths);
    assert prelude[..96] == prelude;
    PreludeParts(prelude, found);
    PreludeParts(prelude, lengths);
    CapsFitContainer(found);
    EntriesInjective(found, lengths, PRELUDE_LEN);
  }

  // ----- the size a prelude declares -----

  function DeclaredSize(prelude: seq<Byte>): Result<nat> {
    var _ :- Need(|prelude| == PRELUDE_LEN, TruncatedInput);
    var end := FromLE(prelude[80..88]) + FromLE(prelude[88..96]);
    var _ :- Need(end < U64_LIMIT, OutOfBounds);
    Ok(end)
  }

  lemma {:induction false} TotalSplit(lengths: seq<nat>, k: nat)
    requires k < |lengths|
    ensures Total(lengths[..k]) + lengths[k] + Total(lengths[k + 1..]) == Total(lengths)
  {
    if k > 0 {
      TotalSplit(lengths[1..], k - 1);
      assert lengths[..k][1..] == lengths[1..][..k - 1] && lengths[1..][k..] == lengths[k + 1..];
    }
  }

  /** What is left of the table behind its first `i` entries. */
  lemma {:induction false} TableFrom(prelude: seq<Byte>, lengths: seq<nat>, i: nat)
    requires |prelude| >= PRELUDE_LEN && |lengths| == 5 && i < 5
    requires prelude[16..96] == PreludeEntries(lengths, PRELUDE_LEN)
    ensures prelude[16 + 16 * i..96] == PreludeEntries(lengths[i..], PRELUDE_LEN + Total(lengths[..i]))
  {
    if i == 0 {
      assert lengths[0..] == lengths && lengths[..0] == [];
    } else {
      TableFrom(prelude, lengths, i - 1);
      TableUncons(prelude, i - 1, lengths[i - 1..], PRELUDE_LEN + Total(lengths[..i - 1]));
      TotalOfPrefix(lengths, i - 1);
      assert lengths[i - 1..][1..] == lengths[i..];
    }
  }

  lemma {:induction false} LastEntry(prelude: seq<Byte>, lengths: seq<nat>)
    requires |prelude| == PRELUDE_LEN && |lengths| == 5 && prelude == PreludeBytes(lengths)
    ensures prelude[80..96] == EntryBytes(PRELUDE_LEN + Total(lengths[..4]), lengths[4])
  {
    TableBehindHead(prelude, lengths);
    TableFrom(prelude, lengths, 4);
    TableUncons(prelude, 4, lengths[4..], PRELUDE_LEN + Total(lengths[..4]));
  }

  lemma {:induction false} TableBehindHead(prelude: seq<Byte>, lengths: seq<nat>)
    requires |lengths| == 5 && prelude == PreludeBytes(lengths)
    ensures prelude[16..96] == PreludeEntries(lengths, PRELUDE_LEN)
  {
    BehindHead(MAGIC + VERSION + RESERVED, PreludeEntries(lengths, PRELUDE_LEN));
  }

  lemma BehindHead(head: seq<Byte>, table: seq<Byte>)
    requires |head| == 16 && |table| == 80
    ensures (head + table)[16..96] == table
  {
  }

  lemma {:induction false} LastEntryEnds(lengths: seq<nat>)
    requires |lengths| == 5
    ensures Total(lengths[..4]) + lengths[4] == Total(lengths)
  {
    TotalSplit(lengths, 4);
    assert Total(lengths[5..]) == 0;
  }

  /** A prelude accepted for some file size declares that size: the end of the last
      section, read on its own, is the end of the file. */
  lemma DeclaredSizeIsTheFileSize(prelude: seq<Byte>, sizeBytes: nat)
    requires |prelude| == PRELUDE_LEN && SectionRangesOf(prelude, sizeBytes).Ok?
    ensures DeclaredSize(prelude) == Ok(sizeBytes)
  {
    var lengths := PreludeShape(prelude, sizeBytes);
    CapsFitContainer(lengths);
    WholePrelude(prelude, PreludeBytes(lengths));
    DeclaredEnd(prelude, lengths);
  }

  lemma WholePrelude(prelude: seq<Byte>, expected: seq<Byte>)
    requires |prelude| == 96 && prelude[..96] == expected
    ensures prelude == expected
  {
  }

  lemma {:induction false} DeclaredEnd(prelude: seq<Byte>, lengths: seq<nat>)
    requires |prelude| == PRELUDE_LEN && |lengths| == 5 && prelude == PreludeBytes(lengths)
    requires PRELUDE_LEN + Total(lengths) < U64_LIMIT
    ensures FromLE(prelude[80..88]) + FromLE(prelude[88..96]) == PRELUDE_LEN + Total(lengths)
  {
    LastEntry(prelude, lengths);
    LastEntryEnds(lengths);
    EndOfEntry(prelude, PRELUDE_LEN + Total(lengths[..4]), lengths[4]);
  }

  lemma {:induction false} EndOfEntry(prelude: seq<Byte>, offset: nat, length: nat)
    requires |prelude| == PRELUDE_LEN && prelude[80..96] == EntryBytes(offset, length) && offset + length < U64_LIMIT
    ensures FromLE(prelude[80..88]) + FromLE(prelude[88..96]) == offset + length
  {
    EntryHalves(prelude, 80);
    EntryDecodes(prelude[80..96], offset, length);
  }

  // ----- where accepted sections lie -----

  /** Five sections of admissible lengths that fill a file behind its prelude. */
  ghost predicate WellLaid(ranges: seq<Range>, total: nat) {
    && |ranges| == 5 && ranges[0].start == PRELUDE_LEN && ranges[4].end == total
    && (forall i :: 0 <= i < 4 ==> ranges[i].end == ranges[i + 1].start)
    && forall i :: 0 <= i < 5 ==> Minimum(i) <= ranges[i].end - ranges[i].start <= Cap(i)
  }

  lemma {:induction false} TilingAt(lengths: seq<nat>, start: nat, i: nat)
    requires i < |lengths|
    ensures Tiling(lengths, start)[i] == Range(start + Total(lengths[..i]), start + Total(lengths[..i]) + lengths[i])
  {
    if i > 0 {
      TilingAt(lengths[1..], start + lengths[0], i - 1);
      assert lengths[..i][1..] == lengths[1..][..i - 1];
    }
  }

  lemma TotalOfPrefix(lengths: seq<nat>, i: nat)
    requires i < |lengths|
    ensures Total(lengths[..i + 1]) == Total(lengths[..i]) + lengths[i]
  {
    TotalSplit(lengths[..i + 1], i);
    assert lengths[..i + 1][..i] == lengths[..i] && lengths[..i + 1][i + 1..] == [];
  }

  lemma AcceptedIsWellLaid(prelude: seq<Byte>, sizeBytes: nat)
    requires SectionRangesOf(prelude, sizeBytes).Ok?
    ensures WellLaid(SectionRangesOf(prelude, sizeBytes).value, sizeBytes)
  {
    var lengths := PreludeShape(prelude, sizeBytes);
    TilingIsWellLaid(lengths);
  }

  lemma FiveRanges(lengths: seq<nat>)
    requires |lengths| == 5
    ensures var ranges := Tiling(lengths, PRELUDE_LEN);
      && ranges[0] == Range(PRELUDE_LEN, PRELUDE_LEN + lengths[0])
      && ranges[1] == Range(ranges[0].end, ranges[0].end + lengths[1])
      && ranges[2] == Range(ranges[1].end, ranges[1].end + lengths[2])
      && ranges[3] == Range(ranges[2].end, ranges[2].end + lengths[3])
      && ranges[4] == Range(ranges[3].end, ranges[3].end + lengths[4])
  {
    forall i | 0 <= i < 5
      ensures Tiling(lengths, PRELUDE_LEN)[i]
           == Range(PRELUDE_LEN + Total(lengths[..i]), PRELUDE_LEN + Total(lengths[..i]) + lengths[i])
      ensures Total(lengths[..i + 1]) == Total(lengths[..i]) + lengths[i]
    {
      TilingAt(lengths, PRELUDE_LEN, i);
      TotalOfPrefix(lengths, i);
    }
    assert Total(lengths[..0]) == 0 && Total(lengths[..0 + 1]) == lengths[0];
    assert Total(lengths[..1 + 1]) == lengths[0] + lengths[1];
    assert Total(lengths[..2 + 1]) == lengths[0] + lengths[1] + lengths[2];
    assert Total(lengths[..3 + 1]) == lengths[0] + lengths[1] + lengths[2] + lengths[3];
  }

  lemma TilingIsWellLaid(lengths: seq<nat>)
    requires ValidLengths(lengths)
    ensures WellLaid(Tiling(lengths, PRELUDE_LEN), PRELUDE_LEN + Total(lengths))
  {
    FiveRanges(lengths);
    TotalOfFive(lengths);
    ChainIsWellLaid(Tiling(lengths, PRELUDE_LEN), lengths, PRELUDE_LEN + Total(lengths));
  }

  lemma ChainIsWellLaid(ranges: seq<Range>, lengths: seq<nat>, total: nat)
    requires ValidLengths(lengths) && |ranges| == 5 && ranges[0].start == PRELUDE_LEN && ranges[4].end == total
    requires ranges[0].end == ranges[1].start && ranges[1].end == ranges[2].start
    requires ranges[2].end == ranges[3].start && ranges[3].end == ranges[4].start
    requires ranges[0].end == ranges[0].start + lengths[0] && ranges[1].end == ranges[1].start + lengths[1]
    requires ranges[2].end == ranges[2].start + lengths[2] && ranges[3].end == ranges[3].start + lengths[3]
    requires ranges[4].end == ranges[4].start + lengths[4]
    ensures WellLaid(ranges, total)
  {
    forall i | 0 <= i < 5 ensures Minimum(i) <= ranges[i].end - ranges[i].start <= Cap(i) {
      assert Fits(lengths[i], 0 + i);
      assert i == 0 || i == 1 || i == 2 || i == 3 || i == 4;
    }
    forall i | 0 <= i < 4 ensures ranges[i].end == ranges[i + 1].start {
      assert i == 0 || i == 1 || i == 2 || i == 3;
    }
  }

  // ----- whole containers -----

  function Lengths(sections: seq<seq<Byte>>): (lengths: seq<nat>)
    ensures |lengths| == |sections|
    ensures forall i :: 0 <= i < |sections| ==> lengths[i] == |sections[i]|
  {
    if sections == [] then [] else [|sections[0]|] + Lengths(sections[1..])
  }

  lemma {:induction false} FlattenLength(sections: seq<seq<Byte>>)
    ensures |Flatten(sections)| == Total(Lengths(sections))
  {
    if sections != [] {
      FlattenLength(sections[1..]);
      assert Lengths(sections)[1..] == Lengths(sections[1..]);
    }
  }

  function ContainerBytes(sections: seq<seq<Byte>>): seq<Byte> {
    PreludeBytes(Lengths(sections)) + Flatten(sections)
  }

  ghost predicate RangesInside(ranges: seq<Range>, total: nat) {
    forall i :: 0 <= i < |ranges| ==> ranges[i].start <= ranges[i].end <= total
  }

  function Slices(bytes: seq<Byte>, ranges: seq<Range>): seq<seq<Byte>>
    requires RangesInside(ranges, |bytes|)
  {
    if ranges == [] then []
    else
      assert forall i :: 0 <= i < |ranges[1..]| ==> ranges[1..][i] == ranges[i + 1];
      [bytes[ranges[0].start..ranges[0].end]] + Slices(bytes, ranges[1..])
  }

  lemma {:induction false} SectionsInside(prelude: seq<Byte>, total: nat, i: nat, expected: nat)
    requires |prelude| >= PRELUDE_LEN && i <= 5
    ensures SectionsFrom(prelude, total, i, expected).Ok? ==>
      var ranges := SectionsFrom(prelude, total, i, expected).value;
      |ranges| == 5 - i && RangesInside(ranges, total)
    decreases 5 - i
  {
    if i < 5 {
      var section := SectionAt(prelude, total, i, expected);
      if section.Ok? { SectionsInside(prelude, total, i + 1, section.value.end); }
    }
  }

  /** Cutting a tiled file gives back the sections, and pasting the cuts gives the file. */
  lemma {:induction false} CutAndPaste(bytes: seq<Byte>, lengths: seq<nat>, start: nat)
    requires |bytes| == start + Total(lengths)
    ensures RangesInside(Tiling(lengths, start), |bytes|)
    ensures Flatten(Slices(bytes, Tiling(lengths, start))) == bytes[start..]
    ensures Lengths(Slices(bytes, Tiling(lengths, start))) == lengths
  {
    if lengths != [] {
      var next := start + lengths[0];
      CutAndPaste(bytes, lengths[1..], next);
      var ranges := Tiling(lengths, start);
      assert ranges[1..] == Tiling(lengths[1..], next);
      assert forall i :: 0 < i < |ranges| ==> ranges[i] == ranges[1..][i - 1];
      assert bytes[start..] == bytes[start..next] + bytes[next..];
    }
  }

  lemma {:induction false} FlattenInjective(a: seq<seq<Byte>>, b: seq<seq<Byte>>)
    requires Lengths(a) == Lengths(b) && Flatten(a) == Flatten(b)
    ensures a == b
  {
    assert |Lengths(a)| == |Lengths(b)|;
    if a != [] {
      assert Lengths(a)[0] == Lengths(b)[0] && Lengths(a)[1..] == Lengths(b)[1..];
      assert a[0] == Flatten(a)[..|a[0]|] == b[0];
      assert Flatten(a[1..]) == Flatten(a)[|a[0]|..] == Flatten(b[1..]);
      FlattenInjective(a[1..], b[1..]);
      assert a == [a[0]] + a[1..] && b == [b[0]] + b[1..];
    }
  }

  // ----- the public header -----

  /** The header as the archive core uses it: the archive id and everything else. */
  datatype PublicHeader = PublicHeader(archiveId: string, details: string)

  /** Canonical JSON of headers, and the field checks other than the archive id. */
  datatype HeaderCodec = HeaderCodec(
    jcs: PublicHeader -> seq<Byte>,
    decode: seq<Byte> -> Option<PublicHeader>,
    acceptable: PublicHeader -> bool)

  ghost predicate LawfulHeaders(c: HeaderCodec) {
    forall h: PublicHeader {:trigger c.jcs(h)} :: c.jcs(h) != [] && c.decode(c.jcs(h)) == Some(h)
  }

  predicate ValidHeader(c: HeaderCodec, h: PublicHeader) {
    Manifests.ValidId(h.archiveId) && c.acceptable(h)
  }

  /** Only the canonical bytes of a valid header parse. */
  function ParseHeader(c: HeaderCodec, bytes: seq<Byte>): Result<PublicHeader> {
    match c.decode(bytes)
    case None => Err(InvalidHeader)
    case Some(h) =>
      var _ :- Need(c.jcs(h) == bytes, InvalidHeader);
      var _ :- Need(ValidHeader(c, h), InvalidHeader);
      Ok(h)
  }

  datatype UnverifiedContainer = UnverifiedContainer(header: PublicHeader, sections: seq<seq<Byte>>)

  function ParseStructure(c: HeaderCodec, bytes: seq<Byte>): Result<UnverifiedContainer> {
    var ranges :- SectionRangesOf(bytes, |bytes|);
    SectionsInside(bytes, |bytes|, 0, PRELUDE_LEN);
    var sections := Slices(bytes, ranges);
    var header :- ParseHeader(c, sections[0]);
    Ok(UnverifiedContainer(header, sections))
  }

  /** Every accepted file is the encoding of its own header and sections. */
  lemma SerializeAfterParse(c: HeaderCodec, bytes: seq<Byte>)
    requires ParseStructure(c, bytes).Ok?
    ensures var parsed := ParseStructure(c, bytes).value;
      && |parsed.sections| == 5 && ValidHeader(c, parsed.header)
      && parsed.sections[0] == c.jcs(parsed.header)
      && ValidLengths(Lengths(parsed.sections))
      && ContainerBytes(parsed.sections) == bytes
  {
    var lengths := PreludeShape(bytes, |bytes|);
    CutAndPaste(bytes, lengths, PRELUDE_LEN);
    assert bytes == bytes[..96] + bytes[96..];
  }

  /** Every encoding of a valid header and sections of valid lengths is accepted. */
  lemma ParseAfterSerialize(c: HeaderCodec, header: PublicHeader, sections: seq<seq<Byte>>)
    requires LawfulHeaders(c) && ValidHeader(c, header)
    requires |sections| == 5 && sections[0] == c.jcs(header) && ValidLengths(Lengths(sections))
    ensures ParseStructure(c, ContainerBytes(sections)) == Ok(UnverifiedContainer(header, sections))
  {
    var bytes, lengths := ContainerBytes(sections), Lengths(sections);
    FlattenLength(sections);
    assert bytes[..96] == PreludeBytes(lengths) && bytes[96..] == Flatten(sections);
    PreludeAccepted(bytes, |bytes|, lengths);
    CutAndPaste(bytes, lengths, PRELUDE_LEN);
    FlattenInjective(Slices(bytes, Tiling(lengths, PRELUDE_LEN)), sections);
  }

  /** Writes the table of the sections behind the fixed head. */
  method WriteTable(head: seq<Byte>, sections: seq<seq<Byte>>) returns (bytes: seq<Byte>)
    requires |sections| == 5
    ensures bytes == head + PreludeEntries(Lengths(sections), PRELUDE_LEN)
  {
    ghost var lengths := Lengths(sections);
    var offset: nat, i: nat := PRELUDE_LEN, 0;
    bytes := head;
    assert lengths[0..] == lengths;
    while i < 5
      invariant 0 <= i <= 5
      invariant bytes + PreludeEntries(lengths[i..], offset) == head + PreludeEntries(lengths, PRELUDE_LEN)
    {
      EntriesAppend(bytes, lengths, i, offset);
      bytes := bytes + EntryBytes(offset, |sections[i]|);
      offset := offset + |sections[i]|;
      i := i + 1;
    }
    NoEntries(bytes, lengths, offset);
  }

  method WriteSections(prelude: seq<Byte>, sections: seq<seq<Byte>>) returns (bytes: seq<Byte>)
    ensures bytes == prelude + Flatten(sections)
  {
    bytes := prelude;
    var i := 0;
    while i < |sections|
      invariant 0 <= i <= |sections|
      invariant bytes + Flatten(sections[i..]) == prelude + Flatten(sections)
    {
      assert sections[i..][1..] == sections[i + 1..];
      bytes := bytes + sections[i];
      i := i + 1;
    }
  }

  /** Succeeds exactly on a valid header and protected sections within their limits. */
  method SerializeStructure(c: HeaderCodec, header: PublicHeader, protectedSections: seq<seq<Byte>>)
    returns (r: Result<seq<Byte>>)
    requires LawfulHeaders(c) && |protectedSections| == 4
    ensures r.Ok? <==> ValidHeader(c, header) && ValidLengths(Lengths([c.jcs(header)] + protectedSections))
    ensures r.Ok? ==> r.value == ContainerBytes([c.jcs(header)] + protectedSections)
  {
    if !ValidHeader(c, header) {
      return Err(InvalidHeader);
    }
    var sections := [c.jcs(header)] + protectedSections;
    SerializationChecks(c, header, sections);
    if PRELUDE_LEN + Total(Lengths(sections)) > MAX_CONTAINER {
      return Err(LimitExceeded);
    }
    var prelude := WriteTable(MAGIC + VERSION + RESERVED, sections);
    var bytes := WriteSections(prelude, sections);
    var _ :- ParseStructure(c, bytes);
    return Ok(bytes);
  }

  /** The size check and the final parse together accept exactly the valid lengths. */
  lemma SerializationChecks(c: HeaderCodec, header: PublicHeader, sections: seq<seq<Byte>>)
    requires LawfulHeaders(c) && ValidHeader(c, header) && |sections| == 5 && sections[0] == c.jcs(header)
    ensures PRELUDE_LEN + Total(Lengths(sections)) <= MAX_CONTAINER && ParseStructure(c, ContainerBytes(sections)).Ok?
            <==> ValidLengths(Lengths(sections))
  {
    if ValidLengths(Lengths(sections)) {
      CapsFitContainer(Lengths(sections));
      ParseAfterSerialize(c, header, sections);
    } else if PRELUDE_LEN + Total(Lengths(sections)) <= MAX_CONTAINER && ParseStructure(c, ContainerBytes(sections)).Ok? {
      SerializedLengthsAreValid(sections);
    }
  }

  lemma SerializedLengthsAreValid(sections: seq<seq<Byte>>)
    requires |sections| == 5 && PRELUDE_LEN + Total(Lengths(sections)) <= MAX_CONTAINER
    requires SectionRangesOf(ContainerBytes(sections), |ContainerBytes(sections)|).Ok?
    ensures ValidLengths(Lengths(sections))
  {
    var bytes := ContainerBytes(sections);
    FlattenLength(sections);
    assert bytes[..96] == PreludeBytes(Lengths(sections));
    OnlyThePreludeMatters(bytes, bytes[..96]);
    OnlyValidLengthsPass(Lengths(sections), |bytes|);
  }

  // ----- inspection without reading the protected sections -----

  datatype UnverifiedInspection = UnverifiedInspection(header: PublicHeader, sizeBytes: nat, sectionSizes: seq<nat>)

  /** What an inspection shows of a fully parsed container. */
  function Summary(parsed: Result<UnverifiedContainer>, sizeBytes: nat): Result<UnverifiedInspection> {
    match parsed
    case Err(e) => Err(e)
    case Ok(container) => Ok(UnverifiedInspection(container.header, sizeBytes, Lengths(container.sections)))
  }

  /** Reads the prelude and the header only, and agrees with the full parser on every
      file: same error, or same header, size and section sizes. */
  method InspectStructure(c: HeaderCodec, reader: InputFile) returns (r: Result<UnverifiedInspection>)
    modifies reader
    ensures r == Summary(ParseStructure(c, reader.bytes), |reader.bytes|)
  {
    var sizeBytes := reader.SeekEnd();
    reader.SeekStart(0);
    var prefixLength := if sizeBytes < PRELUDE_LEN then sizeBytes else PRELUDE_LEN;
    var prelude := reader.Take(prefixLength);
    assert prelude == reader.bytes[..prefixLength];
    PreludeErrors(c, reader.bytes, prelude);
    var ranges :- SectionRanges(prelude, sizeBytes);
    InspectionReads(c, reader.bytes, ranges);
    r := InspectHeader(c, reader, sizeBytes, ranges);
  }

  /** The header that follows the prelude, once the section table is accepted. */
  method InspectHeader(c: HeaderCodec, reader: InputFile, sizeBytes: nat, ranges: seq<Range>)
    returns (r: Result<UnverifiedInspection>)
    requires SectionRangesOf(reader.bytes, sizeBytes) == Ok(ranges) && reader.position == PRELUDE_LEN
    requires sizeBytes == |reader.bytes|
    modifies reader
    ensures r == Summary(ParseStructure(c, reader.bytes), |reader.bytes|)
  {
    InspectionReads(c, reader.bytes, ranges);
    var headerBytes := reader.Take(ranges[0].end - ranges[0].start);
    var header :- ParseHeader(c, headerBytes);
    var after := reader.SeekEnd();
    if after != sizeBytes {
      return Err(OutOfBounds);
    }
    return Ok(UnverifiedInspection(header, sizeBytes, RangeLengths(ranges)));
  }

  lemma PreludeErrors(c: HeaderCodec, bytes: seq<Byte>, prefix: seq<Byte>)
    requires prefix == if |bytes| < PRELUDE_LEN then bytes[..|bytes|] else bytes[..PRELUDE_LEN]
    ensures match SectionRangesOf(prefix, |bytes|)
            case Err(e) => Summary(ParseStructure(c, bytes), |bytes|) == Err(e)
            case Ok(ranges) => SectionRangesOf(bytes, |bytes|) == Ok(ranges)
  {
    OnlyThePreludeMatters(bytes, prefix);
  }

  function RangeLengths(ranges: seq<Range>): (lengths: seq<nat>)
    requires forall i :: 0 <= i < |ranges| ==> ranges[i].start <= ranges[i].end
    ensures |lengths| == |ranges|
    ensures forall i :: 0 <= i < |ranges| ==> lengths[i] == ranges[i].end - ranges[i].start
  {
    if ranges == [] then [] else [ranges[0].end - ranges[0].start] + RangeLengths(ranges[1..])
  }

  /** What the full parser does on a file whose prelude is accepted, in terms of the
      header bytes that directly follow the prelude. */
  lemma InspectionReads(c: HeaderCodec, bytes: seq<Byte>, ranges: seq<Range>)
    requires SectionRangesOf(bytes, |bytes|) == Ok(ranges)
    ensures |bytes| >= PRELUDE_LEN && |ranges| == 5 && RangesInside(ranges, |bytes|)
    ensures ranges[0].start == PRELUDE_LEN
    ensures match ParseHeader(c, bytes[PRELUDE_LEN..ranges[0].end])
            case Err(e) => Summary(ParseStructure(c, bytes), |bytes|) == Err(e)
            case Ok(header) =>
              Summary(ParseStructure(c, bytes), |bytes|)
              == Ok(UnverifiedInspection(header, |bytes|, RangeLengths(ranges)))
  {
    SectionsOfFile(bytes, ranges);
  }

  lemma SectionsOfFile(bytes: seq<Byte>, ranges: seq<Range>)
    requires SectionRangesOf(bytes, |bytes|) == Ok(ranges)
    ensures |bytes| >= PRELUDE_LEN && |ranges| == 5 && RangesInside(ranges, |bytes|)
    ensures ranges[0].start == PRELUDE_LEN
    ensures |Slices(bytes, ranges)| == 5 && Slices(bytes, ranges)[0] == bytes[PRELUDE_LEN..ranges[0].end]
    ensures Lengths(Slices(bytes, ranges)) == RangeLengths(ranges)
  {
    var lengths := PreludeShape(bytes, |bytes|);
    SlicesOfTiling(bytes, lengths, PRELUDE_LEN);
  }

  lemma SlicesOfTiling(bytes: seq<Byte>, lengths: seq<nat>, start: nat)
    requires lengths != [] && |bytes| == start + Total(lengths)
    ensures var ranges := Tiling(lengths, start);
      && RangesInside(ranges, |bytes|) && ranges[0].start == start
      && |Slices(bytes, ranges)| == |lengths| && Slices(bytes, ranges)[0] == bytes[start..ranges[0].end]
      && Lengths(Slices(bytes, ranges)) == RangeLengths(ranges)
  {
    CutAndPaste(bytes, lengths, start);
    SliceLengths(bytes, Tiling(lengths, start));
  }

  lemma {:induction false} SliceLengths(bytes: seq<Byte>, ranges: seq<Range>)
    requires RangesInside(ranges, |bytes|)
    ensures |Slices(bytes, ranges)| == |ranges|
    ensures forall i :: 0 <= i < |ranges| ==> Lengths(Slices(bytes, ranges))[i] == ranges[i].end - ranges[i].start
  {
    if ranges != [] {
      assert forall i :: 0 < i < |ranges| ==> ranges[i] == ranges[1..][i - 1];
      SliceLengths(bytes, ranges[1..]);
    }
  }
}
