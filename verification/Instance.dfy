/** The laws that the archive theorems rest on can be met: a platform that satisfies them
    and a request that can be built on it. Numbers are written in unary and characters in
    four bytes, which makes every encoding uniquely readable from the front. */
module Instances {
  import opened Outcomes
  import opened Results
  import opened Bytes
  import opened Paths
  import opened Manifests
  import opened Container
  import opened ProductionCrypto
  import opened Discovery
  import opened Platforms
  import opened Chunks
  import opened Builder
  import opened Preparation
  import Sequences

  // ----- uniquely readable encodings, each in front of `rest` -----

  function Number(n: nat, rest: seq<Byte>): (bytes: seq<Byte>)
    ensures |bytes| == n + 1 + |rest|
  {
    if n == 0 then [0] + rest else [1] + Number(n - 1, rest)
  }

  lemma {:induction false} NumberReads(n: nat, m: nat, x: seq<Byte>, y: seq<Byte>)
    requires Number(n, x) == Number(m, y)
    ensures n == m && x == y
  {
    var a, b := Number(n, x), Number(m, y);
    assert a[0] == b[0] && a[1..] == b[1..];
    if n == 0 {
      assert a[1..] == x && b[1..] == y;
    } else {
      assert a[1..] == Number(n - 1, x) && b[1..] == Number(m - 1, y);
      NumberReads(n - 1, m - 1, x, y);
    }
  }

  function Letters(s: string, rest: seq<Byte>): (bytes: seq<Byte>)
    ensures |bytes| == 4 * |s| + |rest|
  {
    if s == "" then rest else ToLE(s[0] as int, 4) + Letters(s[1..], rest)
  }

  lemma {:induction false} LettersRead(s: string, t: string, x: seq<Byte>, y: seq<Byte>)
    requires |s| == |t| && Letters(s, x) == Letters(t, y)
    ensures s == t && x == y
  {
    if s != "" {
      var a, b := Letters(s, x), Letters(t, y);
      assert a[..4] == ToLE(s[0] as int, 4) && b[..4] == ToLE(t[0] as int, 4);
      assert a[4..] == Letters(s[1..], x) && b[4..] == Letters(t[1..], y);
      FromToU32(s[0] as int);
      FromToU32(t[0] as int);
      LettersRead(s[1..], t[1..], x, y);
      assert s == [s[0]] + s[1..] && t == [t[0]] + t[1..];
    }
  }

  function Text(s: string, rest: seq<Byte>): (bytes: seq<Byte>)
    ensures |bytes| == 5 * |s| + 1 + |rest|
  {
    Number(|s|, Letters(s, rest))
  }

  lemma TextReads(s: string, t: string, x: seq<Byte>, y: seq<Byte>)
    requires Text(s, x) == Text(t, y)
    ensures s == t && x == y
  {
    NumberReads(|s|, |t|, Letters(s, x), Letters(t, y));
    LettersRead(s, t, x, y);
  }

  function MimeNumber(mime: Mime): nat {
    match mime
    case Pdf => 0 case Png => 1 case Jpeg => 2 case WebP => 3 case Docx => 4 case Xlsx => 5
    case OtherMime(_) => 6
  }

  function MimeBytes(mime: Mime, rest: seq<Byte>): (bytes: seq<Byte>)
    ensures mime == Pdf ==> |bytes| == 2 + |rest|
  {
    Number(MimeNumber(mime), Text(if mime.OtherMime? then mime.name else "", rest))
  }

  lemma MimeReads(m: Mime, n: Mime, x: seq<Byte>, y: seq<Byte>)
    requires MimeBytes(m, x) == MimeBytes(n, y)
    ensures m == n && x == y
  {
    var s, t := if m.OtherMime? then m.name else "", if n.OtherMime? then n.name else "";
    NumberReads(MimeNumber(m), MimeNumber(n), Text(s, x), Text(t, y));
    TextReads(s, t, x, y);
  }

  function Numbers(ns: seq<nat>, rest: seq<Byte>): seq<Byte> {
    if ns == [] then Number(0, rest) else Number(1, Number(ns[0], Numbers(ns[1..], rest)))
  }

  lemma {:induction false} NumbersRead(a: seq<nat>, b: seq<nat>, x: seq<Byte>, y: seq<Byte>)
    requires Numbers(a, x) == Numbers(b, y)
    ensures a == b && x == y
  {
    if a == [] || b == [] {
      NumberReads(if a == [] then 0 else 1, if b == [] then 0 else 1,
                  if a == [] then x else Number(a[0], Numbers(a[1..], x)),
                  if b == [] then y else Number(b[0], Numbers(b[1..], y)));
    } else {
      NumberReads(1, 1, Number(a[0], Numbers(a[1..], x)), Number(b[0], Numbers(b[1..], y)));
      NumberReads(a[0], b[0], Numbers(a[1..], x), Numbers(b[1..], y));
      NumbersRead(a[1..], b[1..], x, y);
      assert a == [a[0]] + a[1..] && b == [b[0]] + b[1..];
    }
  }

  function Flag(flag: bool): nat {
    if flag then 1 else 0
  }

  function PolicyBytes(policy: ViewerPolicy, rest: seq<Byte>): (bytes: seq<Byte>)
    ensures |bytes| <= 6 + |rest|
  {
    Number(Flag(policy.internalViewerOnly),
           Number(Flag(policy.exportAllowed), Number(Flag(policy.watermarkRequired), rest)))
  }

  lemma PolicyReads(p: ViewerPolicy, q: ViewerPolicy, x: seq<Byte>, y: seq<Byte>)
    requires PolicyBytes(p, x) == PolicyBytes(q, y)
    ensures p == q && x == y
  {
    var a, b := Number(Flag(p.watermarkRequired), x), Number(Flag(q.watermarkRequired), y);
    NumberReads(Flag(p.internalViewerOnly), Flag(q.internalViewerOnly),
                Number(Flag(p.exportAllowed), a), Number(Flag(q.exportAllowed), b));
    NumberReads(Flag(p.exportAllowed), Flag(q.exportAllowed), a, b);
    NumberReads(Flag(p.watermarkRequired), Flag(q.watermarkRequired), x, y);
  }

  // ----- manifests and headers -----

  function FileTail(f: ManifestFile, rest: seq<Byte>): seq<Byte> {
    Number(f.sizeBytes, Text(f.hash, Numbers(f.chunks, PolicyBytes(f.viewerPolicy, rest))))
  }

  lemma FileTailReads(f: ManifestFile, g: ManifestFile, x: seq<Byte>, y: seq<Byte>)
    requires FileTail(f, x) == FileTail(g, y)
    ensures f.sizeBytes == g.sizeBytes && f.hash == g.hash && f.chunks == g.chunks && f.viewerPolicy == g.viewerPolicy && x == y
  {
    var a, b := PolicyBytes(f.viewerPolicy, x), PolicyBytes(g.viewerPolicy, y);
    NumberReads(f.sizeBytes, g.sizeBytes, Text(f.hash, Numbers(f.chunks, a)), Text(g.hash, Numbers(g.chunks, b)));
    TextReads(f.hash, g.hash, Numbers(f.chunks, a), Numbers(g.chunks, b));
    NumbersRead(f.chunks, g.chunks, a, b);
    PolicyReads(f.viewerPolicy, g.viewerPolicy, x, y);
  }

  function FileBytes(f: ManifestFile, rest: seq<Byte>): seq<Byte> {
    Text(f.fileId, Text(f.path, Text(f.displayName, MimeBytes(f.mimeType, FileTail(f, rest)))))
  }

  lemma FileReads(f: ManifestFile, g: ManifestFile, x: seq<Byte>, y: seq<Byte>)
    requires FileBytes(f, x) == FileBytes(g, y)
    ensures f == g && x == y
  {
    var a, b := MimeBytes(f.mimeType, FileTail(f, x)), MimeBytes(g.mimeType, FileTail(g, y));
    TextReads(f.fileId, g.fileId, Text(f.path, Text(f.displayName, a)), Text(g.path, Text(g.displayName, b)));
    TextReads(f.path, g.path, Text(f.displayName, a), Text(g.displayName, b));
    TextReads(f.displayName, g.displayName, a, b);
    MimeReads(f.mimeType, g.mimeType, FileTail(f, x), FileTail(g, y));
    FileTailReads(f, g, x, y);
  }

  function FilesBytes(fs: seq<ManifestFile>): seq<Byte> {
    if fs == [] then Number(0, []) else Number(1, FileBytes(fs[0], FilesBytes(fs[1..])))
  }

  lemma {:induction false} FilesRead(a: seq<ManifestFile>, b: seq<ManifestFile>)
    requires FilesBytes(a) == FilesBytes(b)
    ensures a == b
  {
    assert FilesBytes(a)[0] == (if a == [] then 0 else 1) && FilesBytes(b)[0] == (if b == [] then 0 else 1);
    if a != [] && b != [] {
      NumberReads(1, 1, FileBytes(a[0], FilesBytes(a[1..])), FileBytes(b[0], FilesBytes(b[1..])));
      FileReads(a[0], b[0], FilesBytes(a[1..]), FilesBytes(b[1..]));
      FilesRead(a[1..], b[1..]);
      assert a == [a[0]] + a[1..] && b == [b[0]] + b[1..];
    }
  }

  function ManifestBytes(m: Manifest): (bytes: seq<Byte>)
    ensures bytes != []
  {
    Text(m.archiveId, FilesBytes(m.files))
  }

  lemma ManifestReads(a: Manifest, b: Manifest)
    requires ManifestBytes(a) == ManifestBytes(b)
    ensures a == b
  {
    TextReads(a.archiveId, b.archiveId, FilesBytes(a.files), FilesBytes(b.files));
    FilesRead(a.files, b.files);
  }

  function HeaderBytes(h: PublicHeader): (bytes: seq<Byte>)
    ensures |bytes| == 5 * |h.archiveId| + 5 * |h.details| + 2
  {
    Text(h.archiveId, Text(h.details, []))
  }

  lemma HeaderReads(a: PublicHeader, b: PublicHeader)
    requires HeaderBytes(a) == HeaderBytes(b)
    ensures a == b
  {
    TextReads(a.archiveId, b.archiveId, Text(a.details, []), Text(b.details, []));
    TextReads(a.details, b.details, [], []);
  }

  // ----- a lawful platform -----

  const TABLES := Tables(c => [c], s => s)

  ghost function HeaderFrom(bytes: seq<Byte>): Option<PublicHeader> {
    if exists h :: HeaderBytes(h) == bytes then
      var h :| HeaderBytes(h) == bytes;
      Some(h)
    else None
  }

  ghost function ManifestFrom(bytes: seq<Byte>): Option<Manifest> {
    if exists m :: Representable(TABLES, m) && ManifestBytes(m) == bytes then
      var m :| Representable(TABLES, m) && ManifestBytes(m) == bytes;
      Some(m)
    else None
  }

  ghost function SamplePlatform(): Platform {
    Platform(TABLES, HeaderCodec(h => HeaderBytes(h), b => HeaderFrom(b), _ => true),
             m => ManifestBytes(m), b => ManifestFrom(b),
             (_, _, m) => m + Zeros(16), (_, _, c) => if |c| >= 16 then Some(c[..|c| - 16]) else None,
             _ => Zeros(32), _ => true, (_, _, _) => true)
  }

  lemma LawfulPlatform()
    ensures Lawful(SamplePlatform())
  {
    var p := SamplePlatform();
    forall h: PublicHeader ensures p.headers.jcs(h) != [] && p.headers.decode(p.headers.jcs(h)) == Some(h) {
      HeaderComesBack(h);
    }
    forall m: Manifest
      ensures p.manifestJson(m) != [] && (Representable(p.tables, m) ==> p.manifestFrom(p.manifestJson(m)) == Some(m))
    {
      if Representable(TABLES, m) { ManifestComesBack(m); }
    }
    forall k: Keys, s: Slot, m: seq<Byte>
      ensures |p.seal(k, s, m)| == |m| + AEAD_TAG_BYTES && p.unseal(k, s, p.seal(k, s, m)) == Some(m)
    {
      assert (m + Zeros(16))[..|m|] == m;
    }
  }

  lemma HeaderComesBack(h: PublicHeader)
    ensures HeaderFrom(HeaderBytes(h)) == Some(h)
  {
    var found := HeaderFrom(HeaderBytes(h));
    assert found.Some? && HeaderBytes(found.value) == HeaderBytes(h);
    HeaderReads(found.value, h);
  }

  lemma ManifestComesBack(m: Manifest)
    requires Representable(TABLES, m)
    ensures ManifestFrom(ManifestBytes(m)) == Some(m)
  {
    var found := ManifestFrom(ManifestBytes(m));
    assert found.Some? && ManifestBytes(found.value) == ManifestBytes(m);
    ManifestReads(found.value, m);
  }

  // ----- a buildable request -----

  const NAME := "a.pdf"
  const ENTRIES := [FileEntry(NAME, [7])]
  const HEADER := PublicHeader("a", "")

  ghost function SampleBuild(): Build {
    Build([], HeaderBytes(HEADER), [SourceFile(NAME, Pdf, [7])], [0x61])
  }

  lemma NameIsSafe()
    ensures Components(NAME) == [NAME] && SafeComponent(NAME) && Utf8Bytes(NAME) == 5
  {
    ComponentsNoSlash(NAME, "");
    assert Components("") == [""] && NAME + "" == NAME && [NAME] + [] == [NAME];
    NameIsShort();
    NameIsNotReserved();
    NameCharacters();
  }

  lemma NameIsShort()
    ensures Utf8Bytes(NAME) == 5
  {
    assert NAME[1..] == ".pdf" && ".pdf"[1..] == "pdf" && "pdf"[1..] == "df" && "df"[1..] == "f" && "f"[1..] == "";
    assert Utf8Bytes("f") == 1 && Utf8Bytes("df") == 2 && Utf8Bytes("pdf") == 3 && Utf8Bytes(".pdf") == 4;
  }

  lemma NameIsNotReserved()
    ensures !Reserved(NAME)
  {
    assert NAME[1..] == ".pdf" && Stem(".pdf") == "" && Stem(NAME) == "a";
    assert "a"[1..] == "" && AsciiUpper("") == "" && AsciiUpper("a") == ['A'];
    var stem := AsciiUpper(Stem(NAME));
    assert |stem| == 1;
  }

  lemma NameCharacters()
    ensures forall c :: c in NAME ==> c > '\U{1f}' && c != '\U{7f}' && c !in "<>:\"|?*"
    ensures NAME != "" && NAME != "." && NAME != ".." && NAME[4] != '.' && NAME[4] != ' '
  {
    forall c | c in NAME ensures c == 'a' || c == '.' || c == 'p' || c == 'd' || c == 'f' {
      var i :| 0 <= i < |NAME| && NAME[i] == c;
    }
    assert |NAME| == 5 && |"."| == 1 && |".."| == 2;
  }

  lemma NameIsPdf()
    ensures MimeType(NAME) == Some(Pdf)
  {
    NameIsSafe();
    assert NAME[..4] == "a.pd" && "a.pd"[..3] == "a.p" && "a.p"[..2] == "a.";
    assert "" + ['p'] == "p" && "p" + ['d'] == "pd" && "pd" + ['f'] == "pdf";
    assert Extension("a.") == Some("") && Extension("a.p") == Some("p");
    assert Extension("a.pd") == Some("pd") && Extension(NAME) == Some("pdf");
    assert "pdf"[1..] == "df" && "df"[1..] == "f" && "f"[1..] == "";
    assert AsciiLower("f") == "f" && AsciiLower("df") == "df" && AsciiLower("pdf") == "pdf";
  }

  lemma InventoryIsValid()
    ensures ValidInventory(TABLES, SampleBuild().sources)
  {
    var sources := SampleBuild().sources;
    assert ContentBytes(sources) == 1 by { assert sources[1..] == [] && ContentBytes([]) == 0; }
    assert PathList(sources) == [NAME];
    assert multiset([NAME]) == multiset{NAME};
    SourceIsValid(sources[0]);
  }

  lemma SourceIsValid(file: SourceFile)
    requires file == SourceFile(NAME, Pdf, [7])
    ensures ValidSource(TABLES, file)
  {
    NameIsSafe();
    NameIsPdf();
    NameCharacters();
    assert '\\' !in NAME;
  }

  lemma RequestIsDiscovered(rules: Rules)
    requires rules == Rules(TABLES, (_, _) => true)
    ensures Requested(rules, ENTRIES, SampleBuild())
  {
    NameIsSafe();
    NameIsPdf();
    assert Join("", NAME) == NAME && ReplaceBackslashes(NAME) == NAME by { NoBackslash(); }
    assert ENTRIES[1..] == [] && EntriesCount([]) == 0 && Leaves(rules, "", []) == [];
    assert Leaves(rules, "", ENTRIES) == EntryLeaves(rules, "", ENTRIES[0]) + [] == [SourceFile(NAME, Pdf, [7])];
    assert Acceptable(rules, "", []);
  }

  lemma NoBackslash()
    ensures ReplaceBackslashes(NAME) == NAME
  {
  }

  lemma HeaderParses()
    ensures ParseHeader(SamplePlatform().headers, HeaderBytes(HEADER)) == Ok(HEADER)
  {
    HeaderComesBack(HEADER);
  }

  /** The one file of the manifest. */
  lemma OneFile(p: Platform, sources: seq<SourceFile>)
    requires sources == [SourceFile(NAME, Pdf, [7])] && |p.sha256([7])| == 32
    ensures var f := FileOf(p, sources, 0);
      && FilesOf(p, sources, 1) == [f] && |f.fileId| == 11 && f.path == NAME == f.displayName && f.mimeType == Pdf
      && f.sizeBytes == 1 && |f.hash| == 64 && f.chunks == [0]
  {
    NameIsSafe();
    assert AllChunks(sources, 0) == [] && FilesOf(p, sources, 0) == [];
    assert ChunkCount(1) == 1 && Ids(0, 1) == [0];
  }

  lemma FileFits(f: ManifestFile)
    requires |f.fileId| == 11 && f.path == NAME == f.displayName && f.mimeType == Pdf
    requires f.sizeBytes == 1 && |f.hash| == 64 && f.chunks == [0]
    ensures |FilesBytes([f])| <= 1_000
  {
    assert [f][1..] == [] && f.chunks[1..] == [];
    var policy := PolicyBytes(f.viewerPolicy, FilesBytes([]));
    assert |FilesBytes([])| == 1 && |policy| <= 7;
    assert Numbers(f.chunks, policy) == Number(1, Number(0, Numbers([], policy)));
    assert |Numbers(f.chunks, policy)| == 4 + |policy|;
    assert |FileTail(f, FilesBytes([]))| <= 350;
  }

  lemma ManifestFits()
    ensures |ManifestBytes(BuiltManifest(SamplePlatform(), SampleBuild()))| <= 2_000
  {
    HeaderParses();
    OneFile(SamplePlatform(), SampleBuild().sources);
    FileFits(FileOf(SamplePlatform(), SampleBuild().sources, 0));
  }

  lemma RequestIsBuildable()
    ensures Buildable(SamplePlatform(), SampleBuild())
  {
    var p, b := SamplePlatform(), SampleBuild();
    HeaderParses();
    InventoryIsValid();
    ManifestFits();
    KeyIdIsValid();
    assert p.manifestJson(BuiltManifest(p, b)) == ManifestBytes(BuiltManifest(p, b));
    BuildableFrom(p, b);
  }

  lemma KeyIdIsValid()
    ensures ValidKeyId([0x61])
  {
    assert KeyIdByte(0x61);
  }

  lemma BuildableFrom(p: Platform, b: Build)
    requires |b.metadata| <= MAX_HEADER && ParseHeader(p.headers, b.metadata).Ok?
    requires ValidInventory(p.tables, b.sources) && ValidKeyId(b.keyId)
    requires |p.manifestJson(BuiltManifest(p, b))| <= MAX_ENCRYPTED_MANIFEST - AEAD_TAG_BYTES
    ensures Buildable(p, b)
  {
  }

  /** Every premise of the end-to-end theorems holds here at once. */
  lemma BuildableRequestExists() returns (p: Platform, rules: Rules, b: Build, publicKey: seq<Byte>, signature: seq<Byte>)
    ensures Lawful(p) && rules.tables == p.tables && Requested(rules, ENTRIES, b) && Buildable(p, b)
    ensures p.validKey(publicKey) && |signature| == 64
    ensures p.signatureHolds(publicKey, p.sha256(PendingBytes(p, b)), signature)
  {
    p, rules, b, publicKey, signature := SamplePlatform(), Rules(TABLES, (_, _) => true), SampleBuild(), [], Zeros(64);
    LawfulPlatform();
    RequestIsDiscovered(rules);
    RequestIsBuildable();
  }
}
