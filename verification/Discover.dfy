/** Deterministic discovery of the protected source files under a directory.
    Models the bounded walk, the collision pass and the sort of
    crates/solarch-core/src/source.rs. */
module Discovery {
  import opened Outcomes
  import opened Results
  import opened Bytes
  import opened Paths
  import opened Manifests
  import opened Sequences

  const MAX_SOURCE_ENTRIES: nat := MAX_FILES * MAX_PATH_DEPTH

  /** One directory entry, in the order the file system lists it. `Special` is
      whatever is neither a plain file nor a plain directory. */
  datatype Entry =
    | FileEntry(name: string, content: seq<Byte>)
    | Directory(name: string, entries: seq<Entry>)
    | Special(name: string)

  datatype SourceFile = SourceFile(path: string, mime: Mime, content: seq<Byte>)

  /** `recognised` stands for the magic-byte checks on protected content. */
  datatype Rules = Rules(tables: Tables, recognised: (Mime, seq<Byte>) -> bool)

  // ----- what a directory tree holds -----

  function Join(prefix: string, name: string): string {
    if prefix == "" then name else prefix + "/" + name
  }

  function NormalForm(t: Tables, path: string): string {
    t.nfc(ReplaceBackslashes(path))
  }

  predicate SafePath(t: Tables, path: string) {
    Utf8Bytes(path) <= MAX_PATH_BYTES && path != "" && Normalized(t, NormalForm(t, path))
  }

  function FileAt(rules: Rules, path: string, content: seq<Byte>): SourceFile {
    var normal := NormalForm(rules.tables, path);
    SourceFile(normal, match MimeType(normal) case Some(m) => m case None => OtherMime(""), content)
  }

  predicate AcceptableFile(rules: Rules, path: string, content: seq<Byte>) {
    && SafePath(rules.tables, path)
    && MimeType(NormalForm(rules.tables, path)).Some?
    && |content| <= MAX_FILE_SIZE_BYTES
    && (content == [] || rules.recognised(MimeType(NormalForm(rules.tables, path)).value, content))
  }

  /** Files and directories at or below an entry. */
  function EntryCount(entry: Entry): nat
    decreases entry
  {
    1 + match entry case Directory(_, inner) => EntriesCount(inner) case _ => 0
  }

  function EntriesCount(entries: seq<Entry>): nat
    decreases entries
  {
    if entries == [] then 0 else EntryCount(entries[0]) + EntriesCount(entries[1..])
  }

  function EntryLeaves(rules: Rules, prefix: string, entry: Entry): seq<SourceFile>
    decreases entry
  {
    match entry
    case FileEntry(name, content) => [FileAt(rules, Join(prefix, name), content)]
    case Directory(name, inner) => Leaves(rules, Join(prefix, name), inner)
    case Special(_) => []
  }

  function Leaves(rules: Rules, prefix: string, entries: seq<Entry>): seq<SourceFile>
    decreases entries
  {
    if entries == [] then [] else EntryLeaves(rules, prefix, entries[0]) + Leaves(rules, prefix, entries[1..])
  }

  predicate AcceptableEntry(rules: Rules, prefix: string, entry: Entry)
    decreases entry
  {
    match entry
    case FileEntry(name, content) => AcceptableFile(rules, Join(prefix, name), content)
    case Directory(name, inner) =>
      SafePath(rules.tables, Join(prefix, name)) && Acceptable(rules, Join(prefix, name), inner)
    case Special(_) => false
  }

  predicate Acceptable(rules: Rules, prefix: string, entries: seq<Entry>)
    decreases entries
  {
    entries != [] ==> AcceptableEntry(rules, prefix, entries[0]) && Acceptable(rules, prefix, entries[1..])
  }

  function ContentBytes(files: seq<SourceFile>): nat {
    if files == [] then 0 else |files[0].content| + ContentBytes(files[1..])
  }

  lemma {:induction false} ContentBytesConcat(a: seq<SourceFile>, b: seq<SourceFile>)
    ensures ContentBytes(a + b) == ContentBytes(a) + ContentBytes(b)
  {
    if a == [] {
      assert a + b == b;
    } else {
      assert (a + b)[1..] == a[1..] + b;
      ContentBytesConcat(a[1..], b);
    }
  }

  // ----- the walk -----

  /** The budgets and the list shared by all levels of the walk. */
  class Walk {
    var files: seq<SourceFile>
    var remainingEntries: nat
    var totalSizeBytes: nat

    constructor (entryLimit: nat)
      ensures files == [] && remainingEntries == entryLimit && totalSizeBytes == 0
    {
      files, remainingEntries, totalSizeBytes := [], entryLimit, 0;
    }

    ghost predicate Within()
      reads this
    {
      |files| <= MAX_FILES && totalSizeBytes <= MAX_TOTAL_SIZE_BYTES && totalSizeBytes == ContentBytes(files)
    }

    /** Whether the budgets that are left allow these further entries and files. */
    ghost predicate Allows(count: nat, more: seq<SourceFile>)
      reads this
    {
      && count <= remainingEntries
      && |files| + |more| <= MAX_FILES
      && totalSizeBytes + ContentBytes(more) <= MAX_TOTAL_SIZE_BYTES
    }

    method AddFile(rules: Rules, path: string, content: seq<Byte>) returns (r: Result<()>)
      requires LawfulTables(rules.tables) && Within()
      modifies this
      ensures r.Ok? <==> AcceptableFile(rules, path, content) && old(Allows(0, [FileAt(rules, path, content)]))
      ensures r.Ok? ==> Within() && remainingEntries == old(remainingEntries)
                        && files == old(files) + [FileAt(rules, path, content)]
    {
      if |files| == MAX_FILES {
        return Err(LimitExceeded);
      }
      var normalized :- NewNormalizedPath(rules.tables, path);
      var mime := MimeType(normalized);
      if mime == None {
        return Err(UnsupportedFileType);
      }
      if |content| > MAX_FILE_SIZE_BYTES || totalSizeBytes + |content| > MAX_TOTAL_SIZE_BYTES {
        return Err(LimitExceeded);
      }
      if content != [] && !rules.recognised(mime.value, content) {
        return Err(UnsupportedFileType);
      }
      ContentBytesConcat(files, [SourceFile(normalized, mime.value, content)]);
      totalSizeBytes := totalSizeBytes + |content|;
      files := files + [SourceFile(normalized, mime.value, content)];
      return Ok(());
    }

    method DiscoverEntry(rules: Rules, prefix: string, entry: Entry) returns (r: Result<()>)
      requires LawfulTables(rules.tables) && Within()
      modifies this
      ensures r.Ok? <==> AcceptableEntry(rules, prefix, entry)
                         && old(Allows(EntryCount(entry), EntryLeaves(rules, prefix, entry)))
      ensures r.Ok? ==> Within() && remainingEntries == old(remainingEntries) - EntryCount(entry)
                        && files == old(files) + EntryLeaves(rules, prefix, entry)
      decreases entry
    {
      if remainingEntries == 0 {
        return Err(LimitExceeded);
      }
      remainingEntries := remainingEntries - 1;
      match entry {
        case FileEntry(name, content) =>
          r := AddFile(rules, Join(prefix, name), content);
        case Directory(name, inner) =>
          var _ :- NewNormalizedPath(rules.tables, Join(prefix, name));
          r := DiscoverDirectory(rules, Join(prefix, name), inner);
        case Special(_) =>
          r := Err(UnsafePath);
      }
    }

    /** Succeeds exactly when every entry is acceptable and all budgets suffice, and
        then appends the leaves in listing order. */
    method DiscoverDirectory(rules: Rules, prefix: string, entries: seq<Entry>) returns (r: Result<()>)
      requires LawfulTables(rules.tables) && Within()
      modifies this
      ensures r.Ok? <==> Acceptable(rules, prefix, entries)
                         && old(Allows(EntriesCount(entries), Leaves(rules, prefix, entries)))
      ensures r.Ok? ==> Within() && remainingEntries == old(remainingEntries) - EntriesCount(entries)
                        && files == old(files) + Leaves(rules, prefix, entries)
      decreases entries
    {
      var i := 0;
      assert entries[0..] == entries;
      while i < |entries|
        invariant 0 <= i <= |entries| && Within()
        invariant Acceptable(rules, prefix, entries) <==> Acceptable(rules, prefix, entries[i..])
        invariant remainingEntries - EntriesCount(entries[i..]) == old(remainingEntries) - EntriesCount(entries)
        invariant files + Leaves(rules, prefix, entries[i..]) == old(files) + Leaves(rules, prefix, entries)
      {
        ghost var before, rest := files, entries[i..];
        assert rest[0] == entries[i] && rest[1..] == entries[i + 1..];
        SameTotals(old(files), Leaves(rules, prefix, entries), before, Leaves(rules, prefix, rest));
        SameTotals(before, Leaves(rules, prefix, rest),
                   before + EntryLeaves(rules, prefix, entries[i]), Leaves(rules, prefix, entries[i + 1..]));
        ContentBytesConcat(before, EntryLeaves(rules, prefix, entries[i]));
        var _ :- DiscoverEntry(rules, prefix, entries[i]);
        i := i + 1;
      }
      assert entries[i..] == [];
      assert files == old(files) + Leaves(rules, prefix, entries);
      ContentBytesConcat(old(files), Leaves(rules, prefix, entries));
      return Ok(());
    }
  }

  lemma SameTotals(a: seq<SourceFile>, b: seq<SourceFile>, c: seq<SourceFile>, d: seq<SourceFile>)
    requires a + b == c + d
    ensures |a| + |b| == |c| + |d|
    ensures ContentBytes(a) + ContentBytes(b) == ContentBytes(c) + ContentBytes(d)
  {
    ContentBytesConcat(a, b);
    ContentBytesConcat(c, d);
    assert |a + b| == |c + d|;
  }

  // ----- inventories -----

  function PathList(files: seq<SourceFile>): (paths: seq<string>)
    ensures |paths| == |files|
    ensures forall i :: 0 <= i < |files| ==> paths[i] == files[i].path
  {
    seq(|files|, i requires 0 <= i < |files| => files[i].path)
  }

  ghost predicate PathsIncrease(files: seq<SourceFile>) {
    forall i, j :: 0 <= i < j < |files| ==> Less(files[i].path, files[j].path)
  }

  /** What one discovered file satisfies. */
  predicate ValidSource(t: Tables, file: SourceFile) {
    Normalized(t, file.path) && MimeType(file.path) == Some(file.mime) && |file.content| <= MAX_FILE_SIZE_BYTES
  }

  ghost predicate ValidSources(t: Tables, files: seq<SourceFile>) {
    forall i :: 0 <= i < |files| ==> ValidSource(t, files[i])
  }

  /** What discovery promises about the list it returns. */
  ghost predicate ValidInventory(t: Tables, files: seq<SourceFile>) {
    && 0 < |files| <= MAX_FILES
    && ContentBytes(files) <= MAX_TOTAL_SIZE_BYTES
    && PathsIncrease(files)
    && PairwiseFree(t, multiset(PathList(files)))
    && ValidSources(t, files)
  }

  /** Equal collections have equal collections of paths. */
  lemma {:induction false} SamePaths(a: seq<SourceFile>, b: seq<SourceFile>)
    requires multiset(a) == multiset(b)
    ensures multiset(PathList(a)) == multiset(PathList(b))
  {
    SameLength(a, b);
    if a != [] {
      var k := RemoveHead(a, b);
      SamePaths(a[1..], b[..k] + b[k + 1..]);
      MovePathToFront(b, k);
      assert PathList(a) == [a[0].path] + PathList(a[1..]);
    }
  }

  lemma {:induction false} MovePathToFront(files: seq<SourceFile>, k: nat)
    requires k < |files|
    ensures multiset(PathList(files)) == multiset{files[k].path} + multiset(PathList(files[..k] + files[k + 1..]))
  {
    var front, back := files[..k], files[k + 1..];
    assert files == front + ([files[k]] + back);
    PathListConcat(front, [files[k]] + back);
    PathListConcat(front, back);
    assert PathList([files[k]] + back) == [files[k].path] + PathList(back);
  }

  lemma {:induction false} MoveBytesToFront(files: seq<SourceFile>, k: nat)
    requires k < |files|
    ensures ContentBytes(files) == |files[k].content| + ContentBytes(files[..k] + files[k + 1..])
  {
    var front, back := files[..k], files[k + 1..];
    assert files == front + ([files[k]] + back);
    ContentBytesConcat(front, [files[k]] + back);
    ContentBytesConcat(front, back);
    assert ([files[k]] + back)[1..] == back;
  }

  lemma {:induction false} PathListConcat(a: seq<SourceFile>, b: seq<SourceFile>)
    ensures PathList(a + b) == PathList(a) + PathList(b)
  {
  }

  lemma {:induction false} SameContentBytes(a: seq<SourceFile>, b: seq<SourceFile>)
    requires multiset(a) == multiset(b)
    ensures ContentBytes(a) == ContentBytes(b)
  {
    SameLength(a, b);
    if a != [] {
      var k := RemoveHead(a, b);
      SameContentBytes(a[1..], b[..k] + b[k + 1..]);
      MoveBytesToFront(b, k);
    }
  }

  /** A strictly ordered list is determined by its elements. */
  lemma {:induction false} OrderedListUnique(a: seq<SourceFile>, b: seq<SourceFile>)
    requires PathsIncrease(a) && PathsIncrease(b) && multiset(a) == multiset(b)
    ensures a == b
  {
    SameLength(a, b);
    if a != [] {
      HeadsAgree(a, b);
      TailIncreases(a);
      TailIncreases(b);
      OrderedListUnique(a[1..], b[1..]);
    }
  }

  lemma TailIncreases(files: seq<SourceFile>)
    requires files != [] && PathsIncrease(files)
    ensures PathsIncrease(files[1..])
  {
  }

  lemma {:induction false} HeadsAgree(a: seq<SourceFile>, b: seq<SourceFile>)
    requires PathsIncrease(a) && PathsIncrease(b) && multiset(a) == multiset(b) && a != [] && b != []
    ensures a[0] == b[0] && multiset(a[1..]) == multiset(b[1..])
  {
    SameLength(a, b);
    var k := RemoveHead(a, b);
    assert a[0] in a && b[0] in b;
    LeastIsFirst(a, b[0]);
    LeastIsFirst(b, a[0]);
    AntiSymmetric(a[0].path, b[0].path);
    assert k == 0 by {
      if k > 0 { LessIrreflexive(a[0].path); }
    }
    assert b[..0] + b[1..] == b[1..];
  }

  lemma AntiSymmetric(p: string, q: string)
    ensures !(Less(p, q) && Less(q, p))
  {
    LessIrreflexive(p);
    if Less(p, q) && Less(q, p) { LessTransitive(p, q, p); }
  }

  lemma LeastIsFirst(files: seq<SourceFile>, file: SourceFile)
    requires PathsIncrease(files) && file in files
    ensures file == files[0] || Less(files[0].path, file.path)
  {
  }

  ghost predicate PathsDistinct(files: seq<SourceFile>) {
    forall i, j :: 0 <= i < j < |files| ==> files[i].path != files[j].path
  }

  lemma FreeIsDistinct(t: Tables, files: seq<SourceFile>)
    requires PairwiseFree(t, multiset(PathList(files)))
    ensures PathsDistinct(files)
  {
    var paths := PathList(files);
    forall i, j | 0 <= i < j < |files| ensures files[i].path != files[j].path {
      assert paths[i] in multiset(paths);
      if paths[i] == paths[j] { RepeatedElement(paths, i, j); }
    }
  }

  /** Sorts by path bytes; paths are distinct, so the order is strict. */
  method SortByPath(files: seq<SourceFile>) returns (sorted: seq<SourceFile>)
    requires PathsDistinct(files)
    ensures multiset(sorted) == multiset(files) && PathsIncrease(sorted)
  {
    sorted := [];
    var i := 0;
    while i < |files|
      invariant 0 <= i <= |files|
      invariant multiset(sorted) == multiset(files[..i]) && PathsIncrease(sorted)
    {
      var at := 0;
      while at < |sorted| && Less(sorted[at].path, files[i].path)
        invariant 0 <= at <= |sorted|
        invariant forall k :: 0 <= k < at ==> Less(sorted[k].path, files[i].path)
      {
        at := at + 1;
      }
      SortStep(files, i, sorted, at);
      sorted := sorted[..at] + [files[i]] + sorted[at..];
      i := i + 1;
    }
    assert files[..i] == files;
  }

  lemma SortStep(files: seq<SourceFile>, i: nat, sorted: seq<SourceFile>, at: nat)
    requires i < |files| && PathsDistinct(files)
    requires multiset(sorted) == multiset(files[..i]) && PathsIncrease(sorted)
    requires at <= |sorted| && forall k :: 0 <= k < at ==> Less(sorted[k].path, files[i].path)
    requires at < |sorted| ==> !Less(sorted[at].path, files[i].path)
    ensures PathsIncrease(sorted[..at] + [files[i]] + sorted[at..])
    ensures multiset(sorted[..at] + [files[i]] + sorted[at..]) == multiset(files[..i + 1])
  {
    SameLength(sorted, files[..i]);
    forall k | 0 <= k < |sorted| ensures sorted[k].path != files[i].path {
      assert sorted[k] in files[..i];
    }
    InsertSorted(sorted, files[i], at);
    InsertedElements(sorted, files, i, at);
  }

  lemma {:induction false} InsertedElements(sorted: seq<SourceFile>, files: seq<SourceFile>, i: nat, at: nat)
    requires i < |files| && at <= |sorted| && multiset(sorted) == multiset(files[..i])
    ensures multiset(sorted[..at] + [files[i]] + sorted[at..]) == multiset(files[..i + 1])
  {
    assert files[..i + 1] == files[..i] + [files[i]];
    assert sorted == sorted[..at] + sorted[at..];
  }

  lemma InsertSorted(sorted: seq<SourceFile>, file: SourceFile, at: nat)
    requires PathsIncrease(sorted) && at <= |sorted|
    requires forall k :: 0 <= k < |sorted| ==> sorted[k].path != file.path
    requires forall k :: 0 <= k < at ==> Less(sorted[k].path, file.path)
    requires at < |sorted| ==> !Less(sorted[at].path, file.path)
    ensures PathsIncrease(sorted[..at] + [file] + sorted[at..])
  {
    forall k | at <= k < |sorted| ensures Less(file.path, sorted[k].path) {
      LessTotal(file.path, sorted[at].path);
      if at < k { LessTransitive(file.path, sorted[at].path, sorted[k].path); }
    }
    var all := sorted[..at] + [file] + sorted[at..];
    forall i, j | 0 <= i < j < |all| ensures Less(all[i].path, all[j].path) {
      assert i != at ==> all[i] == sorted[if i < at then i else i - 1];
      assert j != at ==> all[j] == sorted[if j < at then j else j - 1];
    }
  }

  /** What decides whether discovery accepts the leaves it found. */
  ghost predicate AcceptableLeaves(t: Tables, leaves: seq<SourceFile>) {
    && 0 < |leaves| <= MAX_FILES
    && ContentBytes(leaves) <= MAX_TOTAL_SIZE_BYTES
    && PairwiseFree(t, multiset(PathList(leaves)))
  }

  lemma SortedIsInventory(t: Tables, leaves: seq<SourceFile>, sorted: seq<SourceFile>)
    requires 0 < |leaves| <= MAX_FILES && ContentBytes(leaves) <= MAX_TOTAL_SIZE_BYTES
    requires ValidSources(t, leaves)
    requires PairwiseFree(t, multiset(PathList(leaves)))
    requires PathsIncrease(sorted) && multiset(sorted) == multiset(leaves)
    ensures ValidInventory(t, sorted)
  {
    SamePaths(sorted, leaves);
    SameContentBytes(sorted, leaves);
    SameLength(sorted, leaves);
    forall i | 0 <= i < |sorted| ensures ValidSource(t, sorted[i]) {
      assert sorted[i] in leaves;
      var k :| 0 <= k < |leaves| && leaves[k] == sorted[i];
      assert ValidSource(t, leaves[k]);
    }
  }

  /** The collision pass over the files in listing order, then the sort. */
  method CollideAndSort(t: Tables, leaves: seq<SourceFile>) returns (r: Result<seq<SourceFile>>)
    requires LawfulTables(t) && ValidSources(t, leaves)
    requires |leaves| <= MAX_FILES && ContentBytes(leaves) <= MAX_TOTAL_SIZE_BYTES
    ensures r.Ok? <==> AcceptableLeaves(t, leaves)
    ensures r.Ok? ==> ValidInventory(t, r.value) && multiset(r.value) == multiset(leaves)
  {
    if leaves == [] {
      return Err(InvalidBuilderInput);
    }
    SourcesAreNormalized(t, leaves);
    var accepted := InsertAllFiles(t, PathList(leaves));
    if !accepted {
      return Err(DuplicateNormalizedPath);
    }
    FreeIsDistinct(t, leaves);
    var sorted := SortByPath(leaves);
    SortedIsInventory(t, leaves, sorted);
    return Ok(sorted);
  }

  lemma SourcesAreNormalized(t: Tables, files: seq<SourceFile>)
    requires ValidSources(t, files)
    ensures NormalizedPaths(t, PathList(files))
  {
  }

  /** Discovery: the walk, the collision pass, the sort. */
  method Discover(rules: Rules, entries: seq<Entry>, entryLimit: nat) returns (r: Result<seq<SourceFile>>)
    requires LawfulTables(rules.tables)
    ensures r.Ok? <==>
      && Acceptable(rules, "", entries)
      && EntriesCount(entries) <= entryLimit
      && AcceptableLeaves(rules.tables, Leaves(rules, "", entries))
    ensures r.Ok? ==>
      ValidInventory(rules.tables, r.value) && multiset(r.value) == multiset(Leaves(rules, "", entries))
  {
    var walk := new Walk(entryLimit);
    var _ :- walk.DiscoverDirectory(rules, "", entries);
    assert walk.files == Leaves(rules, "", entries);
    LeavesAreValid(rules, "", entries);
    r := CollideAndSort(rules.tables, walk.files);
  }

  lemma {:induction false} LeavesAreValid(rules: Rules, prefix: string, entries: seq<Entry>)
    requires Acceptable(rules, prefix, entries)
    ensures ValidSources(rules.tables, Leaves(rules, prefix, entries))
    decreases entries
  {
    if entries != [] {
      if entries[0].Directory? { LeavesAreValid(rules, Join(prefix, entries[0].name), entries[0].entries); }
      assert ValidSources(rules.tables, EntryLeaves(rules, prefix, entries[0]));
      LeavesAreValid(rules, prefix, entries[1..]);
    }
  }

  /** Discovery does not depend on the order in which directories are listed: two
      listings with the same leaves are accepted alike, and whatever ordered lists
      they yield are the same list. */
  lemma DiscoveryIsDeterministic(t: Tables, a: seq<SourceFile>, b: seq<SourceFile>,
                                 first: seq<SourceFile>, second: seq<SourceFile>)
    requires multiset(a) == multiset(b)
    requires PathsIncrease(first) && multiset(first) == multiset(a)
    requires PathsIncrease(second) && multiset(second) == multiset(b)
    ensures first == second
    ensures AcceptableLeaves(t, a) <==> AcceptableLeaves(t, b)
  {
    OrderedListUnique(first, second);
    SamePaths(a, b);
    SameContentBytes(a, b);
    SameLength(a, b);
  }

  lemma {:induction false} CountConcat(a: seq<Entry>, b: seq<Entry>)
    ensures EntriesCount(a + b) == EntriesCount(a) + EntriesCount(b)
  {
    if a == [] {
      assert a + b == b;
    } else {
      assert (a + b)[1..] == a[1..] + b;
      CountConcat(a[1..], b);
    }
  }

  lemma {:induction false} LeavesConcat(rules: Rules, prefix: string, a: seq<Entry>, b: seq<Entry>)
    ensures Leaves(rules, prefix, a + b) == Leaves(rules, prefix, a) + Leaves(rules, prefix, b)
    ensures Acceptable(rules, prefix, a + b) <==> Acceptable(rules, prefix, a) && Acceptable(rules, prefix, b)
  {
    if a == [] {
      assert a + b == b;
    } else {
      assert (a + b)[1..] == a[1..] + b && (a + b)[0] == a[0];
      LeavesConcat(rules, prefix, a[1..], b);
    }
  }

  /** The same tree, listed in any order at every level. */
  ghost predicate SameEntry(a: Entry, b: Entry)
    decreases a
  {
    match a
    case Directory(name, inner) => b.Directory? && b.name == name && SameTree(inner, b.entries)
    case _ => a == b
  }

  ghost predicate SameTree(a: seq<Entry>, b: seq<Entry>)
    decreases a
  {
    if a == [] then b == []
    else exists k :: 0 <= k < |b| && SameEntry(a[0], b[k]) && SameTree(a[1..], b[..k] + b[k + 1..])
  }

  /** Every permutation of a listing is the same tree. */
  lemma {:induction false} PermutedIsSame(a: seq<Entry>, b: seq<Entry>)
    requires multiset(a) == multiset(b)
    ensures SameTree(a, b)
    decreases a
  {
    SameLength(a, b);
    if a != [] {
      var k := RemoveHead(a, b);
      if a[0].Directory? { PermutedIsSame(a[0].entries, a[0].entries); }
      PermutedIsSame(a[1..], b[..k] + b[k + 1..]);
      SameTreeCons(a, b, k);
    }
  }

  lemma {:induction false} SameTreeCons(a: seq<Entry>, b: seq<Entry>, k: nat)
    requires a != [] && k < |b| && SameEntry(a[0], b[k]) && SameTree(a[1..], b[..k] + b[k + 1..])
    ensures SameTree(a, b)
  {
  }

  /** Listing the directories of a tree in another order, at every level, keeps everything
      discovery looks at: the entry count, the verdict on each entry and the collection of
      leaves. */
  lemma {:induction false} ListingOrderIrrelevant(rules: Rules, prefix: string, a: seq<Entry>, b: seq<Entry>)
    requires SameTree(a, b)
    ensures EntriesCount(a) == EntriesCount(b)
    ensures Acceptable(rules, prefix, a) <==> Acceptable(rules, prefix, b)
    ensures multiset(Leaves(rules, prefix, a)) == multiset(Leaves(rules, prefix, b))
    decreases a
  {
    if a != [] {
      var k :| 0 <= k < |b| && SameEntry(a[0], b[k]) && SameTree(a[1..], b[..k] + b[k + 1..]);
      EntryOrderIrrelevant(rules, prefix, a[0], b[k]);
      ListingOrderIrrelevant(rules, prefix, a[1..], b[..k] + b[k + 1..]);
      MoveToFront(rules, prefix, b, k);
    }
  }

  lemma {:induction false} EntryOrderIrrelevant(rules: Rules, prefix: string, a: Entry, b: Entry)
    requires SameEntry(a, b)
    ensures EntryCount(a) == EntryCount(b)
    ensures AcceptableEntry(rules, prefix, a) <==> AcceptableEntry(rules, prefix, b)
    ensures multiset(EntryLeaves(rules, prefix, a)) == multiset(EntryLeaves(rules, prefix, b))
    decreases a
  {
    if a.Directory? { ListingOrderIrrelevant(rules, Join(prefix, a.name), a.entries, b.entries); }
  }

  lemma MoveToFront(rules: Rules, prefix: string, entries: seq<Entry>, k: nat)
    requires k < |entries|
    ensures var others := entries[..k] + entries[k + 1..];
      && EntriesCount(entries) == EntryCount(entries[k]) + EntriesCount(others)
      && (Acceptable(rules, prefix, entries)
          <==> AcceptableEntry(rules, prefix, entries[k]) && Acceptable(rules, prefix, others))
      && multiset(Leaves(rules, prefix, entries))
         == multiset(EntryLeaves(rules, prefix, entries[k])) + multiset(Leaves(rules, prefix, others))
  {
    var front, rest := entries[..k], entries[k..];
    assert entries == front + rest && rest[0] == entries[k] && rest[1..] == entries[k + 1..];
    CountConcat(front, rest[1..]);
    CountConcat(front, rest);
    LeavesConcat(rules, prefix, front, rest[1..]);
    LeavesConcat(rules, prefix, front, rest);
  }
}
