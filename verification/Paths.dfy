/** Logical archive paths and the ordered, case-folded path index.
    Models crates/solarch-core/src/paths.rs. */
module Paths {
  import opened Outcomes
  import opened Results

  const MAX_PATH_BYTES: nat := 4096
  const MAX_PATH_DEPTH: nat := 32
  const MAX_COMPONENT_BYTES: nat := 255

  /** The Unicode tables are parameters: full case folding of one character, and
      canonical composition of a string. */
  datatype Tables = Tables(fold: char -> string, nfc: string -> string)

  /** What the path rules rely on: `/` folds to itself and to nothing else;
      composition is idempotent and never creates a backslash. */
  ghost predicate LawfulTables(t: Tables) {
    && t.fold('/') == "/"
    && (forall c: char {:trigger t.fold(c)} :: c != '/' ==> '/' !in t.fold(c))
    && (forall s: string {:trigger t.nfc(t.nfc(s))} :: t.nfc(t.nfc(s)) == t.nfc(s))
    && (forall s: string {:trigger t.nfc(s)} :: '\\' !in s ==> '\\' !in t.nfc(s))
  }

  // ----- strings -----

  /** Lexicographic order by character, which is also the order of UTF-8 bytes. */
  predicate Less(a: string, b: string) {
    b != "" && (a == "" || a[0] < b[0] || (a[0] == b[0] && Less(a[1..], b[1..])))
  }

  lemma {:induction false} LessIrreflexive(a: string)
    ensures !Less(a, a)
  {
    if a != "" { LessIrreflexive(a[1..]); }
  }

  lemma {:induction false} LessTransitive(a: string, b: string, c: string)
    requires Less(a, b) && Less(b, c)
    ensures Less(a, c)
  {
    if a != "" && a[0] == b[0] && b[0] == c[0] { LessTransitive(a[1..], b[1..], c[1..]); }
  }

  lemma {:induction false} LessTotal(a: string, b: string)
    ensures a == b || Less(a, b) || Less(b, a)
  {
    if a != "" && b != "" && a[0] == b[0] {
      LessTotal(a[1..], b[1..]);
      assert a == [a[0]] + a[1..] && b == [b[0]] + b[1..];
    }
  }

  /** The extensions of a string form an interval that begins at the string. */
  lemma {:induction false} ExtensionsAreAnInterval(lower: string, x: string, extension: string)
    requires lower <= extension
    requires !Less(x, lower) && !Less(extension, x)
    ensures lower <= x
  {
    if lower != "" {
      assert x != "" && extension[0] == lower[0];
      assert x[0] == lower[0];
      ExtensionsAreAnInterval(lower[1..], x[1..], extension[1..]);
      assert x == [x[0]] + x[1..] && lower == [lower[0]] + lower[1..];
    }
  }

  function Utf8Bytes(s: string): nat {
    if s == "" then 0
    else (if s[0] < '\U{80}' then 1 else if s[0] < '\U{800}' then 2 else if s[0] < '\U{10000}' then 3 else 4)
         + Utf8Bytes(s[1..])
  }

  function Components(s: string): (parts: seq<string>)
    ensures parts != []
  {
    if s == "" then [""]
    else if s[0] == '/' then [""] + Components(s[1..])
    else var rest := Components(s[1..]); [[s[0]] + rest[0]] + rest[1..]
  }

  /** A string extends `a/` exactly when its components strictly extend those of `a`. */
  lemma {:induction false} PrefixByComponents(a: string, b: string)
    ensures a + "/" <= b <==> Components(a) < Components(b)
    ensures a == b <==> Components(a) == Components(b)
  {
    if a == "" {
      if b != "" && b[0] != '/' { assert Components(b)[0] != ""; }
    } else if b == "" {
      if a[0] != '/' { assert Components(a)[0] != ""; }
    } else {
      PrefixByComponents(a[1..], b[1..]);
      assert a == [a[0]] + a[1..] && b == [b[0]] + b[1..];
      assert a + "/" == [a[0]] + (a[1..] + "/");
      var ra, rb := Components(a[1..]), Components(b[1..]);
      assert ra == [ra[0]] + ra[1..] && rb == [rb[0]] + rb[1..];
      if a[0] != '/' {
        assert Components(a)[0][0] == a[0] && Components(a)[0][1..] == ra[0] && Components(a)[1..] == ra[1..];
      } else {
        assert Components(a)[1..] == ra;
      }
      if b[0] != '/' {
        assert Components(b)[0][0] == b[0] && Components(b)[0][1..] == rb[0] && Components(b)[1..] == rb[1..];
      } else {
        assert Components(b)[1..] == rb;
      }
    }
  }

  // ----- folding -----

  function Fold(t: Tables, s: string): string {
    if s == "" then "" else t.fold(s[0]) + Fold(t, s[1..])
  }

  lemma {:induction false} FoldConcat(t: Tables, a: string, b: string)
    ensures Fold(t, a + b) == Fold(t, a) + Fold(t, b)
  {
    if a == "" {
      assert a + b == b;
    } else {
      assert (a + b)[1..] == a[1..] + b;
      FoldConcat(t, a[1..], b);
    }
  }

  /** The reference form of a path: its components, each folded. */
  function FoldedComponents(t: Tables, s: string): (parts: seq<string>)
    ensures |parts| == |Components(s)|
  {
    FoldAll(t, Components(s))
  }

  function FoldAll(t: Tables, parts: seq<string>): (folded: seq<string>)
    ensures |folded| == |parts|
    ensures forall i :: 0 <= i < |parts| ==> folded[i] == Fold(t, parts[i])
  {
    if parts == [] then [] else [Fold(t, parts[0])] + FoldAll(t, parts[1..])
  }

  lemma {:induction false} ComponentsNoSlash(word: string, rest: string)
    requires '/' !in word
    ensures Components(word + rest)
         == [word + Components(rest)[0]] + Components(rest)[1..]
  {
    if word == "" {
      assert word + rest == rest && word + Components(rest)[0] == Components(rest)[0];
    } else {
      assert (word + rest)[1..] == word[1..] + rest && (word + rest)[0] == word[0] && word[0] in word;
      assert forall c :: c in word[1..] ==> c in word;
      ComponentsNoSlash(word[1..], rest);
      assert word + Components(rest)[0] == [word[0]] + (word[1..] + Components(rest)[0]);
      assert Components(word[1..] + rest)[1..] == Components(rest)[1..];
    }
  }

  /** Folding a whole path and folding its components agree. */
  lemma {:induction false} ComponentsOfFold(t: Tables, s: string)
    requires LawfulTables(t)
    ensures Components(Fold(t, s)) == FoldedComponents(t, s)
  {
    if s != "" {
      ComponentsOfFold(t, s[1..]);
      var rest := Components(s[1..]);
      if s[0] == '/' {
        assert Fold(t, s)[1..] == Fold(t, s[1..]);
      } else {
        ComponentsNoSlash(t.fold(s[0]), Fold(t, s[1..]));
        assert ([s[0]] + rest[0])[1..] == rest[0];
      }
    }
  }

  /** Two file paths collide when one, component by component and ignoring case,
      is the other or one of its directories. */
  ghost predicate Conflict(t: Tables, a: string, b: string) {
    FoldedComponents(t, a) <= FoldedComponents(t, b) || FoldedComponents(t, b) <= FoldedComponents(t, a)
  }

  lemma ConflictByFold(t: Tables, a: string, b: string)
    requires LawfulTables(t)
    ensures Fold(t, a) == Fold(t, b) <==> FoldedComponents(t, a) == FoldedComponents(t, b)
    ensures Fold(t, a) + "/" <= Fold(t, b) <==> FoldedComponents(t, a) < FoldedComponents(t, b)
  {
    ComponentsOfFold(t, a);
    ComponentsOfFold(t, b);
    PrefixByComponents(Fold(t, a), Fold(t, b));
  }

  // ----- validation -----

  function ReplaceBackslashes(s: string): (r: string)
    ensures '\\' !in r
    ensures '\\' !in s ==> r == s
  {
    if s == "" then "" else [if s[0] == '\\' then '/' else s[0]] + ReplaceBackslashes(s[1..])
  }

  function AsciiUpper(s: string): string {
    if s == "" then ""
    else [if 'a' <= s[0] <= 'z' then (s[0] as int - 32) as char else s[0]] + AsciiUpper(s[1..])
  }

  function Stem(component: string): string {
    if component == "" || component[0] == '.' then "" else [component[0]] + Stem(component[1..])
  }

  predicate Reserved(component: string) {
    var stem := AsciiUpper(Stem(component));
    || stem in ["CON", "PRN", "AUX", "NUL"]
    || (|stem| == 4 && stem[..3] in ["COM", "LPT"] && stem[3] in "123456789\U{b9}\U{b2}\U{b3}")
  }

  predicate SafeComponent(component: string) {
    && component != "" && component != "." && component != ".."
    && Utf8Bytes(component) <= MAX_COMPONENT_BYTES
    && component[|component| - 1] != '.' && component[|component| - 1] != ' '
    && (forall c :: c in component ==> c > '\U{1f}' && c != '\U{7f}' && c !in "<>:\"|?*")
    && !Reserved(component)
  }

  /** The invariant of the type NormalizedPath. */
  predicate Normalized(t: Tables, path: string) {
    && '\\' !in path && t.nfc(path) == path && path != ""
    && Utf8Bytes(path) <= MAX_PATH_BYTES
    && |Components(path)| <= MAX_PATH_DEPTH
    && forall c :: c in Components(path) ==> SafeComponent(c)
  }

  method NewNormalizedPath(t: Tables, path: string) returns (r: Result<string>)
    requires LawfulTables(t)
    ensures r.Ok? ==> Normalized(t, r.value) && r.value == t.nfc(ReplaceBackslashes(path))
    ensures r.Err? ==> r.error == UnsafePath
    ensures r.Ok? <==> (Utf8Bytes(path) <= MAX_PATH_BYTES && path != "" && Normalized(t, t.nfc(ReplaceBackslashes(path))))
    ensures Normalized(t, path) ==> r == Ok(path)
  {
    if path == "" || Utf8Bytes(path) > MAX_PATH_BYTES {
      return Err(UnsafePath);
    }
    var normalized := t.nfc(ReplaceBackslashes(path));
    if Utf8Bytes(normalized) > MAX_PATH_BYTES {
      return Err(UnsafePath);
    }
    var parts := Components(normalized);
    var depth := 0;
    while depth < |parts|
      invariant 0 <= depth <= |parts| && depth <= MAX_PATH_DEPTH
      invariant forall i :: 0 <= i < depth ==> SafeComponent(parts[i])
    {
      if depth + 1 > MAX_PATH_DEPTH || !SafeComponent(parts[depth]) {
        assert depth < MAX_PATH_DEPTH ==> parts[depth] in parts;
        return Err(UnsafePath);
      }
      depth := depth + 1;
    }
    assert parts[0] in parts;
    assert Components("") == [""];
    r := Ok(normalized);
  }

  // ----- protected file types -----

  function LastComponent(path: string): string {
    Components(path)[|Components(path)| - 1]
  }

  function AsciiLower(s: string): string {
    if s == "" then ""
    else [if 'A' <= s[0] <= 'Z' then (s[0] as int + 32) as char else s[0]] + AsciiLower(s[1..])
  }

  /** The part of a name after its last dot, when the part before it is not empty. */
  function Extension(name: string): Option<string> {
    if name == "" then None
    else if name[|name| - 1] == '.' then if |name| > 1 then Some("") else None
    else match Extension(name[..|name| - 1])
      case Some(e) => Some(e + [name[|name| - 1]])
      case None => None
  }

  /** The MIME types of protected files; any other string is `OtherMime`. */
  datatype Mime = Pdf | Png | Jpeg | WebP | Docx | Xlsx | OtherMime(name: string)

  function MimeType(path: string): Option<Mime> {
    match Extension(LastComponent(path))
    case None => None
    case Some(e) => MimeOfExtension(AsciiLower(e))
  }

  function MimeOfExtension(extension: string): Option<Mime> {
    if extension == "pdf" then Some(Pdf)
    else if extension == "png" then Some(Png)
    else if extension == "jpg" || extension == "jpeg" then Some(Jpeg)
    else if extension == "webp" then Some(WebP)
    else if extension == "docx" then Some(Docx)
    else if extension == "xlsx" then Some(Xlsx)
    else None
  }

  // ----- the ordered index -----

  ghost predicate Ordered(t: Tables, paths: seq<string>) {
    forall i, j :: 0 <= i < j < |paths| ==> Less(Fold(t, paths[i]), Fold(t, paths[j]))
  }

  /** Position of the first stored path not below `key`, as a range query gives it. */
  function LowerBound(t: Tables, paths: seq<string>, key: string): (at: nat)
    requires Ordered(t, paths)
    ensures at <= |paths|
    ensures forall k :: 0 <= k < at ==> Less(Fold(t, paths[k]), Fold(t, key))
    ensures forall k :: at <= k < |paths| ==> !Less(Fold(t, paths[k]), Fold(t, key))
  {
    if paths == [] then 0
    else if Less(Fold(t, paths[0]), Fold(t, key)) then
      var at := 1 + LowerBound(t, paths[1..], key);
      assert forall k :: 1 <= k < |paths| ==> paths[k] == paths[1..][k - 1];
      at
    else
      assert forall k :: 1 <= k < |paths| && Less(Fold(t, paths[k]), Fold(t, key)) ==> false by {
        forall k | 1 <= k < |paths| && Less(Fold(t, paths[k]), Fold(t, key)) ensures false {
          LessTransitive(Fold(t, paths[0]), Fold(t, paths[k]), Fold(t, key));
        }
      }
      0
  }

  predicate Contains(t: Tables, paths: seq<string>, key: string)
    requires Ordered(t, paths)
    ensures Contains(t, paths, key) <==> exists s :: s in paths && Fold(t, s) == Fold(t, key)
  {
    var at := LowerBound(t, paths, key);
    assert (exists s :: s in paths && Fold(t, s) == Fold(t, key))
      ==> at < |paths| && Fold(t, paths[at]) == Fold(t, key) by {
      if s :| s in paths && Fold(t, s) == Fold(t, key) {
        LessIrreflexive(Fold(t, key));
        var k :| 0 <= k < |paths| && paths[k] == s;
        assert Ordered(t, paths) && k < |paths|;
      }
    }
    at < |paths| && Fold(t, paths[at]) == Fold(t, key)
  }

  predicate FoldedComponentPrefix(t: Tables, ancestor: string, descendant: string) {
    var a, d := Components(ancestor), Components(descendant);
    |a| < |d| && forall i :: 0 <= i < |a| ==> Fold(t, a[i]) == Fold(t, d[i])
  }

  lemma PrefixMeansDescendant(t: Tables, ancestor: string, descendant: string)
    requires LawfulTables(t)
    ensures FoldedComponentPrefix(t, ancestor, descendant)
      <==> FoldedComponents(t, ancestor) < FoldedComponents(t, descendant)
  {
    var a, d := FoldedComponents(t, ancestor), FoldedComponents(t, descendant);
    if FoldedComponentPrefix(t, ancestor, descendant) {
      assert a == d[..|a|];
    }
    if a < d {
      assert forall i :: 0 <= i < |a| ==> a[i] == d[i];
    }
  }

  ghost predicate StoresDescendant(t: Tables, paths: seq<string>, path: string) {
    exists s :: s in paths && FoldedComponents(t, path) < FoldedComponents(t, s)
  }

  /** Looking at the one successor of `path/` finds a stored descendant if there is any. */
  lemma SuccessorDecides(t: Tables, paths: seq<string>, path: string, at: nat)
    requires LawfulTables(t) && Ordered(t, paths)
    requires at == LowerBound(t, paths, path + "/")
    ensures (at < |paths| && FoldedComponentPrefix(t, path, paths[at])) <==> StoresDescendant(t, paths, path)
  {
    if at < |paths| && FoldedComponentPrefix(t, path, paths[at]) {
      PrefixMeansDescendant(t, path, paths[at]);
      assert paths[at] in paths;
    }
    if StoresDescendant(t, paths, path) {
      var k :| 0 <= k < |paths| && FoldedComponents(t, path) < FoldedComponents(t, paths[k]);
      SuccessorIsDescendant(t, paths, path, k);
      PrefixMeansDescendant(t, path, paths[at]);
    }
  }

  lemma SuccessorIsDescendant(t: Tables, paths: seq<string>, path: string, k: nat)
    requires LawfulTables(t) && Ordered(t, paths) && k < |paths|
    requires FoldedComponents(t, path) < FoldedComponents(t, paths[k])
    ensures var at := LowerBound(t, paths, path + "/");
            at < |paths| && FoldedComponents(t, path) < FoldedComponents(t, paths[at])
  {
    var at := LowerBound(t, paths, path + "/");
    var lower := Fold(t, path) + "/";
    FoldConcat(t, path, "/");
    FoldSlash(t);
    ConflictByFold(t, path, paths[k]);
    ExtensionNotBelow(lower, Fold(t, paths[k]));
    assert at <= k;
    OrderedNotBelow(t, paths, at, k);
    ExtensionsAreAnInterval(lower, Fold(t, paths[at]), Fold(t, paths[k]));
    ConflictByFold(t, path, paths[at]);
  }

  lemma OrderedNotBelow(t: Tables, paths: seq<string>, i: nat, j: nat)
    requires Ordered(t, paths) && i <= j < |paths|
    ensures !Less(Fold(t, paths[j]), Fold(t, paths[i]))
  {
    LessIrreflexive(Fold(t, paths[i]));
    if i < j && Less(Fold(t, paths[j]), Fold(t, paths[i])) {
      LessTransitive(Fold(t, paths[i]), Fold(t, paths[j]), Fold(t, paths[i]));
    }
  }

  lemma {:induction false} ExtensionNotBelow(lower: string, extension: string)
    requires lower <= extension
    ensures !Less(extension, lower)
  {
    if lower != "" {
      ExtensionNotBelow(lower[1..], extension[1..]);
    }
  }

  /** The folded directories of a path are exactly its prefixes before a `/`. */
  lemma AncestorIsAPrefix(t: Tables, path: string, stored: string)
    requires LawfulTables(t)
    ensures FoldedComponents(t, stored) < FoldedComponents(t, path)
      <==> exists at :: 0 <= at < |path| && path[at] == '/' && Fold(t, path[..at]) == Fold(t, stored)
  {
    ConflictByFold(t, stored, path);
    if at :| 0 <= at < |path| && path[at] == '/' && Fold(t, path[..at]) == Fold(t, stored) {
      PrefixIsAncestor(t, path, at);
    }
    if Fold(t, stored) + "/" <= Fold(t, path) {
      var at := SlashPreimage(t, path, Fold(t, stored));
    }
  }

  lemma FoldSlash(t: Tables)
    requires LawfulTables(t)
    ensures Fold(t, "/") == "/"
  {
    assert "/"[1..] == "";
  }

  lemma PrefixIsAncestor(t: Tables, path: string, at: nat)
    requires LawfulTables(t)
    requires at < |path| && path[at] == '/'
    ensures Fold(t, path[..at]) + "/" <= Fold(t, path)
  {
    var head, tail := path[..at], path[at + 1..];
    assert path == (head + "/") + tail;
    FoldConcat(t, head + "/", tail);
    FoldConcat(t, head, "/");
    FoldSlash(t);
  }

  lemma {:induction false} SlashPreimage(t: Tables, path: string, folded: string) returns (at: nat)
    requires LawfulTables(t)
    requires folded + "/" <= Fold(t, path)
    ensures at < |path| && path[at] == '/' && Fold(t, path[..at]) == folded
  {
    var head, tail := t.fold(path[0]), Fold(t, path[1..]);
    if path[0] == '/' && folded == "" {
      at := 0;
    } else {
      assert (head + tail)[|folded|] == '/';
      assert |head| <= |folded| by {
        assert forall i :: 0 <= i < |head| ==> (head + tail)[i] in head;
      }
      var rest := folded[|head|..];
      assert forall i :: 0 <= i < |head| ==> folded[i] == (folded + "/")[i] == (head + tail)[i] == head[i];
      assert folded == head + rest;
      assert (head + rest) + "/" == head + (rest + "/");
      assert rest + "/" <= tail by {
        assert (head + tail)[|head|..] == tail;
        assert (folded + "/")[|head|..] == rest + "/";
      }
      var k := SlashPreimage(t, path[1..], rest);
      at := k + 1;
      assert path[..at][1..] == path[1..][..k];
    }
  }

  /** The set of paths seen so far, kept in folded order. */
  class PathSet {
    const tables: Tables
    var foldedOrder: seq<string>

    ghost predicate Valid()
      reads this
    {
      LawfulTables(tables) && Ordered(tables, foldedOrder)
    }

    constructor (t: Tables)
      requires LawfulTables(t)
      ensures Valid() && tables == t && foldedOrder == []
    {
      tables := t;
      foldedOrder := [];
    }

    /** Directories: only a fold-equal path is refused. */
    method Insert(path: string) returns (r: Result<string>)
      requires Valid()
      modifies this
      ensures Valid()
      ensures Inserted(old(foldedOrder), foldedOrder, path, false, r)
    {
      r := InsertInner(path, false);
    }

    /** Files: the index answers as the pairwise rule does. */
    method InsertFile(path: string) returns (r: Result<string>)
      requires Valid()
      modifies this
      ensures Valid()
      ensures Inserted(old(foldedOrder), foldedOrder, path, true, r)
    {
      r := InsertInner(path, true);
    }

    /** What an insertion does, in terms of the stored paths taken one by one. */
    ghost predicate Inserted(
      before: seq<string>, after: seq<string>, given: string, file: bool, r: Result<string>
    ) {
      && (r.Err? ==> after == before)
      && (r.Ok? ==>
            && Normalized(tables, r.value)
            && multiset(after) == multiset(before) + multiset{r.value}
            && !AnyRefuses(tables, before, r.value, file))
      && (Normalized(tables, given) ==>
            r == if AnyRefuses(tables, before, given, file) then Err(DuplicateNormalizedPath) else Ok(given))
    }

    method HasAncestor(path: string) returns (found: bool)
      requires Valid()
      ensures found <==> exists s :: s in foldedOrder && FoldedComponents(tables, s) < FoldedComponents(tables, path)
    {
      forall s | s in foldedOrder
        ensures FoldedComponents(tables, s) < FoldedComponents(tables, path)
          <==> exists at :: 0 <= at < |path| && path[at] == '/' && Fold(tables, path[..at]) == Fold(tables, s)
      {
        AncestorIsAPrefix(tables, path, s);
      }
      var position := 0;
      while position < |path|
        invariant 0 <= position <= |path|
        invariant forall at :: 0 <= at < position && path[at] == '/' ==> !Contains(tables, foldedOrder, path[..at])
      {
        if path[position] == '/' && Contains(tables, foldedOrder, path[..position]) {
          return true;
        }
        position := position + 1;
      }
      return false;
    }

    method InsertInner(given: string, rejectPrefixConflicts: bool) returns (r: Result<string>)
      requires Valid()
      modifies this
      ensures Valid()
      ensures Inserted(old(foldedOrder), foldedOrder, given, rejectPrefixConflicts, r)
    {
      var path :- NewNormalizedPath(tables, given);
      RefusalCases(tables, foldedOrder, path);
      if Contains(tables, foldedOrder, path) {
        return Err(DuplicateNormalizedPath);
      }
      if rejectPrefixConflicts {
        var ancestor := HasAncestor(path);
        if ancestor {
          return Err(DuplicateNormalizedPath);
        }
        var next := LowerBound(tables, foldedOrder, path + "/");
        SuccessorDecides(tables, foldedOrder, path, next);
        if next < |foldedOrder| && FoldedComponentPrefix(tables, path, foldedOrder[next]) {
          return Err(DuplicateNormalizedPath);
        }
      }
      var at := LowerBound(tables, foldedOrder, path);
      InsertKeepsOrder(tables, foldedOrder, path, at);
      foldedOrder := InsertAt(foldedOrder, path, at);
      return Ok(path);
    }
  }

  ghost predicate Refused(t: Tables, stored: string, path: string, file: bool) {
    if file then Conflict(t, stored, path) else FoldedComponents(t, stored) == FoldedComponents(t, path)
  }

  ghost predicate AnyRefuses(t: Tables, paths: seq<string>, path: string, file: bool) {
    exists s :: s in paths && Refused(t, s, path, file)
  }

  lemma RefusalCases(t: Tables, paths: seq<string>, path: string)
    requires LawfulTables(t) && Ordered(t, paths)
    ensures Contains(t, paths, path) <==> AnyRefuses(t, paths, path, false)
    ensures AnyRefuses(t, paths, path, true)
      <==> || Contains(t, paths, path)
           || (exists s :: s in paths && FoldedComponents(t, s) < FoldedComponents(t, path))
           || StoresDescendant(t, paths, path)
  {
    forall s | s in paths
      ensures Fold(t, s) == Fold(t, path) <==> FoldedComponents(t, s) == FoldedComponents(t, path)
    {
      ConflictByFold(t, s, path);
    }
    if s :| s in paths && Refused(t, s, path, false) {
      assert Fold(t, s) == Fold(t, path);
    }
    if Contains(t, paths, path) {
      var s :| s in paths && Fold(t, s) == Fold(t, path);
      assert Refused(t, s, path, false) && Refused(t, s, path, true);
    }
    if s :| s in paths && (FoldedComponents(t, s) < FoldedComponents(t, path)
                           || FoldedComponents(t, path) < FoldedComponents(t, s)) {
      assert Refused(t, s, path, true);
    }
    if s :| s in paths && Refused(t, s, path, true) {
      ProperOrEqual(FoldedComponents(t, s), FoldedComponents(t, path));
    }
  }

  lemma ProperOrEqual(a: seq<string>, b: seq<string>)
    requires a <= b || b <= a
    ensures a == b || a < b || b < a
  {
  }

  function InsertAt(paths: seq<string>, path: string, at: nat): (all: seq<string>)
    requires at <= |paths|
    ensures |all| == |paths| + 1
    ensures multiset(all) == multiset(paths) + multiset{path}
  {
    assert paths == paths[..at] + paths[at..];
    paths[..at] + [path] + paths[at..]
  }

  lemma InsertKeepsOrder(t: Tables, paths: seq<string>, path: string, at: nat)
    requires Ordered(t, paths) && at == LowerBound(t, paths, path)
    requires !Contains(t, paths, path)
    ensures Ordered(t, InsertAt(paths, path, at))
  {
    forall i, j | 0 <= i < j <= |paths|
      ensures Less(Fold(t, InsertAt(paths, path, at)[i]), Fold(t, InsertAt(paths, path, at)[j]))
    {
      InsertedPair(t, paths, path, at, i, j);
    }
  }

  lemma InsertedPair(t: Tables, paths: seq<string>, path: string, at: nat, i: nat, j: nat)
    requires Ordered(t, paths) && at == LowerBound(t, paths, path)
    requires !Contains(t, paths, path)
    requires i < j <= |paths|
    ensures Less(Fold(t, InsertAt(paths, path, at)[i]), Fold(t, InsertAt(paths, path, at)[j]))
  {
    var all := InsertAt(paths, path, at);
    assert all[i] == if i < at then paths[i] else if i == at then path else paths[i - 1];
    assert all[j] == if j < at then paths[j] else if j == at then path else paths[j - 1];
    if i == at { NotBelowIsAbove(t, paths, path, j - 1); }
  }

  lemma NotBelowIsAbove(t: Tables, paths: seq<string>, path: string, k: nat)
    requires Ordered(t, paths) && LowerBound(t, paths, path) <= k < |paths|
    requires !Contains(t, paths, path)
    ensures Less(Fold(t, path), Fold(t, paths[k]))
  {
    LessTotal(Fold(t, path), Fold(t, paths[k]));
    assert paths[k] in paths;
  }

  /** What the type of a path guarantees, for a list of them. */
  ghost predicate NormalizedPaths(t: Tables, paths: seq<string>) {
    forall i {:trigger Normalized(t, paths[i])} :: 0 <= i < |paths| ==> Normalized(t, paths[i])
  }

  /** One step of the collision pass. */
  method InsertNext(index: PathSet, paths: seq<string>, i: nat) returns (accepted: bool)
    requires index.Valid() && i < |paths| && NormalizedPaths(index.tables, paths)
    requires multiset(index.foldedOrder) == multiset(paths[..i])
    requires PairwiseFree(index.tables, multiset(paths[..i]))
    modifies index
    ensures index.Valid()
    ensures accepted <==> PairwiseFree(index.tables, multiset(paths[..i + 1]))
    ensures accepted ==> multiset(index.foldedOrder) == multiset(paths[..i + 1])
  {
    ghost var before := index.foldedOrder;
    assert Normalized(index.tables, paths[i]);
    assert paths[..i + 1] == paths[..i] + [paths[i]];
    AddOnePath(index.tables, multiset(before), paths[i]);
    forall s ensures s in before <==> s in multiset(before) {
    }
    assert forall s :: Refused(index.tables, s, paths[i], true) == Conflict(index.tables, s, paths[i]);
    var inserted := index.InsertFile(paths[i]);
    return inserted.Ok?;
  }

  /** The collision pass over a list of discovered files. */
  method InsertAllFiles(t: Tables, paths: seq<string>) returns (accepted: bool)
    requires LawfulTables(t) && NormalizedPaths(t, paths)
    ensures accepted <==> PairwiseFree(t, multiset(paths))
  {
    var index := new PathSet(t);
    var i := 0;
    while i < |paths|
      invariant 0 <= i <= |paths| && index.Valid() && index.tables == t && fresh(index)
      invariant multiset(index.foldedOrder) == multiset(paths[..i])
      invariant PairwiseFree(t, multiset(paths[..i]))
    {
      var inserted := InsertNext(index, paths, i);
      if !inserted {
        assert paths == paths[..i + 1] + paths[i + 1..];
        SmallerIsFree(t, multiset(paths[..i + 1]), multiset(paths));
        return false;
      }
      i := i + 1;
    }
    assert paths[..i] == paths;
    return true;
  }

  /** The pairwise rule on a collection of paths: no path twice, no two in conflict.
      It speaks of the collection only, so no order of insertion can matter. */
  ghost predicate PairwiseFree(t: Tables, paths: multiset<string>) {
    && (forall p :: p in paths ==> paths[p] == 1)
    && (forall p, q :: p in paths && q in paths && p != q ==> !Conflict(t, p, q))
  }

  lemma AddOnePath(t: Tables, paths: multiset<string>, path: string)
    requires PairwiseFree(t, paths)
    ensures PairwiseFree(t, paths + multiset{path}) <==> forall s :: s in paths ==> !Conflict(t, s, path)
  {
    var all := paths + multiset{path};
    if PairwiseFree(t, all) {
      forall s | s in paths ensures !Conflict(t, s, path) {
        assert s in all && path in all && all[path] == paths[path] + 1;
      }
    }
    if forall s :: s in paths ==> !Conflict(t, s, path) {
      assert path in paths ==> Conflict(t, path, path);
      forall p, q | p in all && q in all && p != q ensures !Conflict(t, p, q) {
        assert (p in paths || p == path) && (q in paths || q == path);
        assert Conflict(t, p, q) == Conflict(t, q, p);
      }
    }
  }

  lemma SmallerIsFree(t: Tables, some: multiset<string>, all: multiset<string>)
    requires some <= all
    ensures PairwiseFree(t, all) ==> PairwiseFree(t, some)
  {
    assert forall p :: p in some ==> p in all && some[p] <= all[p];
  }
}
