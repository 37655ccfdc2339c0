/** Distinct names for the files of a ZIP archive.
    Models uniqueNames and withSuffix in apps/web/src/lib/zip.ts. */
module ZipNames {
  import opened Outcomes
  import opened Results

  function Decimal(n: nat): (s: string)
    ensures s != "" && forall c :: c in s ==> '0' <= c <= '9'
  {
    var last := [('0' as int + n % 10) as char];
    if n < 10 then last else Decimal(n / 10) + last
  }

  function DecimalValue(s: string): int {
    if s == "" then 0 else 10 * DecimalValue(s[..|s| - 1]) + (s[|s| - 1] as int - '0' as int)
  }

  lemma {:induction false} DecimalReadsBack(n: nat)
    ensures DecimalValue(Decimal(n)) == n
  {
    var s := Decimal(n);
    if n < 10 {
      assert s[..0] == "";
    } else {
      DecimalReadsBack(n / 10);
      assert s[..|s| - 1] == Decimal(n / 10);
    }
  }

  /** Place of the last dot, if any. */
  function LastDot(name: string): Option<nat> {
    if name == "" then None
    else if name[|name| - 1] == '.' then Some(|name| - 1)
    else LastDot(name[..|name| - 1])
  }

  lemma {:induction false} LastDotInside(name: string)
    ensures LastDot(name).Some? ==> LastDot(name).value < |name| && name[LastDot(name).value] == '.'
  {
    if name != "" && name[|name| - 1] != '.' { LastDotInside(name[..|name| - 1]); }
  }

  function Suffixed(before: string, digits: string, after: string): string {
    before + " (" + digits + ")" + after
  }

  /** The number goes in front of the extension, if the dot is not the first character. */
  function WithSuffix(name: string, n: nat): string {
    LastDotInside(name);
    match LastDot(name)
    case Some(dot) => if dot > 0 then Suffixed(name[..dot], Decimal(n), name[dot..]) else Suffixed(name, Decimal(n), "")
    case None => Suffixed(name, Decimal(n), "")
  }

  /** The names that are tried for a file, in order. */
  function Candidate(name: string, k: nat): string {
    if k == 0 then name else WithSuffix(name, k + 1)
  }

  /** Lower-casing is a parameter. What the loop relies on: it treats the parts around a
      number in parentheses separately and leaves the number alone. */
  ghost predicate LawfulLower(lower: string -> string) {
    forall p: string, d: string, e: string {:trigger lower(Suffixed(p, d, e))} ::
      (forall c :: c in d ==> '0' <= c <= '9') ==> lower(Suffixed(p, d, e)) == Suffixed(lower(p), d, lower(e))
  }

  lemma SuffixedInjective(p: string, d1: string, d2: string, e: string)
    requires Suffixed(p, d1, e) == Suffixed(p, d2, e)
    ensures d1 == d2
  {
    var a, b := Suffixed(p, d1, e), Suffixed(p, d2, e);
    assert |d1| == |d2|;
    assert d1 == a[|p| + 2..|p| + 2 + |d1|] && d2 == b[|p| + 2..|p| + 2 + |d2|];
  }

  /** The parts of a name around the number. */
  function Around(name: string): (parts: (string, string))
    ensures forall k {:trigger Candidate(name, k)} :: k > 0 ==> Candidate(name, k) == Suffixed(parts.0, Decimal(k + 1), parts.1)
  {
    LastDotInside(name);
    match LastDot(name)
    case Some(dot) => if dot > 0 then (name[..dot], name[dot..]) else (name, "")
    case None => (name, "")
  }

  lemma {:induction false} LastDotOf(stem: string, extension: string)
    requires '.' !in extension
    ensures LastDot(stem + "." + extension) == Some(|stem|)
    decreases |extension|
  {
    var name := stem + "." + extension;
    if extension == "" {
      assert name[|name| - 1] == '.';
    } else {
      var shorter := extension[..|extension| - 1];
      assert name[|name| - 1] == extension[|extension| - 1] && extension[|extension| - 1] in extension;
      assert name[..|name| - 1] == stem + "." + shorter;
      LastDotOf(stem, shorter);
    }
  }

  lemma {:induction false} NoDot(name: string)
    requires '.' !in name
    ensures LastDot(name) == None
  {
    if name != "" {
      assert name[|name| - 1] in name;
      NoDot(name[..|name| - 1]);
    }
  }

  /** A renamed file keeps its extension: the number goes in front of the last dot, and to
      the end of a name that has none or only starts with one. The second file of a name
      gets the number 2. */
  lemma NumberBeforeExtension(stem: string, extension: string, k: nat)
    requires '.' !in extension && k > 0
    ensures Candidate(stem + "." + extension, k) ==
      if stem != "" then stem + " (" + Decimal(k + 1) + ")." + extension
      else "." + extension + " (" + Decimal(k + 1) + ")"
    ensures Candidate(extension, k) == extension + " (" + Decimal(k + 1) + ")"
  {
    LastDotOf(stem, extension);
    NoDot(extension);
    var name, digits := stem + "." + extension, Decimal(k + 1);
    assert name[..|stem|] == stem && name[|stem|..] == "." + extension;
    assert Suffixed(stem, digits, "." + extension) == stem + " (" + digits + ")." + extension;
    assert Suffixed(name, digits, "") == name + " (" + digits + ")";
    assert Suffixed(extension, digits, "") == extension + " (" + digits + ")";
  }

  /** Two numbered candidates of one name never agree, not even ignoring case. */
  lemma CandidatesDiffer(lower: string -> string, name: string, j: nat, k: nat)
    requires LawfulLower(lower) && 0 < j && 0 < k && lower(Candidate(name, j)) == lower(Candidate(name, k))
    ensures j == k
  {
    var (p, e) := Around(name);
    NumbersDiffer(lower, p, e, j + 1, k + 1);
  }

  lemma NumbersDiffer(lower: string -> string, p: string, e: string, j: nat, k: nat)
    requires LawfulLower(lower) && lower(Suffixed(p, Decimal(j), e)) == lower(Suffixed(p, Decimal(k), e))
    ensures j == k
  {
    var a, b := Decimal(j), Decimal(k);
    assert lower(Suffixed(p, a, e)) == Suffixed(lower(p), a, lower(e));
    assert lower(Suffixed(p, b, e)) == Suffixed(lower(p), b, lower(e));
    SuffixedInjective(lower(p), a, b, lower(e));
    DecimalReadsBack(j);
    DecimalReadsBack(k);
  }

  /** `names[i]` is the first candidate for file `i` that no earlier name takes. */
  ghost predicate IsFirstFree(lower: string -> string, name: string, taken: set<string>, chosen: string) {
    && lower(chosen) !in taken
    && exists k: nat {:trigger Candidate(name, k)} ::
         chosen == Candidate(name, k) && forall j {:trigger Candidate(name, j)} :: 0 <= j < k ==> lower(Candidate(name, j)) in taken
  }

  predicate AllTaken(lower: string -> string, name: string, taken: set<string>, k: nat) {
    forall j {:trigger Candidate(name, j)} :: 0 <= j < k ==> lower(Candidate(name, j)) in taken
  }

  /** The numbered candidates before `k`, lower-cased. */
  ghost predicate AreTried(lower: string -> string, name: string, tried: set<string>, k: nat) {
    forall s :: s in tried ==> exists j {:trigger Candidate(name, j)} :: 0 < j < k && s == lower(Candidate(name, j))
  }

  /** As many different names are taken as numbered candidates were refused. */
  lemma {:induction false} TakenCount(lower: string -> string, name: string, taken: set<string>, k: nat) returns (tried: set<string>)
    requires LawfulLower(lower) && k > 0 && AllTaken(lower, name, taken, k)
    ensures tried <= taken && |tried| == k - 1 && AreTried(lower, name, tried, k)
    ensures k - 1 <= |taken|
  {
    if k == 1 {
      tried := {};
    } else {
      var fewer := TakenCount(lower, name, taken, k - 1);
      TriedIsNew(lower, name, fewer, k - 1);
      var last := lower(Candidate(name, k - 1));
      tried := fewer + {last};
      assert AreTried(lower, name, tried, k);
      SubsetSize(tried, taken);
    }
  }

  lemma TriedIsNew(lower: string -> string, name: string, tried: set<string>, k: nat)
    requires LawfulLower(lower) && k > 0 && AreTried(lower, name, tried, k)
    ensures lower(Candidate(name, k)) !in tried
  {
    if lower(Candidate(name, k)) in tried {
      var j :| 0 < j < k && lower(Candidate(name, k)) == lower(Candidate(name, j));
      CandidatesDiffer(lower, name, j, k);
    }
  }

  /** The renaming loop. It ends because the numbered candidates are all different and
      only finitely many names are taken. */
  method FirstFree(lower: string -> string, fileName: string, taken: set<string>) returns (name: string)
    requires LawfulLower(lower)
    ensures IsFirstFree(lower, fileName, taken, name)
  {
    name := fileName;
    var n := 2;
    while lower(name) in taken
      invariant n >= 2 && name == Candidate(fileName, n - 2) && AllTaken(lower, fileName, taken, n - 2)
      invariant n - 2 <= |taken| + 1
      decreases |taken| + 3 - n
    {
      ghost var tried := TakenCount(lower, fileName, taken, n - 1);
      name := WithSuffix(fileName, n);
      n := n + 1;
    }
    assert name == Candidate(fileName, n - 2);
  }

  lemma SubsetSize(some: set<string>, all: set<string>)
    requires some <= all
    ensures |some| <= |all|
  {
    assert all == some + (all - some);
  }

  function Lowered(lower: string -> string, names: seq<string>): set<string> {
    set i | 0 <= i < |names| :: lower(names[i])
  }

  /** Every file keeps its name or gets the first free number, and no two names agree
      ignoring case. */
  method UniqueNames(lower: string -> string, fileNames: seq<string>) returns (names: seq<string>)
    requires LawfulLower(lower)
    ensures |names| == |fileNames|
    ensures forall i :: 0 <= i < |names| ==> IsFirstFree(lower, fileNames[i], Lowered(lower, names[..i]), names[i])
    ensures forall i, j :: 0 <= i < j < |names| ==> lower(names[i]) != lower(names[j])
  {
    names := [];
    var taken: set<string> := {};
    while |names| < |fileNames|
      invariant |names| <= |fileNames| && taken == Lowered(lower, names)
      invariant forall i :: 0 <= i < |names| ==> IsFirstFree(lower, fileNames[i], Lowered(lower, names[..i]), names[i])
      invariant forall i, j :: 0 <= i < j < |names| ==> lower(names[i]) != lower(names[j])
    {
      var name := FirstFree(lower, fileNames[|names|], taken);
      NamesExtend(lower, names, name);
      names := names + [name];
      taken := taken + {lower(name)};
    }
  }

  lemma NamesExtend(lower: string -> string, names: seq<string>, name: string)
    ensures Lowered(lower, names + [name]) == Lowered(lower, names) + {lower(name)}
    ensures forall i :: 0 <= i <= |names| ==> (names + [name])[..i] == names[..i]
    ensures lower(name) !in Lowered(lower, names) ==> forall i :: 0 <= i < |names| ==> lower(names[i]) != lower(name)
  {
    var more := names + [name];
    assert forall i :: 0 <= i < |names| ==> more[i] == names[i];
    assert more[|names|] == name;
    assert forall i :: 0 <= i < |names| ==> lower(names[i]) in Lowered(lower, names);
    forall s ensures s in Lowered(lower, more) <==> s in Lowered(lower, names) + {lower(name)} {
      if s in Lowered(lower, names) {
        var i :| 0 <= i < |names| && s == lower(names[i]);
        assert s == lower(more[i]);
      }
      if s == lower(name) { assert s == lower(more[|names|]); }
    }
  }
}
