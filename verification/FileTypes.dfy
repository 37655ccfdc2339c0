/** Which paths name a protected file type: the text after the last dot of the last
    component decides, in upper or lower case.
    Models ProtectedType::from_path of crates/solarch-core/src/paths.rs. */
module FileTypes {
  import opened Outcomes
  import opened Paths

  function Lowered(c: char): char {
    if 'A' <= c <= 'Z' then (c as int - 'A' as int + 'a' as int) as char else c
  }

  lemma {:induction false} LowerEach(s: string)
    ensures |AsciiLower(s)| == |s| && forall i :: 0 <= i < |s| ==> AsciiLower(s)[i] == Lowered(s[i])
  {
    if s != "" {
      LowerEach(s[1..]);
      assert AsciiLower(s)[1..] == AsciiLower(s[1..]);
      assert forall i :: 1 <= i < |s| ==> s[1..][i - 1] == s[i] && AsciiLower(s)[i] == AsciiLower(s[1..])[i - 1];
    }
  }

  /** `name` is something, a dot, and `extension`, which has no dot. */
  predicate HasExtension(name: string, extension: string) {
    && |extension| + 2 <= |name| && '.' !in extension
    && name[|name| - |extension| - 1..] == "." + extension
  }

  lemma OneMore(name: string, extension: string, last: char, c: char)
    requires last != '.'
    ensures HasExtension(name + [last], extension + [c]) <==> HasExtension(name, extension) && c == last
  {
    var longer, k := name + [last], |name| - |extension| - 1;
    if k >= 1 {
      assert longer[k..] == name[k..] + [last];
      assert "." + (extension + [c]) == ("." + extension) + [c];
      assert (name[k..] + [last])[..|extension| + 1] == name[k..];
      assert (("." + extension) + [c])[..|extension| + 1] == "." + extension;
    }
  }

  lemma {:induction false} ExtensionExactly(name: string, extension: string)
    ensures Extension(name) == Some(extension) <==> HasExtension(name, extension)
    decreases |name|
  {
    if name != "" && name[|name| - 1] != '.' {
      var shorter, last := name[..|name| - 1], name[|name| - 1];
      if extension == "" {
        assert "." + extension == ".";
      } else {
        var rest := extension[..|extension| - 1];
        ExtensionExactly(shorter, rest);
        OneMore(shorter, rest, last, extension[|extension| - 1]);
        assert name == shorter + [last] && extension == rest + [extension[|extension| - 1]];
      }
    } else if name != "" && extension != "" {
      assert extension[|extension| - 1] in extension;
    }
  }

  /** The type of a path: decided by what follows the last dot of its last component, in
      lower case; a name that begins with its only dot has none. */
  lemma MimeTypeExactly(path: string, mime: Mime)
    ensures MimeType(path) == Some(mime)
      <==> exists extension :: HasExtension(LastComponent(path), extension) && MimeOfExtension(AsciiLower(extension)) == Some(mime)
  {
    var found := Extension(LastComponent(path));
    if found.Some? { ExtensionExactly(LastComponent(path), found.value); }
    if extension :| HasExtension(LastComponent(path), extension) && MimeOfExtension(AsciiLower(extension)) == Some(mime) {
      ExtensionExactly(LastComponent(path), extension);
    }
  }

  // ----- upper and lower case -----

  lemma LowerCons(c: char, rest: string)
    ensures AsciiLower([c] + rest) == AsciiLower([c]) + AsciiLower(rest)
    ensures |AsciiLower([c])| == 1 && (AsciiLower([c])[0] == '/' <==> c == '/')
  {
    assert ([c] + rest)[1..] == rest && [c][1..] == "" && AsciiLower("") == "";
  }

  /** Components of a string by its first character. */
  lemma ComponentsCons(c: char, rest: string)
    ensures var parts := Components(rest);
      Components([c] + rest) == if c == '/' then [""] + parts else [[c] + parts[0]] + parts[1..]
  {
    assert ([c] + rest)[1..] == rest && ([c] + rest)[0] == c;
  }

  lemma LastCons(c: char, rest: string)
    ensures LastComponent([c] + rest) ==
      if c != '/' && |Components(rest)| == 1 then [c] + LastComponent(rest) else LastComponent(rest)
    ensures |Components([c] + rest)| == |Components(rest)| + if c == '/' then 1 else 0
  {
    ComponentsCons(c, rest);
  }

  lemma {:induction false} LowerLast(s: string)
    ensures |Components(AsciiLower(s))| == |Components(s)|
    ensures LastComponent(AsciiLower(s)) == AsciiLower(LastComponent(s))
  {
    if s != "" {
      var c, rest := s[0], s[1..];
      assert s == [c] + rest;
      LowerLast(rest);
      LowerCons(c, rest);
      var d := AsciiLower([c])[0];
      assert AsciiLower(s) == [d] + AsciiLower(rest);
      LastCons(c, rest);
      LastCons(d, AsciiLower(rest));
      LowerCons(c, LastComponent(rest));
    }
  }

  lemma {:induction false} LowerSuffix(s: string, k: nat)
    requires k <= |s|
    ensures |AsciiLower(s)| == |s| && AsciiLower(s)[k..] == AsciiLower(s[k..])
  {
    LowerEach(s);
    LowerEach(s[k..]);
  }

  lemma LowerHasExtension(name: string, extension: string)
    requires HasExtension(name, extension)
    ensures HasExtension(AsciiLower(name), AsciiLower(extension))
  {
    var k := |name| - |extension| - 1;
    LowerEach(extension);
    LowerSuffix(name, k);
    LowerSuffix("." + extension, 1);
    assert ("." + extension)[1..] == extension;
    LowerEach("." + extension);
  }

  lemma LowerTwice(s: string)
    ensures AsciiLower(AsciiLower(s)) == AsciiLower(s)
  {
    LowerEach(s);
    LowerEach(AsciiLower(s));
  }

  lemma LowerExtension(name: string)
    ensures match Extension(name)
            case Some(e) => Extension(AsciiLower(name)) == Some(AsciiLower(e))
            case None => Extension(AsciiLower(name)) == None
  {
    match Extension(name)
    case Some(e) =>
      ExtensionExactly(name, e);
      LowerHasExtension(name, e);
      ExtensionExactly(AsciiLower(name), AsciiLower(e));
    case None =>
      if Extension(AsciiLower(name)).Some? { DotSurvives(name); }
  }

  /** A name that has an extension in lower case has one as it is. */
  lemma DotSurvives(name: string)
    requires Extension(AsciiLower(name)).Some?
    ensures Extension(name).Some?
  {
    var lower := Extension(AsciiLower(name)).value;
    ExtensionExactly(AsciiLower(name), lower);
    LowerEach(name);
    var k := |name| - |lower| - 1;
    assert AsciiLower(name)[k..][0] == '.' == AsciiLower(name)[k];
    forall i | k < i < |name| ensures name[i] != '.' {
      assert AsciiLower(name)[i] == AsciiLower(name)[k..][i - k] == lower[i - k - 1];
    }
    assert name[k..] == "." + name[k + 1..];
    ExtensionExactly(name, name[k + 1..]);
  }

  /** The type does not depend on the case of any letter of the path. */
  lemma MimeIgnoresCase(p: string, q: string)
    requires AsciiLower(p) == AsciiLower(q)
    ensures MimeType(p) == MimeType(q)
  {
    LowerDecides(p);
    LowerDecides(q);
  }

  lemma LowerDecides(p: string)
    ensures MimeType(p) == MimeType(AsciiLower(p))
  {
    LowerLast(p);
    SameType(LastComponent(p), LastComponent(AsciiLower(p)));
  }

  function TypeOfName(name: string): Option<Mime> {
    match Extension(name)
    case None => None
    case Some(e) => MimeOfExtension(AsciiLower(e))
  }

  lemma SameType(name: string, lowered: string)
    requires lowered == AsciiLower(name)
    ensures TypeOfName(name) == TypeOfName(lowered)
  {
    LowerExtension(name);
    if Extension(name).Some? { LowerTwice(Extension(name).value); }
  }
}
