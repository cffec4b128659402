/** Package locators, written repository/name:version. */
module Locator {
  import opened Common
  import opened Text

  datatype Locator = Locator(repository: string, name: string, version: string)

  predicate IsNameChar(c: char) {
    'a' <= c <= 'z' || 'A' <= c <= 'Z' || '0' <= c <= '9' || c in {'-', '_', '.'}
  }

  predicate IsName(s: string) {
    s != "" && forall i :: 0 <= i < |s| ==> IsNameChar(s[i])
  }

  predicate IsVersion(s: string) {
    s != "" && '\n' !in s
  }

  /** The match of the locator pattern: a name, a colon and a version.  A name has no colon, so the name ends at
      the first one. */
  function MatchPackage(s: string): Option<(string, string)> {
    var i := IndexAny(s, {':'});
    if i < |s| && IsName(s[..i]) && IsVersion(s[i + 1..]) then Some((s[..i], s[i + 1..])) else None
  }

  /** ParseLocator. */
  function Parse(s: string): Option<Locator> {
    var parts := Split(s, {'/'});
    if |parts| != 2 || parts[0] == "" || parts[1] == "" then None
    else
      match MatchPackage(parts[1])
      case None => None
      case Some((name, version)) => Some(Locator(parts[0], name, version))
  }

  /** Locator.String. */
  function Print(l: Locator): string {
    l.repository + "/" + l.name + ":" + l.version
  }

  /** The locators that can be written down. */
  predicate Valid(l: Locator) {
    && l.repository != "" && '/' !in l.repository
    && IsName(l.name)
    && IsVersion(l.version) && '/' !in l.version
  }

  /** A name consists of the letters, digits, underscores, dots and hyphens. */
  lemma NameExactly(s: string)
    ensures IsName(s) <==> s != "" && forall i :: 0 <= i < |s| ==> IsWordChar(s[i]) || s[i] == '-'
  {
    forall c: char ensures IsNameChar(c) <==> IsWordChar(c) || c == '-' {
      NameCharExactly(c);
    }
  }

  lemma NameCharExactly(c: char)
    ensures IsNameChar(c) <==> IsWordChar(c) || c == '-'
  {
  }

  lemma PrintedParts(l: Locator)
    requires '/' !in l.repository && '/' !in l.name && '/' !in l.version
    ensures Split(Print(l), {'/'}) == [l.repository, l.name + ":" + l.version]
  {
    var package := l.name + ":" + l.version;
    assert Print(l) == l.repository + ['/'] + package;
    assert Free(package, {'/'});
    SplitAtSeparator(l.repository, '/', package, {'/'});
    SplitFree(package, {'/'});
  }

  lemma MatchPrinted(name: string, version: string)
    requires IsName(name) && IsVersion(version)
    ensures MatchPackage(name + ":" + version) == Some((name, version))
  {
    var s := name + ":" + version;
    assert s == name + (":" + version);
    assert Free(name, {':'});
    IndexAnyUnique(name, ":" + version, {':'});
    assert s[..|name|] == name && s[|name| + 1..] == version;
  }

  /** Any accepted text prints back unchanged, and what is accepted is valid. */
  lemma PrintUndoesParse(s: string)
    requires Parse(s).Some?
    ensures Print(Parse(s).value) == s && Valid(Parse(s).value)
  {
    var parts := Split(s, {'/'});
    JoinSplit(s, '/');
    JoinTwo(parts);
    MatchedPackage(parts[1]);
    assert Free(parts[0], {'/'}) && Free(parts[1], {'/'});
    FreeHasNone(parts[0], '/');
    FreeHasNone(parts[1], '/');
    PartsOfPackage(parts[1], Parse(s).value.name, Parse(s).value.version);
    Regroup(parts[0], Parse(s).value.name, Parse(s).value.version);
  }

  lemma JoinTwo(parts: seq<string>)
    requires |parts| == 2
    ensures Join(parts, "/") == parts[0] + "/" + parts[1]
  {
    assert parts[1..] == [parts[1]];
  }

  lemma MatchedPackage(s: string)
    requires MatchPackage(s).Some?
    ensures var (name, version) := MatchPackage(s).value;
      s == name + ":" + version && IsName(name) && IsVersion(version)
  {
    var i := IndexAny(s, {':'});
    assert s == s[..i] + [s[i]] + s[i + 1..];
  }

  lemma FreeHasNone(s: string, c: char)
    requires Free(s, {c})
    ensures c !in s
  {
  }

  lemma PartsOfPackage(s: string, name: string, version: string)
    requires s == name + ":" + version && '/' !in s
    ensures '/' !in version
  {
    assert forall i :: 0 <= i < |version| ==> version[i] == s[|name| + 1 + i];
  }

  lemma Regroup(repository: string, name: string, version: string)
    ensures repository + "/" + (name + ":" + version) == repository + "/" + name + ":" + version
  {
  }

  /** Exactly the valid locators are read back from what they print. */
  lemma ParseUndoesPrintIff(l: Locator)
    ensures Parse(Print(l)) == Some(l) <==> Valid(l)
  {
    if Valid(l) {
      PrintedParts(l);
      MatchPrinted(l.name, l.version);
    }
    if Parse(Print(l)) == Some(l) {
      PrintUndoesParse(Print(l));
    }
  }
}
