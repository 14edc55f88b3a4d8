/** What a list of permission patterns permits, from the manifest's text to the answer to a request. */
module Grants {
  import opened Wrappers
  import opened PathText
  import opened PosixPath
  import opened PathRules
  import opened Glob
  import opened GlobRegex
  import opened Checker

  // ---------------------------------------------------------------------
  // Which rule a pattern becomes
  // ---------------------------------------------------------------------

  predicate AllSpace(s: string) {
    forall i | 0 <= i < |s| :: JsSpace(s[i])
  }

  lemma {:induction false} TrimLeftMeans(s: string) returns (left: string)
    ensures s == left + TrimLeft(s) && AllSpace(left) && (TrimLeft(s) != "" ==> !JsSpace(TrimLeft(s)[0]))
  {
    left := "";
    if s != "" && JsSpace(s[0]) {
      left := TrimLeftMeans(s[1..]);
      left := [s[0]] + left;
      assert s == [s[0]] + s[1..];
    }
  }

  lemma {:induction false} TrimRightMeans(s: string) returns (right: string)
    ensures s == TrimRight(s) + right && AllSpace(right)
    ensures TrimRight(s) != "" ==> !JsSpace(TrimRight(s)[|TrimRight(s)| - 1]) && TrimRight(s)[0] == s[0]
    decreases |s|
  {
    right := "";
    if s != "" && JsSpace(s[|s| - 1]) {
      right := TrimRightMeans(s[..|s| - 1]);
      right := right + [s[|s| - 1]];
      assert s == s[..|s| - 1] + [s[|s| - 1]];
    }
  }

  // White space and line terminators of ECMAScript, as code points.
  const SPACES: set<int> :=
    {9, 10, 11, 12, 13, 32, 160, 5760, 8192, 8193, 8194, 8195, 8196, 8197, 8198, 8199, 8200, 8201, 8202,
     8232, 8233, 8239, 8287, 12288, 65279}

  lemma SpaceCharacters(c: char)
    ensures JsSpace(c) <==> c as int in SPACES
  {
  }

  // Trimming takes off white space on both sides and leaves none there.
  lemma TrimMeans(s: string) returns (left: string, right: string)
    ensures s == left + Trim(s) + right && AllSpace(left) && AllSpace(right)
    ensures Trim(s) != "" ==> !JsSpace(Trim(s)[0]) && !JsSpace(Trim(s)[|Trim(s)| - 1])
  {
    left := TrimLeftMeans(s);
    right := TrimRightMeans(TrimLeft(s));
  }

  // The pattern without surrounding white space, separators folded.
  function Plainly(pattern: string): string {
    Trim(ToPosix(pattern))
  }

  predicate Everything(pattern: string) {
    Plainly(pattern) == "*" || Plainly(pattern) == "**"
  }

  // Starts at a root, or at a drive's root.
  predicate FromRoot(path: string) {
    || (path != "" && path[0] == '/')
    || (|path| >= 3 && path[1] == ':' && path[2] == '/' && ('a' <= path[0] <= 'z' || 'A' <= path[0] <= 'Z'))
  }

  // The pattern names no path at all, or one above the root.
  predicate Pointless(pattern: string) {
    var segs := GuestSegments(Plainly(pattern));
    segs == [] || (!FromRoot(Plainly(pattern)) && segs[0] == "..")
  }

  // Every pattern's fate: refused, a grant of everything, or a rule of the kind its beginning says.
  lemma KindExactly(pattern: string)
    ensures Compiled(pattern) == Err(NulByte) <==> '\0' in pattern
    ensures Compiled(pattern) == Err(EmptyPattern) <==> '\0' !in pattern && Plainly(pattern) == ""
    ensures Compiled(pattern) == Ok(All) <==> '\0' !in pattern && Everything(pattern)
    ensures var ordinary := '\0' !in pattern && Plainly(pattern) != "" && !Everything(pattern);
            && (Compiled(pattern) == Err(Escapes) || Compiled(pattern) == Err(EmptyPath)
                <==> ordinary && Pointless(pattern))
            && (Compiled(pattern).Ok? && Compiled(pattern).value.Absolute? ==> FromRoot(Plainly(pattern)))
            && (Compiled(pattern).Ok? && Compiled(pattern).value.Relative? ==> !FromRoot(Plainly(pattern)))
            && (ordinary && !Pointless(pattern) && NoMark(pattern) ==> Compiled(pattern).Ok?)
  {
    var posix := Plainly(pattern);
    GuestClean(posix);
    EmptyJoin(IsAbsoluteGuestPath(posix), GuestSegments(posix));
    if !IsAbsoluteGuestPath(posix) {
      EscapesExactly(GuestSegments(posix));
    }
    if NoMark(pattern) {
      PlainPatternCompiles(pattern);
    }
  }

  // ---------------------------------------------------------------------
  // What a pattern grants
  // ---------------------------------------------------------------------

  // The segments that a rule sees in a text.
  function Seen(text: string): seq<string> {
    Split(ToPosix(text))
  }

  // The pattern grants the path: by its glob on the whole path if it is absolute, else on what is
  // below the root.
  ghost predicate Granted(pattern: string, root: string, path: string)
    requires path != ""
  {
    || Everything(pattern)
    || LineGlobMatches(PatternSegments(pattern),
                       if FromRoot(Plainly(pattern)) then Seen(path[1..]) else Seen(Join(Suffix(root, path))))
  }

  lemma PosixTail(path: string)
    requires path != ""
    ensures ToPosix(path) == [Folded(path[0])] + ToPosix(path[1..]) && ToPosix(path)[1..] == ToPosix(path[1..])
  {
  }

  // A compiled pattern permits exactly what it grants.
  lemma PermitsExactly(pattern: string, root: string, path: string)
    requires Canonical(path) && Compiled(pattern).Ok? && NoMark(pattern)
    ensures Permits(Compiled(pattern).value, ToPosix(Join(Suffix(root, path))), ToPosix(path)) <==>
            Granted(pattern, root, path)
  {
    var rule, whole := Compiled(pattern).value, ToPosix(path);
    KindExactly(pattern);
    match rule
    case All =>
    case Relative(_) => RuleExact(pattern, ToPosix(Join(Suffix(root, path))));
    case Absolute(_) =>
      PosixTail(path);
      assert whole[0] == '/' && DriveFolded(whole) == whole;
      RuleExact(pattern, whole);
  }

  // The rules that the manifest's patterns become.
  ghost predicate CompiledFrom(patterns: seq<string>, rules: seq<Rule>) {
    && |rules| == |patterns|
    && forall i | 0 <= i < |patterns| :: NoMark(patterns[i]) && Compiled(patterns[i]) == Ok(rules[i])
  }

  ghost predicate SomeGrants(patterns: seq<string>, root: string, path: string)
    requires path != ""
  {
    exists i | 0 <= i < |patterns| :: Granted(patterns[i], root, path)
  }

  lemma PermittedExactly(patterns: seq<string>, rules: seq<Rule>, root: string, path: string)
    requires CompiledFrom(patterns, rules) && Canonical(path)
    ensures PermittedBy(rules, root, path) <==> SomeGrants(patterns, root, path)
  {
    forall i | 0 <= i < |patterns|
      ensures Permits(rules[i], ToPosix(Join(Suffix(root, path))), ToPosix(path)) <==> Granted(patterns[i], root, path)
    {
      assert Compiled(patterns[i]) == Ok(rules[i]);
      PermitsExactly(patterns[i], root, path);
    }
  }

  // From the manifest to the answer: a request is allowed exactly when it leads to a path within the
  // root that some pattern grants, and that path is the answer.
  lemma RequestAllowedExactly(realpath: RealPath, root: string, patterns: seq<string>, rules: seq<Rule>,
                              requested: string, r: Result<string, Refusal>, c: string)
    requires CompiledFrom(patterns, rules) && forall v :: Verdict(realpath, root, rules, requested, v) <==> v == r
    ensures r == Ok(c) <==> LeadsTo(realpath, root, requested, c) && Within(root, c) && SomeGrants(patterns, root, c)
  {
    if LeadsTo(realpath, root, requested, c) {
      PermittedExactly(patterns, rules, root, c);
    }
    assert Verdict(realpath, root, rules, requested, Ok(c)) <==> Ok(c) == r;
    if r == Ok(c) {
      assert LeadsTo(realpath, root, requested, c);
    }
  }

  // ---------------------------------------------------------------------
  // Absolute grants
  // ---------------------------------------------------------------------

  // Without a backslash in it, an absolute pattern grants exactly the paths whose segments its own match.
  lemma AbsoluteGrant(pattern: string, root: string, path: string)
    requires Canonical(path) && NoBackslash(path) && FromRoot(Plainly(pattern)) && !Everything(pattern)
    ensures Granted(pattern, root, path) <==>
            LineGlobMatches(PatternSegments(pattern), if Segments(path) == [] then [""] else Segments(path))
  {
    var segs := Segments(path);
    SegmentsClean(path);
    assert path == "/" + Join(segs) && path[1..] == Join(segs);
    assert NoBackslash(Join(segs));
    SeenAsIs(Join(segs));
    if segs == [] {
      assert Split("") == [""];
    } else {
      SplitJoin(segs);
    }
  }
}
