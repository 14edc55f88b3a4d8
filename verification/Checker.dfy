/**
 Authorizing guest paths: a request is resolved textually, canonicalized through the
 longest existing prefix, confined to the plugin root and matched against the manifest.
 */
module Checker {
  import opened Wrappers
  import opened PathText
  import opened PosixPath
  import opened PathRules
  import opened Glob

  // The canonical form of an existing path, or nothing.
  type RealPath = string -> Option<string>

  // A canonical path: absolute, resolved, without a trailing slash.
  predicate Canonical(path: string) {
    IsAbsolute(path) && path == Render(true, Segments(path))
  }

  ghost predicate GivesCanonical(realpath: RealPath) {
    forall p | realpath(p).Some? :: Canonical(realpath(p).value)
  }

  lemma RenderCanonical(segs: seq<string>)
    requires Clean(true, segs)
    ensures Canonical(Render(true, segs)) && Segments(Render(true, segs)) == segs
  {
    RenderShape(true, segs);
    RenderSegments(true, segs);
  }

  lemma SegmentsClean(path: string)
    ensures Clean(IsAbsolute(path), Segments(path))
  {
    NormalizedSegments(path);
  }

  // ---------------------------------------------------------------------
  // Canonicalization
  // ---------------------------------------------------------------------

  // The path that the first `k` of `segs` spell; all of them spell `whole`, which may end in a slash.
  function Ancestor(whole: string, segs: seq<string>, k: nat): string
    requires k <= |segs|
  {
    if k == |segs| then whole else Render(true, segs[..k])
  }

  // What is reached if the longest existing prefix has `k` segments, or if none exists (`k == 0`).
  function Reappended(realpath: RealPath, whole: string, segs: seq<string>, k: nat): seq<string>
    requires k <= |segs|
  {
    var found := realpath(Ancestor(whole, segs, k));
    (if found.Some? then Segments(found.value) else segs[..k]) + segs[k..]
  }

  ghost predicate Missing(realpath: RealPath, whole: string, segs: seq<string>, k: nat)
    requires k <= |segs|
  {
    realpath(Ancestor(whole, segs, k)).None?
  }

  // `k` is the length of the longest existing prefix, or 0 if there is none.
  ghost predicate Longest(realpath: RealPath, whole: string, segs: seq<string>, k: nat) {
    && k <= |segs|
    && (k == 0 || !Missing(realpath, whole, segs, k))
    && forall j | k < j <= |segs| :: Missing(realpath, whole, segs, j)
  }

  lemma {:induction false} TailPlain(tail: seq<string>, base: string)
    requires (forall i | 0 <= i < |tail| :: tail[i] != "") && base != ""
    ensures NonEmpty([base] + tail) == [base] + tail
  {
    NonEmptyKeeps([base] + tail);
  }

  // Joining a canonical path with resolved segments appends them.
  lemma JoinAppends(base: string, tail: seq<string>)
    requires Canonical(base) && Clean(true, Segments(base) + tail)
    ensures Joined([base] + tail) == Render(true, Segments(base) + tail)
    ensures Canonical(Joined([base] + tail)) && Segments(Joined([base] + tail)) == Segments(base) + tail
  {
    var segs := Segments(base) + tail;
    assert forall i | 0 <= i < |tail| :: tail[i] == segs[|Segments(base)| + i];
    TailPlain(tail, base);
    RenderCanonical(segs);
    var text := Join([base] + tail);
    if tail == [] {
      assert [base] + tail == [base] && segs == Segments(base);
    } else {
      JoinConcat([base], tail);
      assert text == base + "/" + Join(tail);
      SplitConcat(base, Join(tail));
      SplitJoin(tail);
      FoldConcat(true, [], Split(base), tail);
      FoldClean(true, Segments(base), tail);
      assert Segments(text) == segs;
      JoinEnd(tail);
    }
    NoTrailing(base, text, segs);
  }

  lemma JoinEnd(tail: seq<string>)
    requires tail != [] && forall i | 0 <= i < |tail| :: NoSlash(tail[i]) && tail[i] != ""
    ensures Join(tail) != "" && !EndsWithSlash(Join(tail))
    decreases |tail|
  {
    if |tail| > 1 {
      JoinEnd(tail[1..]);
    } else {
      assert NoSlash(tail[0]);
    }
  }

  lemma NoTrailing(base: string, text: string, segs: seq<string>)
    requires IsAbsolute(text) && Segments(text) == segs && (text == base || !EndsWithSlash(text)) && Canonical(base)
    ensures Normalized(text) == Render(true, segs)
  {
    SegmentsClean(base);
    RenderShape(true, Segments(base));
  }

  lemma CleanConcat(a: seq<string>, b: seq<string>)
    requires Clean(true, a) && Clean(true, b)
    ensures Clean(true, a + b)
  {
  }

  lemma CleanSlice(segs: seq<string>, i: nat, j: nat)
    requires Clean(true, segs) && i <= j <= |segs|
    ensures Clean(true, segs[i..j])
  {
  }

  // A resolved path is its segments' text, perhaps with a trailing slash.
  lemma ResolvedShape(parts: seq<string>)
    ensures var p := ResolvedText(parts);
            && IsAbsolute(p) && Clean(true, Segments(p))
            && (p == Render(true, Segments(p)) || (Segments(p) != [] && p == Render(true, Segments(p)) + "/"))
  {
    var path := Rooted(Gathered(parts));
    ResolveWalks(parts);
    NormalizedSegments(path);
    RenderShape(true, Segments(path));
  }

  // Going up from the path of `k` segments.
  lemma Upwards(whole: string, segs: seq<string>, k: nat)
    requires Clean(true, segs) && k <= |segs|
    requires whole == Render(true, segs) || (segs != [] && whole == Render(true, segs) + "/")
    ensures k == 0 ==> Ancestor(whole, segs, k) == "/" && Dirname("/") == "/"
    ensures k > 0 ==>
              && Dirname(Ancestor(whole, segs, k)) == Ancestor(whole, segs, k - 1)
              && Basename(Ancestor(whole, segs, k)) == segs[k - 1]
              && Ancestor(whole, segs, k - 1) != Ancestor(whole, segs, k)
  {
    if k > 0 {
      var front := segs[..k];
      CleanSlice(segs, 0, k);
      assert segs[0..k] == front && segs[..|segs|] == segs;
      DirnameDrops(front);
      RenderShape(true, front);
      assert front[..k - 1] == segs[..k - 1];
      if whole == Render(true, segs) + "/" {
        RenderShape(true, segs);
        DirnameTrailing(Render(true, segs));
      }
      RenderCanonical(front);
      CleanSlice(segs, 0, k - 1);
      RenderCanonical(front[..k - 1]);
      if k == |segs| && whole != Render(true, segs) {
        TrailingSlash(Render(true, segs));
      }
    }
  }

  // `r` is `whole` with its longest existing prefix replaced by that prefix's canonical form.
  ghost predicate CanonicalOf(realpath: RealPath, whole: string, r: string) {
    Canonical(r) && exists k ::
        Longest(realpath, whole, Segments(whole), k) && Segments(r) == Reappended(realpath, whole, Segments(whole), k)
  }

  // The loop has found nothing so far and stands at the path of `k` segments.
  ghost predicate Climbed(realpath: RealPath, whole: string, segs: seq<string>, k: nat, current: string,
      tail: seq<string>) {
    && k <= |segs| && current == Ancestor(whole, segs, k) && tail == segs[k..]
    && forall j | k < j <= |segs| :: Missing(realpath, whole, segs, j)
  }

  lemma FoundHere(realpath: RealPath, whole: string, segs: seq<string>, k: nat, current: string, tail: seq<string>)
    requires GivesCanonical(realpath) && Clean(true, segs) && segs == Segments(whole)
    requires Climbed(realpath, whole, segs, k, current, tail) && realpath(current).Some?
    ensures CanonicalOf(realpath, whole, if tail == [] then realpath(current).value
            else Joined([realpath(current).value] + tail))
  {
    Found(realpath, whole, segs, k);
    assert Longest(realpath, whole, segs, k);
  }

  lemma FoundNowhere(realpath: RealPath, whole: string, segs: seq<string>, current: string, tail: seq<string>)
    requires Clean(true, segs) && segs == Segments(whole)
    requires Climbed(realpath, whole, segs, 0, current, tail) && realpath(current).None? && current == "/"
    ensures CanonicalOf(realpath, whole, Joined([current] + tail))
  {
    NoneFound(realpath, whole, segs);
    assert Longest(realpath, whole, segs, 0);
    assert segs[0..] == segs;
  }

  lemma ClimbOn(realpath: RealPath, whole: string, segs: seq<string>, k: nat, current: string, tail: seq<string>)
    requires Clean(true, segs) && (whole == Render(true, segs) || (segs != [] && whole == Render(true, segs) + "/"))
    requires Climbed(realpath, whole, segs, k, current, tail) && realpath(current).None?
    ensures Dirname(current) == current <==> k == 0
    ensures k == 0 ==> current == "/"
    ensures k > 0 ==> Climbed(realpath, whole, segs, k - 1, Dirname(current), [Basename(current)] + tail)
  {
    Upwards(whole, segs, k);
    if k > 0 {
      assert [segs[k - 1]] + segs[k..] == segs[k - 1..];
    }
  }

  method Canonicalize(realpath: RealPath, nativePath: string) returns (r: string)
    requires GivesCanonical(realpath)
    ensures CanonicalOf(realpath, ResolvedText([nativePath]), r)
  {
    var current := Resolve([nativePath]);
    ghost var whole := current;
    ResolvedShape([nativePath]);
    ghost var segs := Segments(whole);
    ghost var k := |segs|;
    var tail: seq<string> := [];
    while true
      invariant 0 <= k <= |segs| && Climbed(realpath, whole, segs, k, current, tail)
      decreases k
    {
      var found := realpath(current);
      if found.Some? {
        FoundHere(realpath, whole, segs, k, current, tail);
        return if tail == [] then found.value else Joined([found.value] + tail);
      }
      var parent := Dirname(current);
      ClimbOn(realpath, whole, segs, k, current, tail);
      if parent == current {
        FoundNowhere(realpath, whole, segs, current, tail);
        return Joined([current] + tail);
      }
      tail := [Basename(current)] + tail;
      current := parent;
      k := k - 1;
    }
  }

  lemma Found(realpath: RealPath, whole: string, segs: seq<string>, k: nat)
    requires GivesCanonical(realpath) && Clean(true, segs) && k <= |segs| && !Missing(realpath, whole, segs, k)
    ensures var found := realpath(Ancestor(whole, segs, k)).value;
            var r := if segs[k..] == [] then found else Joined([found] + segs[k..]);
            Canonical(r) && Segments(r) == Reappended(realpath, whole, segs, k)
  {
    var found := realpath(Ancestor(whole, segs, k)).value;
    assert Canonical(found);
    SegmentsClean(found);
    CleanSlice(segs, k, |segs|);
    assert segs[k..|segs|] == segs[k..];
    CleanConcat(Segments(found), segs[k..]);
    JoinAppends(found, segs[k..]);
  }

  lemma NoneFound(realpath: RealPath, whole: string, segs: seq<string>)
    requires Clean(true, segs) && Missing(realpath, whole, segs, 0)
    ensures Canonical(Joined(["/"] + segs)) && Segments(Joined(["/"] + segs)) == Reappended(realpath, whole, segs, 0)
  {
    RenderCanonical([]);
    assert Render(true, []) == "/";
    assert [] + segs == segs;
    JoinAppends("/", segs);
  }

  // ---------------------------------------------------------------------
  // Confinement
  // ---------------------------------------------------------------------

  predicate IsInside(root: string, candidate: string) {
    candidate == root || StartsWith(candidate, if EndsWithSlash(root) then root else root + "/")
  }

  lemma RenderExtends(a: seq<string>, b: seq<string>)
    requires a != [] && b != []
    ensures Render(true, a + b) == Render(true, a) + "/" + Join(b)
  {
    JoinConcat(a, b);
  }

  // What starts with the root's text and a slash starts with the root's segments.
  lemma PrefixSegments(root: seq<string>, path: seq<string>, rest: string)
    requires Clean(true, root) && Clean(true, path) && Render(true, path) == Render(true, root) + "/" + rest
    ensures root <= path
  {
    PiecesOfRender(root);
    PiecesOfRender(path);
    SplitConcat(Render(true, root), rest);
    NonEmptyConcat(Split(Render(true, root)), Split(rest));
  }

  // Containment of texts is containment of segments, for canonical paths.
  lemma InsideExactly(root: string, candidate: string)
    requires Canonical(root) && Canonical(candidate)
    ensures IsInside(root, candidate) <==> Segments(root) <= Segments(candidate)
  {
    var a, b := Segments(root), Segments(candidate);
    SegmentsClean(root);
    SegmentsClean(candidate);
    RenderShape(true, a);
    if a == [] {
      assert root == "/" && candidate[..1] == "/";
    } else {
      if a <= b {
        var rest := b[|a|..];
        assert b == a + rest;
        if rest != [] {
          RenderExtends(a, rest);
          assert candidate[..|root| + 1] == root + "/";
        } else {
          assert b == a;
        }
      }
      if IsInside(root, candidate) && candidate != root {
        var rest := candidate[|root| + 1..];
        assert candidate == candidate[..|root| + 1] + rest;
        PrefixSegments(a, b, rest);
      }
    }
  }

  // A root as the constructor leaves it: canonical, or resolved and perhaps with a trailing slash
  // if it does not exist.
  ghost predicate PluginRoot(root: string) {
    && IsAbsolute(root) && Clean(true, Segments(root))
    && (Canonical(root) || (Segments(root) != [] && root == Render(true, Segments(root)) + "/"))
  }

  method CanonicalRoot(realpath: RealPath, root: string) returns (r: string)
    requires GivesCanonical(realpath)
    ensures PluginRoot(r)
    ensures r == if realpath(ResolvedText([root])).Some? then realpath(ResolvedText([root])).value
            else ResolvedText([root])
  {
    var resolved := Resolve([root]);
    ResolvedShape([root]);
    var found := realpath(resolved);
    r := if found.Some? then found.value else resolved;
    if found.Some? {
      SegmentsClean(found.value);
    }
  }

  // Below the root, or the root itself unless it is written with a trailing slash.
  predicate Within(root: string, path: string) {
    Segments(root) <= Segments(path) && (Canonical(root) || Segments(root) != Segments(path))
  }

  // A root that does not exist keeps a trailing slash it was given; then only paths strictly below it are inside.
  lemma SlashedRoot(segs: seq<string>, candidate: string)
    requires Clean(true, segs) && segs != [] && Canonical(candidate)
    ensures IsInside(Render(true, segs) + "/", candidate) <==> segs < Segments(candidate)
  {
    var root, b := Render(true, segs), Segments(candidate);
    SegmentsClean(candidate);
    RenderCanonical(segs);
    InsideExactly(root, candidate);
    RenderShape(true, b);
    RenderShape(true, segs);
    assert candidate == root <==> b == segs;
    assert (root + "/")[|root|] == '/' && EndsWithSlash(root + "/");
    assert candidate != root + "/";
    assert segs < b <==> segs <= b && segs != b;
  }

  // For every root and every canonical path the text test is containment of segments.
  lemma WithinExactly(root: string, candidate: string)
    requires PluginRoot(root) && Canonical(candidate)
    ensures IsInside(root, candidate) <==> Within(root, candidate)
  {
    if Canonical(root) {
      InsideExactly(root, candidate);
    } else {
      SlashedRoot(Segments(root), candidate);
    }
  }

  // ---------------------------------------------------------------------
  // Authorization
  // ---------------------------------------------------------------------

  datatype Refusal = EmptyRequest | NulInPath | EscapesPluginRoot | OutsideRoot | NotPermitted

  // The path below the root, as the manifest sees it.
  function Suffix(root: string, path: string): seq<string> {
    if Segments(root) <= Segments(path) then Segments(path)[|Segments(root)|..] else []
  }

  // Whether a rule permits a path, given as its text below the root and as its whole text.
  predicate Permits(rule: Rule, relative: string, whole: string) {
    match rule
    case All => true
    case Relative(_) => MatchRule(rule, relative)
    case Absolute(_) => MatchRule(rule, whole)
  }

  ghost predicate PermittedBy(rules: seq<Rule>, root: string, path: string) {
    exists i | 0 <= i < |rules| :: Permits(rules[i], ToPosix(Join(Suffix(root, path))), ToPosix(path))
  }

  lemma {:induction false} CommonWhole(a: seq<string>, rest: seq<string>)
    ensures Common(a, a + rest) == |a|
  {
    if a != [] {
      assert (a + rest)[1..] == a[1..] + rest;
      CommonWhole(a[1..], rest);
    }
  }

  lemma WalkedAbsolute(path: string)
    requires IsAbsolute(path)
    ensures Walked([], [path]) == Segments(path)
  {
    assert [path][1..] == [];
  }

  // The route from the root to a path inside it is the suffix.
  lemma RelativeIsSuffix(root: string, path: string, r: string)
    requires IsAbsolute(root) && IsAbsolute(path) && Segments(root) <= Segments(path)
    requires r == "" || r == Join(Trail(Walked([], [root]), Walked([], [path])))
    requires Walked([], [root, r]) == Walked([], [path])
    ensures r == Join(Suffix(root, path))
  {
    var a, b := Segments(root), Segments(path);
    WalkedAbsolute(root);
    WalkedAbsolute(path);
    var rest := b[|a|..];
    assert b == a + rest;
    CommonWhole(a, rest);
    assert Trail(a, b) == rest by {
      assert Ups(0) + rest == rest;
    }
    if r == "" {
      WalkedTwice(root, "");
      WalkedNowhere(a);
      assert rest == [];
    }
  }

  method MatchAny(rules: seq<Rule>, relative: string, whole: string) returns (permitted: bool)
    ensures permitted <==> exists i | 0 <= i < |rules| :: Permits(rules[i], relative, whole)
  {
    for i := 0 to |rules|
      invariant forall j | 0 <= j < i :: !Permits(rules[j], relative, whole)
    {
      var matched := MatchOne(rules[i], relative, whole);
      if matched {
        return true;
      }
    }
    permitted := false;
  }

  method MatchOne(rule: Rule, relative: string, whole: string) returns (matched: bool)
    ensures matched == Permits(rule, relative, whole)
  {
    if rule.All? {
      return true;
    }
    if rule.Relative? {
      return MatchRule(rule, relative);
    }
    matched := MatchRule(rule, whole);
  }

  method CheckManifest(rules: seq<Rule>, root: string, canonical: string) returns (permitted: bool)
    requires IsAbsolute(root) && Canonical(canonical) && Segments(root) <= Segments(canonical)
    ensures permitted <==> PermittedBy(rules, root, canonical)
  {
    var relative := PosixPath.Relative(root, canonical);
    RelativeIsSuffix(root, canonical, relative);
    permitted := MatchAny(rules, ToPosix(relative), ToPosix(canonical));
  }

  // The native path a request names before links are followed.
  function Native(root: string, posix: string): string {
    var normalized := Join(GuestSegments(posix));
    if IsAbsoluteGuestPath(posix) then ResolvedText([(if HasDrive(posix) then posix[..2] else "") + "/" + normalized])
    else ResolvedText([root, normalized])
  }

  predicate TextuallyEscapes(posix: string) {
    !IsAbsoluteGuestPath(posix) && EscapesRoot(Join(GuestSegments(posix)))
  }

  // No link leads anywhere but where its own path says.
  ghost predicate SymlinkFree(realpath: RealPath) {
    forall p | realpath(p).Some? :: Segments(realpath(p).value) == Segments(p)
  }

  // A relative request that does not escape textually names a path below the root.
  lemma NativeBelowRoot(root: string, posix: string)
    requires PluginRoot(root) && !IsAbsoluteGuestPath(posix) && !TextuallyEscapes(posix)
    ensures Segments(ResolvedText([Native(root, posix)])) == Segments(root) + GuestSegments(posix)
  {
    var segs := GuestSegments(posix);
    var normalized := Join(segs);
    GuestClean(posix);
    EscapesExactly(segs);
    NoDots(segs);
    CleanConcat(Segments(root), segs);
    ResolveWalks([root, normalized]);
    ResolveWalks([Native(root, posix)]);
    WalkedAbsolute(Native(root, posix));
    WalkedAbsolute(root);
    WalkedTwice(root, normalized);
    if segs == [] {
      WalkedNowhere(Segments(root));
    } else {
      JoinStart(false, segs);
      WalkedOnce(Segments(root), normalized);
      SplitJoin(segs);
      FoldClean(true, Segments(root), segs);
    }
  }

  // An absolute request names the path of its own segments, its drive first, whatever the root is.
  lemma NativeFromRoot(root: string, posix: string)
    requires IsAbsoluteGuestPath(posix)
    ensures Segments(ResolvedText([Native(root, posix)]))
            == (if HasDrive(posix) then [posix[..2]] else []) + GuestSegments(posix)
  {
    var segs := GuestSegments(posix);
    var drive := if HasDrive(posix) then posix[..2] else "";
    var text := drive + "/" + Join(segs);
    GuestClean(posix);
    ResolveWalks([text]);
    ResolveWalks([Native(root, posix)]);
    WalkedAbsolute(Native(root, posix));
    if HasDrive(posix) {
      DriveWalks(drive, segs);
    } else {
      assert text == Render(true, segs);
      RenderCanonical(segs);
      WalkedAbsolute(text);
      assert [] + segs == segs;
    }
  }

  lemma DriveWalks(drive: string, segs: seq<string>)
    requires |drive| == 2 && drive[0] != '/' && drive[1] == ':' && Clean(true, segs)
    ensures Walked([], [drive + "/" + Join(segs)]) == [drive] + segs
  {
    var text := drive + "/" + Join(segs);
    assert NoSlash(drive) && !IsAbsolute(text);
    SplitOne(drive);
    SplitConcat(drive, Join(segs));
    assert [text][1..] == [];
    FoldConcat(true, [], [drive], Split(Join(segs)));
    assert [drive][1..] == [] && [] + [drive] == [drive];
    if segs == [] {
      assert Split("") == [""] && [""][1..] == [] && [drive] + segs == [drive];
    } else {
      SplitJoin(segs);
      FoldClean(true, [drive], segs);
    }
  }

  lemma NoDots(segs: seq<string>)
    requires Clean(false, segs) && (segs == [] || segs[0] != "..")
    ensures Clean(true, segs)
  {
  }

  lemma StaysInside(realpath: RealPath, root: string, posix: string, canonical: string)
    requires PluginRoot(root) && !IsAbsoluteGuestPath(posix) && !TextuallyEscapes(posix)
    requires CanonicalOf(realpath, ResolvedText([Native(root, posix)]), canonical)
    ensures SymlinkFree(realpath) ==> Segments(canonical) == Segments(root) + GuestSegments(posix)
  {
    if SymlinkFree(realpath) {
      var whole := ResolvedText([Native(root, posix)]);
      var segs := Segments(whole);
      var k :| Longest(realpath, whole, segs, k) && Segments(canonical) == Reappended(realpath, whole, segs, k);
      NativeBelowRoot(root, posix);
      AncestorSegments(whole, segs, k);
      TakeDrop(segs, k);
      assert Segments(canonical) == segs;
    }
  }

  lemma AncestorSegments(whole: string, segs: seq<string>, k: nat)
    requires IsAbsolute(whole) && segs == Segments(whole) && k <= |segs|
    ensures Segments(Ancestor(whole, segs, k)) == segs[..k]
  {
    SegmentsClean(whole);
    if k == |segs| {
      assert segs[..k] == segs;
    } else {
      CleanSlice(segs, 0, k);
      assert segs[0..k] == segs[..k];
      RenderCanonical(segs[..k]);
    }
  }

  lemma LongestUnique(realpath: RealPath, whole: string, segs: seq<string>, j: nat, k: nat)
    requires Longest(realpath, whole, segs, j) && Longest(realpath, whole, segs, k)
    ensures j == k
  {
  }

  // A path has at most one canonical form.
  lemma CanonicalUnique(realpath: RealPath, whole: string, a: string, b: string)
    requires CanonicalOf(realpath, whole, a) && CanonicalOf(realpath, whole, b)
    ensures a == b
  {
    var segs := Segments(whole);
    var j :| Longest(realpath, whole, segs, j) && Segments(a) == Reappended(realpath, whole, segs, j);
    var k :| Longest(realpath, whole, segs, k) && Segments(b) == Reappended(realpath, whole, segs, k);
    LongestUnique(realpath, whole, segs, j, k);
  }

  // What the text of a request alone decides.
  predicate WellFormed(requested: string) {
    requested != "" && '\0' !in requested
  }

  // The request leads to `c`, once links are followed.
  ghost predicate LeadsTo(realpath: RealPath, root: string, requested: string, c: string) {
    && WellFormed(requested) && !TextuallyEscapes(ToPosix(requested))
    && CanonicalOf(realpath, ResolvedText([Native(root, ToPosix(requested))]), c)
  }

  // The answer to a request, in terms of where it leads: exactly one case applies.
  ghost predicate Verdict(realpath: RealPath, root: string, rules: seq<Rule>, requested: string, r: Result<string,
      Refusal>) {
    var absolute := IsAbsoluteGuestPath(ToPosix(requested));
    match r
    case Ok(c) => LeadsTo(realpath, root, requested, c) && Within(root, c) && PermittedBy(rules, root, c)
    case Err(EmptyRequest) => requested == ""
    case Err(NulInPath) => '\0' in requested
    case Err(EscapesPluginRoot) =>
      || (WellFormed(requested) && TextuallyEscapes(ToPosix(requested)))
      || (!absolute && exists c :: LeadsTo(realpath, root, requested, c) && !Within(root, c))
    case Err(OutsideRoot) => absolute && exists c :: LeadsTo(realpath, root, requested, c) && !Within(root, c)
    case Err(NotPermitted) =>
      exists c :: LeadsTo(realpath, root, requested, c) && Within(root, c) && !PermittedBy(rules, root, c)
  }

  lemma VerdictAt(realpath: RealPath, root: string, rules: seq<Rule>, requested: string, c: string, r: Result<string,
      Refusal>)
    requires LeadsTo(realpath, root, requested, c) && Verdict(realpath, root, rules, requested, r)
    ensures r == if !Within(root, c)
            then Err(if IsAbsoluteGuestPath(ToPosix(requested)) then OutsideRoot else EscapesPluginRoot)
                 else if PermittedBy(rules, root, c) then Ok(c) else Err(NotPermitted)
  {
    forall x | LeadsTo(realpath, root, requested, x) ensures x == c {
      CanonicalUnique(realpath, ResolvedText([Native(root, ToPosix(requested))]), x, c);
    }
  }

  lemma VerdictNowhere(realpath: RealPath, root: string, rules: seq<Rule>, requested: string, r: Result<string,
      Refusal>)
    requires forall c :: !LeadsTo(realpath, root, requested, c)
    requires Verdict(realpath, root, rules, requested, r)
    ensures r == Err(if requested == "" then EmptyRequest else if '\0' in requested then NulInPath
            else EscapesPluginRoot)
  {
  }

  // There is only one answer that fits.
  lemma VerdictUnique(realpath: RealPath, root: string, rules: seq<Rule>, requested: string,
                      a: Result<string, Refusal>, b: Result<string, Refusal>)
    requires Verdict(realpath, root, rules, requested, a) && Verdict(realpath, root, rules, requested, b)
    ensures a == b
  {
    if c :| LeadsTo(realpath, root, requested, c) {
      VerdictAt(realpath, root, rules, requested, c, a);
      VerdictAt(realpath, root, rules, requested, c, b);
    } else {
      VerdictNowhere(realpath, root, rules, requested, a);
      VerdictNowhere(realpath, root, rules, requested, b);
    }
  }

  // The answer is the one that fits, so each answer is given exactly when its case applies.
  method Authorize(realpath: RealPath, root: string, rules: seq<Rule>, requested: string)
      returns (r: Result<string, Refusal>)
    requires GivesCanonical(realpath) && PluginRoot(root)
    ensures forall v :: Verdict(realpath, root, rules, requested, v) <==> v == r
  {
    r := Decide(realpath, root, rules, requested);
    forall v | Verdict(realpath, root, rules, requested, v) ensures v == r {
      VerdictUnique(realpath, root, rules, requested, v, r);
    }
  }

  method Decide(realpath: RealPath, root: string, rules: seq<Rule>, requested: string)
      returns (r: Result<string, Refusal>)
    requires GivesCanonical(realpath) && PluginRoot(root)
    ensures Verdict(realpath, root, rules, requested, r)
  {
    if requested == "" {
      return Err(EmptyRequest);
    }
    if '\0' in requested {
      return Err(NulInPath);
    }
    var posix := ToPosix(requested);
    var absolute := IsAbsoluteGuestPath(posix);
    var out := NormalizeSegments(Body(posix), absolute);
    var normalized := Join(out);
    if !absolute && EscapesRoot(normalized) {
      return Err(EscapesPluginRoot);
    }
    var native;
    if absolute {
      native := PosixPath.Resolve([(if HasDrive(posix) then posix[..2] else "") + "/" + normalized]);
    } else {
      native := PosixPath.Resolve([root, normalized]);
    }
    var canonical := Canonicalize(realpath, native);
    assert LeadsTo(realpath, root, requested, canonical);
    WithinExactly(root, canonical);
    var insideRoot := IsInside(root, canonical);
    if !insideRoot {
      return Err(if absolute then OutsideRoot else EscapesPluginRoot);
    }
    var permitted := CheckManifest(rules, root, canonical);
    r := if permitted then Ok(canonical) else Err(NotPermitted);
  }

  // Without links, a relative request that does not escape textually leads to the root followed by
  // its own segments, and confinement refuses it only when it names a root with a trailing slash.
  lemma ConfinedTextually(realpath: RealPath, root: string, rules: seq<Rule>, requested: string, r: Result<string,
      Refusal>)
    requires PluginRoot(root) && SymlinkFree(realpath) && Verdict(realpath, root, rules, requested, r)
    requires WellFormed(requested) && !IsAbsoluteGuestPath(ToPosix(requested)) && !TextuallyEscapes(ToPosix(requested))
    ensures r.Ok? ==> Segments(r.value) == Segments(root) + GuestSegments(ToPosix(requested))
    ensures r.Ok? || r.error.NotPermitted? <==> Canonical(root) || GuestSegments(ToPosix(requested)) != []
  {
    var posix := ToPosix(requested);
    forall c | LeadsTo(realpath, root, requested, c)
      ensures Segments(c) == Segments(root) + GuestSegments(posix)
      ensures Within(root, c) <==> Canonical(root) || GuestSegments(posix) != []
    {
      StaysInside(realpath, root, posix, c);
    }
  }

  // ---------------------------------------------------------------------
  // The text that rules see
  // ---------------------------------------------------------------------

  predicate NoBackslash(s: string) {
    forall i | 0 <= i < |s| :: s[i] != '\\'
  }

  // Rules see the suffix itself exactly when no name in it contains a backslash.
  lemma {:induction false} SeenAsIs(s: string)
    ensures ToPosix(s) == s <==> NoBackslash(s)
  {
    if s != "" {
      SeenAsIs(s[1..]);
      assert s == [s[0]] + s[1..];
      assert ToPosix(s)[1..] == ToPosix(s[1..]);
    }
  }

  // The suffix of an authorized path goes down only.
  lemma SuffixGoesDown(root: string, path: string)
    requires Canonical(path) && Segments(root) <= Segments(path)
    ensures Clean(true, Suffix(root, path)) && Segments(path) == Segments(root) + Suffix(root, path)
  {
    SegmentsClean(path);
    CleanSlice(Segments(path), |Segments(root)|, |Segments(path)|);
    assert Segments(path)[|Segments(root)|..|Segments(path)|] == Suffix(root, path);
  }

  lemma {:induction false} ToPosixConcat(a: string, b: string)
    ensures ToPosix(a + b) == ToPosix(a) + ToPosix(b)
  {
    if a == "" {
      assert a + b == b;
    } else {
      ToPosixConcat(a[1..], b);
      assert (a + b)[1..] == a[1..] + b;
    }
  }

  function BackslashName(a: string, b: string): string {
    a + ("\\" + (".." + ("\\" + b)))
  }

  lemma BackslashText(a: string, b: string)
    requires NoBackslash(a) && NoBackslash(b)
    ensures ToPosix(BackslashName(a, b)) == a + ("/" + (".." + ("/" + b)))
  {
    SeenAsIs(a);
    SeenAsIs(b);
    SeenAsIs("..");
    assert "\\"[1..] == "" && ToPosix("\\") == "/" + "";
    ToPosixConcat("\\", b);
    ToPosixConcat("..", "\\" + b);
    ToPosixConcat("\\", ".." + ("\\" + b));
    ToPosixConcat(a, "\\" + (".." + ("\\" + b)));
  }

  // A file name with backslashes is one segment of the path, but rules see several, which may go up.
  lemma BackslashSeenAsUp(a: string, b: string)
    requires NoBackslash(a) && NoBackslash(b) && NoSlash(a) && NoSlash(b) && a != ""
    ensures Clean(true, [BackslashName(a, b)])
    ensures Split(ToPosix(Join([BackslashName(a, b)]))) == [a, "..", b]
  {
    BackslashText(a, b);
    var rest := ".." + "/" + b;
    assert ".." + ("/" + b) == rest && a + ("/" + rest) == a + "/" + rest;
    SplitOne(a);
    SplitOne("..");
    SplitOne(b);
    SplitConcat("..", b);
    SplitConcat(a, rest);
    assert [a] + (["..", b]) == [a, "..", b];
    assert |BackslashName(a, b)| >= 5 && NoSlash(BackslashName(a, b));
  }

  // What a grant should see of a path: its segments below the root.
  function Below(root: string, path: string): seq<string> {
    if Suffix(root, path) == [] then [""] else Suffix(root, path)
  }

  // The grant permits the path exactly when its glob matches what is below the root.
  ghost predicate GrantMeans(pattern: string, root: string, path: string)
    requires Compiled(pattern).Ok?
  {
    Permits(Compiled(pattern).value, ToPosix(Join(Suffix(root, path))), ToPosix(path))
    <==> LineGlobMatches(PatternSegments(pattern), Below(root, path))
  }

  // A relative grant without question marks permits exactly the paths whose suffix its glob matches,
  // as long as no name contains a backslash.
  lemma RelativeGrant(pattern: string, root: string, path: string)
    requires Canonical(path) && Segments(root) <= Segments(path)
    requires Compiled(pattern).Ok? && Compiled(pattern).value.Relative? && NoMark(pattern)
    requires NoBackslash(Join(Suffix(root, path)))
    ensures GrantMeans(pattern, root, path)
  {
    var suffix := Suffix(root, path);
    SuffixGoesDown(root, path);
    SeenAsIs(Join(suffix));
    RuleExact(pattern, Join(suffix));
    if suffix == [] {
      assert Split("") == [""];
    } else {
      SplitJoin(suffix);
    }
  }

  // ---------------------------------------------------------------------
  // What a backslash in a name does to grants
  // ---------------------------------------------------------------------

  // `***/***/...`, a pattern that takes any `n` segments.
  function AnySegments(n: nat): (r: seq<string>)
    ensures |r| == n && forall i | 0 <= i < n :: r[i] == "***"
  {
    if n == 0 then [] else ["***"] + AnySegments(n - 1)
  }

  predicate StarText(s: string) {
    forall i | 0 <= i < |s| :: s[i] == '*' || s[i] == '/'
  }

  lemma {:induction false} AnyText(n: nat)
    requires n > 0
    ensures var s := Join(AnySegments(n)); StarText(s) && |s| >= 3 && s[0] == '*' && s[|s| - 1] == '*'
  {
    if n > 1 {
      AnyText(n - 1);
      assert AnySegments(n)[1..] == AnySegments(n - 1);
    }
  }

  // Text that compilation neither folds nor trims nor takes for an absolute path.
  predicate PlainText(pattern: string) {
    && |pattern| >= 3 && NoBackslash(pattern) && '\0' !in pattern && NoMark(pattern)
    && !JsSpace(pattern[0]) && !JsSpace(pattern[|pattern| - 1]) && !IsAbsoluteGuestPath(pattern)
  }

  lemma PlainUnchanged(pattern: string)
    requires PlainText(pattern)
    ensures Trim(ToPosix(pattern)) == pattern && Body(pattern) == pattern && Drive(pattern) == []
  {
    SeenAsIs(pattern);
  }

  lemma SpelledSegments(pattern: string, segs: seq<string>)
    requires PlainText(pattern) && segs != [] && pattern == Join(segs) && Clean(false, segs)
    ensures PatternSegments(pattern) == GuestSegments(pattern) == segs
  {
    PlainUnchanged(pattern);
    SplitJoin(segs);
    FoldClean(false, [], segs);
    assert [] + segs == segs;
  }

  // A pattern spelled from resolved segments is a relative grant of these segments.
  lemma SpelledCompiles(pattern: string, segs: seq<string>)
    requires PlainText(pattern) && segs != [] && pattern == Join(segs) && Clean(false, segs) && segs[0] != ".."
    ensures PatternSegments(pattern) == segs && Compiled(pattern).Ok? && Compiled(pattern).value.Relative?
  {
    SpelledSegments(pattern, segs);
    PlainUnchanged(pattern);
    EscapesExactly(segs);
    PlainPatternCompiles(pattern);
  }

  lemma AnyCompiles(n: nat)
    requires n > 0
    ensures var pattern := Join(AnySegments(n));
            && NoMark(pattern) && PatternSegments(pattern) == AnySegments(n)
            && Compiled(pattern).Ok? && Compiled(pattern).value.Relative?
  {
    var segs := AnySegments(n);
    AnyText(n);
    assert Clean(false, segs);
    SpelledCompiles(Join(segs), segs);
  }

  lemma {:induction false} AnyTakes(n: nat, path: seq<string>)
    ensures LineGlobMatches(AnySegments(n), path) <==> |path| == n
  {
    var pattern := AnySegments(n);
    if n > 0 && path != [] {
      assert pattern[1..] == AnySegments(n - 1);
      AnyTakes(n - 1, path[1..]);
      OnlyStarsTake(pattern[0], path[0]);
    }
  }

  // Folding backslashes adds a segment for each.
  lemma {:induction false} FoldedLonger(s: string)
    ensures |Split(ToPosix(s))| >= |Split(s)|
    ensures !NoBackslash(s) ==> |Split(ToPosix(s))| > |Split(s)|
  {
    if s != "" {
      FoldedLonger(s[1..]);
      assert s == [s[0]] + s[1..];
      assert ToPosix(s)[1..] == ToPosix(s[1..]);
    }
  }

  // Relative grants mean what their globs say about a path exactly when no name below the root
  // contains a backslash.
  lemma GrantsExactly(root: string, path: string)
    requires Canonical(path) && Segments(root) <= Segments(path)
    ensures (forall pattern | Compiled(pattern).Ok? && Compiled(pattern).value.Relative? && NoMark(pattern) ::
               GrantMeans(pattern, root, path))
            <==> NoBackslash(Join(Suffix(root, path)))
  {
    var suffix := Suffix(root, path);
    if NoBackslash(Join(suffix)) {
      forall pattern | Compiled(pattern).Ok? && Compiled(pattern).value.Relative? && NoMark(pattern)
        ensures GrantMeans(pattern, root, path)
      {
        RelativeGrant(pattern, root, path);
      }
    } else {
      SuffixGoesDown(root, path);
      var n, seen := |suffix|, ToPosix(Join(suffix));
      var pattern := Join(AnySegments(n));
      SplitJoin(suffix);
      FoldedLonger(Join(suffix));
      AnyCompiles(n);
      RuleExact(pattern, seen);
      AnyTakes(n, Split(seen));
      AnyTakes(n, suffix);
      assert !GrantMeans(pattern, root, path);
    }
  }

  lemma DirGrantCompiles(pattern: string)
    requires pattern == "a/**"
    ensures PatternSegments(pattern) == ["a", "**"] && NoMark(pattern)
    ensures Compiled(pattern).Ok? && Compiled(pattern).value.Relative?
  {
    var segs := ["a", "**"];
    assert segs[1..] == ["**"] && Join(segs) == pattern;
    assert Clean(false, segs);
    SpelledCompiles(pattern, segs);
  }

  lemma DirGlobs(name: string)
    requires |name| > 1
    ensures LineGlobMatches(["a", "**"], ["a", "..", "b"]) && !GlobMatches(["a", "**"], [name])
  {
    assert ["a", "**"][1..] == ["**"] && ["a", "..", "b"][1..] == ["..", "b"];
    assert "a"[1..] == "" && SegmentMatches("a", "a");
    assert |name[1..]| > 0 && !SegmentMatches("", name[1..]);
    assert !SegmentMatches("a", name);
  }

  // A grant of `a/**` permits a file directly in the root that its glob does not cover.
  lemma DirGrantReachesSibling(pattern: string, root: string, name: string, path: string)
    requires pattern == "a/**" && name == BackslashName("a", "b")
    requires Canonical(root) && path == Render(true, Segments(root) + [name])
    ensures Canonical(path) && Suffix(root, path) == [name] && Compiled(pattern).Ok?
    ensures Permits(Compiled(pattern).value, ToPosix(Join(Suffix(root, path))), ToPosix(path))
    ensures !GlobMatches(PatternSegments(pattern), Suffix(root, path))
  {
    BackslashSeenAsUp("a", "b");
    SegmentsClean(root);
    CleanConcat(Segments(root), [name]);
    RenderCanonical(Segments(root) + [name]);
    assert (Segments(root) + [name])[|Segments(root)|..] == [name];
    DirGrantCompiles(pattern);
    RuleExact(pattern, ToPosix(Join([name])));
    DirGlobs(name);
  }
}
