/** Pure POSIX path arithmetic. */
module PosixPath {
  import opened PathText

  // ---------------------------------------------------------------------
  // The fold that resolves `.` and `..`
  // ---------------------------------------------------------------------

  predicate Ignored(seg: string) {
    seg == "" || seg == "."
  }

  function Push(absolute: bool, out: seq<string>, seg: string): seq<string> {
    if Ignored(seg) then out
    else if seg == ".." then
      if out != [] && out[|out| - 1] != ".." then out[..|out| - 1]
      else if !absolute then out + [".."]
      else out
    else out + [seg]
  }

  function Fold(absolute: bool, out: seq<string>, segs: seq<string>): seq<string>
    decreases |segs|
  {
    if segs == [] then out else Fold(absolute, Push(absolute, out, segs[0]), segs[1..])
  }

  // Resolved segments: no empty ones, no `.`, and `..` only in front of a relative path.
  ghost predicate Clean(absolute: bool, out: seq<string>) {
    && (forall i | 0 <= i < |out| :: NoSlash(out[i]) && !Ignored(out[i]))
    && (absolute ==> forall i | 0 <= i < |out| :: out[i] != "..")
    && (forall i, j | 0 <= i < j < |out| && out[j] == ".." :: out[i] == "..")
  }

  lemma PushKeeps(absolute: bool, out: seq<string>, seg: string)
    requires Clean(absolute, out) && NoSlash(seg)
    ensures Clean(absolute, Push(absolute, out, seg))
  {
  }

  lemma {:induction false} FoldKeeps(absolute: bool, out: seq<string>, segs: seq<string>)
    requires Clean(absolute, out) && Plain(segs)
    ensures Clean(absolute, Fold(absolute, out, segs))
    decreases |segs|
  {
    if segs != [] {
      PushKeeps(absolute, out, segs[0]);
      FoldKeeps(absolute, Push(absolute, out, segs[0]), segs[1..]);
    }
  }

  lemma {:induction false} FoldConcat(absolute: bool, out: seq<string>, a: seq<string>, b: seq<string>)
    ensures Fold(absolute, out, a + b) == Fold(absolute, Fold(absolute, out, a), b)
    decreases |a|
  {
    if a == [] {
      assert a + b == b;
    } else {
      assert (a + b)[1..] == a[1..] + b;
      FoldConcat(absolute, Push(absolute, out, a[0]), a[1..], b);
    }
  }

  // Resolved segments are pushed as they are.
  lemma {:induction false} FoldClean(absolute: bool, out: seq<string>, segs: seq<string>)
    requires Clean(absolute, out + segs)
    ensures Fold(absolute, out, segs) == out + segs
    decreases |segs|
  {
    if segs == [] {
      assert out + segs == out;
    } else {
      var all := out + segs;
      assert all[|out|] == segs[0] && !Ignored(all[|out|]);
      if segs[0] == ".." && out != [] {
        assert all[|out| - 1] == out[|out| - 1];
      }
      assert Push(absolute, out, segs[0]) == out + [segs[0]];
      assert out + [segs[0]] + segs[1..] == all;
      FoldClean(absolute, out + [segs[0]], segs[1..]);
    }
  }

  // ---------------------------------------------------------------------
  // normalize
  // ---------------------------------------------------------------------

  predicate IsAbsolute(path: string) {
    path != "" && path[0] == '/'
  }

  predicate EndsWithSlash(path: string) {
    path != "" && path[|path| - 1] == '/'
  }

  function Segments(path: string): seq<string> {
    Fold(IsAbsolute(path), [], Split(path))
  }

  // The text of resolved segments.
  function Render(absolute: bool, segs: seq<string>): string {
    if absolute then "/" + Join(segs) else if segs == [] then "." else Join(segs)
  }

  function Normalized(path: string): string {
    var core := Render(IsAbsolute(path), Segments(path));
    if |path| > 1 && EndsWithSlash(path) && core != "/" && !EndsWithSlash(core) then core + "/" else core
  }

  lemma {:induction false} FoldSnoc(absolute: bool, segs: seq<string>, i: nat)
    requires i < |segs|
    ensures Fold(absolute, [], segs[..i + 1]) == Push(absolute, Fold(absolute, [], segs[..i]), segs[i])
  {
    assert segs[..i + 1] == segs[..i] + [segs[i]];
    FoldConcat(absolute, [], segs[..i], [segs[i]]);
    assert [segs[i]][1..] == [];
  }

  method NormalizeSegments(path: string, absolute: bool) returns (out: seq<string>)
    ensures out == Fold(absolute, [], Split(path)) && Clean(absolute, out)
  {
    out := [];
    var segs := Split(path);
    SplitPlain(path);
    for i := 0 to |segs|
      invariant out == Fold(absolute, [], segs[..i]) && Clean(absolute, out)
    {
      FoldSnoc(absolute, segs, i);
      PushKeeps(absolute, out, segs[i]);
      if segs[i] == "" || segs[i] == "." {
        continue;
      }
      if segs[i] == ".." {
        if out != [] && out[|out| - 1] != ".." {
          out := out[..|out| - 1];
        } else if !absolute {
          out := out + [".."];
        }
        continue;
      }
      out := out + [segs[i]];
    }
    assert segs[..|segs|] == segs;
  }

  method Normalize(path: string) returns (result: string)
    ensures result == Normalized(path)
  {
    if path == "" {
      assert Split("") == [""] && [""][1..] == [];
      return ".";
    }
    var absolute := path[0] == '/';
    var trailingSlash := |path| > 1 && path[|path| - 1] == '/';
    var out := NormalizeSegments(path, absolute);
    result := (if absolute then "/" else "") + Join(out);
    if result == "" {
      result := if absolute then "/" else ".";
    }
    EmptyJoin(absolute, out);
    if trailingSlash && result != "/" && result[|result| - 1] != '/' {
      result := result + "/";
    }
  }

  lemma EmptyJoin(absolute: bool, out: seq<string>)
    requires Clean(absolute, out)
    ensures Join(out) == "" <==> out == []
  {
    if out != [] {
      assert !Ignored(out[0]);
    }
  }

  // ---------------------------------------------------------------------
  // The rendered text has the segments it was made from
  // ---------------------------------------------------------------------

  lemma {:induction false} JoinStart(absolute: bool, segs: seq<string>)
    requires Clean(absolute, segs) && segs != []
    ensures Join(segs) != "" && !IsAbsolute(Join(segs)) && !EndsWithSlash(Join(segs))
    decreases |segs|
  {
    assert NoSlash(segs[0]) && !Ignored(segs[0]);
    if |segs| > 1 {
      var rest := segs[1..];
      assert Clean(absolute, rest) by {
        assert forall i | 0 <= i < |rest| :: rest[i] == segs[i + 1];
      }
      JoinStart(absolute, rest);
    }
  }

  lemma RenderShape(absolute: bool, segs: seq<string>)
    requires Clean(absolute, segs)
    ensures IsAbsolute(Render(absolute, segs)) == absolute
    ensures EndsWithSlash(Render(absolute, segs)) <==> absolute && segs == []
  {
    if segs != [] {
      JoinStart(absolute, segs);
    }
  }

  lemma RenderAbsolute(segs: seq<string>)
    requires Clean(true, segs)
    ensures Segments(Render(true, segs)) == segs
  {
    assert Render(true, segs) == "" + "/" + Join(segs);
    SplitConcat("", Join(segs));
    FoldConcat(true, [], [""], Split(Join(segs)));
    assert Push(true, [], "") == [] && [""][1..] == [];
    SplitRendered(true, segs);
    FoldClean(true, [], segs);
    assert [] + segs == segs;
  }

  lemma RenderRelative(segs: seq<string>)
    requires Clean(false, segs)
    ensures Segments(Render(false, segs)) == segs
  {
    RenderShape(false, segs);
    if segs == [] {
      SplitOne(".");
      assert ["."][1..] == [];
    } else {
      SplitRendered(false, segs);
      FoldClean(false, [], segs);
      assert [] + segs == segs;
    }
  }

  lemma RenderSegments(absolute: bool, segs: seq<string>)
    requires Clean(absolute, segs)
    ensures Segments(Render(absolute, segs)) == segs
  {
    if absolute {
      RenderAbsolute(segs);
    } else {
      RenderRelative(segs);
    }
  }

  lemma SplitRendered(absolute: bool, segs: seq<string>)
    requires Clean(absolute, segs)
    ensures Fold(absolute, [], Split(Join(segs))) == Fold(absolute, [], segs)
  {
    if segs == [] {
      assert Split("") == [""] && [""][1..] == [];
    } else {
      SplitJoin(segs);
    }
  }

  // A trailing slash adds no segment.
  lemma TrailingSlash(path: string)
    requires path != ""
    ensures Segments(path + "/") == Segments(path)
  {
    assert path + "/" == path + "/" + "";
    SplitConcat(path, "");
    FoldConcat(IsAbsolute(path), [], Split(path), [""]);
    assert [""][1..] == [];
  }

  // Normalizing keeps whether the path is absolute and where it leads; only `..` in front remain.
  lemma NormalizedSegments(path: string)
    ensures IsAbsolute(Normalized(path)) == IsAbsolute(path)
    ensures Segments(Normalized(path)) == Segments(path)
    ensures Clean(IsAbsolute(path), Segments(path))
  {
    SplitPlain(path);
    FoldKeeps(IsAbsolute(path), [], Split(path));
    var core := Render(IsAbsolute(path), Segments(path));
    RenderShape(IsAbsolute(path), Segments(path));
    RenderSegments(IsAbsolute(path), Segments(path));
    if Normalized(path) != core {
      TrailingSlash(core);
    }
  }

  lemma NormalizeIdempotent(path: string)
    ensures Normalized(Normalized(path)) == Normalized(path)
  {
    NormalizedSegments(path);
    var core, p := Render(IsAbsolute(path), Segments(path)), Normalized(path);
    RenderShape(IsAbsolute(path), Segments(path));
    NormalizedSegments(p);
    if p == core {
      assert EndsWithSlash(p) ==> p == "/";
    }
  }

  // ---------------------------------------------------------------------
  // resolve and join
  // ---------------------------------------------------------------------

  // Where a walk ends that starts in `here` and follows each part in turn; an absolute part starts over.
  function Walked(here: seq<string>, parts: seq<string>): seq<string>
    decreases |parts|
  {
    if parts == [] then here
    else Walked(if IsAbsolute(parts[0]) then Segments(parts[0]) else Fold(true, here, Split(parts[0])), parts[1..])
  }

  // The text that the loop over the parts, last one first, has built.
  function Gathered(parts: seq<string>): string
    decreases |parts|
  {
    if parts == [] then ""
    else
      var rest := Gathered(parts[1..]);
      if IsAbsolute(rest) || parts[0] == "" then rest
      else if rest == "" then parts[0]
      else parts[0] + "/" + rest
  }

  function Rooted(path: string): string {
    if IsAbsolute(path) then path else if path == "" then "/" else "/" + "/" + path
  }

  function ResolvedText(parts: seq<string>): string {
    Normalized(Rooted(Gathered(parts)))
  }

  method Resolve(parts: seq<string>) returns (r: string)
    ensures r == ResolvedText(parts)
  {
    var resolved := "";
    var foundAbsolute := false;
    var i := |parts|;
    assert parts[|parts|..] == [];
    while i > 0 && !foundAbsolute
      invariant 0 <= i <= |parts| && foundAbsolute == IsAbsolute(resolved)
      invariant resolved == Gathered(parts[i..])
      decreases i
    {
      i := i - 1;
      assert parts[i..][1..] == parts[i + 1..];
      if parts[i] == "" {
        continue;
      }
      resolved := if resolved == "" then parts[i] else parts[i] + "/" + resolved;
      if IsAbsolute(parts[i]) {
        foundAbsolute := true;
      }
    }
    GatheredEarlier(parts, i);
    if !foundAbsolute {
      resolved := if resolved == "" then "/" else "/" + "/" + resolved;
    }
    r := Normalize(resolved);
  }

  // Resolving leads where following the parts one after the other leads.
  lemma ResolveWalks(parts: seq<string>)
    ensures IsAbsolute(ResolvedText(parts)) && Segments(ResolvedText(parts)) == Walked([], parts)
    ensures Clean(true, Walked([], parts))
  {
    var path := Gathered(parts);
    GatheredWalks([], parts);
    if !IsAbsolute(path) {
      UnderRoot(path);
    }
    NormalizedSegments(Rooted(path));
  }

  // Once an absolute part is found, what stands before it does not matter.
  lemma {:induction false} GatheredEarlier(parts: seq<string>, i: nat)
    requires i <= |parts| && (i == 0 || IsAbsolute(Gathered(parts[i..])))
    ensures Gathered(parts) == Gathered(parts[i..])
    decreases i
  {
    if i == 0 {
      assert parts[0..] == parts;
    } else {
      assert parts[i - 1..][1..] == parts[i..];
      GatheredEarlier(parts, i - 1);
    }
  }

  // The gathered text leads where the walk does.
  lemma {:induction false} GatheredWalks(here: seq<string>, parts: seq<string>)
    ensures Walked(here, parts) == if IsAbsolute(Gathered(parts)) then Segments(Gathered(parts))
            else Fold(true, here, Split(Gathered(parts)))
    decreases |parts|
  {
    if parts == [] {
      assert Split("") == [""] && [""][1..] == [];
    } else {
      var part, rest := parts[0], Gathered(parts[1..]);
      var next := if IsAbsolute(part) then Segments(part) else Fold(true, here, Split(part));
      GatheredWalks(next, parts[1..]);
      if part == "" {
        assert Split("") == [""] && [""][1..] == [];
      } else if !IsAbsolute(rest) {
        if rest == "" {
          assert Split("") == [""] && [""][1..] == [];
        } else {
          SplitConcat(part, rest);
          FoldConcat(true, if IsAbsolute(part) then [] else here, Split(part), Split(rest));
        }
      }
    }
  }

  lemma UnderRoot(path: string)
    requires !IsAbsolute(path)
    ensures Segments(Rooted(path)) == Fold(true, [], Split(path))
  {
    assert Split("") == [""] && [""][1..] == [];
    if path == "" {
      assert "/"[1..] == "";
      assert Split("/") == ["", ""] && ["", ""][1..] == [""];
    } else {
      assert ("/" + "/" + path)[1..] == "/" + path && ("/" + path)[1..] == path;
      assert Split("/" + "/" + path) == ["", ""] + Split(path);
      FoldConcat(true, [], ["", ""], Split(path));
      assert ["", ""][1..] == [""];
    }
  }

  function NonEmpty(parts: seq<string>): seq<string> {
    if parts == [] then [] else (if parts[0] == "" then [] else [parts[0]]) + NonEmpty(parts[1..])
  }

  function Joined(parts: seq<string>): string {
    if NonEmpty(parts) == [] then "." else Normalized(Join(NonEmpty(parts)))
  }

  // ---------------------------------------------------------------------
  // relative
  // ---------------------------------------------------------------------

  function Common(a: seq<string>, b: seq<string>): (n: nat)
    ensures n <= |a| && n <= |b| && a[..n] == b[..n]
  {
    if a != [] && b != [] && a[0] == b[0] then
      var n := Common(a[1..], b[1..]);
      assert a[..n + 1] == [a[0]] + a[1..][..n] && b[..n + 1] == [b[0]] + b[1..][..n];
      n + 1
    else 0
  }

  function Ups(n: nat): seq<string> {
    seq(n, _ => "..")
  }

  function Trail(from: seq<string>, to: seq<string>): seq<string> {
    var common := Common(from, to);
    Ups(|from| - common) + to[common..]
  }

  // Each `..` takes one segment back.
  lemma {:induction false} FoldUps(segs: seq<string>, n: nat)
    requires Clean(true, segs) && n <= |segs|
    ensures Fold(true, segs, Ups(n)) == segs[..|segs| - n]
    decreases n
  {
    if n == 0 {
      assert segs[..|segs|] == segs;
    } else {
      var fewer := segs[..|segs| - 1];
      assert Ups(n)[1..] == Ups(n - 1) && Push(true, segs, "..") == fewer;
      FoldUps(fewer, n - 1);
      assert fewer[..|fewer| - (n - 1)] == segs[..|segs| - n];
    }
  }

  lemma TrailAt(from: seq<string>, head: seq<string>, tail: seq<string>)
    requires Clean(true, from) && Clean(true, head + tail) && head <= from
    ensures Fold(true, from, Ups(|from| - |head|) + tail) == head + tail
  {
    FoldConcat(true, from, Ups(|from| - |head|), tail);
    FoldUps(from, |from| - |head|);
    assert from[..|head|] == head;
    FoldClean(true, head, tail);
  }

  lemma TrailLeads(from: seq<string>, to: seq<string>)
    requires Clean(true, from) && Clean(true, to)
    ensures Fold(true, from, Trail(from, to)) == to
  {
    var common := Common(from, to);
    TakeDrop(to, common);
    TrailAt(from, to[..common], to[common..]);
  }

  lemma {:induction false} TrailPlain(from: seq<string>, to: seq<string>)
    requires Clean(true, from) && Clean(true, to)
    ensures Plain(Trail(from, to)) && forall i | 0 <= i < |Trail(from, to)| :: Trail(from, to)[i] != ""
  {
    var t, common := Trail(from, to), Common(from, to);
    forall i | 0 <= i < |t| ensures NoSlash(t[i]) && t[i] != "" {
      if i >= |from| - common {
        assert t[i] == to[common..][i - (|from| - common)];
      }
    }
  }

  lemma {:induction false} NonEmptyConcat(a: seq<string>, b: seq<string>)
    ensures NonEmpty(a + b) == NonEmpty(a) + NonEmpty(b)
  {
    if a == [] {
      assert a + b == b;
    } else {
      NonEmptyConcat(a[1..], b);
      assert (a + b)[1..] == a[1..] + b && (a + b)[0] == a[0];
      var head, rest := (if a[0] == "" then [] else [a[0]]), NonEmpty(a[1..]);
      assert head + (rest + NonEmpty(b)) == (head + rest) + NonEmpty(b);
    }
  }

  lemma {:induction false} NonEmptyKeeps(segs: seq<string>)
    requires forall i | 0 <= i < |segs| :: segs[i] != ""
    ensures NonEmpty(segs) == segs
  {
    if segs != [] {
      NonEmptyKeeps(segs[1..]);
      assert segs == [segs[0]] + segs[1..];
    }
  }

  lemma PiecesOfRender(segs: seq<string>)
    requires Clean(true, segs)
    ensures NonEmpty(Split(Render(true, segs))) == segs
  {
    assert Render(true, segs) == "" + "/" + Join(segs);
    SplitConcat("", Join(segs));
    NonEmptyConcat([""], Split(Join(segs)));
    assert [""][1..] == [];
    if segs == [] {
      assert Split("") == [""];
    } else {
      SplitJoin(segs);
      NonEmptyKeeps(segs);
    }
  }

  // The nonempty pieces of a normalized absolute path are its segments.
  lemma PiecesOfNormalized(path: string)
    requires IsAbsolute(path)
    ensures NonEmpty(Split(Normalized(path))) == Segments(path)
  {
    NormalizedSegments(path);
    var core := Render(true, Segments(path));
    PiecesOfRender(Segments(path));
    if Normalized(path) != core {
      assert core + "/" == core + "/" + "";
      SplitConcat(core, "");
      NonEmptyConcat(Split(core), [""]);
      assert [""][1..] == [];
    }
  }

  lemma PiecesOfResolved(parts: seq<string>)
    ensures NonEmpty(Split(ResolvedText(parts))) == Walked([], parts)
  {
    ResolveWalks(parts);
    PiecesOfNormalized(Rooted(Gathered(parts)));
    NormalizedSegments(Rooted(Gathered(parts)));
  }

  lemma TrailWalks(from: seq<string>, to: seq<string>)
    requires Clean(true, from) && Clean(true, to)
    ensures !IsAbsolute(Join(Trail(from, to))) && Fold(true, from, Split(Join(Trail(from, to)))) == to
  {
    var t := Trail(from, to);
    TrailPlain(from, to);
    TrailLeads(from, to);
    if t == [] {
      assert Split("") == [""] && [""][1..] == [];
    } else {
      SplitJoin(t);
      assert t[0] != "" && NoSlash(t[0]);
    }
  }

  method CommonPrefix(a: seq<string>, b: seq<string>) returns (common: nat)
    ensures common == Common(a, b)
  {
    common := 0;
    assert a[0..] == a && b[0..] == b;
    while common < |a| && common < |b| && a[common] == b[common]
      invariant 0 <= common <= |a| && common <= |b|
      invariant common + Common(a[common..], b[common..]) == Common(a, b)
    {
      assert a[common..][1..] == a[common + 1..] && b[common..][1..] == b[common + 1..];
      common := common + 1;
    }
  }

  lemma WalkedOnce(here: seq<string>, path: string)
    requires !IsAbsolute(path)
    ensures Walked(here, [path]) == Fold(true, here, Split(path))
  {
    assert [path][1..] == [];
  }

  lemma WalkedTwice(a: string, b: string)
    ensures Walked([], [a, b]) == Walked(Walked([], [a]), [b])
  {
    assert [a, b][1..] == [b] && [a][1..] == [];
  }

  lemma WalkedNowhere(here: seq<string>)
    ensures Walked(here, [""]) == here
  {
    WalkedOnce(here, "");
    assert Split("") == [""] && [""][1..] == [];
  }

  // The route from one path to another: following it from the first leads where the second does.
  method Relative(from: string, to: string) returns (r: string)
    ensures !IsAbsolute(r) && Walked([], [from, r]) == Walked([], [to])
    ensures r == "" || r == Join(Trail(Walked([], [from]), Walked([], [to])))
  {
    var fromResolved := Resolve([from]);
    var toResolved := Resolve([to]);
    ResolveWalks([from]);
    ResolveWalks([to]);
    if fromResolved == toResolved {
      WalkedTwice(from, "");
      WalkedNowhere(Walked([], [from]));
      return "";
    }
    PiecesOfResolved([from]);
    PiecesOfResolved([to]);
    var fromSegments := NonEmpty(Split(fromResolved));
    var toSegments := NonEmpty(Split(toResolved));
    var common := CommonPrefix(fromSegments, toSegments);
    r := Join(Ups(|fromSegments| - common) + toSegments[common..]);
    TrailWalks(fromSegments, toSegments);
    WalkedTwice(from, r);
    WalkedOnce(fromSegments, r);
  }

  // ---------------------------------------------------------------------
  // dirname and basename
  // ---------------------------------------------------------------------

  function Stripped(path: string): string
    decreases |path|
  {
    if |path| > 1 && EndsWithSlash(path) then Stripped(path[..|path| - 1]) else path
  }

  method StripTrailingSlashes(path: string) returns (r: string)
    ensures r == Stripped(path)
  {
    var end := |path|;
    assert path[..|path|] == path;
    while end > 1 && path[end - 1] == '/'
      invariant 0 <= end <= |path| && Stripped(path[..end]) == Stripped(path)
    {
      assert path[..end][..end - 1] == path[..end - 1];
      end := end - 1;
    }
    r := path[..end];
  }

  // The offset of the last slash, or -1.
  function LastSlash(path: string): (i: int)
    ensures -1 <= i < |path|
    decreases |path|
  {
    if path == "" then -1
    else if path[|path| - 1] == '/' then |path| - 1
    else LastSlash(path[..|path| - 1])
  }

  function Dirname(path: string): string {
    if path == "" then "."
    else
      var s := Stripped(path);
      var slash := LastSlash(s);
      if slash == -1 then "." else if slash == 0 then "/" else s[..slash]
  }

  function Basename(path: string): string {
    var s := Stripped(path);
    if s == "" then "" else s[LastSlash(s) + 1..]
  }

  lemma {:induction false} LastSlashAt(a: string, b: string)
    requires NoSlash(b)
    ensures LastSlash(a + "/" + b) == |a|
    decreases |b|
  {
    var s := a + "/" + b;
    if b != "" {
      assert s[..|s| - 1] == a + "/" + b[..|b| - 1];
      LastSlashAt(a, b[..|b| - 1]);
    }
  }

  lemma RenderLast(segs: seq<string>)
    requires Clean(true, segs) && segs != []
    ensures var front, last := segs[..|segs| - 1], segs[|segs| - 1];
            Render(true, segs) == (if front == [] then "" else Render(true, front)) + "/" + last
  {
    var front, last := segs[..|segs| - 1], segs[|segs| - 1];
    assert segs == front + [last];
    if front != [] {
      JoinConcat(front, [last]);
    }
  }

  // The parent of a resolved path drops its last segment, which is its base name.
  lemma DirnameDrops(segs: seq<string>)
    requires Clean(true, segs) && segs != []
    ensures Dirname(Render(true, segs)) == Render(true, segs[..|segs| - 1])
    ensures Basename(Render(true, segs)) == segs[|segs| - 1]
  {
    var path, front, last := Render(true, segs), segs[..|segs| - 1], segs[|segs| - 1];
    RenderShape(true, segs);
    RenderLast(segs);
    assert NoSlash(last);
    if front == [] {
      assert path == "" + "/" + last;
      LastSlashAt("", last);
    } else {
      LastSlashAt(Render(true, front), last);
    }
  }

  // A trailing slash makes no difference to either.
  lemma DirnameTrailing(path: string)
    requires path != "" && !EndsWithSlash(path)
    ensures Dirname(path + "/") == Dirname(path) && Basename(path + "/") == Basename(path)
  {
    assert (path + "/")[..|path|] == path;
  }
}
