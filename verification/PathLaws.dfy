/** Laws that say what path arithmetic means, whatever its code does on the way. */
module PathLaws {
  import opened PathText
  import opened PosixPath

  // ---------------------------------------------------------------------
  // Resolving segments
  // ---------------------------------------------------------------------

  // An ordinary name.
  predicate Name(seg: string) {
    seg != "" && seg != "." && seg != ".."
  }

  lemma FoldMiddle(absolute: bool, a: seq<string>, mid: seq<string>, b: seq<string>)
    requires Fold(absolute, Fold(absolute, [], a), mid) == Fold(absolute, [], a)
    ensures Fold(absolute, [], a + mid + b) == Fold(absolute, [], a + b)
  {
    FoldConcat(absolute, [], a + mid, b);
    FoldConcat(absolute, [], a, mid);
    FoldConcat(absolute, [], a, b);
  }

  // Empty segments and `.` vanish, a name and a following `..` cancel, and `..` at the root vanishes;
  // with FoldClean, which keeps resolved segments, these laws determine the result.
  lemma DotsResolve(absolute: bool, a: seq<string>, b: seq<string>, name: string)
    ensures Fold(absolute, [], a + [""] + b) == Fold(absolute, [], a + b)
    ensures Fold(absolute, [], a + ["."] + b) == Fold(absolute, [], a + b)
    ensures Name(name) ==> Fold(absolute, [], a + [name, ".."] + b) == Fold(absolute, [], a + b)
    ensures Fold(true, [], [".."] + b) == Fold(true, [], b)
  {
    var out := Fold(absolute, [], a);
    assert [""][1..] == [] && ["."][1..] == [] && [".."][1..] == [];
    FoldMiddle(absolute, a, [""], b);
    FoldMiddle(absolute, a, ["."], b);
    if Name(name) {
      var mid := [name, ".."];
      assert mid[1..] == [".."] && (out + [name])[..|out|] == out;
      assert Fold(absolute, out, mid) == Fold(absolute, out + [name], [".."]) == Fold(absolute, out, []);
      FoldMiddle(absolute, a, mid, b);
    }
    FoldMiddle(true, [], [".."], b);
    assert [] + [".."] + b == [".."] + b && [] + b == b;
  }

  // ---------------------------------------------------------------------
  // Trailing slashes
  // ---------------------------------------------------------------------

  // A normalized path is its segments' text, and ends in a slash exactly when the path does or is the root.
  lemma NormalizedExactly(path: string)
    ensures var core := Render(IsAbsolute(path), Segments(path));
            Normalized(path) == if EndsWithSlash(path) && core != "/" then core + "/" else core
    ensures EndsWithSlash(Normalized(path)) <==> EndsWithSlash(path) || (IsAbsolute(path) && Segments(path) == [])
  {
    NormalizedSegments(path);
    SplitPlain(path);
    FoldKeeps(IsAbsolute(path), [], Split(path));
    RenderShape(IsAbsolute(path), Segments(path));
    if |path| == 1 && EndsWithSlash(path) {
      assert path == "/" && path[1..] == "";
      assert Split(path) == ["", ""] && ["", ""][1..] == [""] && [""][1..] == [];
    }
  }

  predicate AllSlashes(s: string) {
    forall i | 0 <= i < |s| :: s[i] == '/'
  }

  // Stripping takes off slashes only, and all of them unless nothing else is left.
  lemma {:induction false} StrippedExactly(path: string) returns (slashes: string)
    ensures path == Stripped(path) + slashes && AllSlashes(slashes)
    ensures !EndsWithSlash(Stripped(path)) || Stripped(path) == "/"
    decreases |path|
  {
    slashes := "";
    if |path| > 1 && EndsWithSlash(path) {
      slashes := StrippedExactly(path[..|path| - 1]);
      slashes := slashes + "/";
      assert path == path[..|path| - 1] + "/";
    }
  }

  // ---------------------------------------------------------------------
  // Parent and base name
  // ---------------------------------------------------------------------

  lemma {:induction false} StrippedLeads(path: string)
    ensures Segments(Stripped(path)) == Segments(path) && IsAbsolute(Stripped(path)) == IsAbsolute(path)
    decreases |path|
  {
    if |path| > 1 && EndsWithSlash(path) {
      var front := path[..|path| - 1];
      StrippedLeads(front);
      assert path == front + "/";
      TrailingSlash(front);
    }
  }

  lemma {:induction false} LastSlashIs(s: string)
    ensures LastSlash(s) >= 0 ==> s[LastSlash(s)] == '/'
    ensures forall i | LastSlash(s) < i < |s| :: s[i] != '/'
    decreases |s|
  {
    if s != "" && s[|s| - 1] != '/' {
      LastSlashIs(s[..|s| - 1]);
    }
  }

  lemma CutAt(s: string, i: nat)
    requires i < |s| && s[i] == '/'
    ensures s == s[..i] + "/" + s[i + 1..]
  {
  }

  lemma LastSlashMeans(s: string)
    ensures NoSlash(s[LastSlash(s) + 1..])
    ensures LastSlash(s) >= 0 ==> s == s[..LastSlash(s)] + "/" + s[LastSlash(s) + 1..]
  {
    LastSlashIs(s);
    if LastSlash(s) >= 0 {
      CutAt(s, LastSlash(s));
    }
  }

  // For every path, the base name below the parent leads where the path leads, and is one segment.
  lemma ParentAndBase(path: string)
    ensures NoSlash(Basename(path))
    ensures IsAbsolute(Dirname(path)) == IsAbsolute(path)
    ensures Segments(Dirname(path) + "/" + Basename(path)) == Segments(path)
  {
    var s := Stripped(path);
    StrippedLeads(path);
    LastSlashMeans(s);
    var slash, dir, base := LastSlash(s), Dirname(path), Basename(path);
    if slash == -1 {
      assert base == s && dir == ".";
      BelowHere(s);
    } else if slash == 0 {
      assert s[..0] == "" && s == "" + "/" + base;
      BelowRoot(base);
    } else {
      assert dir + "/" + base == s;
    }
  }

  lemma BelowHere(s: string)
    requires NoSlash(s)
    ensures Segments("." + "/" + s) == Segments(s) && !IsAbsolute(s)
  {
    SplitOne(".");
    SplitConcat(".", s);
    assert !IsAbsolute("." + "/" + s);
    assert ["."] + Split(s) == [] + ["."] + Split(s) && [] + Split(s) == Split(s);
    DotsResolve(false, [], Split(s), "");
  }

  lemma BelowRoot(base: string)
    ensures Segments("/" + "/" + base) == Segments("" + "/" + base)
  {
    SplitConcat("/", base);
    SplitConcat("", base);
    assert Split("") == [""] && "/"[1..] == "" && Split("/") == ["", ""];
    assert ["", ""] + Split(base) == [] + [""] + ([""] + Split(base))
           && [] + ([""] + Split(base)) == [""] + Split(base);
    DotsResolve(true, [], [""] + Split(base), "");
  }
}
