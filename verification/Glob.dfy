/** The glob dialect of filesystem permissions, and the regular expression it is compiled to. */
module Glob {
  import opened Wrappers
  import opened PathText
  import opened GlobRegex

  // ---------------------------------------------------------------------
  // What a pattern means
  // ---------------------------------------------------------------------

  // `*` stands for any text; every other character for itself.
  predicate SegmentMatches(p: string, s: string)
    decreases |s|, |p|
  {
    if p == "" then s == ""
    else if p[0] == '*' then SegmentMatches(p[1..], s) || (s != "" && SegmentMatches(p, s[1..]))
    else s != "" && p[0] == s[0] && SegmentMatches(p[1..], s[1..])
  }

  // `**` stands for zero or more whole segments.
  predicate GlobMatches(pattern: seq<string>, path: seq<string>)
    decreases |path|, |pattern|
  {
    if pattern == [] then path == []
    else if pattern[0] == "**" then GlobMatches(pattern[1..], path) || (path != [] && GlobMatches(pattern, path[1..]))
    else path != [] && SegmentMatches(pattern[0], path[0]) && GlobMatches(pattern[1..], path[1..])
  }

  // ---------------------------------------------------------------------
  // What the compiler writes
  // ---------------------------------------------------------------------

  function PartOf(c: char): Part {
    if c == '*' then Star else if c == '?' then Mark else Letter(c)
  }

  function SegmentParts(p: string): seq<Part> {
    if p == "" then [] else [PartOf(p[0])] + SegmentParts(p[1..])
  }

  function PatternParts(pattern: seq<string>): seq<Part> {
    if pattern == [] then []
    else if pattern[0] == "**" then [if |pattern| == 1 then End else Middle] + PatternParts(pattern[1..])
    else [Letter('/')] + SegmentParts(pattern[0]) + PatternParts(pattern[1..])
  }

  predicate NoMark(p: string) {
    forall i | 0 <= i < |p| :: p[i] != '?'
  }

  ghost predicate NoMarks(pattern: seq<string>) {
    forall i | 0 <= i < |pattern| :: NoMark(pattern[i])
  }

  // The nodes of parts without a question mark.
  function Nodes(parts: seq<Part>): seq<Node> {
    if parts == [] then [] else (if parts[0].Mark? then [] else [NodeOf(parts[0])]) + Nodes(parts[1..])
  }

  lemma {:induction false} SegmentPartsGood(p: string)
    ensures AllGood(SegmentParts(p))
    ensures NoMark(p) ==> forall i | 0 <= i < |SegmentParts(p)| :: !SegmentParts(p)[i].Mark?
  {
    if p != "" {
      SegmentPartsGood(p[1..]);
    }
  }

  lemma {:induction false} PatternPartsGood(pattern: seq<string>)
    ensures AllGood(PatternParts(pattern))
    ensures NoMarks(pattern) ==> forall i | 0 <= i < |PatternParts(pattern)| :: !PatternParts(pattern)[i].Mark?
  {
    if pattern != [] {
      PatternPartsGood(pattern[1..]);
      SegmentPartsGood(pattern[0]);
    }
  }

  lemma {:induction false} ReadPlain(parts: seq<Part>)
    requires forall i | 0 <= i < |parts| :: !parts[i].Mark?
    ensures Read(parts) == Some(Nodes(parts))
    decreases |parts|
  {
    if parts != [] {
      var rest := parts[1..];
      assert rest != [] ==> rest[0] == parts[1] && !parts[1].Mark?;
      ReadPlain(rest);
    }
  }

  // A pattern without a question mark is read as its own parts.
  lemma PatternReads(pattern: seq<string>)
    requires NoMarks(pattern)
    ensures Parse(Text(PatternParts(pattern))) == Some(Nodes(PatternParts(pattern)))
  {
    PatternPartsGood(pattern);
    ParseText(PatternParts(pattern));
    ReadPlain(PatternParts(pattern));
  }

  // ---------------------------------------------------------------------
  // A segment
  // ---------------------------------------------------------------------

  lemma {:induction false} NodesConcat(a: seq<Part>, b: seq<Part>)
    ensures Nodes(a + b) == Nodes(a) + Nodes(b)
  {
    if a == [] {
      assert a + b == b;
    } else {
      NodesConcat(a[1..], b);
      assert (a + b)[1..] == a[1..] + b && (a + b)[0] == a[0];
      var head, tail, more := (if a[0].Mark? then [] else [NodeOf(a[0])]), Nodes(a[1..]), Nodes(b);
      assert head + (tail + more) == (head + tail) + more;
    }
  }

  // A star takes any front of the text.
  lemma {:induction false} StarTakes(q: string, s: string, j: nat)
    requires j <= |s| && SegmentMatches(q, s[j..])
    ensures SegmentMatches("*" + q, s)
    decreases |s|
  {
    assert ("*" + q)[1..] == q;
    if j == 0 {
      assert s[0..] == s;
    } else {
      assert s[1..][j - 1..] == s[j..];
      StarTakes(q, s[1..], j - 1);
    }
  }

  lemma {:induction false} StarTook(p: string, s: string) returns (j: nat)
    requires p != "" && p[0] == '*' && SegmentMatches(p, s)
    ensures j <= |s| && SegmentMatches(p[1..], s[j..])
    decreases |s|
  {
    if SegmentMatches(p[1..], s) {
      j := 0;
      assert s[0..] == s;
    } else {
      j := StarTook(p, s[1..]);
      assert s[1..][j..] == s[j + 1..];
      j := j + 1;
    }
  }

  // A front of `t` that segment pattern `p` matches and after which `rest` matches.
  ghost predicate Cut(p: string, rest: seq<Node>, t: string, k: nat) {
    k <= |t| && NoSlash(t[..k]) && SegmentMatches(p, t[..k]) && Matches(rest, t[k..])
  }

  lemma {:induction false} SegmentSound(p: string, rest: seq<Node>, t: string) returns (k: nat)
    requires NoMark(p) && NoSlash(p) && Matches(Nodes(SegmentParts(p)) + rest, t)
    ensures Cut(p, rest, t, k)
    decreases |p|
  {
    var nodes := Nodes(SegmentParts(p)) + rest;
    if p == "" {
      k := 0;
      assert nodes == rest && t[0..] == t;
    } else {
      var tail := Nodes(SegmentParts(p[1..])) + rest;
      assert nodes == [NodeOf(PartOf(p[0]))] + tail by { SegmentNodes(p); }
      assert nodes[1..] == tail;
      if p[0] == '*' {
        var j :| 0 <= j <= |t| && NoSlash(t[..j]) && Matches(tail, t[j..]);
        var m := SegmentSound(p[1..], rest, t[j..]);
        k := j + m;
        CutAfterStar(p, rest, t, j, m);
      } else {
        var m := SegmentSound(p[1..], rest, t[1..]);
        k := m + 1;
        assert t[..k][1..] == t[1..][..m] && t[k..] == t[1..][m..];
        assert t[..k] == [t[0]] + t[1..][..m];
      }
    }
  }

  lemma SegmentNodes(p: string)
    requires p != "" && p[0] != '?'
    ensures Nodes(SegmentParts(p)) == [NodeOf(PartOf(p[0]))] + Nodes(SegmentParts(p[1..]))
  {
    assert SegmentParts(p)[1..] == SegmentParts(p[1..]);
  }

  lemma CutAfterStar(p: string, rest: seq<Node>, t: string, j: nat, m: nat)
    requires p != "" && p[0] == '*' && j <= |t| && NoSlash(t[..j]) && Cut(p[1..], rest, t[j..], m)
    ensures Cut(p, rest, t, j + m)
  {
    var k := j + m;
    assert t[..k] == t[..j] + t[j..][..m] && t[k..] == t[j..][m..];
    assert t[..k][j..] == t[j..][..m];
    StarTakes(p[1..], t[..k], j);
    assert "*" + p[1..] == p;
  }

  lemma {:induction false} SegmentComplete(p: string, rest: seq<Node>, t: string, k: nat)
    requires NoMark(p) && Cut(p, rest, t, k)
    ensures Matches(Nodes(SegmentParts(p)) + rest, t)
    decreases |p|
  {
    var nodes := Nodes(SegmentParts(p)) + rest;
    if p == "" {
      assert nodes == rest && t[k..] == t;
    } else {
      var tail := Nodes(SegmentParts(p[1..])) + rest;
      SegmentNodes(p);
      assert nodes == [NodeOf(PartOf(p[0]))] + tail && nodes[1..] == tail;
      if p[0] == '*' {
        var j := StarTook(p, t[..k]);
        assert t[j..][..k - j] == t[..k][j..] && t[j..][k - j..] == t[k..];
        SegmentComplete(p[1..], rest, t[j..], k - j);
        assert t[..j] == t[..k][..j];
        assert NoSlash(t[..j]) && Matches(tail, t[j..]);
      } else {
        assert t[1..][..k - 1] == t[..k][1..] && t[1..][k - 1..] == t[k..];
        SegmentComplete(p[1..], rest, t[1..], k - 1);
      }
    }
  }

  // ---------------------------------------------------------------------
  // A pattern
  // ---------------------------------------------------------------------

  // The text that a path is matched as: every segment behind a slash.
  function Subject(path: seq<string>): string {
    if path == [] then "" else "/" + path[0] + Subject(path[1..])
  }

  predicate AllOneLine(path: seq<string>) {
    forall i | 0 <= i < |path| :: OneLine(path[i])
  }

  // As `GlobMatches`, but a final `**` does not cross line terminators.
  predicate LineGlobMatches(pattern: seq<string>, path: seq<string>)
    decreases |path|, |pattern|
  {
    if pattern == [] then path == []
    else if pattern == ["**"] then AllOneLine(path)
    else if pattern[0] == "**"
        then LineGlobMatches(pattern[1..], path) || (path != [] && LineGlobMatches(pattern, path[1..]))
    else path != [] && SegmentMatches(pattern[0], path[0]) && LineGlobMatches(pattern[1..], path[1..])
  }

  function PatternNodes(pattern: seq<string>): seq<Node> {
    Nodes(PatternParts(pattern))
  }

  predicate AtSlash(u: string) {
    u == "" || u[0] == '/'
  }

  lemma SlashNodes(seg: seq<Part>, rest: seq<Part>)
    ensures Nodes([Letter('/')] + seg + rest) == [Lit('/')] + (Nodes(seg) + Nodes(rest))
  {
    var slash: seq<Part> := [Letter('/')];
    Assoc(slash, seg, rest);
    Cons(Letter('/'), seg + rest);
    NodesConcat(seg, rest);
  }

  lemma LiteralNodes(pattern: seq<string>)
    requires pattern != [] && pattern[0] != "**"
    ensures PatternNodes(pattern) == [Lit('/')] + (Nodes(SegmentParts(pattern[0])) + PatternNodes(pattern[1..]))
  {
    SlashNodes(SegmentParts(pattern[0]), PatternParts(pattern[1..]));
  }

  lemma StarsNodes(pattern: seq<string>)
    requires pattern != [] && pattern[0] == "**"
    ensures PatternNodes(pattern) == [if |pattern| == 1 then Tail else Dirs] + PatternNodes(pattern[1..])
  {
    var parts := PatternParts(pattern);
    assert parts[1..] == PatternParts(pattern[1..]);
  }

  // Whatever a pattern matches is empty or starts with a slash.
  lemma {:induction false} MatchedAtSlash(pattern: seq<string>, u: string)
    requires Matches(PatternNodes(pattern), u)
    ensures AtSlash(u)
  {
    if pattern != [] {
      var nodes := PatternNodes(pattern);
      if pattern[0] == "**" {
        StarsNodes(pattern);
        assert nodes[1..] == PatternNodes(pattern[1..]);
        if Matches(nodes[1..], u) {
          MatchedAtSlash(pattern[1..], u);
        }
      } else {
        LiteralNodes(pattern);
      }
    }
  }

  // A cut without a slash before it and at a slash after it falls at the end of the segment.
  lemma CutUnique(seg: string, u: string, k: nat)
    requires NoSlash(seg) && AtSlash(u) && k <= |seg + u| && NoSlash((seg + u)[..k]) && AtSlash((seg + u)[k..])
    ensures k == |seg|
  {
    var t := seg + u;
    assert forall i | 0 <= i < |seg| :: t[i] == seg[i];
    assert u != "" ==> t[|seg|] == u[0];
    assert k < |t| ==> t[k..][0] == t[k];
    assert forall i | 0 <= i < k :: t[..k][i] == t[i];
  }

  lemma SubjectAtSlash(path: seq<string>)
    ensures AtSlash(Subject(path))
  {
  }

  lemma LiteralExact(pattern: seq<string>, seg: string, u: string)
    requires pattern != [] && pattern[0] != "**" && NoMark(pattern[0]) && NoSlash(pattern[0]) && NoSlash(seg)
             && AtSlash(u)
    ensures Matches(PatternNodes(pattern), "/" + seg + u)
            <==> SegmentMatches(pattern[0], seg) && Matches(PatternNodes(pattern[1..]), u)
  {
    var nodes, rest := PatternNodes(pattern), PatternNodes(pattern[1..]);
    var t := "/" + seg + u;
    LiteralNodes(pattern);
    assert nodes[1..] == Nodes(SegmentParts(pattern[0])) + rest;
    assert t[1..] == seg + u;
    assert (seg + u)[..|seg|] == seg && (seg + u)[|seg|..] == u;
    if Matches(nodes, t) {
      var k := SegmentSound(pattern[0], rest, seg + u);
      MatchedAtSlash(pattern[1..], (seg + u)[k..]);
      CutUnique(seg, u, k);
    }
    if SegmentMatches(pattern[0], seg) && Matches(rest, u) {
      SegmentComplete(pattern[0], rest, seg + u, |seg|);
    }
  }

  lemma MiddleExact(pattern: seq<string>, seg: string, u: string)
    requires |pattern| > 1 && pattern[0] == "**" && NoSlash(seg) && AtSlash(u)
    ensures Matches(PatternNodes(pattern), "/" + seg + u) <==>
            Matches(PatternNodes(pattern[1..]), "/" + seg + u) || Matches(PatternNodes(pattern), u)
  {
    var nodes := PatternNodes(pattern);
    var t := "/" + seg + u;
    StarsNodes(pattern);
    assert nodes[0] == Dirs && nodes[1..] == PatternNodes(pattern[1..]);
    var n := |seg| + 1;
    assert t[1..n] == seg && t[n..] == u;
    if Matches(nodes, t) && !Matches(nodes[1..], t) {
      var k :| 1 <= k <= |t| && Dir(t, k) && Matches(nodes, t[k..]);
      MatchedAtSlash(pattern, t[k..]);
      assert t[1..] == seg + u && t[1..k] == (seg + u)[..k - 1] && t[k..] == (seg + u)[k - 1..];
      CutUnique(seg, u, k - 1);
    }
    if Matches(nodes, u) {
      assert Dir(t, n);
    }
  }

  lemma {:induction false} SubjectOneLine(path: seq<string>)
    ensures OneLine(Subject(path)) <==> AllOneLine(path)
  {
    if path != [] {
      SubjectOneLine(path[1..]);
      var s := "/" + path[0] + Subject(path[1..]);
      var rest := Subject(path[1..]);
      assert forall i | 0 <= i < |path[0]| :: s[i + 1] == path[0][i];
      assert forall i | 0 <= i < |rest| :: s[i + 1 + |path[0]|] == rest[i];
      assert path == [path[0]] + path[1..];
    }
  }

  lemma EndExact(path: seq<string>)
    ensures Matches(PatternNodes(["**"]), Subject(path)) <==> AllOneLine(path)
  {
    var nodes, t := PatternNodes(["**"]), Subject(path);
    StarsNodes(["**"]);
    assert ["**"][1..] == [] && nodes == [Tail] && nodes[1..] == [];
    SubjectOneLine(path);
    if t != "" {
      assert OneLine(t) <==> OneLine(t[1..]) by {
        assert t == [t[0]] + t[1..];
      }
      assert t[1..|t|] == t[1..] && t[|t|..] == "";
      if OneLine(t[1..]) {
        assert Lines(t, |t|);
      }
    }
  }

  // The compiled expression matches a path exactly when the glob does, line by line.
  lemma {:induction false} PatternExact(pattern: seq<string>, path: seq<string>)
    requires NoMarks(pattern) && Plain(pattern) && Plain(path)
    ensures Matches(PatternNodes(pattern), Subject(path)) <==> LineGlobMatches(pattern, path)
    decreases |path|, |pattern|
  {
    if pattern == ["**"] {
      EndExact(path);
    } else if pattern != [] && pattern[0] == "**" {
      PatternExact(pattern[1..], path);
      if path != [] {
        SubjectAtSlash(path[1..]);
        MiddleExact(pattern, path[0], Subject(path[1..]));
        PatternExact(pattern, path[1..]);
      } else {
        StarsNodes(pattern);
        assert PatternNodes(pattern)[1..] == PatternNodes(pattern[1..]);
      }
    } else if pattern != [] {
      if path != [] {
        SubjectAtSlash(path[1..]);
        LiteralExact(pattern, path[0], Subject(path[1..]));
        PatternExact(pattern[1..], path[1..]);
      } else {
        LiteralNodes(pattern);
      }
    }
  }

  // ---------------------------------------------------------------------
  // Line terminators
  // ---------------------------------------------------------------------

  lemma {:induction false} StarsTakeAll(path: seq<string>)
    ensures GlobMatches(["**"], path)
  {
    assert ["**"][1..] == [];
    if path != [] {
      StarsTakeAll(path[1..]);
    }
  }

  predicate EndsInStars(pattern: seq<string>) {
    pattern != [] && pattern[|pattern| - 1] == "**"
  }

  // The two meanings differ at most on paths with line terminators under a final `**`.
  lemma {:induction false} LinesOnlyMatterAtEnd(pattern: seq<string>, path: seq<string>)
    ensures LineGlobMatches(pattern, path) ==> GlobMatches(pattern, path)
    ensures AllOneLine(path) || !EndsInStars(pattern)
            ==> (LineGlobMatches(pattern, path) <==> GlobMatches(pattern, path))
    decreases |path|, |pattern|
  {
    if pattern == ["**"] {
      StarsTakeAll(path);
    } else if pattern != [] {
      if pattern[0] == "**" {
        LinesOnlyMatterAtEnd(pattern[1..], path);
        if path != [] {
          LinesOnlyMatterAtEnd(pattern, path[1..]);
        }
      } else if path != [] {
        LinesOnlyMatterAtEnd(pattern[1..], path[1..]);
      }
    }
  }

  // `a/**` covers everything beneath `a`, but its expression refuses a name with a line break.
  lemma LineBreakRefused()
    ensures var pattern, path := ["a", "**"], ["a", "\n"];
            GlobMatches(pattern, path) && !Matches(PatternNodes(pattern), Subject(path))
  {
    var pattern, path := ["a", "**"], ["a", "\n"];
    assert pattern[1..] == ["**"] && path[1..] == ["\n"];
    StarsTakeAll(path[1..]);
    assert "a"[1..] == "" && SegmentMatches("a", "a");
    PatternExact(pattern, path);
    assert path[1..][0][0] == '\n';
  }

  // A segment that any one segment matches.
  predicate OnlyStars(p: string) {
    p != "" && forall i | 0 <= i < |p| :: p[i] == '*'
  }

  // From an earlier `**` on, nothing but stars: the final `**` need not take anything.
  predicate AbsorbedFrom(pattern: seq<string>, i: nat) {
    i < |pattern| - 1 && pattern[i] == "**" && forall j | i < j < |pattern| - 1 :: OnlyStars(pattern[j])
  }

  predicate LineBlind(pattern: seq<string>) {
    !EndsInStars(pattern) || exists i | 0 <= i < |pattern| - 1 :: AbsorbedFrom(pattern, i)
  }

  lemma {:induction false} OnlyStarsTake(p: string, s: string)
    requires OnlyStars(p)
    ensures SegmentMatches(p, s)
    decreases |s|, |p|
  {
    if s != "" {
      OnlyStarsTake(p, s[1..]);
    } else if |p| > 1 {
      OnlyStarsTake(p[1..], s);
    } else {
      assert p[1..] == "";
    }
  }

  // The number of segments that a pattern takes at least.
  function Fixed(pattern: seq<string>): nat {
    if pattern == [] then 0 else Fixed(pattern[1..]) + (if pattern[0] == "**" then 0 else 1)
  }

  lemma {:induction false} TakesFixed(pattern: seq<string>, path: seq<string>)
    requires GlobMatches(pattern, path)
    ensures |path| >= Fixed(pattern)
    decreases |path|, |pattern|
  {
    if pattern != [] {
      if pattern[0] == "**" && !GlobMatches(pattern[1..], path) {
        TakesFixed(pattern, path[1..]);
      } else {
        TakesFixed(pattern[1..], if pattern[0] == "**" then path else path[1..]);
      }
    }
  }

  lemma {:induction false} StarsTakeExactly(pattern: seq<string>, path: seq<string>)
    requires EndsInStars(pattern) && (forall j | 0 <= j < |pattern| - 1 :: OnlyStars(pattern[j]))
             && |path| == Fixed(pattern)
    ensures LineGlobMatches(pattern, path)
    decreases |pattern|
  {
    if |pattern| > 1 {
      assert OnlyStars(pattern[0]);
      if pattern[0] == "**" {
        StarsTakeExactly(pattern[1..], path);
      } else {
        OnlyStarsTake(pattern[0], path[0]);
        StarsTakeExactly(pattern[1..], path[1..]);
      }
    } else {
      assert pattern == ["**"] && pattern[1..] == [];
    }
  }

  lemma {:induction false} AbsorberTakes(pattern: seq<string>, path: seq<string>)
    requires EndsInStars(pattern) && AbsorbedFrom(pattern, 0) && |path| >= Fixed(pattern)
    ensures LineGlobMatches(pattern, path)
    decreases |path|
  {
    if |path| == Fixed(pattern) {
      StarsTakeExactly(pattern[1..], path);
    } else {
      AbsorberTakes(pattern, path[1..]);
    }
  }

  lemma {:induction false} AbsorbedAgrees(pattern: seq<string>, i: nat, path: seq<string>)
    requires EndsInStars(pattern) && AbsorbedFrom(pattern, i) && GlobMatches(pattern, path)
    ensures LineGlobMatches(pattern, path)
    decreases |path|, |pattern|
  {
    if i == 0 {
      TakesFixed(pattern, path);
      AbsorberTakes(pattern, path);
    } else if pattern[0] == "**" {
      if GlobMatches(pattern[1..], path) {
        AbsorbedAgrees(pattern[1..], i - 1, path);
      } else {
        AbsorbedAgrees(pattern, i, path[1..]);
      }
    } else {
      AbsorbedAgrees(pattern[1..], i - 1, path[1..]);
    }
  }

  // A text that a segment matches, with as little as possible for its stars.
  function Least(p: string): string {
    if p == "" then "" else (if p[0] == '*' then "" else [p[0]]) + Least(p[1..])
  }

  lemma {:induction false} LeastMatches(p: string)
    ensures SegmentMatches(p, Least(p)) && (NoSlash(p) ==> NoSlash(Least(p)))
  {
    if p != "" {
      LeastMatches(p[1..]);
      if p[0] == '*' {
        assert Least(p) == Least(p[1..]);
      } else {
        assert Least(p)[1..] == Least(p[1..]);
      }
    }
  }

  function LeastPath(pattern: seq<string>): seq<string> {
    if pattern == [] then [] else (if pattern[0] == "**" then [] else [Least(pattern[0])]) + LeastPath(pattern[1..])
  }

  lemma {:induction false} LeastPlain(pattern: seq<string>)
    requires Plain(pattern)
    ensures Plain(LeastPath(pattern))
  {
    if pattern != [] {
      LeastPlain(pattern[1..]);
      LeastMatches(pattern[0]);
    }
  }

  lemma LeastCons(pattern: seq<string>, below: seq<string>)
    requires pattern != []
    ensures LeastPath(pattern) + below
         == if pattern[0] == "**" then LeastPath(pattern[1..]) + below
             else [Least(pattern[0])] + (LeastPath(pattern[1..]) + below)
  {
    var rest := LeastPath(pattern[1..]);
    if pattern[0] == "**" {
      assert [] + rest == rest;
    } else {
      Assoc([Least(pattern[0])], rest, below);
    }
  }

  lemma GlobCons(pattern: seq<string>, path: seq<string>, seg: string)
    requires pattern != [] && pattern[0] != "**" && SegmentMatches(pattern[0], seg) && GlobMatches(pattern[1..], path)
    ensures GlobMatches(pattern, [seg] + path)
  {
    assert ([seg] + path)[1..] == path;
  }

  // A pattern that ends in `**` covers anything beneath its least path.
  lemma {:induction false} LeastCovers(pattern: seq<string>, below: seq<string>)
    requires EndsInStars(pattern)
    ensures GlobMatches(pattern, LeastPath(pattern) + below)
    decreases |pattern|
  {
    if |pattern| == 1 {
      assert pattern == ["**"];
      StarsTakeAll(LeastPath(pattern) + below);
    } else {
      LeastCovers(pattern[1..], below);
      LeastCons(pattern, below);
      if pattern[0] != "**" {
        LeastMatches(pattern[0]);
        GlobCons(pattern, LeastPath(pattern[1..]) + below, Least(pattern[0]));
      }
    }
  }

  // Without an earlier `**`, the final one must take the end of a longer path.
  lemma {:induction false} EndRefused(pattern: seq<string>, path: seq<string>)
    requires EndsInStars(pattern) && forall i | 0 <= i < |pattern| - 1 :: pattern[i] != "**"
    requires |path| >= |pattern| && !OneLine(path[|path| - 1])
    ensures !LineGlobMatches(pattern, path)
    decreases |pattern|
  {
    if |pattern| > 1 {
      EndRefused(pattern[1..], path[1..]);
    } else {
      assert pattern == ["**"];
    }
  }

  // The path ends in enough copies of `b` to cover the pattern from `j` on.
  predicate EndsIn(path: seq<string>, b: string, n: nat) {
    forall i | 0 <= i < |path| && |path| - n <= i :: path[i] == b
  }

  // A fixed segment after the last earlier `**` that does not match the copies it would have to.
  lemma {:induction false} CopiesRefused(pattern: seq<string>, j: nat, path: seq<string>, b: string)
    requires EndsInStars(pattern) && j < |pattern| - 1 && forall i | j <= i < |pattern| - 1 :: pattern[i] != "**"
    requires !OneLine(b) && !SegmentMatches(pattern[j], b) && EndsIn(path, b, |pattern| - 1 - j)
    ensures !LineGlobMatches(pattern, path)
    decreases |path|, |pattern|
  {
    if pattern[0] == "**" {
      CopiesRefused(pattern[1..], j - 1, path, b);
      if path != [] {
        CopiesRefused(pattern, j, path[1..], b);
      }
    } else if path != [] {
      if j > 0 {
        CopiesRefused(pattern[1..], j - 1, path[1..], b);
      } else if |path| >= |pattern| {
        EndRefused(pattern, path);
      } else {
        assert path[0] == b;
      }
    }
  }

  // A line terminator that is not the character `c`.
  function OtherBreak(c: char): string {
    if c == '\n' then "\r" else "\n"
  }

  lemma {:induction false} ForeignCharacter(p: string, i: nat, s: string)
    requires i < |p| && p[i] != '*' && SegmentMatches(p, s)
    ensures exists k | 0 <= k < |s| :: s[k] == p[i]
    decreases |s|, |p|
  {
    if p[0] == '*' {
      if SegmentMatches(p[1..], s) {
        ForeignCharacter(p[1..], i - 1, s);
      } else {
        ForeignCharacter(p, i, s[1..]);
        var k :| 0 <= k < |s[1..]| && s[1..][k] == p[i];
        assert s[k + 1] == p[i];
      }
    } else if i > 0 {
      ForeignCharacter(p[1..], i - 1, s[1..]);
      var k :| 0 <= k < |s[1..]| && s[1..][k] == p[1..][i - 1];
      assert s[k + 1] == p[i];
    } else {
      assert s[0] == p[0];
    }
  }

  // A name with a line terminator that the segment does not match.
  lemma BreakUnmatched(p: string) returns (b: string)
    requires !OnlyStars(p)
    ensures !OneLine(b) && NoSlash(b) && !SegmentMatches(p, b)
  {
    if p == "" {
      b := "\n";
      assert LineTerminator(b[0]);
    } else {
      var i :| 0 <= i < |p| && p[i] != '*';
      b := OtherBreak(p[i]);
      assert LineTerminator(b[0]);
      if SegmentMatches(p, b) {
        ForeignCharacter(p, i, b);
      }
    }
  }

  lemma {:induction false} LastStars(pattern: seq<string>, n: nat) returns (i: nat)
    requires n <= |pattern| && exists j | 0 <= j < n :: pattern[j] == "**"
    ensures i < n && pattern[i] == "**" && forall j | i < j < n :: pattern[j] != "**"
  {
    if pattern[n - 1] == "**" {
      i := n - 1;
    } else {
      i := LastStars(pattern, n - 1);
    }
  }

  function Copies(b: string, n: nat): (r: seq<string>)
    ensures |r| == n && forall i | 0 <= i < n :: r[i] == b
  {
    if n == 0 then [] else [b] + Copies(b, n - 1)
  }

  // Beneath a final `**` that is not absorbed there is a path that the line-bounded meaning refuses.
  lemma BreakRefused(pattern: seq<string>) returns (path: seq<string>)
    requires Plain(pattern) && !LineBlind(pattern)
    ensures Plain(path) && GlobMatches(pattern, path) && !LineGlobMatches(pattern, path)
  {
    var n := |pattern| - 1;
    var b := "\n";
    assert LineTerminator(b[0]);
    if exists j | 0 <= j < n :: pattern[j] == "**" {
      var i := LastStars(pattern, n);
      assert !AbsorbedFrom(pattern, i);
      var j :| i < j < n && !OnlyStars(pattern[j]);
      b := BreakUnmatched(pattern[j]);
      path := LeastPath(pattern) + Copies(b, |pattern|);
      CopiesRefused(pattern, j, path, b);
    } else {
      path := LeastPath(pattern) + Copies(b, |pattern|);
      EndRefused(pattern, path);
    }
    LeastPlain(pattern);
    LeastCovers(pattern, Copies(b, |pattern|));
  }

  // The two meanings agree on every path exactly when the pattern does not end in `**`, or an
  // earlier `**` is followed, up to the final one, by segments of stars only.
  lemma LinesMatterExactly(pattern: seq<string>)
    requires Plain(pattern)
    ensures (forall path | Plain(path) :: LineGlobMatches(pattern, path) <==> GlobMatches(pattern, path))
            <==> LineBlind(pattern)
  {
    if LineBlind(pattern) {
      forall path | Plain(path) ensures LineGlobMatches(pattern, path) <==> GlobMatches(pattern, path) {
        LinesOnlyMatterAtEnd(pattern, path);
        if EndsInStars(pattern) && GlobMatches(pattern, path) {
          var i :| 0 <= i < |pattern| - 1 && AbsorbedFrom(pattern, i);
          AbsorbedAgrees(pattern, i, path);
        }
      }
    } else {
      var path := BreakRefused(pattern);
    }
  }

  // ---------------------------------------------------------------------
  // Question marks
  // ---------------------------------------------------------------------

  // The text that takes every optional character and no repetition.
  function Longest(nodes: seq<Node>): string {
    if nodes == [] then "" else (if nodes[0].Lit? || nodes[0].Opt? then [nodes[0].c] else "") + Longest(nodes[1..])
  }

  lemma {:induction false} LongestMatches(nodes: seq<Node>)
    ensures Matches(nodes, Longest(nodes))
  {
    if nodes != [] {
      LongestMatches(nodes[1..]);
      var t := Longest(nodes);
      if nodes[0].Lit? || nodes[0].Opt? {
        assert t[1..] == Longest(nodes[1..]);
      } else {
        assert t == "" + Longest(nodes[1..]) == Longest(nodes[1..]);
        assert t[..0] == "" && t[0..] == t;
        assert nodes[0].Run? ==> NoSlash(t[..0]) && Matches(nodes[1..], t[0..]);
      }
    }
  }

  function Letters(parts: seq<Part>): string {
    if parts == [] then "" else (if parts[0].Letter? then [parts[0].c] else "") + Letters(parts[1..])
  }

  lemma SkipMarkLetters(parts: seq<Part>)
    ensures Letters(SkipMark(parts)) == Letters(parts)
  {
  }

  lemma {:induction false} ReadLetters(parts: seq<Part>)
    requires Read(parts).Some?
    ensures Longest(Read(parts).value) == Letters(parts)
    decreases |parts|
  {
    if parts != [] {
      var (q, after) := QuantifiedPart(parts[0], parts[1..]);
      ReadLetters(after);
      var nodes := Read(parts).value;
      assert nodes[1..] == Read(after).value;
      SkipMarkLetters(parts[1..]);
      if parts[0].Letter? && parts[1..] != [] && parts[1..][0].Mark? {
        SkipMarkLetters(parts[1..][1..]);
      }
    }
  }

  // The pattern with `*`, `?` and `**` left out, as a path.
  function Bare(pattern: seq<string>): seq<string> {
    if pattern == [] then []
    else (if pattern[0] == "**" then [] else [Letters(SegmentParts(pattern[0]))]) + Bare(pattern[1..])
  }

  lemma {:induction false} LettersConcat(a: seq<Part>, b: seq<Part>)
    ensures Letters(a + b) == Letters(a) + Letters(b)
  {
    if a == [] {
      assert a + b == b;
    } else {
      LettersConcat(a[1..], b);
      assert (a + b)[1..] == a[1..] + b && (a + b)[0] == a[0];
      var head, tail, more := (if a[0].Letter? then [a[0].c] else ""), Letters(a[1..]), Letters(b);
      assert head + (tail + more) == (head + tail) + more;
    }
  }

  lemma SegmentLetters(seg: seq<Part>, rest: seq<Part>)
    ensures Letters([Letter('/')] + seg + rest) == "/" + Letters(seg) + Letters(rest)
  {
    var slash: seq<Part> := [Letter('/')];
    LettersConcat(slash + seg, rest);
    LettersConcat(slash, seg);
    assert slash[1..] == [] && Letters(slash) == "/" + "";
  }

  lemma SubjectCons(seg: string, path: seq<string>)
    ensures Subject([seg] + path) == "/" + seg + Subject(path)
  {
    assert ([seg] + path)[1..] == path;
  }

  lemma BareStars(pattern: seq<string>)
    requires pattern != [] && pattern[0] == "**"
    ensures Letters(PatternParts(pattern)) == Letters(PatternParts(pattern[1..])) && Bare(pattern) == Bare(pattern[1..])
  {
    var head: seq<Part> := [if |pattern| == 1 then End else Middle];
    LettersConcat(head, PatternParts(pattern[1..]));
    assert head[1..] == [] && Letters(head) == "";
  }

  lemma BareLiteral(pattern: seq<string>)
    requires pattern != [] && pattern[0] != "**"
    ensures Letters(PatternParts(pattern))
            == "/" + Letters(SegmentParts(pattern[0])) + Letters(PatternParts(pattern[1..]))
    ensures Subject(Bare(pattern)) == "/" + Letters(SegmentParts(pattern[0])) + Subject(Bare(pattern[1..]))
  {
    SegmentLetters(SegmentParts(pattern[0]), PatternParts(pattern[1..]));
    SubjectCons(Letters(SegmentParts(pattern[0])), Bare(pattern[1..]));
  }

  lemma {:induction false} BareLetters(pattern: seq<string>)
    ensures Letters(PatternParts(pattern)) == Subject(Bare(pattern))
  {
    if pattern != [] {
      BareLetters(pattern[1..]);
      if pattern[0] == "**" {
        BareStars(pattern);
      } else {
        BareLiteral(pattern);
      }
    }
  }

  lemma {:induction false} LettersNoMark(p: string)
    requires NoSlash(p)
    ensures NoMark(Letters(SegmentParts(p))) && NoSlash(Letters(SegmentParts(p)))
  {
    if p != "" {
      LettersNoMark(p[1..]);
      assert SegmentParts(p)[1..] == SegmentParts(p[1..]);
    }
  }

  lemma {:induction false} BareNoMarks(pattern: seq<string>)
    requires Plain(pattern)
    ensures NoMarks(Bare(pattern)) && Plain(Bare(pattern))
  {
    if pattern != [] {
      BareNoMarks(pattern[1..]);
      LettersNoMark(pattern[0]);
    }
  }

  lemma {:induction false} SegmentNeedsMark(p: string, s: string)
    requires SegmentMatches(p, s) && NoMark(s)
    ensures NoMark(p)
    decreases |s|, |p|
  {
    if p != "" {
      if p[0] == '*' {
        if SegmentMatches(p[1..], s) {
          SegmentNeedsMark(p[1..], s);
          assert p == [p[0]] + p[1..];
        } else {
          SegmentNeedsMark(p, s[1..]);
        }
      } else {
        SegmentNeedsMark(p[1..], s[1..]);
        assert p == [p[0]] + p[1..];
      }
    }
  }

  lemma {:induction false} GlobNeedsMark(pattern: seq<string>, path: seq<string>)
    requires GlobMatches(pattern, path) && NoMarks(path)
    ensures NoMarks(pattern)
    decreases |path|, |pattern|
  {
    if pattern != [] {
      assert pattern == [pattern[0]] + pattern[1..];
      if pattern[0] == "**" {
        if GlobMatches(pattern[1..], path) {
          GlobNeedsMark(pattern[1..], path);
        } else {
          GlobNeedsMark(pattern, path[1..]);
        }
      } else {
        SegmentNeedsMark(pattern[0], path[0]);
        GlobNeedsMark(pattern[1..], path[1..]);
      }
    }
  }

  // What the engine accepts, if the text is a regular expression at all.
  predicate Accepts(text: string, subject: string) {
    Parse(text).Some? && Matches(Parse(text).value, subject)
  }

  // A question mark in a pattern either breaks the expression or makes it accept a path that the
  // glob, which means a literal question mark, does not.
  lemma MarksBreak(pattern: seq<string>)
    requires Plain(pattern) && !NoMarks(pattern)
    ensures Plain(Bare(pattern)) && !GlobMatches(pattern, Bare(pattern))
    ensures Parse(Text(PatternParts(pattern))).Some? ==> Accepts(Text(PatternParts(pattern)), Subject(Bare(pattern)))
  {
    var parts := PatternParts(pattern);
    BareNoMarks(pattern);
    if GlobMatches(pattern, Bare(pattern)) {
      GlobNeedsMark(pattern, Bare(pattern));
    }
    PatternPartsGood(pattern);
    ParseText(parts);
    if Read(parts).Some? {
      ReadLetters(parts);
      BareLetters(pattern);
      LongestMatches(Read(parts).value);
    }
  }

  // The compiled text is an expression, and accepts exactly the paths that `meaning` gives the pattern.
  ghost predicate CompilesTo(pattern: seq<string>, meaning: (seq<string>, seq<string>) -> bool) {
    && Parse(Text(PatternParts(pattern))).Some?
    && forall path | Plain(path) :: Accepts(Text(PatternParts(pattern)), Subject(path)) <==> meaning(pattern, path)
  }

  lemma AgreesLineByLine(pattern: seq<string>)
    requires Plain(pattern)
    ensures CompilesTo(pattern, LineGlobMatches) <==> NoMarks(pattern)
  {
    if NoMarks(pattern) {
      PatternReads(pattern);
      forall path | Plain(path) ensures Accepts(Text(PatternParts(pattern)), Subject(path))
          <==> LineGlobMatches(pattern, path) {
        PatternExact(pattern, path);
      }
    } else {
      MarksBreak(pattern);
      LinesOnlyMatterAtEnd(pattern, Bare(pattern));
    }
  }

  // The compiled expression agrees with the glob on every path exactly when the pattern has no
  // question mark and is not one whose final `**` stops at line terminators.
  lemma AgreesExactly(pattern: seq<string>)
    requires Plain(pattern)
    ensures CompilesTo(pattern, GlobMatches) <==> NoMarks(pattern) && LineBlind(pattern)
  {
    AgreesLineByLine(pattern);
    LinesMatterExactly(pattern);
    if !NoMarks(pattern) {
      MarksBreak(pattern);
    }
  }
}
