/** Guest path normalization and the compilation of permission patterns into rules. */
module PathRules {
  import opened Wrappers
  import opened PathText
  import opened PosixPath
  import opened GlobRegex
  import opened Glob

  // ---------------------------------------------------------------------
  // Guest paths
  // ---------------------------------------------------------------------

  function Folded(c: char): char {
    if c == '\\' then '/' else c
  }

  // Backslashes become slashes.
  function ToPosix(s: string): string {
    if s == "" then "" else [Folded(s[0])] + ToPosix(s[1..])
  }

  predicate AsciiLetter(c: char) {
    'A' <= c <= 'Z' || 'a' <= c <= 'z'
  }

  predicate HasDrive(path: string) {
    |path| >= 3 && AsciiLetter(path[0]) && path[1] == ':' && path[2] == '/'
  }

  predicate IsAbsoluteGuestPath(path: string) {
    IsAbsolute(path) || HasDrive(path)
  }

  predicate EscapesRoot(normalized: string) {
    normalized == ".." || (|normalized| >= 3 && normalized[..3] == "../")
  }

  // A normalized relative path escapes exactly when its first segment is `..`.
  lemma EscapesExactly(segs: seq<string>)
    requires Clean(false, segs)
    ensures EscapesRoot(Join(segs)) <==> segs != [] && segs[0] == ".."
  {
    if |segs| == 1 {
      assert NoSlash(segs[0]);
      assert EscapesRoot(Join(segs)) && |segs[0]| >= 3 ==> segs[0][2] == segs[0][..3][2];
    } else if |segs| > 1 {
      var s := Join(segs);
      assert NoSlash(segs[0]) && !Ignored(segs[0]);
      assert s == segs[0] + "/" + Join(segs[1..]);
      if segs[0] == ".." {
        assert s[..3] == "../";
      } else if EscapesRoot(s) {
        assert s[0] == '.' && s[1] == '.' && (s == ".." || s[2] == '/');
        EscapingHead(segs[0], Join(segs[1..]));
      }
    }
  }

  lemma EscapingHead(head: string, rest: string)
    requires NoSlash(head) && head != "" && EscapesRoot(head + "/" + rest)
    ensures head == ".."  || head == "."
  {
    var s := head + "/" + rest;
    assert s[|head|] == '/';
    if s != ".." {
      assert s[..3][2] == '/' && s[..3][0] == '.' && s[..3][1] == '.';
    }
  }

  // ---------------------------------------------------------------------
  // Writing the regular expression
  // ---------------------------------------------------------------------

  // The chunks between the stars.
  function Chunks(p: string): (r: seq<string>)
    ensures |r| >= 1
  {
    if p == "" then [""]
    else if p[0] == '*' then [""] + Chunks(p[1..])
    else var r := Chunks(p[1..]); [[p[0]] + r[0]] + r[1..]
  }

  function EscapeChunk(c: string): string {
    if c == "" then "" else Written(Letter(c[0])) + EscapeChunk(c[1..])
  }

  function JoinChunks(cs: seq<string>): string
    requires cs != []
  {
    if |cs| == 1 then EscapeChunk(cs[0]) else EscapeChunk(cs[0]) + "[^/]*" + JoinChunks(cs[1..])
  }

  function SegmentToRegex(segment: string): string {
    JoinChunks(Chunks(segment))
  }

  lemma EscapeCons(c: char, chunk: string)
    ensures EscapeChunk([c] + chunk) == Written(Letter(c)) + EscapeChunk(chunk)
  {
    Cons(c, chunk);
  }

  lemma JoinChunksCons(c: char, cs: seq<string>)
    requires cs != []
    ensures JoinChunks([[c] + cs[0]] + cs[1..]) == Written(Letter(c)) + JoinChunks(cs)
  {
    EscapeCons(c, cs[0]);
    Cons([c] + cs[0], cs[1..]);
    if |cs| > 1 {
      var e, x, rest := Written(Letter(c)), EscapeChunk(cs[0]), JoinChunks(cs[1..]);
      Assoc(e, x, "[^/]*");
      Assoc(e, x + "[^/]*", rest);
    }
  }

  lemma {:induction false} SegmentText(p: string)
    ensures SegmentToRegex(p) == Text(SegmentParts(p))
  {
    if p != "" {
      SegmentText(p[1..]);
      var parts := SegmentParts(p);
      assert parts[1..] == SegmentParts(p[1..]);
      if p[0] == '*' {
        assert ([""] + Chunks(p[1..]))[1..] == Chunks(p[1..]);
      } else {
        JoinChunksCons(p[0], Chunks(p[1..]));
      }
    }
  }

  lemma TextCons(p: Part, rest: seq<Part>)
    ensures Text([p] + rest) == Written(p) + Text(rest)
  {
    Cons(p, rest);
  }

  lemma JoinText(w: string, front: string, a: string, b: string, whole: string, more: string)
    requires front == w + a && more == a + b && whole == w + more
    ensures whole == front + b
  {
    Assoc(w, a, b);
  }

  lemma {:induction false} TextConcat(a: seq<Part>, b: seq<Part>)
    ensures Text(a + b) == Text(a) + Text(b)
  {
    if a == [] {
      assert a + b == b;
    } else {
      TextConcat(a[1..], b);
      Uncons(a, b);
      TextCons(a[0], a[1..] + b);
      TextCons(a[0], a[1..]);
      JoinText(Written(a[0]), Text(a), Text(a[1..]), Text(b), Text(a + b), Text(a[1..] + b));
    }
  }

  // What one segment adds to the expression.
  function Added(segments: seq<string>, i: nat): string
    requires i < |segments|
  {
    if segments[i] == "**" then if i == |segments| - 1 then "(?:/.*)?" else "(?:/[^/]*)*"
    else "/" + SegmentToRegex(segments[i])
  }

  lemma TextStep(segments: seq<string>, i: nat)
    requires i < |segments|
    ensures Text(PatternParts(segments[i..])) == Added(segments, i) + Text(PatternParts(segments[i + 1..]))
  {
    var rest := segments[i..];
    assert rest[1..] == segments[i + 1..];
    var later := PatternParts(rest[1..]);
    if rest[0] == "**" {
      TextConcat([if |rest| == 1 then End else Middle], later);
      assert Text([if |rest| == 1 then End else Middle]) == Added(segments, i) + "";
    } else {
      var slash: seq<Part> := [Letter('/')];
      TextConcat(slash + SegmentParts(rest[0]), later);
      TextConcat(slash, SegmentParts(rest[0]));
      SegmentText(rest[0]);
      assert Text(slash) == "/" + "";
    }
  }

  method SegmentsToRegex(segments: seq<string>) returns (source: string)
    ensures source == Text(PatternParts(segments))
  {
    source := "";
    assert segments[0..] == segments;
    for i := 0 to |segments|
      invariant source + Text(PatternParts(segments[i..])) == Text(PatternParts(segments))
    {
      TextStep(segments, i);
      assert source + (Added(segments, i) + Text(PatternParts(segments[i + 1..]))) ==
             (source + Added(segments, i)) + Text(PatternParts(segments[i + 1..]));
      var isLast := i == |segments| - 1;
      if segments[i] == "**" {
        source := source + if isLast then "(?:/.*)?" else "(?:/[^/]*)*";
      } else {
        source := source + ("/" + SegmentToRegex(segments[i]));
      }
    }
    assert segments[|segments|..] == [] && source + "" == source;
  }

  // ---------------------------------------------------------------------
  // Rules
  // ---------------------------------------------------------------------

  datatype Rule = All | Relative(regex: string) | Absolute(regex: string)

  datatype PatternError = NulByte | EmptyPattern | Escapes | EmptyPath | BadExpression

  predicate JsSpace(c: char) {
    var u := c as int;
    || 0x09 <= u <= 0x0d || u == 0x20 || u == 0xa0 || u == 0x1680 || 0x2000 <= u <= 0x200a
    || u == 0x2028 || u == 0x2029 || u == 0x202f || u == 0x205f || u == 0x3000 || u == 0xfeff
  }

  function TrimLeft(s: string): string {
    if s != "" && JsSpace(s[0]) then TrimLeft(s[1..]) else s
  }

  function TrimRight(s: string): string {
    if s != "" && JsSpace(s[|s| - 1]) then TrimRight(s[..|s| - 1]) else s
  }

  function Trim(s: string): string {
    TrimRight(TrimLeft(s))
  }

  function Lower(c: char): char {
    if 'A' <= c <= 'Z' then (c as int + 32) as char else c
  }

  // The drive of a Windows-style path, as a segment, and the rest of the path.
  function Drive(path: string): seq<string> {
    if HasDrive(path) then [[Lower(path[0]), ':']] else []
  }

  function Body(path: string): string {
    if HasDrive(path) then path[2..] else path
  }

  // The segments of a pattern or of a requested path, resolved.
  function GuestSegments(posix: string): seq<string> {
    Fold(IsAbsoluteGuestPath(posix), [], Split(Body(posix)))
  }

  // What the compiled expression is written from.
  function PatternSegments(pattern: string): seq<string> {
    var posix := Trim(ToPosix(pattern));
    Drive(posix) + GuestSegments(posix)
  }

  function Compiled(pattern: string): Result<Rule, PatternError> {
    var posix := Trim(ToPosix(pattern));
    var absolute := IsAbsoluteGuestPath(posix);
    var text := Text(PatternParts(PatternSegments(pattern)));
    if '\0' in pattern then Err(NulByte)
    else if posix == "" then Err(EmptyPattern)
    else if posix == "*" || posix == "**" then Ok(All)
    else if !absolute && EscapesRoot(Join(GuestSegments(posix))) then Err(Escapes)
    else if Join(GuestSegments(posix)) == "" then Err(EmptyPath)
    else if Parse(text).None? then Err(BadExpression)
    else Ok(if absolute then Absolute(text) else Relative(text))
  }

  lemma GuestClean(posix: string)
    ensures Clean(IsAbsoluteGuestPath(posix), GuestSegments(posix))
  {
    SplitPlain(Body(posix));
    FoldKeeps(IsAbsoluteGuestPath(posix), [], Split(Body(posix)));
  }

  method CompilePattern(pattern: string) returns (r: Result<Rule, PatternError>)
    ensures r == Compiled(pattern)
  {
    if '\0' in pattern {
      return Err(NulByte);
    }
    var posix := Trim(ToPosix(pattern));
    if posix == "" {
      return Err(EmptyPattern);
    }
    if posix == "*" || posix == "**" {
      return Ok(All);
    }
    var absolute := IsAbsoluteGuestPath(posix);
    var out := NormalizeSegments(Body(posix), absolute);
    var normalized := Join(out);
    if !absolute && EscapesRoot(normalized) {
      return Err(Escapes);
    }
    if normalized == "" {
      return Err(EmptyPath);
    }
    EmptyJoin(absolute, out);
    SplitJoin(out);
    var segments := Split(normalized);
    var text := SegmentsToRegex(Drive(posix) + segments);
    if Parse(text).None? {
      return Err(BadExpression);
    }
    r := Ok(if absolute then Absolute(text) else Relative(text));
  }

  // A drive letter becomes a first segment.
  function DriveFolded(candidate: string): string {
    if |candidate| >= 2 && AsciiLetter(candidate[0]) && candidate[1] == ':'
    then "/" + [Lower(candidate[0])] + candidate[1..] else candidate
  }

  predicate MatchRule(rule: Rule, candidate: string) {
    match rule
    case All => true
    case Relative(text) => Accepts(text, "/" + candidate)
    case Absolute(text) => Accepts(text, DriveFolded(candidate))
  }

  // ---------------------------------------------------------------------
  // What a compiled rule permits
  // ---------------------------------------------------------------------

  lemma {:induction false} ToPosixNoMark(s: string)
    requires NoMark(s)
    ensures NoMark(ToPosix(s))
  {
    if s != "" {
      ToPosixNoMark(s[1..]);
    }
  }

  lemma {:induction false} TrimLeftNoMark(s: string)
    requires NoMark(s)
    ensures NoMark(TrimLeft(s))
  {
    if s != "" && JsSpace(s[0]) {
      TrimLeftNoMark(s[1..]);
    }
  }

  lemma {:induction false} TrimRightNoMark(s: string)
    requires NoMark(s)
    ensures NoMark(TrimRight(s))
  {
    if s != "" && JsSpace(s[|s| - 1]) {
      TrimRightNoMark(s[..|s| - 1]);
    }
  }

  lemma {:induction false} SplitNoMarks(s: string)
    requires NoMark(s)
    ensures NoMarks(Split(s))
  {
    if s != "" {
      SplitNoMarks(s[1..]);
    }
  }

  lemma {:induction false} FoldNoMarks(absolute: bool, out: seq<string>, segs: seq<string>)
    requires NoMarks(out) && NoMarks(segs)
    ensures NoMarks(Fold(absolute, out, segs))
    decreases |segs|
  {
    if segs != [] {
      assert NoMark(segs[0]);
      FoldNoMarks(absolute, Push(absolute, out, segs[0]), segs[1..]);
    }
  }

  lemma PatternSegmentsFacts(pattern: string)
    ensures Plain(PatternSegments(pattern))
    ensures NoMark(pattern) ==> NoMarks(PatternSegments(pattern))
  {
    var posix := Trim(ToPosix(pattern));
    GuestClean(posix);
    if NoMark(pattern) {
      ToPosixNoMark(pattern);
      TrimLeftNoMark(ToPosix(pattern));
      TrimRightNoMark(TrimLeft(ToPosix(pattern)));
      SplitNoMarks(Body(posix));
      FoldNoMarks(IsAbsoluteGuestPath(posix), [], Split(Body(posix)));
    }
  }

  lemma {:induction false} SubjectJoin(path: seq<string>)
    requires path != []
    ensures Subject(path) == "/" + Join(path)
  {
    if |path| > 1 {
      SubjectJoin(path[1..]);
    } else {
      assert path[1..] == [];
    }
  }

  lemma SubjectOfText(text: string)
    ensures Subject(Split(text)) == "/" + text && Plain(Split(text))
  {
    SplitPlain(text);
    SubjectJoin(Split(text));
    JoinSplit(text);
  }

  // The path text that a rule's expression is matched with, without the leading slash.
  function Candidate(rule: Rule, candidate: string): Option<string> {
    if rule.Relative? then Some(candidate)
    else if IsAbsolute(DriveFolded(candidate)) then Some(DriveFolded(candidate)[1..])
    else None
  }

  // A rule compiled from a pattern without question marks permits exactly the paths of its glob.
  lemma RuleExact(pattern: string, candidate: string)
    requires Compiled(pattern).Ok? && !Compiled(pattern).value.All? && NoMark(pattern)
    requires Candidate(Compiled(pattern).value, candidate).Some?
    ensures MatchRule(Compiled(pattern).value, candidate) <==>
            LineGlobMatches(PatternSegments(pattern), Split(Candidate(Compiled(pattern).value, candidate).value))
  {
    var rule := Compiled(pattern).value;
    var text := Candidate(rule, candidate).value;
    PatternSegmentsFacts(pattern);
    PatternReads(PatternSegments(pattern));
    SubjectOfText(text);
    PatternExact(PatternSegments(pattern), Split(text));
    if rule.Absolute? {
      assert DriveFolded(candidate) == "/" + text;
    }
  }

  // A pattern on a drive is written from the drive, in lower case, and the segments of the rest.
  lemma DrivePattern(letter: char, rest: string)
    requires AsciiLetter(letter) && IsAbsolute(rest)
    ensures var posix := [letter, ':'] + rest;
            IsAbsoluteGuestPath(posix) && Drive(posix) == [[Lower(letter), ':']]
                && GuestSegments(posix) == Segments(rest)
    ensures !HasDrive(rest) && Drive(rest) == [] && GuestSegments(rest) == Segments(rest)
  {
    var posix := [letter, ':'] + rest;
    assert posix[2..] == rest && posix[2] == '/';
  }

  // The case of a drive letter makes no difference to a rule.
  lemma DriveCase(rule: Rule, letter: char, rest: string)
    requires 'A' <= letter <= 'Z' && !rule.Relative?
    ensures MatchRule(rule, [letter, ':'] + rest) == MatchRule(rule, [Lower(letter), ':'] + rest)
    ensures Lower(letter) as int == letter as int + 32
  {
    var upper, lower := [letter, ':'] + rest, [Lower(letter), ':'] + rest;
    assert upper[1..] == [':'] + rest == lower[1..];
    assert DriveFolded(upper) == DriveFolded(lower);
  }

  // Compilation never fails on the expression of a pattern without question marks.
  lemma PlainPatternCompiles(pattern: string)
    requires NoMark(pattern)
    ensures Compiled(pattern) != Err(BadExpression)
  {
    PatternSegmentsFacts(pattern);
    PatternReads(PatternSegments(pattern));
  }
}
