/**
 The regular expressions that the glob compiler writes: their text, how a regular-expression
 engine reads it, and what they match.
 */
module GlobRegex {
  import opened Wrappers
  import opened PathText

  // ---------------------------------------------------------------------
  // What a regular expression matches, from start to end
  // ---------------------------------------------------------------------

  // `Run` is `[^/]*`, `Dirs` is `(?:/[^/]*)*` and `Tail` is `(?:/.*)?`.
  datatype Node = Lit(c: char) | Opt(c: char) | Run | Dirs | Tail

  predicate LineTerminator(c: char) {
    c == '\n' || c == '\r' || c == '\U{2028}' || c == '\U{2029}'
  }

  predicate OneLine(s: string) {
    forall i | 0 <= i < |s| :: !LineTerminator(s[i])
  }

  // A first piece of length `k` that one round of `Dirs` can take.
  predicate Dir(t: string, k: nat) {
    1 <= k <= |t| && t[0] == '/' && NoSlash(t[1..k])
  }

  predicate Lines(t: string, k: nat) {
    1 <= k <= |t| && t[0] == '/' && OneLine(t[1..k])
  }

  predicate Matches(nodes: seq<Node>, t: string)
    decreases |t|, |nodes|
  {
    if nodes == [] then t == ""
    else
      match nodes[0]
      case Lit(c) => t != "" && t[0] == c && Matches(nodes[1..], t[1..])
      case Opt(c) => Matches(nodes[1..], t) || (t != "" && t[0] == c && Matches(nodes[1..], t[1..]))
      case Run => exists k | 0 <= k <= |t| :: NoSlash(t[..k]) && Matches(nodes[1..], t[k..])
      case Dirs => Matches(nodes[1..], t) || exists k | 1 <= k <= |t| :: Dir(t, k) && Matches(nodes, t[k..])
      case Tail => Matches(nodes[1..], t) || exists k | 1 <= k <= |t| :: Lines(t, k) && Matches(nodes[1..], t[k..])
  }

  // ---------------------------------------------------------------------
  // The text of a regular expression
  // ---------------------------------------------------------------------

  // A part of a pattern; `Mark` is a question mark, which the compiler copies as it is.
  datatype Part = Letter(c: char) | Star | Mark | Middle | End

  predicate Meta(c: char) {
    || c == '.' || c == '+' || c == '^' || c == '$' || c == '{' || c == '}' || c == '(' || c == ')'
    || c == '|' || c == '[' || c == ']' || c == '\\'
  }

  // The characters that the compiler escapes, as a table.
  const METAS := {'.', '+', '^', '$', '{', '}', '(', ')', '|', '[', ']', '\\'}

  lemma MetaCharacters(c: char)
    ensures Meta(c) <==> c in METAS
    ensures LineTerminator(c) <==> c as int in {10, 13, 8232, 8233}
  {
  }

  // A letter is neither of the two characters that stand for something else in a pattern.
  predicate Good(p: Part) {
    p.Letter? ==> p.c != '*' && p.c != '?'
  }

  function Written(p: Part): string {
    match p
    case Letter(c) => if Meta(c) then ['\\', c] else [c]
    case Star => "[^/]*"
    case Mark => "?"
    case Middle => "(?:/[^/]*)*"
    case End => "(?:/.*)?"
  }

  function Text(parts: seq<Part>): string {
    if parts == [] then "" else Written(parts[0]) + Text(parts[1..])
  }

  // ---------------------------------------------------------------------
  // How the text is read
  // ---------------------------------------------------------------------

  // The first item of the text and what follows it, for the syntax that the compiler writes.
  function FirstItem(s: string): Option<(Node, string)>
    requires s != ""
  {
    if StartsWith(s, "(?:/[^/]*)*") then Some((Dirs, s[11..]))
    else if StartsWith(s, "(?:/.*)?") then Some((Tail, s[8..]))
    else if StartsWith(s, "[^/]*") then Some((Run, s[5..]))
    else if s[0] == '\\' && |s| >= 2 then Some((Lit(s[1]), s[2..]))
    else if !Meta(s[0]) && s[0] != '*' && s[0] != '?' then Some((Lit(s[0]), s[1..]))
    else None
  }

  function Skip(s: string): string {
    if s != "" && s[0] == '?' then s[1..] else s
  }

  // A `?` after a character makes it optional; after that, or after a repetition, one more is a
  // mere hint to the engine, and a further one is an error.
  function Quantified(n: Node, rest: string): (Node, string) {
    if n.Lit? && rest != "" && rest[0] == '?' then (Opt(n.c), Skip(rest[1..])) else (n, Skip(rest))
  }

  function Parse(s: string): Option<seq<Node>>
    decreases |s|
  {
    if s == "" then Some([])
    else
      match FirstItem(s)
      case None => None
      case Some((n, rest)) =>
        var (q, after) := Quantified(n, rest);
        match Parse(after)
        case None => None
        case Some(nodes) => Some([q] + nodes)
  }

  // The same reading, part by part.
  function NodeOf(p: Part): Node
    requires !p.Mark?
  {
    match p
    case Letter(c) => Lit(c)
    case Star => Run
    case Middle => Dirs
    case End => Tail
  }

  function SkipMark(parts: seq<Part>): seq<Part> {
    if parts != [] && parts[0].Mark? then parts[1..] else parts
  }

  function QuantifiedPart(p: Part, rest: seq<Part>): (Node, seq<Part>)
    requires !p.Mark?
  {
    if p.Letter? && rest != [] && rest[0].Mark? then (Opt(p.c), SkipMark(rest[1..])) else (NodeOf(p), SkipMark(rest))
  }

  function Read(parts: seq<Part>): Option<seq<Node>>
    decreases |parts|
  {
    if parts == [] then Some([])
    else if parts[0].Mark? then None
    else
      var (q, after) := QuantifiedPart(parts[0], parts[1..]);
      match Read(after)
      case None => None
      case Some(nodes) => Some([q] + nodes)
  }

  ghost predicate AllGood(parts: seq<Part>) {
    forall i | 0 <= i < |parts| :: Good(parts[i])
  }

  // The first item of written text is the first part.
  lemma FirstIs(p: Part, rest: string)
    requires Good(p) && !p.Mark?
    ensures FirstItem(Written(p) + rest) == Some((NodeOf(p), rest))
  {
    var s := Written(p) + rest;
    match p
    case Letter(c) => assert s[0] == '\\' || s[0] == c;
    case Star => assert s[..5] == "[^/]*" && s[0] == '[';
    case Middle => assert s[..11] == "(?:/[^/]*)*";
    case End => assert s[..8] == "(?:/.*)?" && s[4] == '.';
  }

  lemma MarkFirst(parts: seq<Part>)
    requires AllGood(parts)
    ensures Text(parts) != "" && Text(parts)[0] == '?' <==> parts != [] && parts[0].Mark?
    ensures Skip(Text(parts)) == Text(SkipMark(parts))
  {
  }

  // Reading the text is reading the parts.
  lemma {:induction false} ParseText(parts: seq<Part>)
    requires AllGood(parts)
    ensures Parse(Text(parts)) == Read(parts)
    decreases |parts|
  {
    if parts != [] {
      var p, rest := parts[0], parts[1..];
      if p.Mark? {
        assert Text(parts)[0] == '?';
      } else {
        FirstIs(p, Text(rest));
        MarkFirst(rest);
        if p.Letter? && rest != [] && rest[0].Mark? {
          MarkFirst(rest[1..]);
          assert Text(rest)[1..] == Text(rest[1..]);
          ParseText(SkipMark(rest[1..]));
        } else {
          ParseText(SkipMark(rest));
        }
      }
    }
  }
}
