/**
 The module linker's tokenizer. It knows just enough of the language to find import
 specifiers: strings, templates, comments, words, and brackets by depth.
 */
module ModuleLexer {

  // A UTF-16 code unit, as a number; source text is a sequence of them.
  type Unit = int
  type Text = seq<Unit>

  const QUOTE: Unit := 0x22
  const APOSTROPHE: Unit := 0x27
  const BACKTICK: Unit := 0x60
  const BACKSLASH: Unit := 0x5c
  const SLASH: Unit := 0x2f
  const STAR: Unit := 0x2a
  const NEWLINE: Unit := 0x0a

  predicate Letter(u: Unit) {
    'A' as int <= u <= 'Z' as int || 'a' as int <= u <= 'z' as int || u == '_' as int || u == '$' as int
  }

  predicate WordUnit(u: Unit) {
    Letter(u) || '0' as int <= u <= '9' as int
  }

  predicate Space(u: Unit) {
    || 0x09 <= u <= 0x0d || u == 0x20 || u == 0xa0 || u == 0x1680 || 0x2000 <= u <= 0x200a
    || u == 0x2028 || u == 0x2029 || u == 0x202f || u == 0x205f || u == 0x3000 || u == 0xfeff
  }

  predicate Delimiter(u: Unit) {
    u == QUOTE || u == APOSTROPHE
  }

  predicate Opening(u: Unit) {
    u == '{' as int || u == '(' as int || u == '[' as int
  }

  predicate Closing(u: Unit) {
    u == '}' as int || u == ')' as int || u == ']' as int
  }

  // ---------------------------------------------------------------------
  // Lengths of the lexemes that a prefix of the text forms
  // ---------------------------------------------------------------------

  function WordLen(s: Text): (n: nat)
    ensures n <= |s|
  {
    if s == [] || !WordUnit(s[0]) then 0 else 1 + WordLen(s[1..])
  }

  // Up to the line's end.
  function LineLen(s: Text): (n: nat)
    ensures n <= |s|
  {
    if s == [] || s[0] == NEWLINE then 0 else 1 + LineLen(s[1..])
  }

  // Up to and with the closing `*/`, or all of it.
  function BlockLen(s: Text): (n: nat)
    ensures n <= |s|
  {
    if s == [] then 0
    else if |s| >= 2 && s[0] == STAR && s[1] == SLASH then 2
    else 1 + BlockLen(s[1..])
  }

  // Up to the closing delimiter `q`, or all of it.
  function BodyLen(s: Text, q: Unit): (n: nat)
    ensures n <= |s|
  {
    if s == [] || s[0] == q then 0
    else if s[0] == BACKSLASH && |s| >= 2 then 2 + BodyLen(s[2..], q)
    else 1 + BodyLen(s[1..], q)
  }

  // Up to and with the closing backtick, or all of it.
  function TemplateLen(s: Text): (n: nat)
    ensures n <= |s|
  {
    if s == [] then 0
    else if s[0] == BACKSLASH then if |s| == 1 then 1 else 2 + TemplateLen(s[2..])
    else if s[0] == BACKTICK then 1
    else 1 + TemplateLen(s[1..])
  }

  // ---------------------------------------------------------------------
  // Cutting a text into lexemes
  // ---------------------------------------------------------------------

  // A lexeme by its length; a string with what stands between the delimiters, a word with its text.
  datatype Lexeme =
    | Blank(len: nat) | Quoted(len: nat, body: Text) | Word(len: nat, text: Text) | Mark(len: nat, unit: Unit)

  function QuotedHead(s: Text): (h: Lexeme)
    requires s != []
    ensures 0 < h.len <= |s|
  {
    var n := BodyLen(s[1..], s[0]);
    Quoted(if n < |s| - 1 then n + 2 else n + 1, s[1..n + 1])
  }

  predicate Starts(s: Text, first: Unit, second: Unit) {
    |s| >= 2 && s[0] == first && s[1] == second
  }

  function Head(s: Text): (h: Lexeme)
    requires s != []
    ensures 0 < h.len <= |s|
  {
    if Space(s[0]) then Blank(1)
    else if Starts(s, SLASH, SLASH) then Blank(2 + LineLen(s[2..]))
    else if Starts(s, SLASH, STAR) then Blank(2 + BlockLen(s[2..]))
    else if Delimiter(s[0]) then QuotedHead(s)
    else if s[0] == BACKTICK then Blank(1 + TemplateLen(s[1..]))
    else if Letter(s[0]) then Word(WordLen(s), s[..WordLen(s)])
    else Mark(1, s[0])
  }

  function Lexemes(s: Text): seq<Lexeme>
    decreases |s|
  {
    if s == [] then [] else [Head(s)] + Lexemes(s[Head(s).len..])
  }

  // ---------------------------------------------------------------------
  // Tokens
  // ---------------------------------------------------------------------

  datatype Kind = Identifier | String | Punctuation

  datatype Token = Token(kind: Kind, value: Text, start: nat, end: nat, depth: nat)

  function Unescaped(u: Unit): Unit {
    if u == 'n' as int then 0x0a
    else if u == 'r' as int then 0x0d
    else if u == 't' as int then 0x09
    else if u == 'b' as int then 0x08
    else if u == 'f' as int then 0x0c
    else if u == 'v' as int then 0x0b
    else if u == '0' as int then 0x00
    else u
  }

  function Decode(raw: Text): Text {
    if raw == [] then []
    else if raw[0] != BACKSLASH || |raw| == 1 then [raw[0]] + Decode(raw[1..])
    else [Unescaped(raw[1])] + Decode(raw[2..])
  }

  function Closed(u: Unit, depth: nat): nat {
    if Closing(u) && depth > 0 then depth - 1 else depth
  }

  function Opened(u: Unit, depth: nat): nat {
    if Opening(u) then depth + 1 else depth
  }

  function DepthAfter(l: Lexeme, depth: nat): nat {
    if l.Mark? then Opened(l.unit, Closed(l.unit, depth)) else depth
  }

  // The token of a lexeme at offset `base` and bracket depth `depth`, if it has one.
  function Emitted(l: Lexeme, base: nat, depth: nat): seq<Token> {
    match l
    case Blank(_) => []
    case Quoted(n, body) => [Token(String, Decode(body), base, base + n, depth)]
    case Word(n, text) => [Token(Identifier, text, base, base + n, depth)]
    case Mark(n, unit) => [Token(Punctuation, [unit], base, base + n, Closed(unit, depth))]
  }

  function TokensOf(ls: seq<Lexeme>, base: nat, depth: nat): seq<Token> {
    if ls == [] then [] else Emitted(ls[0], base, depth) + TokensOf(ls[1..], base + ls[0].len, DepthAfter(ls[0], depth))
  }

  function Tokens(s: Text): seq<Token> {
    TokensOf(Lexemes(s), 0, 0)
  }

  // ---------------------------------------------------------------------
  // The tokenizer
  // ---------------------------------------------------------------------

  lemma DecodeStep(raw: Text, i: nat, result: Text)
    requires i < |raw|
    ensures result + Decode(raw[i..]) ==
            if raw[i] != BACKSLASH || i + 1 >= |raw| then (result + [raw[i]]) + Decode(raw[i + 1..])
            else (result + [Unescaped(raw[i + 1])]) + Decode(raw[i + 2..])
  {
    var rest := raw[i..];
    assert rest[1..] == raw[i + 1..];
    assert i + 1 < |raw| ==> rest[2..] == raw[i + 2..];
    if raw[i] != BACKSLASH || i + 1 >= |raw| {
      assert result + ([raw[i]] + Decode(raw[i + 1..])) == (result + [raw[i]]) + Decode(raw[i + 1..]);
    } else {
      var u := Unescaped(raw[i + 1]);
      assert result + ([u] + Decode(raw[i + 2..])) == (result + [u]) + Decode(raw[i + 2..]);
    }
  }

  method DecodeString(raw: Text) returns (result: Text)
    ensures result == Decode(raw)
  {
    result := [];
    var i := 0;
    assert raw[0..] == raw && [] + Decode(raw) == Decode(raw);
    while i < |raw|
      invariant 0 <= i <= |raw|
      invariant result + Decode(raw[i..]) == Decode(raw)
    {
      DecodeStep(raw, i, result);
      if raw[i] != BACKSLASH || i + 1 >= |raw| {
        result := result + [raw[i]];
        i := i + 1;
      } else {
        result := result + [Unescaped(raw[i + 1])];
        i := i + 2;
      }
    }
    assert raw[|raw|..] == [] && result + [] == result;
  }

  method SkipLine(s: Text, from: nat) returns (index: nat)
    requires from <= |s|
    ensures index == from + LineLen(s[from..])
  {
    index := from;
    while index < |s| && s[index] != NEWLINE
      invariant from <= index <= |s| && index + LineLen(s[index..]) == from + LineLen(s[from..])
    {
      assert s[index..][1..] == s[index + 1..];
      index := index + 1;
    }
  }

  method SkipBlock(s: Text, from: nat) returns (index: nat)
    requires from <= |s|
    ensures index == from + BlockLen(s[from..])
  {
    index := from;
    while index < |s| && !(s[index] == STAR && index + 1 < |s| && s[index + 1] == SLASH)
      invariant from <= index <= |s| && index + BlockLen(s[index..]) == from + BlockLen(s[from..])
    {
      assert s[index..][1..] == s[index + 1..];
      index := index + 1;
    }
    index := if |s| < index + 2 then |s| else index + 2;
  }

  // How far one turn of the string loop goes.
  function BodyTurn(s: Text, i: nat): nat
    requires i < |s|
  {
    if s[i] == BACKSLASH && i + 1 < |s| then 2 else 1
  }

  lemma BodyStep(s: Text, from: nat, i: nat, q: Unit)
    requires from <= i < |s| && s[i] != q
    ensures BodyLen(s[i..], q) == BodyTurn(s, i) + BodyLen(s[i + BodyTurn(s, i)..], q)
    ensures s[from..i] + s[i..i + BodyTurn(s, i)] == s[from..i + BodyTurn(s, i)]
  {
    assert s[i..][1..] == s[i + 1..];
    assert i + 1 < |s| ==> s[i..][2..] == s[i + 2..];
  }

  method ReadBody(s: Text, from: nat, q: Unit) returns (index: nat, value: Text)
    requires from <= |s|
    ensures index == from + BodyLen(s[from..], q) && value == s[from..index]
  {
    index, value := from, [];
    ghost var end := from + BodyLen(s[from..], q);
    while index < |s| && s[index] != q
      invariant from <= index <= |s| && value == s[from..index]
      invariant index + BodyLen(s[index..], q) == end
    {
      BodyStep(s, from, index, q);
      var n := BodyTurn(s, index);
      value := value + s[index..index + n];
      index := index + n;
    }
  }

  method SkipTemplate(s: Text, from: nat) returns (index: nat)
    requires from <= |s|
    ensures index == from + TemplateLen(s[from..]) || (index == |s| + 1 && from + TemplateLen(s[from..]) == |s|)
  {
    index := from;
    while index < |s|
      invariant from <= index <= |s| + 1
      invariant index <= |s| ==> index + TemplateLen(s[index..]) == from + TemplateLen(s[from..])
      invariant index == |s| + 1 ==> from + TemplateLen(s[from..]) == |s|
    {
      if s[index] == BACKSLASH {
        assert index + 2 <= |s| ==> s[index..][2..] == s[index + 2..];
        index := index + 2;
      } else {
        assert s[index..][1..] == s[index + 1..];
        index := index + 1;
        if s[index - 1] == BACKTICK {
          return;
        }
      }
    }
  }

  method ReadWord(s: Text, from: nat) returns (index: nat)
    requires from < |s| && Letter(s[from])
    ensures index == from + WordLen(s[from..])
  {
    index := from + 1;
    assert s[from..][1..] == s[index..];
    while index < |s| && WordUnit(s[index])
      invariant from <= index <= |s| && index + WordLen(s[index..]) == from + WordLen(s[from..])
    {
      assert s[index..][1..] == s[index + 1..];
      index := index + 1;
    }
  }

  method ReadString(source: Text, index: nat) returns (next: nat, value: Text)
    requires index < |source| && Delimiter(source[index])
    ensures var lexeme := QuotedHead(source[index..]);
            next == index + lexeme.len && value == Decode(lexeme.body)
  {
    ghost var rest := source[index..];
    assert rest[1..] == source[index + 1..];
    var raw;
    next, raw := ReadBody(source, index + 1, source[index]);
    assert raw == rest[1..BodyLen(rest[1..], rest[0]) + 1];
    if next < |source| {
      next := next + 1;
    }
    value := DecodeString(raw);
  }

  // One turn of the main loop: where the next lexeme starts, and what this one adds. A template
  // cut short by the end of the text leaves the index one past it.
  method NextToken(source: Text, index: nat, depth: nat)
      returns (next: nat, added: seq<Token>, depth': nat, ghost l: Lexeme)
    requires index < |source|
    ensures l == Head(source[index..])
    ensures added == Emitted(Head(source[index..]), index, depth) && depth' == DepthAfter(l, depth)
    ensures next == index + l.len || (next == |source| + 1 && index + l.len == |source|)
  {
    ghost var rest := source[index..];
    l := Head(rest);
    var u := source[index];
    added, depth' := [], depth;
    if Space(u) {
      next := index + 1;
    } else if u == SLASH && index + 1 < |source| && source[index + 1] == SLASH {
      next := SkipLine(source, index + 2);
      assert rest[2..] == source[index + 2..];
    } else if u == SLASH && index + 1 < |source| && source[index + 1] == STAR {
      next := SkipBlock(source, index + 2);
      assert rest[2..] == source[index + 2..];
    } else if Delimiter(u) {
      var value;
      next, value := ReadString(source, index);
      added := [Token(String, value, index, next, depth)];
    } else if u == BACKTICK {
      next := SkipTemplate(source, index + 1);
      assert rest[1..] == source[index + 1..];
    } else if Letter(u) {
      next := ReadWord(source, index);
      assert source[index..next] == rest[..next - index];
      added := [Token(Identifier, source[index..next], index, next, depth)];
    } else {
      if Closing(u) {
        depth' := if depth == 0 then 0 else depth - 1;
      }
      added := [Token(Punctuation, [u], index, index + 1, depth')];
      if Opening(u) {
        depth' := depth' + 1;
      }
      next := index + 1;
    }
  }

  lemma LexemesStep(source: Text, index: nat, l: Lexeme)
    requires index < |source| && l == Head(source[index..])
    ensures Lexemes(source[index..]) == [l] + Lexemes(source[index + l.len..])
  {
    assert source[index..][l.len..] == source[index + l.len..];
  }

  lemma TokensStep(tokens: seq<Token>, todo: seq<Lexeme>, l: Lexeme, later: seq<Lexeme>, index: nat, depth: nat)
    requires todo == [l] + later
    ensures tokens + TokensOf(todo, index, depth) ==
            (tokens + Emitted(l, index, depth)) + TokensOf(later, index + l.len, DepthAfter(l, depth))
  {
    assert todo[1..] == later;
    var added, rest := Emitted(l, index, depth), TokensOf(later, index + l.len, DepthAfter(l, depth));
    assert tokens + (added + rest) == (tokens + added) + rest;
  }

  method Tokenize(source: Text) returns (tokens: seq<Token>)
    ensures tokens == Tokens(source)
  {
    tokens := [];
    var index, depth := 0, 0;
    ghost var todo := Lexemes(source);
    assert source[0..] == source && [] + TokensOf(todo, 0, 0) == TokensOf(todo, 0, 0);
    while index < |source|
      invariant 0 <= index <= |source| + 1
      invariant todo == if index <= |source| then Lexemes(source[index..]) else []
      invariant tokens + TokensOf(todo, if index <= |source| then index else |source|, depth) == Tokens(source)
      decreases |source| - index
    {
      ghost var l;
      var next, added, depth';
      next, added, depth', l := NextToken(source, index, depth);
      LexemesStep(source, index, l);
      ghost var later := Lexemes(source[index + l.len..]);
      TokensStep(tokens, todo, l, later, index, depth);
      tokens, index, depth, todo := tokens + added, next, depth', later;
    }
    assert todo == [] && tokens + [] == tokens;
  }
}
