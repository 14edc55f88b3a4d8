/** Extracting import specifiers from tokens. */
module ModuleScan {
  import opened Wrappers
  import opened ModuleLexer
  import opened ModuleRewrite

  predicate Is(value: Text, word: string) {
    |value| == |word| && forall i | 0 <= i < |word| :: value[i] == word[i] as int
  }

  predicate At(ts: seq<Token>, i: nat, word: string) {
    i < |ts| && Is(ts[i].value, word)
  }

  predicate StringToken(ts: seq<Token>, i: nat) {
    i < |ts| && ts[i].kind.String?
  }

  predicate Statement(value: Text) {
    || Is(value, "import") || Is(value, "export") || Is(value, "const") || Is(value, "let")
    || Is(value, "var") || Is(value, "function") || Is(value, "class")
  }

  // Whether the search for `from "..."` gives up at this token.
  predicate EndsClause(t: Token) {
    t.depth == 0 && (Is(t.value, ";") || (t.kind.Identifier? && Statement(t.value)))
  }

  // The token of the specifier after the next `from`.
  function FindFrom(ts: seq<Token>, i: nat): (r: Option<nat>)
    ensures r.Some? ==> i < r.value && StringToken(ts, r.value)
    decreases |ts| - i
  {
    if i >= |ts| || EndsClause(ts[i]) then None
    else if ts[i].kind.Identifier? && Is(ts[i].value, "from") && StringToken(ts, i + 1) then Some(i + 1)
    else FindFrom(ts, i + 1)
  }

  // The token of the specifier after the closing brace of an export list.
  function FindAfterBrace(ts: seq<Token>, j: nat): (r: Option<nat>)
    ensures r.Some? ==> j < r.value && StringToken(ts, r.value)
    decreases |ts| - j
  {
    if j >= |ts| then None
    else if Is(ts[j].value, "}") && ts[j].depth == 0 then
      if At(ts, j + 1, "from") && StringToken(ts, j + 2) then Some(j + 2) else None
    else FindAfterBrace(ts, j + 1)
  }

  function ImportClause(ts: seq<Token>, i: nat): (r: Option<nat>)
    requires i < |ts|
    ensures r.Some? ==> i < r.value && StringToken(ts, r.value)
  {
    if i + 1 >= |ts| || At(ts, i + 1, ".") then None
    else if At(ts, i + 1, "(") then if StringToken(ts, i + 2) then Some(i + 2) else None
    else if ts[i].depth != 0 then None
    else if StringToken(ts, i + 1) then Some(i + 1)
    else FindFrom(ts, i + 2)
  }

  function ExportClause(ts: seq<Token>, i: nat): (r: Option<nat>)
    requires i < |ts|
    ensures r.Some? ==> i < r.value && StringToken(ts, r.value)
  {
    if ts[i].depth != 0 then None
    else if At(ts, i + 1, "{") then FindAfterBrace(ts, i + 2)
    else if At(ts, i + 1, "*") then FindFrom(ts, i + 2)
    else None
  }

  // The specifier that the scan finds at token `i`, as a token index.
  function SpecifierAt(ts: seq<Token>, i: nat): (r: Option<nat>)
    requires i < |ts|
    ensures r.Some? ==> i < r.value && StringToken(ts, r.value)
  {
    if !ts[i].kind.Identifier? then None
    else if Is(ts[i].value, "import") then ImportClause(ts, i)
    else if Is(ts[i].value, "export") then ExportClause(ts, i)
    else None
  }

  // The tokens of the specifiers found at the first `n` tokens, in order.
  function Specifiers(ts: seq<Token>, n: nat): (ks: seq<nat>)
    requires n <= |ts|
    ensures forall i | 0 <= i < |ks| :: StringToken(ts, ks[i])
  {
    if n == 0 then []
    else
      var found := SpecifierAt(ts, n - 1);
      Specifiers(ts, n - 1) + if found.Some? then [found.value] else []
  }

  function ImportOf(t: Token): StaticImport {
    StaticImport(t.value, t.start, t.end)
  }

  function Imports(ts: seq<Token>): seq<StaticImport> {
    var ks := Specifiers(ts, |ts|);
    seq(|ks|, (i: nat) requires i < |ks| => assert StringToken(ts, ks[i]); ImportOf(ts[ks[i]]))
  }

  // ---------------------------------------------------------------------
  // The scanner
  // ---------------------------------------------------------------------

  method FindFromString(ts: seq<Token>, start: nat) returns (r: Option<nat>)
    ensures r == FindFrom(ts, start)
  {
    var i := start;
    while i < |ts|
      invariant start <= i && FindFrom(ts, i) == FindFrom(ts, start)
    {
      if EndsClause(ts[i]) {
        return None;
      }
      if ts[i].kind.Identifier? && Is(ts[i].value, "from") && i + 1 < |ts| && ts[i + 1].kind.String? {
        return Some(i + 1);
      }
      i := i + 1;
    }
    r := None;
  }

  method ScanExportList(ts: seq<Token>, start: nat) returns (r: Option<nat>)
    ensures r == FindAfterBrace(ts, start)
  {
    var j := start;
    while j < |ts|
      invariant start <= j && FindAfterBrace(ts, j) == FindAfterBrace(ts, start)
    {
      if Is(ts[j].value, "}") && ts[j].depth == 0 {
        return if At(ts, j + 1, "from") && StringToken(ts, j + 2) then Some(j + 2) else None;
      }
      j := j + 1;
    }
    r := None;
  }

  method ScanToken(ts: seq<Token>, i: nat) returns (r: Option<nat>)
    requires i < |ts|
    ensures r == SpecifierAt(ts, i)
  {
    r := None;
    if !ts[i].kind.Identifier? {
      return;
    }
    if Is(ts[i].value, "import") {
      if i + 1 >= |ts| || At(ts, i + 1, ".") {
        return;
      }
      if At(ts, i + 1, "(") {
        return if StringToken(ts, i + 2) then Some(i + 2) else None;
      }
      if ts[i].depth != 0 {
        return;
      }
      if ts[i + 1].kind.String? {
        return Some(i + 1);
      }
      r := FindFromString(ts, i + 2);
    } else if Is(ts[i].value, "export") && ts[i].depth == 0 {
      if At(ts, i + 1, "{") {
        r := ScanExportList(ts, i + 2);
      } else if At(ts, i + 1, "*") {
        r := FindFromString(ts, i + 2);
      }
    }
  }

  method ScanModuleSource(source: Text) returns (imports: seq<StaticImport>)
    ensures imports == Imports(Tokens(source))
  {
    var ts := Tokenize(source);
    imports := [];
    ghost var ks: seq<nat> := [];
    for i := 0 to |ts|
      invariant ks == Specifiers(ts, i) && |imports| == |ks|
      invariant forall j | 0 <= j < |ks| :: imports[j] == ImportOf(ts[ks[j]])
    {
      var found := ScanToken(ts, i);
      if found.Some? {
        imports := imports + [ImportOf(ts[found.value])];
        ks := ks + [found.value];
      }
    }
  }

  // Everything the scan reports is a string token of the source.
  lemma ImportsAreTokens(ts: seq<Token>, i: nat)
    requires i < |Imports(ts)|
    ensures IsToken(ts, Imports(ts)[i])
  {
    var k := Specifiers(ts, |ts|)[i];
    assert StringToken(ts, k) && ts[k].start == Imports(ts)[i].start;
  }

  lemma {:induction false} StartsIncrease(ls: seq<Lexeme>, s: Text, base: nat, depth: nat, i: nat, j: nat)
    requires Lexed(ls, s) && i < j < |TokensOf(ls, base, depth)|
    ensures TokensOf(ls, base, depth)[i].start < TokensOf(ls, base, depth)[j].start
    decreases |ls|
  {
    var first := Emitted(ls[0], base, depth);
    if i >= |first| {
      StartsIncrease(ls[1..], s[ls[0].len..], base + ls[0].len, DepthAfter(ls[0], depth), i - |first|, j - |first|);
    } else {
      TokensAfter(ls[1..], base + ls[0].len, DepthAfter(ls[0], depth), j - |first|);
    }
  }

  // Tokens are told apart by where they start.
  lemma SameStart(source: Text, i: nat, j: nat)
    requires i < |Tokens(source)| && j < |Tokens(source)| && Tokens(source)[i].start == Tokens(source)[j].start
    ensures i == j
  {
    LexemesLexed(source);
    if i < j {
      StartsIncrease(Lexemes(source), source, 0, 0, i, j);
    } else if j < i {
      StartsIncrease(Lexemes(source), source, 0, 0, j, i);
    }
  }
}
