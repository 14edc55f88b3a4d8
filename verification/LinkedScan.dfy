/** What a rewritten module is scanned as. */
module LinkedScan {
  import opened Wrappers
  import opened ModuleLexer
  import opened JsonQuote
  import opened ModuleRewrite
  import opened ModuleScan
  import opened ScanRepeats

  // ---------------------------------------------------------------------
  // Tokens that the scanner does not tell apart
  // ---------------------------------------------------------------------

  // Texts that end a search wherever they stand, a string token included.
  predicate Stops(value: Text) {
    Is(value, ";") || Is(value, "}")
  }

  // Texts that the scanner looks for right after `import`, in a string token too.
  predicate Leads(value: Text) {
    Is(value, ".") || Is(value, "(")
  }

  predicate ImportWord(t: Token) {
    t.kind.Identifier? && Is(t.value, "import")
  }

  // What may stand right before a specifier.
  predicate Introduces(t: Token) {
    ImportWord(t) || Is(t.value, "(") || Is(t.value, "from")
  }

  // Token `i` is a string in a specifier's place and means the same to the scanner in both.
  ghost predicate Exchanged(ts: seq<Token>, us: seq<Token>, i: nat)
    requires i < |ts| == |us|
  {
    && ts[i].kind.String? && !Stops(ts[i].value) && !Stops(us[i].value)
    && i > 0 && Introduces(ts[i - 1]) && (ImportWord(ts[i - 1]) ==> !Leads(ts[i].value) && !Leads(us[i].value))
  }

  ghost predicate SameAt(ts: seq<Token>, us: seq<Token>, i: nat)
    requires i < |ts| == |us|
  {
    ts[i].kind == us[i].kind && ts[i].depth == us[i].depth && (ts[i].value == us[i].value || Exchanged(ts, us, i))
  }

  ghost predicate SameSyntax(ts: seq<Token>, us: seq<Token>) {
    |ts| == |us| && forall i | 0 <= i < |ts| :: SameAt(ts, us, i)
  }

  lemma {:induction false} FindFromSame(ts: seq<Token>, us: seq<Token>, i: nat)
    requires SameSyntax(ts, us)
    ensures FindFrom(ts, i) == FindFrom(us, i)
    decreases |ts| - i
  {
    if i < |ts| {
      assert SameAt(ts, us, i);
      assert i + 1 < |ts| ==> SameAt(ts, us, i + 1);
      FindFromSame(ts, us, i + 1);
    }
  }

  // After a closing brace no specifier stands, so both have the same token there.
  lemma AfterBraceSame(ts: seq<Token>, us: seq<Token>, j: nat)
    requires SameSyntax(ts, us) && j + 1 < |ts| && Is(ts[j].value, "}")
    ensures ts[j + 1].value == us[j + 1].value
  {
    assert SameAt(ts, us, j + 1);
    WordsDiffer(ts[j].value);
  }

  lemma {:induction false} FindAfterBraceSame(ts: seq<Token>, us: seq<Token>, j: nat)
    requires SameSyntax(ts, us)
    ensures FindAfterBrace(ts, j) == FindAfterBrace(us, j)
    decreases |ts| - j
  {
    if j < |ts| {
      assert SameAt(ts, us, j);
      assert j + 2 < |ts| ==> SameAt(ts, us, j + 2);
      if j + 1 < |ts| && Is(ts[j].value, "}") {
        AfterBraceSame(ts, us, j);
      }
      FindAfterBraceSame(ts, us, j + 1);
    }
  }

  // The token after a keyword reads the same to the scanner.
  lemma NextSame(ts: seq<Token>, us: seq<Token>, i: nat)
    requires SameSyntax(ts, us) && i + 1 < |ts|
    ensures ImportWord(ts[i])
            ==> (At(ts, i + 1, ".") <==> At(us, i + 1, ".")) && (At(ts, i + 1, "(") <==> At(us, i + 1, "("))
    ensures WordAt(ts, i, "export")
            ==> (At(ts, i + 1, "{") <==> At(us, i + 1, "{")) && (At(ts, i + 1, "*") <==> At(us, i + 1, "*"))
    ensures StringToken(ts, i + 1) <==> StringToken(us, i + 1)
  {
    assert SameAt(ts, us, i + 1);
    WordsDiffer(ts[i].value);
  }

  lemma SpecifierSame(ts: seq<Token>, us: seq<Token>, i: nat)
    requires SameSyntax(ts, us) && i < |ts|
    ensures SpecifierAt(ts, i) == SpecifierAt(us, i)
  {
    assert SameAt(ts, us, i);
    assert i + 2 < |ts| ==> SameAt(ts, us, i + 2);
    if i + 1 < |ts| {
      NextSame(ts, us, i);
    }
    FindFromSame(ts, us, i + 2);
    FindAfterBraceSame(ts, us, i + 2);
  }

  lemma {:induction false} SpecifiersSame(ts: seq<Token>, us: seq<Token>, n: nat)
    requires SameSyntax(ts, us) && n <= |ts|
    ensures Specifiers(ts, n) == Specifiers(us, n)
  {
    if n > 0 {
      SpecifiersSame(ts, us, n - 1);
      SpecifierSame(ts, us, n - 1);
    }
  }

  // ---------------------------------------------------------------------
  // Scanning the rewritten module
  // ---------------------------------------------------------------------

  // A target that can be put in place of any specifier: it needs no `\uXXXX` and is not read as syntax.
  predicate Linkable(target: Text) {
    WideCount(target) == 0 && !Stops(target) && !Leads(target)
  }

  // Where a specifier stands; next to `import` it is not one of the texts looked for there.
  lemma SpecifierPlace(ts: seq<Token>, i: nat, k: nat)
    requires i < |ts| && SpecifierAt(ts, i) == Some(k)
    ensures 0 < k < |ts| && Introduces(ts[k - 1]) && (ImportWord(ts[k - 1]) ==> !Leads(ts[k].value))
  {
    SpecifierMeans(ts, i, k);
    WordsDiffer(ts[k - 1].value);
  }

  lemma ListedPlace(ts: seq<Token>, p: nat)
    requires p < |Specifiers(ts, |ts|)|
    ensures var k := Specifiers(ts, |ts|)[p];
            0 < k < |ts| && Introduces(ts[k - 1]) && (ImportWord(ts[k - 1]) ==> !Leads(ts[k].value))
  {
    SpecifierPlace(ts, Keywords(ts, |ts|)[p], Specifiers(ts, |ts|)[p]);
  }

  // Every edited token is a specifier that may be exchanged.
  ghost predicate EditsFit(ts: seq<Token>, edits: Edits) {
    && (forall k | k in edits :: Linkable(edits[k]))
    && forall i | 0 < i < |ts| && ts[i].kind.String? && ts[i].start in edits ::
         !Stops(ts[i].value) && Introduces(ts[i - 1]) && (ImportWord(ts[i - 1]) ==> !Leads(ts[i].value))
  }

  lemma RelinkedSameSyntax(ts: seq<Token>, us: seq<Token>, edits: Edits)
    requires AllRelinked(ts, us, edits) && EditsFit(ts, edits)
    requires |ts| > 0 && ts[0].kind.String? ==> ts[0].start !in edits
    ensures SameSyntax(ts, us)
  {
    forall i | 0 <= i < |ts| ensures SameAt(ts, us, i) {
      assert Relinked(ts[i], us[i], edits);
      if ts[i].kind.String? && ts[i].start in edits {
        DecodeEscape(edits[ts[i].start]);
        assert i > 0;
      }
    }
  }

  lemma EditedIsListed(source: Text, targets: seq<Text>, i: nat)
    requires var ts := Tokens(source);
             |Imports(ts)| == |targets| && i < |ts| && ts[i].start in EditsOf(Imports(ts), targets)
    ensures exists p | 0 <= p < |targets| :: Specifiers(Tokens(source), |Tokens(source)|)[p] == i
  {
    var ts := Tokens(source);
    EditsFrom(Imports(ts), targets, ts[i].start);
    var p :| 0 <= p < |Imports(ts)| && Imports(ts)[p].start == ts[i].start;
    SameStart(source, i, Specifiers(ts, |ts|)[p]);
  }

  lemma LinkedEditsFit(source: Text, ts: seq<Token>, targets: seq<Text>, edits: Edits)
    requires ts == Tokens(source) && |Imports(ts)| == |targets| && !Overlapping(ts)
             && edits == EditsOf(Imports(ts), targets)
    requires forall i | 0 <= i < |targets| :: Linkable(targets[i]) && !Stops(Imports(ts)[i].specifier)
    ensures EditsFit(ts, edits) && (|ts| > 0 && ts[0].kind.String? ==> ts[0].start !in edits)
  {
    var imports := Imports(ts);
    DistinctExactly(source);
    forall k | k in edits ensures Linkable(edits[k]) {
      EditsFrom(imports, targets, k);
      var i :| 0 <= i < |imports| && imports[i].start == k;
      EditsAt(imports, targets, i);
    }
    forall i | 0 <= i < |ts| && ts[i].kind.String? && ts[i].start in edits
      ensures i > 0 && !Stops(ts[i].value) && Introduces(ts[i - 1]) && (ImportWord(ts[i - 1]) ==> !Leads(ts[i].value))
    {
      EditedIsListed(source, targets, i);
      var p :| 0 <= p < |targets| && Specifiers(ts, |ts|)[p] == i;
      ListedPlace(ts, p);
      assert imports[p].specifier == ts[i].value;
    }
  }

  // Scanning a linked module finds exactly the targets it was linked to, in the order of the imports.
  lemma LinkedModuleScans(source: Text, targets: seq<Text>)
    requires var imports := Imports(Tokens(source));
             |imports| == |targets| && forall i | 0 <= i < |targets| ::
                 Linkable(targets[i]) && !Stops(imports[i].specifier)
    requires !Overlapping(Tokens(source))
    ensures var linked := Imports(Tokens(RewrittenText(source, Imports(Tokens(source)), targets)));
            |linked| == |targets| && forall i | 0 <= i < |targets| :: linked[i].specifier == targets[i]
  {
    var ts := Tokens(source);
    var imports := Imports(ts);
    var us, edits := Tokens(RewrittenText(source, imports, targets)), EditsOf(imports, targets);
    forall i | 0 <= i < |imports| ensures IsToken(ts, imports[i]) {
      ImportsAreTokens(ts, i);
    }
    DistinctExactly(source);
    RewriteKeepsTokens(source, imports, targets);
    LinkedEditsFit(source, ts, targets, edits);
    RelinkedSameSyntax(ts, us, edits);
    SpecifiersSame(ts, us, |ts|);
    forall i | 0 <= i < |targets| ensures Imports(us)[i].specifier == targets[i] {
      var k := Specifiers(ts, |ts|)[i];
      assert StringToken(ts, k) && Relinked(ts[k], us[k], edits);
      EditsAt(imports, targets, i);
      DecodeEscape(targets[i]);
    }
  }
}
