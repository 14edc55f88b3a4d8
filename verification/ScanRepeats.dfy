/**
 When the scan reports one specifier twice: the searches that start at two keywords
 end at the same string, described by the tokens between them.
 */
module ScanRepeats {
  import opened Wrappers
  import opened ModuleLexer
  import opened ModuleRewrite
  import opened ModuleScan

  // ---------------------------------------------------------------------
  // The searches, described
  // ---------------------------------------------------------------------

  predicate WordAt(ts: seq<Token>, i: nat, word: string) {
    At(ts, i, word) && ts[i].kind.Identifier?
  }

  predicate FromAt(ts: seq<Token>, m: nat) {
    WordAt(ts, m, "from") && StringToken(ts, m + 1)
  }

  predicate CloseAt(ts: seq<Token>, m: nat) {
    At(ts, m, "}") && ts[m].depth == 0
  }

  // Token `k` follows the first `from "..."` at or after `a`, and no clause ends before it.
  predicate ReachesFrom(ts: seq<Token>, a: nat, k: nat) {
    && a < k < |ts| && FromAt(ts, k - 1)
    && forall m | a <= m < k - 1 :: !EndsClause(ts[m]) && !FromAt(ts, m)
  }

  // Token `k` follows the first outermost `}` at or after `a`, with `from` in between.
  predicate ReachesBrace(ts: seq<Token>, a: nat, k: nat) {
    && a + 2 <= k < |ts| && CloseAt(ts, k - 2) && At(ts, k - 1, "from") && StringToken(ts, k)
    && forall m | a <= m < k - 2 :: !CloseAt(ts, m)
  }

  const STATEMENTS := ["import", "export", "const", "let", "var", "function", "class"]

  // The words that end a clause.
  lemma StatementWords(value: Text)
    ensures Statement(value) <==> exists i | 0 <= i < |STATEMENTS| :: Is(value, STATEMENTS[i])
  {
    assert Is(value, "import") ==> Is(value, STATEMENTS[0]);
    assert Is(value, "export") ==> Is(value, STATEMENTS[1]);
    assert Is(value, "const") ==> Is(value, STATEMENTS[2]);
    assert Is(value, "let") ==> Is(value, STATEMENTS[3]);
    assert Is(value, "var") ==> Is(value, STATEMENTS[4]);
    assert Is(value, "function") ==> Is(value, STATEMENTS[5]);
    assert Is(value, "class") ==> Is(value, STATEMENTS[6]);
  }

  lemma WordsDiffer(value: Text)
    ensures Is(value, "from") ==> !Statement(value) && !Is(value, ";") && !Is(value, "(") && !Is(value, "}")
    ensures Is(value, "import")
            ==> !Is(value, "export") && !Is(value, "from") && !Is(value, "}") && !Is(value, ".") && !Is(value, "(")
    ensures Is(value, "import") || Is(value, "export") ==> Statement(value) && !Is(value, "{") && !Is(value, "*")
    ensures Is(value, "export") ==> !Is(value, "from") && !Is(value, "}") && !Is(value, ".") && !Is(value, "(")
    ensures Is(value, "{") ==> !Is(value, "}") && !Is(value, "*") && !Statement(value)
    ensures Is(value, "*") ==> !Is(value, ";") && !Is(value, "from") && !Statement(value)
  {
    if value != [] {
      var first := value[0];
    }
  }

  lemma {:induction false} FindFromMeans(ts: seq<Token>, a: nat, k: nat)
    ensures FindFrom(ts, a) == Some(k) <==> ReachesFrom(ts, a, k)
    decreases |ts| - a
  {
    if a < |ts| {
      FindFromMeans(ts, a + 1, k);
      WordsDiffer(ts[a].value);
      if FromAt(ts, a) {
        assert ReachesFrom(ts, a, k) ==> k == a + 1;
      } else if !EndsClause(ts[a]) {
        assert ReachesFrom(ts, a, k) <==> ReachesFrom(ts, a + 1, k);
      }
    }
  }

  lemma {:induction false} FindAfterBraceMeans(ts: seq<Token>, a: nat, k: nat)
    ensures FindAfterBrace(ts, a) == Some(k) <==> ReachesBrace(ts, a, k)
    decreases |ts| - a
  {
    if a < |ts| {
      FindAfterBraceMeans(ts, a + 1, k);
      if !CloseAt(ts, a) {
        assert ReachesBrace(ts, a, k) <==> ReachesBrace(ts, a + 1, k);
      }
    }
  }

  // ---------------------------------------------------------------------
  // The clauses, described
  // ---------------------------------------------------------------------

  // `import` with a clause that is searched for `from`.
  predicate ImportClauseAt(ts: seq<Token>, i: nat) {
    && WordAt(ts, i, "import") && ts[i].depth == 0 && i + 1 < |ts|
    && !At(ts, i + 1, ".") && !At(ts, i + 1, "(") && !StringToken(ts, i + 1)
  }

  predicate ExportAt(ts: seq<Token>, i: nat, next: string) {
    WordAt(ts, i, "export") && ts[i].depth == 0 && At(ts, i + 1, next)
  }

  predicate SearchesFrom(ts: seq<Token>, i: nat) {
    ImportClauseAt(ts, i) || ExportAt(ts, i, "*")
  }

  // `import "x"` outermost, or `import("x")` anywhere.
  predicate Direct(ts: seq<Token>, i: nat, k: nat) {
    && WordAt(ts, i, "import") && StringToken(ts, k)
    && ((k == i + 1 && ts[i].depth == 0 && !At(ts, k, ".") && !At(ts, k, "(")) || (k == i + 2 && At(ts, i + 1, "(")))
  }

  // The clause that starts at keyword `i` has its specifier at `k`.
  predicate Clause(ts: seq<Token>, i: nat, k: nat) {
    || Direct(ts, i, k)
    || (SearchesFrom(ts, i) && ReachesFrom(ts, i + 2, k))
    || (ExportAt(ts, i, "{") && ReachesBrace(ts, i + 2, k))
  }

  // What a keyword contributes is the specifier of its clause.
  lemma SpecifierMeans(ts: seq<Token>, i: nat, k: nat)
    requires i < |ts|
    ensures SpecifierAt(ts, i) == Some(k) <==> Clause(ts, i, k)
  {
    FindFromMeans(ts, i + 2, k);
    FindAfterBraceMeans(ts, i + 2, k);
    WordsDiffer(ts[i].value);
    if i + 1 < |ts| {
      WordsDiffer(ts[i + 1].value);
    }
  }

  // ---------------------------------------------------------------------
  // When two clauses find the same specifier
  // ---------------------------------------------------------------------

  // `import` directly before another clause, which its own search does not notice.
  predicate Doubled(ts: seq<Token>, i: nat, k: nat) {
    && ImportClauseAt(ts, i) && ReachesFrom(ts, i + 2, k)
    && ((SearchesFrom(ts, i + 1) && k > i + 3) || (ExportAt(ts, i + 1, "{") && ReachesBrace(ts, i + 3, k)))
  }

  // An export list with an outermost clause before its closing brace.
  predicate Enclosed(ts: seq<Token>, i: nat, j: nat, k: nat) {
    && ExportAt(ts, i, "{") && ReachesBrace(ts, i + 2, k) && i + 2 <= j < k - 2
    && (ExportAt(ts, j, "{") || (SearchesFrom(ts, j) && ReachesFrom(ts, j + 2, k)))
  }

  ghost predicate Overlapping(ts: seq<Token>) {
    || (exists i: nat, k: nat :: Doubled(ts, i, k))
    || (exists i: nat, j: nat, k: nat :: Enclosed(ts, i, j, k))
  }

  // The two keywords at `i` and `j` contribute the same specifier.
  predicate Shared(ts: seq<Token>, i: nat, j: nat, k: nat) {
    i < j < |ts| && SpecifierAt(ts, i) == Some(k) && SpecifierAt(ts, j) == Some(k)
  }

  ghost predicate SomeShared(ts: seq<Token>) {
    exists i: nat, j: nat, k: nat :: Shared(ts, i, j, k)
  }

  lemma DoubledShares(ts: seq<Token>, i: nat, k: nat)
    requires Doubled(ts, i, k)
    ensures Shared(ts, i, i + 1, k)
  {
    SpecifierMeans(ts, i, k);
    SpecifierMeans(ts, i + 1, k);
    assert k > i + 3 ==> ReachesFrom(ts, i + 3, k);
  }

  lemma EnclosedShares(ts: seq<Token>, i: nat, j: nat, k: nat)
    requires Enclosed(ts, i, j, k)
    ensures Shared(ts, i, j, k)
  {
    SpecifierMeans(ts, i, k);
    SpecifierMeans(ts, j, k);
    if ExportAt(ts, j, "{") {
      WordsDiffer(ts[j + 1].value);
      assert ReachesBrace(ts, j + 2, k);
    }
  }

  // What stands before a specifier found by a search is `from`, hence neither a keyword nor a parenthesis.
  lemma NotDirect(ts: seq<Token>, i: nat, k: nat)
    requires 0 < k && At(ts, k - 1, "from")
    ensures !Direct(ts, i, k)
  {
    WordsDiffer(ts[k - 1].value);
  }

  lemma DirectAlone(ts: seq<Token>, i: nat, j: nat, k: nat)
    requires Shared(ts, i, j, k)
    ensures !Direct(ts, i, k)
  {
    SpecifierMeans(ts, j, k);
    if Direct(ts, i, k) && k == i + 2 {
      WordsDiffer(ts[j].value);
    }
  }

  lemma SharedFromSearch(ts: seq<Token>, i: nat, j: nat, k: nat)
    requires Shared(ts, i, j, k) && SearchesFrom(ts, i) && ReachesFrom(ts, i + 2, k)
    ensures Doubled(ts, i, k)
  {
    SpecifierMeans(ts, j, k);
    NotDirect(ts, j, k);
    WordsDiffer(ts[j].value);
    assert Statement(ts[j].value) && ts[j].depth == 0;
    assert j != k - 1;
    assert EndsClause(ts[j]);
    assert j == i + 1;
    WordsDiffer(ts[i + 1].value);
  }

  lemma SharedFromList(ts: seq<Token>, i: nat, j: nat, k: nat)
    requires Shared(ts, i, j, k) && ExportAt(ts, i, "{") && ReachesBrace(ts, i + 2, k)
    ensures Enclosed(ts, i, j, k)
  {
    SpecifierMeans(ts, j, k);
    NotDirect(ts, j, k);
    WordsDiffer(ts[j].value);
    WordsDiffer(ts[i + 1].value);
    assert At(ts, i + 1, "{") ==> j != i + 1;
  }

  // Two keywords share a specifier exactly when their clauses overlap.
  lemma SharedExactly(ts: seq<Token>)
    ensures SomeShared(ts) <==> Overlapping(ts)
  {
    if i: nat, j: nat, k: nat :| Shared(ts, i, j, k) {
      SpecifierMeans(ts, i, k);
      DirectAlone(ts, i, j, k);
      if SearchesFrom(ts, i) && ReachesFrom(ts, i + 2, k) {
        SharedFromSearch(ts, i, j, k);
      } else {
        SharedFromList(ts, i, j, k);
      }
    }
    if i: nat, k: nat :| Doubled(ts, i, k) {
      DoubledShares(ts, i, k);
    }
    if i: nat, j: nat, k: nat :| Enclosed(ts, i, j, k) {
      EnclosedShares(ts, i, j, k);
    }
  }

  // ---------------------------------------------------------------------
  // From keywords to the list of imports
  // ---------------------------------------------------------------------

  // The keywords among the first `n` tokens that contribute a specifier, in order.
  function Keywords(ts: seq<Token>, n: nat): (r: seq<nat>)
    requires n <= |ts|
    ensures |r| == |Specifiers(ts, n)|
    ensures forall p | 0 <= p < |r| :: r[p] < n && SpecifierAt(ts, r[p]) == Some(Specifiers(ts, n)[p])
    ensures forall p, q | 0 <= p < q < |r| :: r[p] < r[q]
    ensures forall i | 0 <= i < n && SpecifierAt(ts, i).Some? :: i in r
  {
    if n == 0 then [] else Keywords(ts, n - 1) + if SpecifierAt(ts, n - 1).Some? then [n - 1] else []
  }

  // The imports are exactly the specifiers of the clauses, in the order of their keywords.
  lemma ImportsExactly(ts: seq<Token>) returns (keys: seq<nat>, found: seq<nat>)
    ensures |keys| == |found| == |Imports(ts)| && forall p, q | 0 <= p < q < |keys| :: keys[p] < keys[q]
    ensures forall p | 0 <= p < |keys| ::
              && Clause(ts, keys[p], found[p]) && found[p] < |ts|
              && Imports(ts)[p] == StaticImport(ts[found[p]].value, ts[found[p]].start, ts[found[p]].end)
    ensures forall i: nat, k: nat | Clause(ts, i, k) :: exists p :: 0 <= p < |keys| && keys[p] == i && found[p] == k
  {
    keys, found := Keywords(ts, |ts|), Specifiers(ts, |ts|);
    forall p | 0 <= p < |keys| ensures Clause(ts, keys[p], found[p]) && found[p] < |ts| {
      SpecifierMeans(ts, keys[p], found[p]);
      assert StringToken(ts, found[p]);
    }
    forall i: nat, k: nat | Clause(ts, i, k) ensures exists p :: 0 <= p < |keys| && keys[p] == i && found[p] == k {
      SpecifierMeans(ts, i, k);
      assert i in keys;
      var p :| 0 <= p < |keys| && keys[p] == i;
    }
  }

  ghost predicate Repeating(ks: seq<nat>) {
    exists p, q :: 0 <= p < q < |ks| && ks[p] == ks[q]
  }

  lemma RepeatIsShared(ts: seq<Token>, ks: seq<nat>)
    requires ks == Specifiers(ts, |ts|) && Repeating(ks)
    ensures SomeShared(ts)
  {
    var p, q :| 0 <= p < q < |ks| && ks[p] == ks[q];
    var keys := Keywords(ts, |ts|);
    assert Shared(ts, keys[p], keys[q], ks[p]);
  }

  lemma KeywordListed(ts: seq<Token>, i: nat, k: nat) returns (p: nat)
    requires i < |ts| && SpecifierAt(ts, i) == Some(k)
    ensures p < |Specifiers(ts, |ts|)| && Specifiers(ts, |ts|)[p] == k && Keywords(ts, |ts|)[p] == i
  {
    var keys := Keywords(ts, |ts|);
    assert i in keys;
    p :| 0 <= p < |keys| && keys[p] == i;
  }

  lemma SharedIsRepeat(ts: seq<Token>, ks: seq<nat>, i: nat, j: nat, k: nat)
    requires ks == Specifiers(ts, |ts|) && Shared(ts, i, j, k)
    ensures Repeating(ks)
  {
    var p := KeywordListed(ts, i, k);
    var q := KeywordListed(ts, j, k);
    assert ks[p] == ks[q] && p != q;
  }

  // One specifier is listed twice exactly when two keywords share it.
  lemma RepeatsExactly(ts: seq<Token>, ks: seq<nat>)
    requires ks == Specifiers(ts, |ts|)
    ensures Repeating(ks) <==> SomeShared(ts)
  {
    if Repeating(ks) {
      RepeatIsShared(ts, ks);
    }
    if SomeShared(ts) {
      var i: nat, j: nat, k: nat :| Shared(ts, i, j, k);
      SharedIsRepeat(ts, ks, i, j, k);
    }
  }

  lemma SpansOfSpecifiers(source: Text, ts: seq<Token>, ks: seq<nat>, imports: seq<StaticImport>)
    requires ts == Tokens(source) && ks == Specifiers(ts, |ts|) && imports == Imports(ts)
    ensures DistinctSpans(imports) <==> !Repeating(ks)
  {
    assert |imports| == |ks|;
    forall p, q | 0 <= p < q < |ks| ensures imports[p].start == imports[q].start <==> ks[p] == ks[q] {
      assert StringToken(ts, ks[p]) && StringToken(ts, ks[q]);
      if imports[p].start == imports[q].start {
        SameStart(source, ks[p], ks[q]);
      }
    }
  }

  // The imports of a source have distinct spans exactly when no two of its clauses overlap.
  lemma DistinctExactly(source: Text)
    ensures DistinctSpans(Imports(Tokens(source))) <==> !Overlapping(Tokens(source))
  {
    var ts := Tokens(source);
    var ks := Specifiers(ts, |ts|);
    SpansOfSpecifiers(source, ts, ks, Imports(ts));
    RepeatsExactly(ts, ks);
    SharedExactly(ts);
  }

  // A simple condition that is enough: `import` is never directly followed by `import` or `export`,
  // and no such keyword stands outermost in an export list before its closing brace.
  ghost predicate ClausesApart(ts: seq<Token>) {
    && (forall i: nat | i < |ts| && WordAt(ts, i, "import") ::
        !WordAt(ts, i + 1, "import") && !WordAt(ts, i + 1, "export"))
    && (forall i: nat, j: nat | ExportAt(ts, i, "{") && i + 2 <= j < |ts|
        && (WordAt(ts, j, "import") || WordAt(ts, j, "export"))
          && ts[j].depth == 0 :: exists m | i + 2 <= m < j :: CloseAt(ts, m))
  }

  lemma ApartIsDistinct(source: Text)
    requires ClausesApart(Tokens(source))
    ensures DistinctSpans(Imports(Tokens(source)))
  {
    DistinctExactly(source);
  }
}
