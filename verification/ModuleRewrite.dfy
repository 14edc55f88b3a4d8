/**
 Replacing import specifiers: string literals are spliced from right to left, and the
 rewritten text reads as the same tokens with the new specifiers in place.
 */
module ModuleRewrite {
  import opened ModuleLexer
  import opened JsonQuote
  import opened LexemeLocality
  import TextSplice

  // ---------------------------------------------------------------------
  // The lexemes of the rewritten text
  // ---------------------------------------------------------------------

  // New specifiers by the offset of the string they replace.
  type Edits = map<nat, Text>

  function Literals(edits: Edits): TextSplice.Texts {
    map k | k in edits :: Quote(edits[k])
  }

  function SpanOf(l: Lexeme): TextSplice.Span {
    TextSplice.Span(l.len, l.Quoted?)
  }

  function Spans(ls: seq<Lexeme>): seq<TextSplice.Span> {
    if ls == [] then [] else [SpanOf(ls[0])] + Spans(ls[1..])
  }

  function EditedLexeme(l: Lexeme, base: nat, edits: Edits): Lexeme {
    if l.Quoted? && base in edits then Quoted(|Quote(edits[base])|, Escape(edits[base])) else l
  }

  function EditedLexemes(ls: seq<Lexeme>, base: nat, edits: Edits): seq<Lexeme> {
    if ls == [] then [] else [EditedLexeme(ls[0], base, edits)] + EditedLexemes(ls[1..], base + ls[0].len, edits)
  }

  // `s` falls into the lexemes `ls`.
  ghost predicate Lexed(ls: seq<Lexeme>, s: Text)
    decreases |ls|
  {
    if ls == [] then s == [] else s != [] && Head(s) == ls[0] && Lexed(ls[1..], s[ls[0].len..])
  }

  lemma {:induction false} LexemesLexed(s: Text)
    ensures Lexed(Lexemes(s), s)
    decreases |s|
  {
    if s != [] {
      LexemesLexed(s[Head(s).len..]);
      assert Lexemes(s)[1..] == Lexemes(s[Head(s).len..]);
    }
  }

  lemma {:induction false} LexedIsLexemes(ls: seq<Lexeme>, s: Text)
    requires Lexed(ls, s)
    ensures ls == Lexemes(s)
    decreases |ls|
  {
    if ls != [] {
      LexedIsLexemes(ls[1..], s[ls[0].len..]);
      assert ls == [ls[0]] + ls[1..];
    }
  }

  lemma {:induction false} LexedCovers(ls: seq<Lexeme>, s: Text)
    requires Lexed(ls, s)
    ensures TextSplice.Covers(Spans(ls), s)
    decreases |ls|
  {
    if ls != [] {
      LexedCovers(ls[1..], s[ls[0].len..]);
      assert Spans(ls)[1..] == Spans(ls[1..]);
    }
  }

  lemma LexedJoin(l: Lexeme, ls: seq<Lexeme>, p: Text, rest: Text)
    requires p != [] && Head(p + rest) == l && l.len == |p| && Lexed(ls, rest)
    ensures Lexed([l] + ls, p + rest)
  {
    assert (p + rest)[|p|..] == rest && ([l] + ls)[1..] == ls;
  }

  lemma QuotedStart(s: Text)
    requires s != [] && Head(s).Quoted?
    ensures Delimiter(s[0])
  {
  }

  lemma KeptHead(s: Text, n: nat, rest: Text)
    requires s != [] && n == Head(s).len && Alike(s[n..], rest)
    ensures Head(s[..n] + rest) == Head(s)
  {
    assert s[..n] + s[n..] == s;
    HeadLocal(s[..n], s[n..], rest);
  }

  // The piece of the rewritten text that stands for its first lexeme.
  function PieceOf(l: Lexeme, s: Text, base: nat, edits: Edits): Text
    requires l.len <= |s|
  {
    TextSplice.Piece(SpanOf(l), s, base, Literals(edits))
  }

  lemma HeadOfPiece(s: Text, base: nat, edits: Edits, rest: Text)
    requires s != [] && Alike(s[Head(s).len..], rest)
    ensures PieceOf(Head(s), s, base, edits) != []
    ensures Head(PieceOf(Head(s), s, base, edits) + rest) == EditedLexeme(Head(s), base, edits)
    ensures |PieceOf(Head(s), s, base, edits)| == EditedLexeme(Head(s), base, edits).len
    ensures Alike(s, PieceOf(Head(s), s, base, edits) + rest)
  {
    if Head(s).Quoted? && base in edits {
      HeadOfQuote(edits[base], rest);
      QuotedStart(s);
    } else {
      KeptHead(s, Head(s).len, rest);
    }
  }

  ghost predicate Rewritten(ls: seq<Lexeme>, s: Text, base: nat, edits: Edits, w: Text) {
    Lexed(EditedLexemes(ls, base, edits), w) && Alike(s, w)
  }

  lemma WeaveStep(ls: seq<Lexeme>, s: Text, base: nat, edits: Edits)
    requires ls != [] && TextSplice.Covers(Spans(ls), s)
    ensures ls[0].len <= |s| && TextSplice.Covers(Spans(ls[1..]), s[ls[0].len..])
    ensures TextSplice.Weave(Spans(ls), s, base, Literals(edits)) ==
            PieceOf(ls[0], s, base, edits) + TextSplice.Weave(Spans(ls[1..]), s[ls[0].len..], base + ls[0].len,
                Literals(edits))
  {
    assert Spans(ls)[1..] == Spans(ls[1..]);
    TextSplice.WeaveCons(Spans(ls), s, base, Literals(edits));
  }

  // The rewritten text falls into the same lexemes, edited.
  lemma {:induction false} LexemesOfWeave(ls: seq<Lexeme>, s: Text, base: nat, edits: Edits)
    requires Lexed(ls, s) && TextSplice.Covers(Spans(ls), s)
    ensures Rewritten(ls, s, base, edits, TextSplice.Weave(Spans(ls), s, base, Literals(edits)))
    decreases |ls|
  {
    if ls != [] {
      var n := ls[0].len;
      WeaveStep(ls, s, base, edits);
      LexemesOfWeave(ls[1..], s[n..], base + n, edits);
      WovenHead(ls, s, base, edits, TextSplice.Weave(Spans(ls[1..]), s[n..], base + n, Literals(edits)));
    }
  }

  lemma EditedCons(ls: seq<Lexeme>, base: nat, edits: Edits)
    requires ls != []
    ensures EditedLexemes(ls, base, edits)
            == [EditedLexeme(ls[0], base, edits)] + EditedLexemes(ls[1..], base + ls[0].len, edits)
  {
  }

  lemma WovenHead(ls: seq<Lexeme>, s: Text, base: nat, edits: Edits, rest: Text)
    requires s != [] && ls != [] && ls[0] == Head(s)
    requires Rewritten(ls[1..], s[ls[0].len..], base + ls[0].len, edits, rest)
    ensures Rewritten(ls, s, base, edits, PieceOf(ls[0], s, base, edits) + rest)
  {
    HeadOfPiece(s, base, edits, rest);
    EditedCons(ls, base, edits);
    LexedJoin(EditedLexeme(ls[0], base, edits), EditedLexemes(ls[1..], base + ls[0].len, edits),
        PieceOf(ls[0], s, base, edits), rest);
  }

  // The text with every edited string replaced and all else kept.
  ghost function Rewoven(s: Text, edits: Edits): Text {
    LexemesLexed(s);
    LexedCovers(Lexemes(s), s);
    TextSplice.Weave(Spans(Lexemes(s)), s, 0, Literals(edits))
  }

  lemma LexemesOfRewoven(s: Text, edits: Edits)
    ensures Lexemes(Rewoven(s, edits)) == EditedLexemes(Lexemes(s), 0, edits)
  {
    LexemesLexed(s);
    LexedCovers(Lexemes(s), s);
    LexemesOfWeave(Lexemes(s), s, 0, edits);
    LexedIsLexemes(EditedLexemes(Lexemes(s), 0, edits), Rewoven(s, edits));
  }

  // ---------------------------------------------------------------------
  // The tokens of the rewritten text
  // ---------------------------------------------------------------------

  // A rewritten token keeps its kind and depth; an edited string reads as its new specifier.
  ghost predicate Relinked(t: Token, u: Token, edits: Edits) {
    && u.kind == t.kind && u.depth == t.depth
    && u.value == if t.kind.String? && t.start in edits then Decode(Escape(edits[t.start])) else t.value
  }

  ghost predicate AllRelinked(ts: seq<Token>, us: seq<Token>, edits: Edits) {
    |ts| == |us| && forall i | 0 <= i < |ts| :: Relinked(ts[i], us[i], edits)
  }

  lemma RelinkedJoin(a: seq<Token>, b: seq<Token>, a': seq<Token>, b': seq<Token>, edits: Edits)
    requires AllRelinked(a, a', edits) && AllRelinked(b, b', edits)
    ensures AllRelinked(a + b, a' + b', edits)
  {
  }

  lemma TokensCons(ls: seq<Lexeme>, l: Lexeme, tail: seq<Lexeme>, base: nat, depth: nat)
    requires ls == [l] + tail
    ensures TokensOf(ls, base, depth) == Emitted(l, base, depth) + TokensOf(tail, base + l.len, DepthAfter(l, depth))
  {
    assert ls[1..] == tail;
  }

  lemma EmittedRelinked(l: Lexeme, base: nat, base': nat, depth: nat, edits: Edits)
    ensures AllRelinked(Emitted(l, base, depth), Emitted(EditedLexeme(l, base, edits), base', depth), edits)
    ensures DepthAfter(EditedLexeme(l, base, edits), depth) == DepthAfter(l, depth)
  {
  }

  lemma {:induction false} TokensOfEdited(ls: seq<Lexeme>, base: nat, base': nat, depth: nat, edits: Edits)
    ensures AllRelinked(TokensOf(ls, base, depth), TokensOf(EditedLexemes(ls, base, edits), base', depth), edits)
    decreases |ls|
  {
    if ls != [] {
      var l, l' := ls[0], EditedLexeme(ls[0], base, edits);
      var tail' := EditedLexemes(ls[1..], base + l.len, edits);
      TokensOfEdited(ls[1..], base + l.len, base' + l'.len, DepthAfter(l, depth), edits);
      EmittedRelinked(l, base, base', depth, edits);
      TokensCons(ls, l, ls[1..], base, depth);
      TokensCons(EditedLexemes(ls, base, edits), l', tail', base', depth);
      RelinkedJoin(Emitted(l, base, depth), TokensOf(ls[1..], base + l.len, DepthAfter(l, depth)),
                   Emitted(l', base', depth), TokensOf(tail', base' + l'.len, DepthAfter(l, depth)), edits);
    }
  }

  lemma TokensOfRewoven(s: Text, edits: Edits)
    ensures AllRelinked(Tokens(s), Tokens(Rewoven(s, edits)), edits)
  {
    LexemesOfRewoven(s, edits);
    TokensOfEdited(Lexemes(s), 0, 0, 0, edits);
  }

  // ---------------------------------------------------------------------
  // Rewriting
  // ---------------------------------------------------------------------

  datatype StaticImport = StaticImport(specifier: Text, start: nat, end: nat)

  function Replacing(imports: seq<StaticImport>, targets: seq<Text>): seq<TextSplice.Replacement>
    requires |imports| == |targets|
  {
    seq(|imports|, (i: nat) requires i < |imports| => TextSplice.Replacement(imports[i].start, imports[i].end,
        Quote(targets[i])))
  }

  // A stable sort, furthest start first.
  function Insert(item: TextSplice.Replacement, items: seq<TextSplice.Replacement>): seq<TextSplice.Replacement> {
    if items == [] || item.start >= items[0].start then [item] + items else [items[0]] + Insert(item, items[1..])
  }

  function Sorted(items: seq<TextSplice.Replacement>): seq<TextSplice.Replacement> {
    if items == [] then [] else Insert(items[0], Sorted(items[1..]))
  }

  lemma {:induction false} InsertElements(item: TextSplice.Replacement, items: seq<TextSplice.Replacement>,
      x: TextSplice.Replacement)
    ensures x in Insert(item, items) <==> x == item || x in items
  {
    if items != [] && item.start < items[0].start {
      InsertElements(item, items[1..], x);
      assert items == [items[0]] + items[1..];
    }
  }

  lemma {:induction false} SortedElements(items: seq<TextSplice.Replacement>, x: TextSplice.Replacement)
    ensures x in Sorted(items) <==> x in items
  {
    if items != [] {
      SortedElements(items[1..], x);
      InsertElements(items[0], Sorted(items[1..]), x);
      assert items == [items[0]] + items[1..];
    }
  }

  lemma {:induction false} InsertDescending(item: TextSplice.Replacement, items: seq<TextSplice.Replacement>)
    requires TextSplice.Descending(items) && forall x | x in items :: x.start != item.start
    ensures TextSplice.Descending(Insert(item, items))
  {
    if items != [] && item.start < items[0].start {
      var rest := Insert(item, items[1..]);
      InsertDescending(item, items[1..]);
      forall x | x in rest ensures x.start < items[0].start {
        InsertElements(item, items[1..], x);
      }
      forall i, j | 0 <= i < j < |rest| + 1 ensures ([items[0]] + rest)[i].start > ([items[0]] + rest)[j].start {
        assert rest[j - 1] in rest;
      }
    }
  }

  ghost predicate DistinctStarts(items: seq<TextSplice.Replacement>) {
    forall i, j | 0 <= i < j < |items| :: items[i].start != items[j].start
  }

  lemma {:induction false} SortedDescending(items: seq<TextSplice.Replacement>)
    requires DistinctStarts(items)
    ensures TextSplice.Descending(Sorted(items))
  {
    if items != [] {
      SortedDescending(items[1..]);
      forall x | x in Sorted(items[1..]) ensures x.start != items[0].start {
        SortedElements(items[1..], x);
        var j :| 0 <= j < |items[1..]| && items[1..][j] == x;
        assert x == items[j + 1];
      }
      InsertDescending(items[0], Sorted(items[1..]));
    }
  }

  method RewriteModuleSpecifiers(source: Text, imports: seq<StaticImport>, targets: seq<Text>) returns (result: Text)
    requires |imports| == |targets|
    ensures result == TextSplice.SpliceAll(source, Sorted(Replacing(imports, targets)))
  {
    var replacements := Sorted(Replacing(imports, targets));
    result := source;
    for i := 0 to |replacements|
      invariant TextSplice.SpliceAll(result, replacements[i..]) == TextSplice.SpliceAll(source, replacements)
    {
      assert replacements[i..][1..] == replacements[i + 1..];
      result := TextSplice.Splice(result, replacements[i]);
    }
  }

  // ---------------------------------------------------------------------
  // What the rewritten module reads as
  // ---------------------------------------------------------------------

  ghost predicate DistinctSpans(imports: seq<StaticImport>) {
    forall i, j | 0 <= i < j < |imports| :: imports[i].start != imports[j].start
  }

  // The import is a string token, by its span and its value.
  ghost predicate IsToken(ts: seq<Token>, item: StaticImport) {
    exists k | 0 <= k < |ts| ::
      ts[k].kind.String? && ts[k].start == item.start && ts[k].end == item.end && ts[k].value == item.specifier
  }

  function EditsOf(imports: seq<StaticImport>, targets: seq<Text>): Edits
    requires |imports| == |targets|
  {
    if imports == [] then map[]
    else EditsOf(imports[..|imports| - 1],
        targets[..|imports| - 1])[imports[|imports| - 1].start := targets[|imports| - 1]]
  }

  lemma {:induction false} EditsAt(imports: seq<StaticImport>, targets: seq<Text>, i: nat)
    requires |imports| == |targets| && DistinctSpans(imports) && i < |imports|
    ensures imports[i].start in EditsOf(imports, targets) && EditsOf(imports, targets)[imports[i].start] == targets[i]
  {
    var n := |imports| - 1;
    if i < n {
      EditsAt(imports[..n], targets[..n], i);
    }
  }

  lemma {:induction false} EditsFrom(imports: seq<StaticImport>, targets: seq<Text>, k: nat)
    requires |imports| == |targets| && k in EditsOf(imports, targets)
    ensures exists i | 0 <= i < |imports| :: imports[i].start == k
  {
    var n := |imports| - 1;
    if imports[n].start != k {
      EditsFrom(imports[..n], targets[..n], k);
      var i :| 0 <= i < n && imports[..n][i].start == k;
      assert imports[i].start == k;
    }
  }

  lemma {:induction false} TokensAfter(ls: seq<Lexeme>, base: nat, depth: nat, k: nat)
    requires k < |TokensOf(ls, base, depth)|
    ensures base <= TokensOf(ls, base, depth)[k].start
    decreases |ls|
  {
    var first := Emitted(ls[0], base, depth);
    if k >= |first| {
      TokensAfter(ls[1..], base + ls[0].len, DepthAfter(ls[0], depth), k - |first|);
    }
  }

  // A string token is an open span.
  lemma {:induction false} TokenIsSpan(ls: seq<Lexeme>, s: Text, base: nat, depth: nat, k: nat)
    requires TextSplice.Covers(Spans(ls), s) && k < |TokensOf(ls, base, depth)|
             && TokensOf(ls, base, depth)[k].kind.String?
    ensures TextSplice.SpanAt(Spans(ls), base, TokensOf(ls, base, depth)[k].start, TokensOf(ls, base, depth)[k].end)
    decreases |ls|
  {
    var first := Emitted(ls[0], base, depth);
    assert Spans(ls)[1..] == Spans(ls[1..]);
    if k >= |first| {
      TokensAfter(ls[1..], base + ls[0].len, DepthAfter(ls[0], depth), k - |first|);
      TokenIsSpan(ls[1..], s[ls[0].len..], base + ls[0].len, DepthAfter(ls[0], depth), k - |first|);
    }
  }

  lemma {:induction false} TextsAt(items: seq<TextSplice.Replacement>, i: nat)
    requires TextSplice.Descending(items) && i < |items|
    ensures items[i].start in TextSplice.TextsOf(items) && TextSplice.TextsOf(items)[items[i].start] == items[i].text
  {
    var n := |items| - 1;
    if i < n {
      TextsAt(items[..n], i);
    }
  }

  lemma ReplacingDistinct(imports: seq<StaticImport>, targets: seq<Text>)
    requires |imports| == |targets| && DistinctSpans(imports)
    ensures TextSplice.Descending(Sorted(Replacing(imports, targets)))
  {
    var items := Replacing(imports, targets);
    forall i, j | 0 <= i < j < |items| ensures items[i].start != items[j].start {
      assert imports[i].start != imports[j].start;
    }
    SortedDescending(items);
  }

  lemma SortedText(imports: seq<StaticImport>, targets: seq<Text>, i: nat)
    requires |imports| == |targets| && DistinctSpans(imports) && i < |imports|
    ensures imports[i].start in TextSplice.TextsOf(Sorted(Replacing(imports, targets)))
    ensures TextSplice.TextsOf(Sorted(Replacing(imports, targets)))[imports[i].start] == Quote(targets[i])
  {
    var items := Replacing(imports, targets);
    var sorted := Sorted(items);
    ReplacingDistinct(imports, targets);
    SortedElements(items, items[i]);
    var j :| 0 <= j < |sorted| && sorted[j] == items[i];
    TextsAt(sorted, j);
  }

  lemma SortedKey(imports: seq<StaticImport>, targets: seq<Text>, k: nat) returns (i: nat)
    requires |imports| == |targets| && k in TextSplice.TextsOf(Sorted(Replacing(imports, targets)))
    ensures i < |imports| && imports[i].start == k
  {
    var items := Replacing(imports, targets);
    var sorted := Sorted(items);
    TextSplice.TextsFrom(sorted, k);
    var j :| 0 <= j < |sorted| && sorted[j].start == k;
    SortedElements(items, sorted[j]);
    i :| 0 <= i < |items| && items[i] == sorted[j];
  }

  // The sorted replacements are the edits.
  lemma SortedIsEdits(imports: seq<StaticImport>, targets: seq<Text>)
    requires |imports| == |targets| && DistinctSpans(imports)
    ensures TextSplice.TextsOf(Sorted(Replacing(imports, targets))) == Literals(EditsOf(imports, targets))
  {
    var texts, edits := TextSplice.TextsOf(Sorted(Replacing(imports, targets))), EditsOf(imports, targets);
    forall k | k in edits ensures k in texts && texts[k] == Quote(edits[k]) {
      EditsFrom(imports, targets, k);
      var i :| 0 <= i < |imports| && imports[i].start == k;
      EditsAt(imports, targets, i);
      SortedText(imports, targets, i);
    }
    forall k | k in texts ensures k in edits {
      var i := SortedKey(imports, targets, k);
      EditsAt(imports, targets, i);
    }
  }

  ghost function RewrittenText(source: Text, imports: seq<StaticImport>, targets: seq<Text>): Text
    requires |imports| == |targets|
  {
    TextSplice.SpliceAll(source, Sorted(Replacing(imports, targets)))
  }

  // Splicing distinct string tokens one by one from the right replaces exactly these and no other text.
  lemma RewriteIsRewoven(source: Text, imports: seq<StaticImport>, targets: seq<Text>)
    requires |imports| == |targets| && DistinctSpans(imports)
    requires forall i | 0 <= i < |imports| :: IsToken(Tokens(source), imports[i])
    ensures RewrittenText(source, imports, targets) == Rewoven(source, EditsOf(imports, targets))
  {
    var ls, sorted := Lexemes(source), Sorted(Replacing(imports, targets));
    LexemesLexed(source);
    LexedCovers(ls, source);
    ReplacingDistinct(imports, targets);
    SortedIsEdits(imports, targets);
    forall j | 0 <= j < |sorted| ensures TextSplice.SpanAt(Spans(ls), 0, sorted[j].start, sorted[j].end) {
      SortedElements(Replacing(imports, targets), sorted[j]);
      var i :| 0 <= i < |imports| && Replacing(imports, targets)[i] == sorted[j];
      assert IsToken(Tokens(source), imports[i]);
      var k :| 0 <= k < |Tokens(source)| && Tokens(source)[k].kind.String?
          && Tokens(source)[k].start == imports[i].start && Tokens(source)[k].end == imports[i].end;
      TokenIsSpan(ls, source, 0, 0, k);
    }
    TextSplice.SpliceAllWeaves(Spans(ls), source, sorted, 0);
    assert sorted[..0] == [] && sorted[0..] == sorted;
    TextSplice.WeaveNothing(Spans(ls), source, 0);
  }

  // The rewritten source has the same tokens: each specifier reads as its target's quoted form reads,
  // every other token has its kind, depth and value.
  lemma RewriteKeepsTokens(source: Text, imports: seq<StaticImport>, targets: seq<Text>)
    requires |imports| == |targets| && DistinctSpans(imports)
    requires forall i | 0 <= i < |imports| :: IsToken(Tokens(source), imports[i])
    ensures AllRelinked(Tokens(source), Tokens(RewrittenText(source, imports, targets)), EditsOf(imports, targets))
  {
    RewriteIsRewoven(source, imports, targets);
    TokensOfRewoven(source, EditsOf(imports, targets));
  }
}
