/** Texts that are no modules, whose one specifier the scan reports twice, and what linking makes of them. */
module MalformedModules {
  import opened Wrappers
  import opened ModuleLexer
  import opened JsonQuote
  import opened ModuleRewrite
  import opened ModuleScan
  import opened ScanRepeats
  import opened SpelledText
  import TextSplice

  // A sign followed by `from "x"`, which ends both texts below.
  function FromPieces(first: Piece, x: Text): seq<Piece> {
    [first] + ([Plain("from")] + [Literal(x)])
  }

  function FromShapes(first: Shape, x: Text): seq<Shape> {
    [first, Shape(Identifier, Units("from"), 0), Shape(String, Decode(Escape(x)), 0)]
  }

  lemma FromRead(sign: char, depth: nat, x: Text)
    requires DepthAfter(Mark(1, sign as int), depth) == 0
    ensures Shapes(FromPieces(Sign(sign), x), depth) == FromShapes(PieceShape(Sign(sign), depth)[0], x)
  {
    assert [Literal(x)] == [Literal(x)] + [];
    ShapesCons(Literal(x), [], 0, 0, []);
    ShapesCons(Plain("from"), [Literal(x)], 0, 0, PieceShape(Literal(x), 0));
    ShapesCons(Sign(sign), [Plain("from")] + [Literal(x)], depth, 0,
        PieceShape(Plain("from"), 0) + PieceShape(Literal(x), 0));
  }

  // `import export * from "x"`.
  function DoubledPieces(x: Text): seq<Piece> {
    [Plain("import")] + ([Plain("export")] + FromPieces(Sign('*'), x))
  }

  function DoubledShapes(x: Text): seq<Shape> {
    [Shape(Identifier, Units("import"), 0), Shape(Identifier, Units("export"), 0)]
    + FromShapes(Shape(Punctuation, ['*' as int], 0), x)
  }

  lemma DoubledRead(x: Text)
    ensures Shapes(DoubledPieces(x), 0) == DoubledShapes(x)
  {
    FromRead('*', 0, x);
    var shapes := FromShapes(PieceShape(Sign('*'), 0)[0], x);
    ShapesCons(Plain("export"), FromPieces(Sign('*'), x), 0, 0, shapes);
    ShapesCons(Plain("import"), [Plain("export")] + FromPieces(Sign('*'), x), 0, 0,
        PieceShape(Plain("export"), 0) + shapes);
  }

  lemma DoubledTokens(ts: seq<Token>, x: Text)
    requires ShapesOf(ts) == DoubledShapes(x)
    ensures Doubled(ts, 0, 4)
  {
    assert |ts| == |ShapesOf(ts)| == 5;
    assert forall i | 0 <= i < 5 :: ShapeOf(ts[i]) == DoubledShapes(x)[i];
    assert WordAt(ts, 0, "import") && WordAt(ts, 1, "export") && At(ts, 2, "*") && FromAt(ts, 3);
    WordsDiffer(ts[1].value);
    WordsDiffer(ts[2].value);
  }

  // The text `import export * from "x"` yields its one specifier twice.
  lemma DoubledRepeats(x: Text)
    ensures !DistinctSpans(Imports(Tokens(AllSpelled(Gapped(DoubledPieces(x))))))
  {
    GappedTokens(DoubledPieces(x));
    DoubledRead(x);
    DoubledTokens(Tokens(AllSpelled(Gapped(DoubledPieces(x)))), x);
    DistinctExactly(AllSpelled(Gapped(DoubledPieces(x))));
  }

  // `export { ) export { } from "x"`: the wrong bracket ends the list's depth but not the search.
  function ListPieces(x: Text): seq<Piece> {
    [Plain("export")] + ([Sign('{')] + FromPieces(Sign('}'), x))
  }

  function EnclosedPieces(x: Text): seq<Piece> {
    [Plain("export")] + ([Sign('{')] + ([Sign(')')] + ListPieces(x)))
  }

  function ListShapes(x: Text): seq<Shape> {
    [Shape(Identifier, Units("export"), 0), Shape(Punctuation, ['{' as int], 0)]
    + FromShapes(Shape(Punctuation, ['}' as int], 0), x)
  }

  function EnclosedShapes(x: Text): seq<Shape> {
    [Shape(Identifier, Units("export"), 0), Shape(Punctuation, ['{' as int], 0),
        Shape(Punctuation, [')' as int], 0)] + ListShapes(x)
  }

  lemma ListRead(x: Text)
    ensures Shapes(ListPieces(x), 0) == ListShapes(x)
  {
    FromRead('}', 1, x);
    var shapes := FromShapes(PieceShape(Sign('}'), 1)[0], x);
    ShapesCons(Sign('{'), FromPieces(Sign('}'), x), 0, 1, shapes);
    ShapesCons(Plain("export"), [Sign('{')] + FromPieces(Sign('}'), x), 0, 0, PieceShape(Sign('{'), 0) + shapes);
  }

  lemma EnclosedRead(list: seq<Piece>, shapes: seq<Shape>)
    requires Shapes(list, 0) == shapes
    ensures Shapes([Plain("export")] + ([Sign('{')] + ([Sign(')')] + list)), 0)
         == [Shape(Identifier, Units("export"), 0), Shape(Punctuation, ['{' as int], 0),
             Shape(Punctuation, [')' as int], 0)] + shapes
  {
    ShapesCons(Sign(')'), list, 1, 0, shapes);
    ShapesCons(Sign('{'), [Sign(')')] + list, 0, 1, PieceShape(Sign(')'), 1) + shapes);
    ShapesCons(Plain("export"), [Sign('{')] + ([Sign(')')] + list), 0, 0,
        PieceShape(Sign('{'), 0) + (PieceShape(Sign(')'), 1) + shapes));
  }

  lemma EnclosedTokens(ts: seq<Token>, x: Text)
    requires ShapesOf(ts) == EnclosedShapes(x)
    ensures Enclosed(ts, 0, 3, 7)
  {
    assert |ts| == |ShapesOf(ts)| == 8;
    assert forall i | 0 <= i < 8 :: ShapeOf(ts[i]) == EnclosedShapes(x)[i];
    assert WordAt(ts, 0, "export") && At(ts, 1, "{") && WordAt(ts, 3, "export") && At(ts, 4, "{");
    assert CloseAt(ts, 5) && At(ts, 6, "from") && StringToken(ts, 7);
    assert ts[2].value[0] == ')' as int;
    WordsDiffer(ts[3].value);
    WordsDiffer(ts[4].value);
  }

  lemma EnclosedProper(x: Text)
    ensures forall i | 0 <= i < |EnclosedPieces(x)| :: Proper(EnclosedPieces(x)[i])
  {
  }

  lemma EnclosedText(x: Text, source: Text)
    requires source == AllSpelled(Gapped(EnclosedPieces(x)))
    ensures ShapesOf(Tokens(source)) == EnclosedShapes(x)
  {
    EnclosedProper(x);
    GappedTokens(EnclosedPieces(x));
    ListRead(x);
    EnclosedRead(ListPieces(x), ListShapes(x));
  }

  lemma EnclosedOverlaps(x: Text, source: Text)
    requires ShapesOf(Tokens(source)) == EnclosedShapes(x)
    ensures !DistinctSpans(Imports(Tokens(source)))
  {
    EnclosedTokens(Tokens(source), x);
    DistinctExactly(source);
  }

  lemma EnclosedRepeats(x: Text)
    ensures !DistinctSpans(Imports(Tokens(AllSpelled(Gapped(EnclosedPieces(x))))))
  {
    EnclosedText(x, AllSpelled(Gapped(EnclosedPieces(x))));
    EnclosedOverlaps(x, AllSpelled(Gapped(EnclosedPieces(x))));
  }

  // Splicing one span twice leaves the tail of the first literal behind the second.
  lemma RepeatGarbles(source: Text, item: StaticImport, target: Text)
    requires item.start < item.end <= |source| && item.end - item.start <= |Quote(target)|
    ensures RewrittenText(source, [item, item], [target, target]) ==
            source[..item.start] + Quote(target) + Quote(target)[item.end - item.start..] + source[item.end..]
  {
    var r := TextSplice.Replacement(item.start, item.end, Quote(target));
    assert Replacing([item, item], [target, target]) == [r, r];
    assert Sorted([r]) == [r] by {
      assert [r][1..] == [];
    }
    assert Sorted([r, r]) == [r, r] by {
      assert [r, r][1..] == [r];
    }
    var once := TextSplice.Splice(source, r);
    assert once == source[..item.start] + Quote(target) + source[item.end..];
    assert once[..item.start] == source[..item.start];
    assert once[item.end..] == Quote(target)[item.end - item.start..] + source[item.end..];
    assert [r, r][1..] == [r] && [r][1..] == [];
    assert TextSplice.SpliceAll(source, [r, r]) == TextSplice.SpliceAll(once, [r]) == TextSplice.Splice(once, r);
  }
}
