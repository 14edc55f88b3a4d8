/** Module text spelled out lexeme by lexeme, and the tokens it is read as. */
module SpelledText {
  import opened ModuleLexer
  import opened JsonQuote
  import opened ModuleScan

  // One lexeme; `Gap` is what separates two of them.
  datatype Piece = Plain(word: string) | Sign(sign: char) | Literal(value: Text) | Gap(space: char)

  function Units(word: string): (r: Text)
    ensures |r| == |word| && forall i | 0 <= i < |word| :: r[i] == word[i] as int
  {
    seq(|word|, (i: nat) requires i < |word| => word[i] as int)
  }

  predicate Proper(p: Piece) {
    match p
    case Plain(w) => w != "" && forall i | 0 <= i < |w| :: Letter(w[i] as int)
    case Sign(c) => c == '*' || c == '{' || c == '}' || c == ')' || c == ';'
    case Literal(_) => true
    case Gap(c) => c == ' ' || c == '\n'
  }

  // Every piece is proper, and a word is followed by a gap.
  predicate WellSpaced(ps: seq<Piece>) {
    && (forall i | 0 <= i < |ps| :: Proper(ps[i]))
    && (forall i | 0 <= i < |ps| && ps[i].Plain? :: i + 1 < |ps| && ps[i + 1].Gap?)
  }

  function Spelled(p: Piece): Text {
    match p
    case Plain(w) => Units(w)
    case Sign(c) => [c as int]
    case Literal(t) => Quote(t)
    case Gap(c) => [c as int]
  }

  function LexemeOf(p: Piece): Lexeme {
    match p
    case Plain(w) => Word(|w|, Units(w))
    case Sign(c) => Mark(1, c as int)
    case Literal(t) => Quoted(|Quote(t)|, Escape(t))
    case Gap(_) => Blank(1)
  }

  function AllSpelled(ps: seq<Piece>): Text {
    if ps == [] then [] else Spelled(ps[0]) + AllSpelled(ps[1..])
  }

  function LexemesOf(ps: seq<Piece>): seq<Lexeme> {
    if ps == [] then [] else [LexemeOf(ps[0])] + LexemesOf(ps[1..])
  }

  lemma {:induction false} WordEnds(w: Text, rest: Text)
    requires (forall i | 0 <= i < |w| :: WordUnit(w[i])) && rest != [] && !WordUnit(rest[0])
    ensures WordLen(w + rest) == |w|
  {
    if w == [] {
      assert w + rest == rest;
    } else {
      WordEnds(w[1..], rest);
      assert (w + rest)[1..] == w[1..] + rest;
    }
  }

  lemma PieceHead(p: Piece, rest: Text)
    requires Proper(p) && (p.Plain? ==> rest != [] && Space(rest[0]))
    ensures Spelled(p) != [] && Head(Spelled(p) + rest) == LexemeOf(p) && LexemeOf(p).len == |Spelled(p)|
  {
    match p
    case Plain(w) =>
      WordEnds(Units(w), rest);
      assert (Units(w) + rest)[..|w|] == Units(w) && (Units(w) + rest)[0] == w[0] as int;
    case Sign(c) =>
    case Literal(t) => HeadOfQuote(t, rest);
    case Gap(_) =>
  }

  lemma LexFirst(s: Text, first: Text, after: Text, l: Lexeme)
    requires s == first + after && s != [] && Head(s) == l && l.len == |first|
    ensures Lexemes(s) == [l] + Lexemes(after)
  {
    assert s[l.len..] == after;
  }

  lemma GapFirst(ps: seq<Piece>)
    requires ps != [] && ps[0].Gap? && Proper(ps[0])
    ensures AllSpelled(ps) != [] && Space(AllSpelled(ps)[0])
  {
  }

  lemma {:induction false} SpelledLexemes(ps: seq<Piece>)
    requires WellSpaced(ps)
    ensures Lexemes(AllSpelled(ps)) == LexemesOf(ps)
  {
    if ps != [] {
      SpelledLexemes(ps[1..]);
      if ps[0].Plain? {
        GapFirst(ps[1..]);
      }
      PieceHead(ps[0], AllSpelled(ps[1..]));
      LexFirst(AllSpelled(ps), Spelled(ps[0]), AllSpelled(ps[1..]), LexemeOf(ps[0]));
    }
  }

  // ---------------------------------------------------------------------
  // Tokens
  // ---------------------------------------------------------------------

  // What the scanner sees of a token.
  datatype Shape = Shape(kind: Kind, value: Text, depth: nat)

  function ShapeOf(t: Token): Shape {
    Shape(t.kind, t.value, t.depth)
  }

  function ShapesOf(ts: seq<Token>): (r: seq<Shape>)
    ensures |r| == |ts| && forall i | 0 <= i < |ts| :: r[i] == ShapeOf(ts[i])
  {
    seq(|ts|, (i: nat) requires i < |ts| => ShapeOf(ts[i]))
  }

  // What a piece at `depth` contributes.
  function PieceShape(p: Piece, depth: nat): seq<Shape> {
    match p
    case Plain(w) => [Shape(Identifier, Units(w), depth)]
    case Sign(c) => [Shape(Punctuation, [c as int], Closed(c as int, depth))]
    case Literal(t) => [Shape(String, Decode(Escape(t)), depth)]
    case Gap(_) => []
  }

  function Shapes(ps: seq<Piece>, depth: nat): seq<Shape> {
    if ps == [] then [] else PieceShape(ps[0], depth) + Shapes(ps[1..], DepthAfter(LexemeOf(ps[0]), depth))
  }

  const SPACE := Gap(' ')

  // Pieces with a gap after each.
  function Gapped(ps: seq<Piece>): seq<Piece> {
    if ps == [] then [] else [ps[0], SPACE] + Gapped(ps[1..])
  }

  lemma {:induction false} GappedSpaced(ps: seq<Piece>)
    requires forall i | 0 <= i < |ps| :: Proper(ps[i])
    ensures WellSpaced(Gapped(ps))
  {
    if ps != [] {
      GappedSpaced(ps[1..]);
    }
  }

  // Shapes need no gaps.
  lemma {:induction false} GappedShapes(ps: seq<Piece>, depth: nat)
    ensures Shapes(Gapped(ps), depth) == Shapes(ps, depth)
  {
    if ps != [] {
      var depth' := DepthAfter(LexemeOf(ps[0]), depth);
      GappedShapes(ps[1..], depth');
      var after := [SPACE] + Gapped(ps[1..]);
      assert Gapped(ps)[1..] == after && after[1..] == Gapped(ps[1..]);
      assert Shapes(after, depth') == [] + Shapes(Gapped(ps[1..]), depth');
    }
  }

  lemma ShapesCons(p: Piece, rest: seq<Piece>, depth: nat, depth': nat, shapes: seq<Shape>)
    requires depth' == DepthAfter(LexemeOf(p), depth) && Shapes(rest, depth') == shapes
    ensures Shapes([p] + rest, depth) == PieceShape(p, depth) + shapes
  {
    assert ([p] + rest)[1..] == rest;
  }

  lemma ShapesConcat(a: seq<Token>, b: seq<Token>)
    ensures ShapesOf(a + b) == ShapesOf(a) + ShapesOf(b)
  {
  }

  lemma {:induction false} LexemesShapes(ps: seq<Piece>, base: nat, depth: nat)
    ensures ShapesOf(TokensOf(LexemesOf(ps), base, depth)) == Shapes(ps, depth)
  {
    if ps != [] {
      var l := LexemeOf(ps[0]);
      LexemesShapes(ps[1..], base + l.len, DepthAfter(l, depth));
      assert LexemesOf(ps)[1..] == LexemesOf(ps[1..]);
      ShapesConcat(Emitted(l, base, depth), TokensOf(LexemesOf(ps[1..]), base + l.len, DepthAfter(l, depth)));
    }
  }

  // The tokens of the spelled text have the shapes of its pieces.
  lemma SpelledTokens(ps: seq<Piece>)
    requires WellSpaced(ps)
    ensures ShapesOf(Tokens(AllSpelled(ps))) == Shapes(ps, 0)
  {
    SpelledLexemes(ps);
    LexemesShapes(ps, 0, 0);
  }

  lemma GappedTokens(ps: seq<Piece>)
    requires forall i | 0 <= i < |ps| :: Proper(ps[i])
    ensures ShapesOf(Tokens(AllSpelled(Gapped(ps)))) == Shapes(ps, 0)
  {
    GappedSpaced(ps);
    SpelledTokens(Gapped(ps));
    GappedShapes(ps, 0);
  }
}
