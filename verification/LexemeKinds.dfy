/** What each kind of lexeme is, told from the text it covers. */
module LexemeKinds {
  import opened ModuleLexer

  predicate EndsComment(s: Text, i: nat) {
    i + 1 < |s| && s[i] == STAR && s[i + 1] == SLASH
  }

  lemma {:induction false} LineLenMeans(s: Text)
    ensures var n := LineLen(s);
            (forall i | 0 <= i < n :: s[i] != NEWLINE) && (n == |s| || s[n] == NEWLINE)
  {
    if s != [] && s[0] != NEWLINE {
      LineLenMeans(s[1..]);
    }
  }

  lemma {:induction false} BlockLenMeans(s: Text)
    ensures var n := BlockLen(s);
            || (n == |s| && forall i | 0 <= i < |s| :: !EndsComment(s, i))
            || (n >= 2 && EndsComment(s, n - 2) && forall i | 0 <= i < n - 2 :: !EndsComment(s, i))
  {
    if s != [] && !EndsComment(s, 0) {
      BlockLenMeans(s[1..]);
      assert forall i | 1 <= i < |s| :: EndsComment(s, i) <==> EndsComment(s[1..], i - 1);
    }
  }

  lemma {:induction false} WordLenMeans(s: Text)
    ensures var n := WordLen(s);
            (forall i | 0 <= i < n :: WordUnit(s[i])) && (n == |s| || !WordUnit(s[n]))
  {
    if s != [] && WordUnit(s[0]) {
      WordLenMeans(s[1..]);
    }
  }

  // A `//` comment reaches to the end of its line and not beyond.
  lemma LineComment(s: Text)
    requires Starts(s, SLASH, SLASH)
    ensures var n := Head(s).len;
            && Head(s) == Blank(n) && 2 <= n <= |s|
            && (forall i | 2 <= i < n :: s[i] != NEWLINE) && (n == |s| || s[n] == NEWLINE)
  {
    LineLenMeans(s[2..]);
  }

  // A `/*` comment reaches to the first `*/` after its opening, or to the end of the text.
  lemma BlockComment(s: Text)
    requires Starts(s, SLASH, STAR)
    ensures var n := Head(s).len;
            && Head(s) == Blank(n) && 2 <= n <= |s|
            && (|| (n == |s| && forall i | 2 <= i < |s| :: !EndsComment(s, i))
                || (n >= 4 && EndsComment(s, n - 2) && forall i | 2 <= i < n - 2 :: !EndsComment(s, i)))
  {
    var rest := s[2..];
    BlockLenMeans(rest);
    assert forall i | 2 <= i < |s| :: EndsComment(s, i) <==> EndsComment(rest, i - 2);
  }

  // A word is as long as it can be.
  lemma LongestWord(s: Text)
    requires s != [] && Letter(s[0])
    ensures var n := Head(s).len;
            && Head(s) == Word(n, s[..n]) && n > 0
            && (forall i | 0 <= i < n :: WordUnit(s[i])) && (n == |s| || !WordUnit(s[n]))
  {
    WordLenMeans(s);
  }

  // Any other visible character stands alone.
  lemma SingleMark(s: Text)
    requires s != [] && !Space(s[0]) && !Letter(s[0]) && !Delimiter(s[0]) && s[0] != BACKTICK
    requires !Starts(s, SLASH, SLASH) && !Starts(s, SLASH, STAR)
    ensures Head(s) == Mark(1, s[0])
  {
  }

  // ---------------------------------------------------------------------
  // Strings and templates
  // ---------------------------------------------------------------------

  // Position `i` of the text is taken by the backslash before it, counted from `from`.
  predicate Escaped(s: Text, from: nat, i: nat)
    decreases i
  {
    from < i <= |s| && s[i - 1] == BACKSLASH && !Escaped(s, from, i - 1)
  }

  lemma {:induction false} EscapedLater(s: Text, from: nat, k: nat, i: nat)
    requires from <= k <= i && k <= |s| && !Escaped(s, from, k)
    ensures Escaped(s, from, i) <==> Escaped(s, k, i)
    decreases i
  {
    if i > k {
      EscapedLater(s, from, k, i - 1);
    }
  }

  lemma {:induction false} EscapedShift(s: Text, k: nat, from: nat, i: nat)
    requires k <= from <= i && k <= |s|
    ensures Escaped(s, from, i) <==> Escaped(s[k..], from - k, i - k)
    decreases i
  {
    if i > from {
      EscapedShift(s, k, from, i - 1);
    }
  }

  // Position `i` is the closing delimiter: the character itself, not escaped.
  predicate Closes(s: Text, q: Unit, i: nat) {
    i < |s| && s[i] == q && !Escaped(s, 0, i)
  }

  lemma ClosesShift(s: Text, q: Unit, k: nat, i: nat)
    requires k <= i && k <= |s| && !Escaped(s, 0, k)
    ensures Closes(s, q, i) <==> Closes(s[k..], q, i - k)
  {
    EscapedLater(s, 0, k, i);
    EscapedShift(s, k, k, i);
  }

  // The body of a string reaches to the first delimiter that no backslash escapes.
  lemma {:induction false} BodyLenMeans(s: Text, q: Unit)
    requires q != BACKSLASH
    ensures var n := BodyLen(s, q);
            (forall i | 0 <= i < n :: !Closes(s, q, i)) && (n == |s| || Closes(s, q, n))
    decreases |s|
  {
    if s != [] && s[0] != q {
      var k := if s[0] == BACKSLASH && |s| >= 2 then 2 else 1;
      BodyLenMeans(s[k..], q);
      assert !Escaped(s, 0, 0);
      if |s| >= 2 && s[0] == BACKSLASH {
        assert Escaped(s, 0, 1) && !Escaped(s, 0, 2);
      } else if |s| >= 2 {
        assert !Escaped(s, 0, 1);
      }
      if k < |s| || k == 2 {
        forall i | k <= i <= |s| ensures Closes(s, q, i) <==> Closes(s[k..], q, i - k) {
          ClosesShift(s, q, k, i);
        }
      }
    }
  }

  // A string starts at its delimiter and reaches to the first one like it that is not escaped, or to
  // the end of the text.
  lemma StringExtent(s: Text)
    requires s != [] && Delimiter(s[0])
    ensures Head(s).Quoted? && s[1..|Head(s).body| + 1] == Head(s).body
    ensures var n, rest := |Head(s).body|, s[1..];
            && (forall i | 0 <= i < n :: !Closes(rest, s[0], i))
            && if n == |rest| then Head(s).len == n + 1 else Closes(rest, s[0], n) && Head(s).len == n + 2
  {
    BodyLenMeans(s[1..], s[0]);
    assert !Space(s[0]) && !Starts(s, SLASH, SLASH) && !Starts(s, SLASH, STAR);
  }

  lemma {:induction false} TemplateIsBody(s: Text)
    ensures TemplateLen(s) == if BodyLen(s, BACKTICK) < |s| then BodyLen(s, BACKTICK) + 1 else |s|
    decreases |s|
  {
    if s != [] && s[0] != BACKTICK {
      TemplateIsBody(if s[0] == BACKSLASH && |s| >= 2 then s[2..] else s[1..]);
    }
  }

  // A template is skipped as a whole, up to the first backtick that is not escaped.
  lemma TemplateExtent(s: Text)
    requires s != [] && s[0] == BACKTICK
    ensures var n, rest := Head(s).len, s[1..];
            && Head(s) == Blank(n) && 1 <= n <= |s|
            && (forall i | 0 <= i < n - 2 :: !Closes(rest, BACKTICK, i))
            && (n == |s| || (n >= 2 && Closes(rest, BACKTICK, n - 2)))
  {
    BodyLenMeans(s[1..], BACKTICK);
    TemplateIsBody(s[1..]);
    assert !Space(s[0]) && !Delimiter(s[0]);
  }

  // ---------------------------------------------------------------------
  // Depth
  // ---------------------------------------------------------------------

  predicate Opens(l: Lexeme) {
    l.Mark? && (l.unit == '(' as int || l.unit == '[' as int || l.unit == '{' as int)
  }

  predicate Shuts(l: Lexeme) {
    l.Mark? && (l.unit == ')' as int || l.unit == ']' as int || l.unit == '}' as int)
  }

  // Opening brackets less closing ones.
  function Balance(ls: seq<Lexeme>): int {
    if ls == [] then 0 else Balance(ls[1..]) + (if Opens(ls[0]) then 1 else if Shuts(ls[0]) then -1 else 0)
  }

  function DepthThrough(ls: seq<Lexeme>, depth: nat): nat {
    if ls == [] then depth else DepthThrough(ls[1..], DepthAfter(ls[0], depth))
  }

  // No bracket is closed that was not opened.
  ghost predicate Nested(ls: seq<Lexeme>, depth: nat) {
    forall n | 0 <= n <= |ls| :: depth + Balance(ls[..n]) >= 0
  }

  lemma BalanceCons(ls: seq<Lexeme>, n: nat)
    requires n < |ls|
    ensures Balance(ls[..n + 1]) == Balance(ls[..1]) + Balance(ls[1..][..n])
  {
    assert ls[..n + 1][1..] == ls[1..][..n] && ls[..1][1..] == [];
  }

  // The depth is the number of brackets open around, for text that closes none too many.
  lemma {:induction false} DepthCounts(ls: seq<Lexeme>, depth: nat)
    requires Nested(ls, depth)
    ensures DepthThrough(ls, depth) == depth + Balance(ls)
  {
    if ls != [] {
      var d := DepthAfter(ls[0], depth);
      assert depth + Balance(ls[..1]) >= 0 && ls[..1][1..] == [];
      assert d == depth + Balance(ls[..1]);
      forall n | 0 <= n <= |ls[1..]| ensures d + Balance(ls[1..][..n]) >= 0 {
        BalanceCons(ls, n);
        assert depth + Balance(ls[..n + 1]) >= 0;
      }
      DepthCounts(ls[1..], d);
    }
  }

  // A bracket counts as outside what it encloses; every other token has the depth it stands at.
  lemma {:induction false} TokenDepth(ls: seq<Lexeme>, base: nat, depth: nat, k: nat) returns (m: nat)
    requires k < |TokensOf(ls, base, depth)|
    ensures m < |ls| && !ls[m].Blank?
    ensures var d := DepthThrough(ls[..m], depth);
            TokensOf(ls, base, depth)[k].depth == if Shuts(ls[m]) && d > 0 then d - 1 else d
    decreases |ls|
  {
    var first := Emitted(ls[0], base, depth);
    if k < |first| {
      m := 0;
    } else {
      m := TokenDepth(ls[1..], base + ls[0].len, DepthAfter(ls[0], depth), k - |first|);
      assert ls[..m + 1][1..] == ls[1..][..m];
      m := m + 1;
    }
  }

  // ---------------------------------------------------------------------
  // Characters
  // ---------------------------------------------------------------------

  // Letters and digits by their code points.
  const CAPITALS: set<Unit> :=
    {65, 66, 67, 68, 69, 70, 71, 72, 73, 74, 75, 76, 77, 78, 79, 80, 81, 82, 83, 84, 85, 86, 87, 88, 89, 90}
  const SMALL: set<Unit> :=
    {97, 98, 99, 100, 101, 102, 103, 104, 105, 106, 107, 108, 109, 110, 111, 112, 113, 114, 115, 116, 117,
     118, 119, 120, 121, 122}
  const DIGITS: set<Unit> := {48, 49, 50, 51, 52, 53, 54, 55, 56, 57}

  lemma WordCharacters(u: Unit)
    ensures Letter(u) <==> u in CAPITALS || u in SMALL || u == '_' as int || u == '$' as int
    ensures WordUnit(u) <==> Letter(u) || u in DIGITS
  {
    assert 65 <= u <= 90 <==> u in CAPITALS;
    assert 97 <= u <= 122 <==> u in SMALL;
    assert 48 <= u <= 57 <==> u in DIGITS;
  }

  // White space and line terminators of ECMAScript, as code points.
  const SPACES: set<Unit> :=
    {9, 10, 11, 12, 13, 32, 160, 5760, 8192, 8193, 8194, 8195, 8196, 8197, 8198, 8199, 8200, 8201, 8202,
     8232, 8233, 8239, 8287, 12288, 65279}

  lemma SpaceCharacters(u: Unit)
    ensures Space(u) <==> u in SPACES
  {
  }

  // The escapes that stand for another character.
  const ESCAPES: map<char, Unit> :=
    map['n' := 10, 'r' := 13, 't' := 9, 'b' := 8, 'f' := 12, 'v' := 11, '0' := 0]

  lemma EscapeCharacters(c: char)
    ensures Unescaped(c as int) == if c in ESCAPES then ESCAPES[c] else c as int
  {
  }
}
