/** Why a lexeme can be replaced without disturbing its neighbours. */
module LexemeLocality {
  import opened ModuleLexer

  // ---------------------------------------------------------------------
  // A lexeme depends only on its own text and on what kind of text follows
  // ---------------------------------------------------------------------

  ghost predicate Alike(r: Text, r': Text) {
    && (r == [] <==> r' == [])
    && (r != [] ==> r[0] == r'[0] || (Delimiter(r[0]) && Delimiter(r'[0])))
  }

  lemma {:induction false} WordLocal(l: Text, r: Text, r': Text)
    requires WordLen(l + r) == |l| && Alike(r, r')
    ensures WordLen(l + r') == |l|
  {
    if l == [] {
      assert l + r == r && l + r' == r';
    } else {
      assert (l + r)[1..] == l[1..] + r && (l + r')[1..] == l[1..] + r';
      WordLocal(l[1..], r, r');
    }
  }

  lemma {:induction false} LineLocal(l: Text, r: Text, r': Text)
    requires LineLen(l + r) == |l| && Alike(r, r')
    ensures LineLen(l + r') == |l|
  {
    if l == [] {
      assert l + r == r && l + r' == r';
    } else {
      assert (l + r)[1..] == l[1..] + r && (l + r')[1..] == l[1..] + r';
      LineLocal(l[1..], r, r');
    }
  }

  lemma {:induction false} BlockLocal(l: Text, r: Text, r': Text)
    requires BlockLen(l + r) == |l| && Alike(r, r')
    ensures BlockLen(l + r') == |l|
  {
    if l == [] {
      assert l + r == r && l + r' == r';
    } else if !Starts(l, STAR, SLASH) {
      assert (l + r)[1..] == l[1..] + r && (l + r')[1..] == l[1..] + r';
      BlockLocal(l[1..], r, r');
      if |l| == 1 {
        assert l[1..] + r == r;
      }
    }
  }

  lemma {:induction false} TemplateLocal(l: Text, r: Text, r': Text)
    requires TemplateLen(l + r) == |l| && Alike(r, r')
    ensures TemplateLen(l + r') == |l|
  {
    if l == [] {
      assert l + r == r && l + r' == r';
    } else if l[0] == BACKSLASH {
      if |l| >= 2 {
        assert (l + r)[2..] == l[2..] + r && (l + r')[2..] == l[2..] + r';
        TemplateLocal(l[2..], r, r');
      }
    } else if l[0] != BACKTICK {
      assert (l + r)[1..] == l[1..] + r && (l + r')[1..] == l[1..] + r';
      TemplateLocal(l[1..], r, r');
    }
  }

  lemma {:induction false} BodyLocal(l: Text, q: Unit, r: Text, r': Text)
    requires BodyLen(l + ([q] + r), q) == |l|
    ensures BodyLen(l + ([q] + r'), q) == |l|
  {
    var a, b := [q] + r, [q] + r';
    if l == [] {
      assert l + b == b;
    } else if l[0] == BACKSLASH && |l| >= 2 {
      assert (l + a)[2..] == l[2..] + a && (l + b)[2..] == l[2..] + b;
      BodyLocal(l[2..], q, r, r');
    } else {
      assert (l + a)[1..] == l[1..] + a && (l + b)[1..] == l[1..] + b;
      BodyLocal(l[1..], q, r, r');
    }
  }

  lemma QuotedLocal(l: Text, r: Text, r': Text)
    requires l != [] && QuotedHead(l + r).len == |l| && (r == [] <==> r' == [])
    ensures QuotedHead(l + r') == QuotedHead(l + r)
  {
    if r == [] {
      assert l + r == l + r';
    } else {
      var q, n := l[0], |l| - 2;
      var body := l[1..|l| - 1];
      var s, s' := (l + r)[1..], (l + r')[1..];
      assert BodyLen(s, q) == n && s[n] == l[|l| - 1];
      BodyStops(s, q);
      assert s == body + ([q] + r) && s' == body + ([q] + r');
      BodyLocal(body, q, r, r');
      assert (l + r)[1..n + 1] == body && (l + r')[1..n + 1] == body;
    }
  }

  lemma {:induction false} BodyStops(s: Text, q: Unit)
    ensures BodyLen(s, q) < |s| ==> s[BodyLen(s, q)] == q
  {
    if s == [] || s[0] == q {
    } else if s[0] == BACKSLASH && |s| >= 2 {
      BodyStops(s[2..], q);
    } else {
      BodyStops(s[1..], q);
    }
  }

  lemma HeadLocal(l: Text, r: Text, r': Text)
    requires l != [] && Head(l + r).len == |l| && Alike(r, r')
    ensures Head(l + r') == Head(l + r)
  {
    var s, s' := l + r, l + r';
    if Space(l[0]) {
    } else if Starts(s, SLASH, SLASH) || Starts(s, SLASH, STAR) {
      CommentLocal(l, r, r');
    } else if Delimiter(l[0]) {
      QuotedLocal(l, r, r');
    } else if l[0] == BACKTICK {
      assert s[1..] == l[1..] + r && s'[1..] == l[1..] + r';
      TemplateLocal(l[1..], r, r');
    } else if Letter(l[0]) {
      WordLocal(l, r, r');
      assert s[..|l|] == s'[..|l|];
    }
  }

  lemma CommentLocal(l: Text, r: Text, r': Text)
    requires l != [] && (Starts(l + r, SLASH, SLASH) || Starts(l + r, SLASH, STAR))
    requires Head(l + r).len == |l| && Alike(r, r')
    ensures Head(l + r') == Head(l + r)
  {
    var s, s' := l + r, l + r';
    assert s[2..] == l[2..] + r && s'[2..] == l[2..] + r';
    if Starts(s, SLASH, SLASH) {
      LineLocal(l[2..], r, r');
    } else {
      BlockLocal(l[2..], r, r');
    }
  }
}
