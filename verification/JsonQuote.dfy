/** JSON string quoting, as read back by the module tokenizer. */
module JsonQuote {
  import opened ModuleLexer

  // ---------------------------------------------------------------------
  // JSON string quoting (section 7 of RFC 8259)
  // ---------------------------------------------------------------------

  predicate HighSurrogate(u: Unit) {
    0xd800 <= u < 0xdc00
  }

  predicate LowSurrogate(u: Unit) {
    0xdc00 <= u < 0xe000
  }

  predicate Pair(t: Text) {
    |t| >= 2 && HighSurrogate(t[0]) && LowSurrogate(t[1])
  }

  function ShortEscape(u: Unit): Unit {
    if u == 0x08 then 'b' as int
    else if u == 0x09 then 't' as int
    else if u == 0x0a then 'n' as int
    else if u == 0x0c then 'f' as int
    else if u == 0x0d then 'r' as int
    else u
  }

  predicate Short(u: Unit) {
    u == QUOTE || u == BACKSLASH || ShortEscape(u) != u
  }

  // Other control characters and lone surrogates are written as `\uXXXX`.
  predicate Wide(u: Unit) {
    !Short(u) && (u < 0x20 || HighSurrogate(u) || LowSurrogate(u))
  }

  function HexUnit(d: int): Unit {
    if d < 10 then '0' as int + d else 'a' as int + d - 10
  }

  function HexValue(d: Unit): int {
    if d <= '9' as int then d - '0' as int else d - 'a' as int + 10
  }

  // The four digits of a `\uXXXX` spell the unit.
  lemma HexSpells(u: Unit)
    requires Wide(u) && 0 <= u < 0x1_0000
    ensures |EscapeUnit(u)| == 6 && EscapeUnit(u)[..2] == [BACKSLASH, 'u' as int]
    ensures var e := EscapeUnit(u);
            u == HexValue(e[2]) * 4096 + HexValue(e[3]) * 256 + HexValue(e[4]) * 16 + HexValue(e[5])
  {
    assert u / 256 == u / 16 / 16 && u / 4096 == u / 16 / 16 / 16;
  }

  function EscapeUnit(u: Unit): Text {
    if Short(u) then [BACKSLASH, ShortEscape(u)]
    else if Wide(u) then
      [BACKSLASH, 'u' as int, HexUnit(u / 4096 % 16), HexUnit(u / 256 % 16), HexUnit(u / 16 % 16), HexUnit(u % 16)]
    else [u]
  }

  function Escape(t: Text): Text {
    if t == [] then []
    else if Pair(t) then t[..2] + Escape(t[2..])
    else EscapeUnit(t[0]) + Escape(t[1..])
  }

  function Quote(t: Text): Text {
    [QUOTE] + Escape(t) + [QUOTE]
  }

  // How many units of `t` are written as `\uXXXX`.
  function WideCount(t: Text): nat {
    if t == [] then 0
    else if Pair(t) then WideCount(t[2..])
    else (if Wide(t[0]) then 1 else 0) + WideCount(t[1..])
  }

  lemma DecodePlain(u: Unit, rest: Text)
    requires u != BACKSLASH
    ensures Decode([u] + rest) == [u] + Decode(rest)
  {
    assert ([u] + rest)[1..] == rest;
  }

  lemma DecodeEscaped(u: Unit, rest: Text)
    ensures Decode([BACKSLASH, u] + rest) == [Unescaped(u)] + Decode(rest)
  {
    assert ([BACKSLASH, u] + rest)[2..] == rest;
  }

  lemma DecodeWide(u: Unit, rest: Text)
    requires Wide(u)
    ensures |Decode(EscapeUnit(u) + rest)| == 5 + |Decode(rest)|
  {
    var a, b, c, d := HexUnit(u / 4096 % 16), HexUnit(u / 256 % 16), HexUnit(u / 16 % 16), HexUnit(u % 16);
    assert EscapeUnit(u) + rest == [BACKSLASH, 'u' as int] + ([a] + ([b] + ([c] + ([d] + rest))));
    DecodeEscaped('u' as int, [a] + ([b] + ([c] + ([d] + rest))));
    DecodePlain(a, [b] + ([c] + ([d] + rest)));
    DecodePlain(b, [c] + ([d] + rest));
    DecodePlain(c, [d] + rest);
    DecodePlain(d, rest);
  }

  lemma DecodeUnit(u: Unit, rest: Text)
    requires !Wide(u)
    ensures Decode(EscapeUnit(u) + rest) == [u] + Decode(rest)
  {
    if Short(u) {
      DecodeEscaped(ShortEscape(u), rest);
    } else {
      DecodePlain(u, rest);
    }
  }

  lemma DecodePair(t: Text, rest: Text)
    requires Pair(t)
    ensures Decode(t[..2] + rest) == t[..2] + Decode(rest)
  {
    assert t[..2] + rest == [t[0]] + ([t[1]] + rest);
    DecodePlain(t[0], [t[1]] + rest);
    DecodePlain(t[1], rest);
    assert t[..2] + Decode(rest) == [t[0]] + ([t[1]] + Decode(rest));
  }

  // Reading back a quoted text loses nothing, except that each `\uXXXX` comes back as five units.
  lemma {:induction false} DecodeEscape(t: Text)
    ensures |Decode(Escape(t))| == |t| + 4 * WideCount(t)
    ensures WideCount(t) == 0 ==> Decode(Escape(t)) == t
  {
    if t == [] {
    } else if Pair(t) {
      DecodeEscape(t[2..]);
      DecodePair(t, Escape(t[2..]));
      assert t == t[..2] + t[2..];
    } else {
      DecodeEscape(t[1..]);
      if Wide(t[0]) {
        DecodeWide(t[0], Escape(t[1..]));
      } else {
        DecodeUnit(t[0], Escape(t[1..]));
        assert t == [t[0]] + t[1..];
      }
    }
  }

  // Decoding undoes quoting exactly for the texts that need no `\uXXXX`.
  lemma {:induction false} DecodeUndoesQuote(t: Text)
    ensures Decode(Escape(t)) == t <==> WideCount(t) == 0
  {
    DecodeEscape(t);
  }

  // ---------------------------------------------------------------------
  // A quoted text is one string lexeme
  // ---------------------------------------------------------------------

  lemma BodySkips(u: Unit, rest: Text)
    requires u != QUOTE && u != BACKSLASH
    ensures BodyLen([u] + rest, QUOTE) == 1 + BodyLen(rest, QUOTE)
  {
    assert ([u] + rest)[1..] == rest;
  }

  lemma BodySkipsEscape(u: Unit, rest: Text)
    ensures BodyLen([BACKSLASH, u] + rest, QUOTE) == 2 + BodyLen(rest, QUOTE)
  {
    assert ([BACKSLASH, u] + rest)[2..] == rest;
  }

  lemma BodySkipsUnit(u: Unit, rest: Text)
    ensures BodyLen(EscapeUnit(u) + rest, QUOTE) == |EscapeUnit(u)| + BodyLen(rest, QUOTE)
  {
    if Short(u) {
      BodySkipsEscape(ShortEscape(u), rest);
    } else if Wide(u) {
      var a, b, c, d := HexUnit(u / 4096 % 16), HexUnit(u / 256 % 16), HexUnit(u / 16 % 16), HexUnit(u % 16);
      assert EscapeUnit(u) + rest == [BACKSLASH, 'u' as int] + ([a] + ([b] + ([c] + ([d] + rest))));
      BodySkipsEscape('u' as int, [a] + ([b] + ([c] + ([d] + rest))));
      BodySkips(a, [b] + ([c] + ([d] + rest)));
      BodySkips(b, [c] + ([d] + rest));
      BodySkips(c, [d] + rest);
      BodySkips(d, rest);
    } else {
      BodySkips(u, rest);
    }
  }

  lemma BodySkipsPair(t: Text, rest: Text)
    requires Pair(t)
    ensures BodyLen(t[..2] + rest, QUOTE) == 2 + BodyLen(rest, QUOTE)
  {
    assert t[..2] + rest == [t[0]] + ([t[1]] + rest);
    BodySkips(t[0], [t[1]] + rest);
    BodySkips(t[1], rest);
  }

  lemma Assoc(a: Text, b: Text, c: Text)
    ensures a + b + c == a + (b + c)
  {
  }

  lemma {:induction false} BodyOfEscape(t: Text, tail: Text)
    requires tail != [] && tail[0] == QUOTE
    ensures BodyLen(Escape(t) + tail, QUOTE) == |Escape(t)|
  {
    if t == [] {
      assert [] + tail == tail;
    } else if Pair(t) {
      BodyOfEscape(t[2..], tail);
      Assoc(t[..2], Escape(t[2..]), tail);
      BodySkipsPair(t, Escape(t[2..]) + tail);
    } else {
      BodyOfEscape(t[1..], tail);
      Assoc(EscapeUnit(t[0]), Escape(t[1..]), tail);
      BodySkipsUnit(t[0], Escape(t[1..]) + tail);
    }
  }

  lemma HeadOfQuote(t: Text, rest: Text)
    ensures Head(Quote(t) + rest) == Quoted(|Quote(t)|, Escape(t))
  {
    var s := Quote(t) + rest;
    var body := Escape(t) + ([QUOTE] + rest);
    assert s[0] == QUOTE && s[1..] == body;
    BodyOfEscape(t, [QUOTE] + rest);
    assert s[1..|Escape(t)| + 1] == Escape(t);
  }
}
