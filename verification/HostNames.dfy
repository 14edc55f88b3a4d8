/**
 The names of host-module bridge globals: a module name is encoded byte by byte into a
 prefix and the export key is appended to it.
 */
module HostNames {

  type Byte = b: nat | b < 256

  // A module name as its UTF-8 bytes.
  type Name = seq<Byte>

  function HexDigit(d: nat): char
    requires d < 16
  {
    if d < 10 then ('0' as int + d) as char else ('a' as int + d - 10) as char
  }

  predicate Alphanumeric(b: Byte) {
    '0' as int <= b <= '9' as int || 'A' as int <= b <= 'Z' as int || 'a' as int <= b <= 'z' as int
  }

  function EncodeByte(b: Byte): string {
    if Alphanumeric(b) then [b as char] else ['_', HexDigit(b / 16), HexDigit(b % 16)]
  }

  function Encode(name: Name): string {
    if name == [] then "" else EncodeByte(name[0]) + Encode(name[1..])
  }

  function Prefix(name: Name): string {
    "__hostmod_" + Encode(name) + "_"
  }

  function Global(name: Name, key: string): string {
    Prefix(name) + key
  }

  function HexValue(c: char): int {
    if c <= '9' then c as int - '0' as int else c as int - 'a' as int + 10
  }

  // The bytes of digits, capital and small letters.
  const DIGITS: set<int> := {48, 49, 50, 51, 52, 53, 54, 55, 56, 57}
  const CAPITALS: set<int> :=
    {65, 66, 67, 68, 69, 70, 71, 72, 73, 74, 75, 76, 77, 78, 79, 80, 81, 82, 83, 84, 85, 86, 87, 88, 89, 90}
  const SMALL: set<int> :=
    {97, 98, 99, 100, 101, 102, 103, 104, 105, 106, 107, 108, 109, 110, 111, 112, 113, 114, 115, 116, 117,
     118, 119, 120, 121, 122}

  // Letters and digits are written as themselves, any other byte as an underscore and two hexadecimal digits.
  lemma ByteSpells(b: Byte)
    ensures b in DIGITS || b in CAPITALS || b in SMALL <==> EncodeByte(b) == [b as char]
    ensures !(b in DIGITS || b in CAPITALS || b in SMALL) ==>
              && |EncodeByte(b)| == 3 && EncodeByte(b)[0] == '_'
              && HexValue(EncodeByte(b)[1]) * 16 + HexValue(EncodeByte(b)[2]) == b
  {
    assert 48 <= b <= 57 <==> b in DIGITS;
    assert 65 <= b <= 90 <==> b in CAPITALS;
    assert 97 <= b <= 122 <==> b in SMALL;
  }

  lemma {:induction false} EncodeSnoc(name: Name, b: Byte)
    ensures Encode(name + [b]) == Encode(name) + EncodeByte(b)
  {
    if name == [] {
      assert (name + [b])[1..] == [];
    } else {
      EncodeSnoc(name[1..], b);
      assert (name + [b])[1..] == name[1..] + [b];
    }
  }

  method HostModulePrefix(name: Name) returns (out: string)
    ensures out == Prefix(name)
  {
    out := "__hostmod_";
    for i := 0 to |name|
      invariant out == "__hostmod_" + Encode(name[..i])
    {
      if Alphanumeric(name[i]) {
        out := out + [name[i] as char];
      } else {
        out := out + ['_', HexDigit(name[i] / 16), HexDigit(name[i] % 16)];
      }
      EncodeSnoc(name[..i], name[i]);
      assert name[..i + 1] == name[..i] + [name[i]];
    }
    assert name[..|name|] == name;
    out := out + "_";
  }

  // ---------------------------------------------------------------------
  // When two globals have one name
  // ---------------------------------------------------------------------

  predicate Digit(c: char) {
    '0' <= c <= '9'
  }

  // What every identifier satisfies: it is not empty and does not start with a digit.
  predicate IsKey(key: string) {
    key != "" && !Digit(key[0])
  }

  // The part of a global's name after the fixed tag, spelled out from the left.
  function Spelled(name: Name, key: string): string {
    if name == [] then "_" + key else EncodeByte(name[0]) + Spelled(name[1..], key)
  }

  lemma {:induction false} SpelledIs(name: Name, key: string)
    ensures Spelled(name, key) == Encode(name) + "_" + key
  {
    if name == [] {
      assert "" + "_" + key == "_" + key;
    } else {
      SpelledIs(name[1..], key);
      var e, rest := EncodeByte(name[0]), Encode(name[1..]);
      assert e + (rest + "_" + key) == e + rest + "_" + key;
    }
  }

  lemma GlobalIs(name: Name, key: string)
    ensures Global(name, key) == "__hostmod_" + Spelled(name, key)
  {
    SpelledIs(name, key);
    var e := Encode(name);
    assert "__hostmod_" + e + "_" + key == "__hostmod_" + (e + "_" + key);
  }

  // Name `b` goes on after `a` with a byte whose first hex digit is a letter, and key `k`
  // spells the rest of `b`'s encoding followed by key `l`.
  predicate Clash(a: Name, k: string, b: Name, l: string) {
    |a| < |b| && b[..|a|] == a && b[|a|] >= 0xa0 && "_" + k == Spelled(b[|a|..], l)
  }

  lemma HexUnique(d: nat, e: nat)
    requires d < 16 && e < 16 && HexDigit(d) == HexDigit(e)
    ensures d == e
  {
  }

  lemma SameByte(a: Byte, x: string, b: Byte, y: string)
    requires EncodeByte(a) + x == EncodeByte(b) + y
    ensures a == b && x == y
  {
    var whole := EncodeByte(a) + x;
    assert whole[0] == EncodeByte(a)[0] && whole[0] == EncodeByte(b)[0];
    if !Alphanumeric(a) {
      assert !Alphanumeric(b);
      assert whole[1] == HexDigit(a / 16) && whole[1] == HexDigit(b / 16);
      assert whole[2] == HexDigit(a % 16) && whole[2] == HexDigit(b % 16);
      HexUnique(a / 16, b / 16);
      HexUnique(a % 16, b % 16);
    }
    assert x == whole[|EncodeByte(a)|..] && y == whole[|EncodeByte(b)|..];
  }

  // A key that continues like an encoded byte starts with that byte's first hex digit.
  lemma FirstHex(k: string, b: Byte, rest: string)
    requires IsKey(k) && "_" + k == EncodeByte(b) + rest
    ensures b >= 0xa0
  {
    var whole := EncodeByte(b) + rest;
    assert whole[0] == EncodeByte(b)[0] && whole[0] == '_';
    assert whole[1] == HexDigit(b / 16) && whole[1] == k[0];
  }

  lemma {:induction false} SameSpelling(a: Name, k: string, b: Name, l: string)
    requires IsKey(k) && IsKey(l) && Spelled(a, k) == Spelled(b, l)
    ensures (a == b && k == l) || Clash(a, k, b, l) || Clash(b, l, a, k)
    decreases |a| + |b|
  {
    if a == [] && b == [] {
      assert k == ("_" + k)[1..] && l == ("_" + l)[1..];
    } else if a == [] {
      FirstHex(k, b[0], Spelled(b[1..], l));
      assert b[0..] == b && b[..0] == [];
    } else if b == [] {
      FirstHex(l, a[0], Spelled(a[1..], k));
      assert a[0..] == a && a[..0] == [];
    } else {
      SameByte(a[0], Spelled(a[1..], k), b[0], Spelled(b[1..], l));
      SameSpelling(a[1..], k, b[1..], l);
      assert a == [a[0]] + a[1..] && b == [b[0]] + b[1..];
      if Clash(a[1..], k, b[1..], l) {
        ClashCons(a, k, b, l);
      } else if Clash(b[1..], l, a[1..], k) {
        ClashCons(b, l, a, k);
      }
    }
  }

  lemma ClashCons(a: Name, k: string, b: Name, l: string)
    requires a != [] && b != [] && a[0] == b[0] && Clash(a[1..], k, b[1..], l)
    ensures Clash(a, k, b, l)
  {
    assert a == [a[0]] + a[1..] && b == [b[0]] + b[1..];
    assert b[..|a|] == [b[0]] + b[1..][..|a| - 1];
    assert b[1..][|a| - 1..] == b[|a|..];
  }

  lemma {:induction false} ClashSpellsSame(a: Name, k: string, b: Name, l: string)
    requires |a| <= |b| && b[..|a|] == a && "_" + k == Spelled(b[|a|..], l)
    ensures Spelled(a, k) == Spelled(b, l)
  {
    if a == [] {
      assert b[0..] == b;
    } else {
      assert a[0] == b[..|a|][0] == b[0];
      assert b[1..][..|a| - 1] == b[..|a|][1..] == a[1..];
      assert b[1..][|a| - 1..] == b[|a|..];
      ClashSpellsSame(a[1..], k, b[1..], l);
    }
  }

  lemma ClashCollides(a: Name, k: string, b: Name, l: string)
    requires Clash(a, k, b, l)
    ensures Global(a, k) == Global(b, l)
  {
    ClashSpellsSame(a, k, b, l);
    GlobalIs(a, k);
    GlobalIs(b, l);
  }

  lemma CollisionMeans(a: Name, k: string, b: Name, l: string)
    requires IsKey(k) && IsKey(l) && Global(a, k) == Global(b, l)
    ensures (a == b && k == l) || Clash(a, k, b, l) || Clash(b, l, a, k)
  {
    GlobalIs(a, k);
    GlobalIs(b, l);
    var n := |"__hostmod_"|;
    assert Spelled(a, k) == Global(a, k)[n..] && Spelled(b, l) == Global(b, l)[n..];
    SameSpelling(a, k, b, l);
  }

  // Two bridge globals share a name exactly when they are the same export, or one is spelled by a clash.
  lemma CollisionsExactly(a: Name, k: string, b: Name, l: string)
    requires IsKey(k) && IsKey(l)
    ensures Global(a, k) == Global(b, l) <==> (a == b && k == l) || Clash(a, k, b, l) || Clash(b, l, a, k)
  {
    if Global(a, k) == Global(b, l) {
      CollisionMeans(a, k, b, l);
    } else if Clash(a, k, b, l) {
      ClashCollides(a, k, b, l);
    } else if Clash(b, l, a, k) {
      ClashCollides(b, l, a, k);
    }
  }

  // Name `b` extends `a` by a byte from 0xa0 up.
  predicate HighExtension(a: Name, b: Name) {
    |a| < |b| && b[..|a|] == a && b[|a|] >= 0xa0
  }

  predicate Separable(a: Name, b: Name) {
    !HighExtension(a, b) && !HighExtension(b, a)
  }

  predicate Ascii(name: Name) {
    forall i | 0 <= i < |name| :: name[i] < 0x80
  }

  predicate IdentifierChar(c: char) {
    'a' <= c <= 'z' || 'A' <= c <= 'Z' || Digit(c) || c == '_'
  }

  predicate Identifier(key: string) {
    IsKey(key) && forall i | 0 <= i < |key| :: IdentifierChar(key[i])
  }

  lemma {:induction false} SpelledIsIdentifier(name: Name, key: string)
    requires forall i | 0 <= i < |key| :: IdentifierChar(key[i])
    ensures forall i | 0 <= i < |Spelled(name, key)| :: IdentifierChar(Spelled(name, key)[i])
  {
    if name != [] {
      SpelledIsIdentifier(name[1..], key);
    }
  }

  // Two module names are kept apart for every pair of keys exactly when neither extends the other
  // by a byte from 0xa0 up; if one does, ordinary identifiers collide.
  lemma NamesApartExactly(a: Name, b: Name) returns (k: string, l: string)
    requires a != b
    ensures Identifier(k) && Identifier(l)
    ensures Separable(a, b) ==> forall k, l | IsKey(k) && IsKey(l) :: Global(a, k) != Global(b, l)
    ensures !Separable(a, b) ==> Global(a, k) == Global(b, l)
  {
    k, l := "key", "key";
    if HighExtension(a, b) {
      k := ClashingKey(a, b, l);
      ClashCollides(a, k, b, l);
    } else if HighExtension(b, a) {
      l := ClashingKey(b, a, k);
      ClashCollides(b, l, a, k);
    } else {
      forall k, l | IsKey(k) && IsKey(l) ensures Global(a, k) != Global(b, l) {
        CollisionsExactly(a, k, b, l);
      }
    }
  }

  lemma ClashingKey(a: Name, b: Name, l: string) returns (k: string)
    requires HighExtension(a, b) && Identifier(l)
    ensures Identifier(k) && Clash(a, k, b, l)
  {
    var rest := b[|a|..];
    var whole := Spelled(rest, l);
    assert whole == EncodeByte(rest[0]) + Spelled(rest[1..], l);
    assert whole[0] == '_' && whole[1] == HexDigit(rest[0] / 16);
    k := whole[1..];
    SpelledIsIdentifier(rest, l);
  }

  lemma AsciiSeparable(a: Name, b: Name)
    requires Ascii(a) && Ascii(b)
    ensures Separable(a, b)
  {
  }

  // The prefix alone tells every name from every other.
  lemma PrefixInjective(a: Name, b: Name)
    requires Prefix(a) == Prefix(b)
    ensures a == b
  {
    GlobalIs(a, "");
    GlobalIs(b, "");
    var n := |"__hostmod_"|;
    assert Prefix(a) + "" == Prefix(a) && Prefix(b) + "" == Prefix(b);
    assert Spelled(a, "") == Global(a, "")[n..] && Spelled(b, "") == Global(b, "")[n..];
    SpellingInjective(a, b);
  }

  lemma {:induction false} SpellingInjective(a: Name, b: Name)
    requires Spelled(a, "") == Spelled(b, "")
    ensures a == b
  {
    if a == [] {
      assert b == [] by {
        if b != [] {
          SpelledLong(b);
        }
      }
    } else if b == [] {
      SpelledLong(a);
    } else {
      SameByte(a[0], Spelled(a[1..], ""), b[0], Spelled(b[1..], ""));
      SpellingInjective(a[1..], b[1..]);
      assert a == [a[0]] + a[1..] && b == [b[0]] + b[1..];
    }
  }

  lemma SpelledLong(a: Name)
    requires a != []
    ensures |Spelled(a, "")| > 1
  {
  }

  // `x` exporting `c3_a9_key` and `xé` exporting `key` ask for one global.
  lemma CollisionExample()
    ensures var x: Name := ['x' as int]; var xe: Name := ['x' as int, 0xc3, 0xa9];
            Identifier("c3_a9_key") && Global(x, "c3_a9_key") == Global(xe, "key")
  {
    var x: Name := ['x' as int];
    var xe: Name := ['x' as int, 0xc3, 0xa9];
    assert xe[1..] == [0xc3, 0xa9] && xe[1..][1..] == [0xa9] && xe[1..][1..][1..] == [];
    assert EncodeByte(0xc3) == "_c3" && EncodeByte(0xa9) == "_a9";
    assert Spelled([0xa9], "key") == "_a9" + ("_" + "key");
    assert Spelled([0xc3, 0xa9], "key") == "_c3" + ("_a9" + ("_" + "key"));
    assert Clash(x, "c3_a9_key", xe, "key");
    ClashCollides(x, "c3_a9_key", xe, "key");
  }
}
