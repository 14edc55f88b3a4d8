/**
 Positions in a document, in three encodings: UTF-8 bytes (section 3 of RFC 3629), UTF-16
 units (section 2.1 of RFC 2781, as Language Server Protocol positions count them) and
 Unicode scalar values. A text is the sequence of its scalars.
 */
module LspText {
  import opened Wrappers

  // ---------------------------------------------------------------------
  // Encodings
  // ---------------------------------------------------------------------

  function Utf8(c: char): (bytes: seq<int>)
    ensures 1 <= |bytes| <= 4
  {
    var u := c as int;
    if u < 0x80 then [u]
    else if u < 0x800 then [0xc0 + u / 64, 0x80 + u % 64]
    else if u < 0x1_0000 then [0xe0 + u / 4096, 0x80 + u / 64 % 64, 0x80 + u % 64]
    else [0xf0 + u / 262144, 0x80 + u / 4096 % 64, 0x80 + u / 64 % 64, 0x80 + u % 64]
  }

  // The scalar that an encoded character stands for, read off its lead byte and continuation bytes.
  function Utf8Value(bytes: seq<int>): int
    requires 1 <= |bytes| <= 4
  {
    match |bytes|
    case 1 => bytes[0]
    case 2 => (bytes[0] - 0xc0) * 0x40 + (bytes[1] - 0x80)
    case 3 => (bytes[0] - 0xe0) * 0x1000 + (bytes[1] - 0x80) * 0x40 + (bytes[2] - 0x80)
    case _ => (bytes[0] - 0xf0) * 0x4_0000 + (bytes[1] - 0x80) * 0x1000 + (bytes[2] - 0x80) * 0x40 + (bytes[3] - 0x80)
  }

  // An encoded character reads back as itself; its lead byte tells its length, only its other bytes
  // are continuation bytes, and no shorter form would do.
  lemma Utf8Reads(c: char)
    ensures Utf8Value(Utf8(c)) == c as int
    ensures var lead := Utf8(c)[0];
            |Utf8(c)| == if lead < 0x80 then 1 else if lead < 0xe0 then 2 else if lead < 0xf0 then 3 else 4
    ensures !(0x80 <= Utf8(c)[0] < 0xc0) && forall i | 1 <= i < |Utf8(c)| :: 0x80 <= Utf8(c)[i] < 0xc0
    ensures c as int >= [0, 0x80, 0x800, 0x1_0000][|Utf8(c)| - 1]
  {
    var u := c as int;
    assert u / 4096 == u / 64 / 64 && u / 262144 == u / 64 / 64 / 64;
  }

  function Encode(s: string): seq<int> {
    if s == "" then [] else Utf8(s[0]) + Encode(s[1..])
  }

  function Utf16(c: char): (units: seq<int>)
    ensures 1 <= |units| <= 2
  {
    var u := c as int;
    if u < 0x1_0000 then [u] else [0xd800 + (u - 0x1_0000) / 0x400, 0xdc00 + (u - 0x1_0000) % 0x400]
  }

  // A character reads back as itself, and is two units exactly when the first is a high surrogate.
  lemma Utf16Reads(c: char)
    ensures |Utf16(c)| == Utf16Len(c)
    ensures |Utf16(c)| == 2 <==> 0xd800 <= Utf16(c)[0] < 0xdc00
    ensures if |Utf16(c)| == 1 then Utf16(c)[0] == c as int
            else 0xdc00 <= Utf16(c)[1] < 0xe000
                 && 0x1_0000 + (Utf16(c)[0] - 0xd800) * 0x400 + (Utf16(c)[1] - 0xdc00) == c as int
  {
    var u := c as int;
    assert !(0xd800 <= u < 0xe000) && u < 0x11_0000;
  }

  function Utf16Len(c: char): nat {
    if c as int < 0x1_0000 then 1 else 2
  }

  // The offset in bytes of the `i`th scalar.
  function Bytes(s: string, i: nat): nat
    requires i <= |s|
  {
    if i == 0 then 0 else Bytes(s, i - 1) + |Utf8(s[i - 1])|
  }

  // The offset in UTF-16 units of the `i`th scalar.
  function Units(s: string, i: nat): nat
    requires i <= |s|
  {
    if i == 0 then 0 else Units(s, i - 1) + Utf16Len(s[i - 1])
  }

  ghost predicate Boundary(s: string, offset: nat) {
    exists i | 0 <= i <= |s| :: offset == Bytes(s, i)
  }

  lemma {:induction false} UnitsIncrease(s: string, i: nat, j: nat)
    requires i <= j <= |s|
    ensures Units(s, i) + (j - i) <= Units(s, j)
  {
    if i < j {
      UnitsIncrease(s, i, j - 1);
    }
  }

  lemma {:induction false} BytesIncrease(s: string, i: nat, j: nat)
    requires i <= j <= |s|
    ensures Bytes(s, i) + (j - i) <= Bytes(s, j)
  {
    if i < j {
      BytesIncrease(s, i, j - 1);
    }
  }

  // Offsets count on from the start of a slice.
  lemma {:induction false} BytesSlice(s: string, from: nat, to: nat, k: nat)
    requires from + k <= to <= |s|
    ensures Bytes(s[from..to], k) + Bytes(s, from) == Bytes(s, from + k)
  {
    if k > 0 {
      BytesSlice(s, from, to, k - 1);
    }
  }

  lemma {:induction false} BytesCons(s: string, k: nat)
    requires s != "" && k < |s|
    ensures Bytes(s, k + 1) == |Utf8(s[0])| + Bytes(s[1..], k)
  {
    if k > 0 {
      BytesCons(s, k - 1);
    }
  }

  lemma {:induction false} EncodedLength(s: string)
    ensures |Encode(s)| == Bytes(s, |s|)
  {
    if s != "" {
      EncodedLength(s[1..]);
      BytesCons(s, |s| - 1);
    }
  }

  // ---------------------------------------------------------------------
  // Lines
  // ---------------------------------------------------------------------

  // The offset just after the `line`th newline byte, counted from 1.
  function LineStart(bytes: seq<int>, line: nat): Option<nat> {
    if line == 0 then Some(0)
    else if bytes == [] then None
    else
      var rest := LineStart(bytes[1..], if bytes[0] == 0x0a then line - 1 else line);
      if rest.Some? then Some(rest.value + 1) else None
  }

  method FindLineStart(bytes: seq<int>, line: nat) returns (start: Option<nat>)
    ensures start == LineStart(bytes, line)
  {
    if line == 0 {
      return Some(0);
    }
    var seen := 0;
    assert bytes[0..] == bytes;
    for i := 0 to |bytes|
      invariant seen < line
      invariant LineStart(bytes, line) == Shift(LineStart(bytes[i..], line - seen), i)
    {
      assert bytes[i..][1..] == bytes[i + 1..];
      if bytes[i] == 0x0a {
        seen := seen + 1;
        if seen == line {
          return Some(i + 1);
        }
      }
    }
    start := None;
  }

  function Shift(o: Option<nat>, n: nat): Option<nat> {
    if o.Some? then Some(o.value + n) else None
  }

  // The same in scalars.
  function LineIndex(s: string, line: nat): (i: Option<nat>)
    ensures i.Some? ==> i.value <= |s|
  {
    if line == 0 then Some(0)
    else if s == "" then None
    else Shift(LineIndex(s[1..], if s[0] == '\n' then line - 1 else line), 1)
  }

  // Only a newline character is encoded with a newline byte, and in that byte alone.
  lemma {:induction false} LineStartSkips(bytes: seq<int>, rest: seq<int>, line: nat)
    requires line > 0 && forall i | 0 <= i < |bytes| :: bytes[i] != 0x0a
    ensures LineStart(bytes + rest, line) == Shift(LineStart(rest, line), |bytes|)
  {
    if bytes == [] {
      assert bytes + rest == rest;
    } else {
      assert (bytes + rest)[1..] == bytes[1..] + rest;
      LineStartSkips(bytes[1..], rest, line);
    }
  }

  lemma NewlineByte(c: char)
    ensures c == '\n' ==> Utf8(c) == [0x0a]
    ensures c != '\n' ==> forall i | 0 <= i < |Utf8(c)| :: Utf8(c)[i] != 0x0a
  {
  }

  function OffsetAt(s: string, i: Option<nat>): Option<nat>
    requires i.Some? ==> i.value <= |s|
  {
    if i.Some? then Some(Bytes(s, i.value)) else None
  }

  lemma OffsetCons(s: string, i: Option<nat>)
    requires s != "" && (i.Some? ==> i.value < |s|)
    ensures OffsetAt(s, Shift(i, 1)) == Shift(OffsetAt(s[1..], i), |Utf8(s[0])|)
  {
    if i.Some? {
      BytesCons(s, i.value);
    }
  }

  // Past the first scalar, with the newlines still to count.
  lemma LineStartCons(s: string, line: nat)
    requires line > 0 && s != ""
    ensures LineStart(Encode(s), line)
         == Shift(LineStart(Encode(s[1..]), if s[0] == '\n' then line - 1 else line), |Utf8(s[0])|)
  {
    NewlineByte(s[0]);
    if s[0] == '\n' {
      assert Encode(s)[1..] == Encode(s[1..]);
    } else {
      LineStartSkips(Utf8(s[0]), Encode(s[1..]), line);
    }
  }

  // A line starts at the byte offset of its first scalar.
  lemma {:induction false} LineStartIsScalar(s: string, line: nat)
    ensures LineStart(Encode(s), line) == OffsetAt(s, LineIndex(s, line))
  {
    if line > 0 && s != "" {
      var rest := if s[0] == '\n' then line - 1 else line;
      LineStartIsScalar(s[1..], rest);
      LineStartCons(s, line);
      OffsetCons(s, LineIndex(s[1..], rest));
    }
  }

  function NewlineAt(s: string): (n: nat)
    ensures n <= |s|
  {
    if s == "" || s[0] == '\n' then 0 else 1 + NewlineAt(s[1..])
  }

  // The end of the line that starts at scalar `i`, without its line ending.
  function LineEnd(s: string, i: nat): (e: nat)
    requires i <= |s|
    ensures i <= e <= |s|
  {
    var e := i + NewlineAt(s[i..]);
    if e > i && s[e - 1] == '\r' then e - 1 else e
  }

  function LineText(s: string, line: nat): Option<string> {
    match LineIndex(s, line)
    case None => None
    case Some(i) => Some(s[i..LineEnd(s, i)])
  }

  function Newlines(s: string): nat {
    if s == "" then 0 else Newlines(s[1..]) + if s[0] == '\n' then 1 else 0
  }

  // A line starts behind as many newlines as its number says, and there is none if the text has fewer.
  lemma {:induction false} LineIndexMeans(s: string, line: nat)
    ensures match LineIndex(s, line)
            case Some(i) => Newlines(s[..i]) == line && if line == 0 then i == 0 else i > 0 && s[i - 1] == '\n'
            case None => Newlines(s) < line
  {
    if line > 0 && s != "" {
      var rest := if s[0] == '\n' then line - 1 else line;
      LineIndexMeans(s[1..], rest);
      if LineIndex(s[1..], rest).Some? {
        var i := LineIndex(s[1..], rest).value;
        assert s[..i + 1][1..] == s[1..][..i];
      }
    }
  }

  lemma {:induction false} NewlineAtMeans(s: string)
    ensures var n := NewlineAt(s); (forall i | 0 <= i < n :: s[i] != '\n') && (n == |s| || s[n] == '\n')
  {
    if s != "" && s[0] != '\n' {
      NewlineAtMeans(s[1..]);
    }
  }

  // A line's text holds no newline. What follows it is `\n`, `\r\n`, a final `\r` or nothing; a
  // carriage return is part of it only if it is not the last character before those.
  lemma LineEndMeans(s: string, i: nat)
    requires i <= |s|
    ensures var e := LineEnd(s, i);
            && (forall j | i <= j < e :: s[j] != '\n')
            && (|| e == |s|
                || s[e] == '\n'
                || (s[e] == '\r' && (e + 1 == |s| || s[e + 1] == '\n')))
            && (e > i && s[e - 1] == '\r' ==> e < |s| && s[e] == '\r')
  {
    var rest := s[i..];
    NewlineAtMeans(rest);
    assert forall j | i <= j < |s| :: s[j] == rest[j - i];
  }

  // ---------------------------------------------------------------------
  // Columns
  // ---------------------------------------------------------------------

  // The last scalar that starts at or before the column.
  ghost predicate RoundsDown(line: string, column: nat, k: nat) {
    k <= |line| && Units(line, k) <= column && (k < |line| ==> column < Units(line, k + 1))
  }

  // The first scalar that starts at or after the column, or the end of the line.
  ghost predicate RoundsUp(line: string, column: nat, k: nat) {
    k <= |line| && (k < |line| ==> column <= Units(line, k)) && forall j | 0 <= j < k :: Units(line, j) < column
  }

  function FloorFrom(line: string, column: nat, k: nat): (r: nat)
    requires k <= |line| && (k < |line| ==> column < Units(line, k + 1))
    ensures RoundsDown(line, column, r)
  {
    if Units(line, k) <= column then k else FloorFrom(line, column, k - 1)
  }

  // The scalar column that the UTF-16 column rounds down to.
  function Floor(line: string, column: nat): (k: nat)
    ensures RoundsDown(line, column, k)
  {
    FloorFrom(line, column, |line|)
  }

  lemma RoundsDownUnique(line: string, column: nat, k: nat, m: nat)
    requires RoundsDown(line, column, k) && RoundsDown(line, column, m)
    ensures k == m
  {
    if k < m {
      UnitsIncrease(line, k + 1, m);
    } else if m < k {
      UnitsIncrease(line, m + 1, k);
    }
  }

  method Utf16ColumnToByteOffset(line: string, column: nat) returns (offset: nat)
    ensures offset == Bytes(line, Floor(line, column))
  {
    var units, byteIndex := 0, 0;
    for i := 0 to |line|
      invariant units == Units(line, i) && byteIndex == Bytes(line, i) && units <= column
    {
      var next := units + Utf16Len(line[i]);
      if next > column {
        RoundsDownUnique(line, column, i, Floor(line, column));
        return byteIndex;
      }
      units := next;
      byteIndex := byteIndex + |Utf8(line[i])|;
    }
    RoundsDownUnique(line, column, |line|, Floor(line, column));
    return byteIndex;
  }

  function CharColumnToUtf16(line: string, column: nat): nat {
    Units(line, if column <= |line| then column else |line|)
  }

  lemma RoundsUpUnique(line: string, column: nat, k: nat, m: nat)
    requires RoundsUp(line, column, k) && RoundsUp(line, column, m)
    ensures k == m
  {
  }

  method Utf16ColumnToCharColumn(line: string, column: nat) returns (k: nat)
    ensures forall m :: RoundsUp(line, column, m) <==> m == k
  {
    k := FirstAtOrAfter(line, column);
    forall m | RoundsUp(line, column, m) ensures m == k {
      RoundsUpUnique(line, column, k, m);
    }
  }

  method FirstAtOrAfter(line: string, column: nat) returns (k: nat)
    ensures RoundsUp(line, column, k)
  {
    var units := 0;
    for i := 0 to |line|
      invariant units == Units(line, i)
      invariant forall j | 0 <= j < i :: Units(line, j) < column
    {
      if units >= column {
        return i;
      }
      units := units + Utf16Len(line[i]);
    }
    k := |line|;
  }

  // A column strictly between the units of one surrogate pair.
  ghost predicate InsidePair(line: string, column: nat) {
    exists k | 0 <= k < |line| :: Units(line, k) < column < Units(line, k + 1)
  }

  // Converting to scalars inverts converting from scalars, for every column of the line.
  lemma CharColumnInverts(line: string, column: nat, k: nat)
    requires RoundsUp(line, CharColumnToUtf16(line, column), k)
    ensures k == if column <= |line| then column else |line|
  {
    var n := if column <= |line| then column else |line|;
    if k < n {
      UnitsIncrease(line, k, n);
    }
  }

  // The two converters agree exactly outside surrogate pairs; inside one they are its two ends.
  lemma ConvertersAgreeExactly(line: string, column: nat, down: nat, up: nat)
    requires RoundsDown(line, column, down) && RoundsUp(line, column, up)
    ensures down == up <==> !InsidePair(line, column)
    ensures InsidePair(line, column) ==> up == down + 1 && Units(line, down) + 1 == column && Utf16Len(line[down]) == 2
  {
    if down < up {
      assert Units(line, down) < column;
    } else if up < down {
      UnitsIncrease(line, up, down);
    }
    if k :| 0 <= k < |line| && Units(line, k) < column < Units(line, k + 1) {
      assert RoundsDown(line, column, k);
      RoundsDownUnique(line, column, down, k);
    }
  }

  // ---------------------------------------------------------------------
  // Positions
  // ---------------------------------------------------------------------

  // Where a position points: the end of the document for a line past it, else the scalar of the line
  // that the column rounds down to, which is the line's end for a column past it.
  ghost predicate PointsAt(s: string, line: nat, column: nat, i: nat) {
    match LineIndex(s, line)
    case None => i == |s|
    case Some(start) => start <= i <= LineEnd(s, start) && RoundsDown(s[start..LineEnd(s, start)], column, i - start)
  }

  // The byte offset that a position stands for.
  function PositionOffset(s: string, line: nat, column: nat): nat {
    match LineIndex(s, line)
    case None => |Encode(s)|
    case Some(start) => Bytes(s, start + Floor(s[start..LineEnd(s, start)], column))
  }

  // Two different scalars never share a byte offset, so the offset tells the scalar.
  lemma OffsetsDistinct(s: string, i: nat, j: nat)
    requires i <= |s| && j <= |s| && Bytes(s, i) == Bytes(s, j)
    ensures i == j
  {
    if i < j {
      BytesIncrease(s, i, j);
    } else if j < i {
      BytesIncrease(s, j, i);
    }
  }

  // It is the offset of the scalar the position points at, and of no other.
  lemma OffsetPoints(s: string, line: nat, column: nat, i: nat)
    requires i <= |s|
    ensures PositionOffset(s, line, column) == Bytes(s, i) <==> PointsAt(s, line, column, i)
  {
    match LineIndex(s, line)
    case None =>
      EncodedLength(s);
      if Bytes(s, i) == |Encode(s)| {
        OffsetsDistinct(s, i, |s|);
      }
    case Some(start) =>
      var text := s[start..LineEnd(s, start)];
      var k := Floor(text, column);
      if Bytes(s, i) == Bytes(s, start + k) {
        OffsetsDistinct(s, i, start + k);
      }
      if PointsAt(s, line, column, i) {
        RoundsDownUnique(text, column, i - start, k);
      }
  }

  method PositionToOffset(s: string, line: nat, column: nat) returns (offset: nat)
    ensures offset == PositionOffset(s, line, column)
  {
    var start := FindLineStart(Encode(s), line);
    LineStartIsScalar(s, line);
    if start.None? {
      return |Encode(s)|;
    }
    var text := LineText(s, line).value;
    var within := Utf16ColumnToByteOffset(text, column);
    offset := start.value + within;
    ghost var first := LineIndex(s, line).value;
    BytesSlice(s, first, LineEnd(s, first), Floor(text, column));
  }

  lemma ScalarIsBoundary(s: string, i: nat)
    requires i <= |s|
    ensures Boundary(s, Bytes(s, i)) && Bytes(s, i) <= |Encode(s)|
  {
    EncodedLength(s);
    BytesIncrease(s, i, |s|);
  }

  lemma OffsetInLine(s: string, line: nat, start: nat, column: nat)
    requires LineIndex(s, line) == Some(start)
    ensures PositionOffset(s, line, column) == Bytes(s, start + Floor(s[start..LineEnd(s, start)], column))
  {
  }

  lemma PositionIndex(s: string, line: nat, column: nat) returns (i: nat)
    ensures i <= |s| && PositionOffset(s, line, column) == Bytes(s, i)
  {
    match LineIndex(s, line)
    case None =>
      EncodedLength(s);
      i := |s|;
    case Some(start) =>
      OffsetInLine(s, line, start, column);
      i := start + Floor(s[start..LineEnd(s, start)], column);
  }

  // Every position, in range or not, is the byte offset of a scalar or of the end of the text.
  lemma PositionsAreBoundaries(s: string, line: nat, column: nat)
    ensures Boundary(s, PositionOffset(s, line, column)) && PositionOffset(s, line, column) <= |Encode(s)|
  {
    var i := PositionIndex(s, line, column);
    ScalarIsBoundary(s, i);
  }

  function Decremented(n: nat): nat {
    if n == 0 then 0 else n - 1
  }

  // A 1-based line and scalar column as a position.
  function DiagnosticPosition(s: string, line: nat, column: nat): (nat, nat) {
    var text := LineText(s, Decremented(line));
    (Decremented(line), CharColumnToUtf16(if text.Some? then text.value else "", Decremented(column)))
  }

  // Rounding down inverts converting from scalars too.
  lemma FloorInverts(text: string, column: nat)
    ensures Floor(text, CharColumnToUtf16(text, column)) == if column <= |text| then column else |text|
  {
    var n := if column <= |text| then column else |text|;
    if n < |text| {
      UnitsIncrease(text, n, n + 1);
    }
    RoundsDownUnique(text, Units(text, n), n, Floor(text, Units(text, n)));
  }

  // Where a diagnostic's own scalar is: the end of the line for a column past it.
  function DiagnosticIndex(s: string, start: nat, column: nat): (i: nat)
    requires start <= |s|
    ensures i <= |s|
  {
    var i := start + Decremented(column);
    if i <= LineEnd(s, start) then i else LineEnd(s, start)
  }

  lemma DiagnosticInLine(s: string, line: nat, start: nat, column: nat, units: nat)
    requires LineIndex(s, line) == Some(start)
    requires units == CharColumnToUtf16(s[start..LineEnd(s, start)], Decremented(column))
    ensures PositionOffset(s, line, units) == Bytes(s, DiagnosticIndex(s, start, column))
  {
    OffsetInLine(s, line, start, units);
    FloorInverts(s[start..LineEnd(s, start)], Decremented(column));
  }

  // A diagnostic's position points back at its own scalar, or at the end of the text for a line past it.
  lemma DiagnosticRoundTrip(s: string, line: nat, column: nat)
    ensures PositionOffset(s, DiagnosticPosition(s, line, column).0, DiagnosticPosition(s, line, column).1)
         == match LineIndex(s, Decremented(line))
            case None => |Encode(s)|
            case Some(start) => Bytes(s, DiagnosticIndex(s, start, column))
  {
    var (l, units) := DiagnosticPosition(s, line, column);
    if LineIndex(s, l).Some? {
      DiagnosticInLine(s, l, LineIndex(s, l).value, column, units);
    }
  }
}
