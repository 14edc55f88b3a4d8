/** Replacing spans of a text: one by one from the right, or all at once from the left. */
module TextSplice {

  type Text = seq<int>

  // A piece of a text by its length; only an `open` one may be replaced.
  datatype Span = Span(len: nat, open: bool)

  // Replacement texts by the offset of the span they replace.
  type Texts = map<nat, Text>

  // The spans cover all of `s`.
  predicate Covers(spans: seq<Span>, s: Text)
    decreases |spans|
  {
    if spans == [] then s == [] else 0 < spans[0].len <= |s| && Covers(spans[1..], s[spans[0].len..])
  }

  function Piece(span: Span, s: Text, base: nat, texts: Texts): Text
    requires span.len <= |s|
  {
    if span.open && base in texts then texts[base] else s[..span.len]
  }

  // The text `s`, which starts at offset `base`, with the chosen spans replaced and all else kept.
  function Weave(spans: seq<Span>, s: Text, base: nat, texts: Texts): Text
    requires Covers(spans, s)
    decreases |spans|
  {
    if spans == [] then []
    else Piece(spans[0], s, base, texts) + Weave(spans[1..], s[spans[0].len..], base + spans[0].len, texts)
  }

  lemma WeaveCons(spans: seq<Span>, s: Text, base: nat, texts: Texts)
    requires spans != [] && Covers(spans, s)
    ensures Weave(spans, s, base, texts) ==
            Piece(spans[0], s, base, texts) + Weave(spans[1..], s[spans[0].len..], base + spans[0].len, texts)
  {
  }

  // With nothing replaced the text is as it was.
  lemma {:induction false} WeaveNothing(spans: seq<Span>, s: Text, base: nat)
    requires Covers(spans, s)
    ensures Weave(spans, s, base, map[]) == s
    decreases |spans|
  {
    if spans != [] {
      WeaveNothing(spans[1..], s[spans[0].len..], base + spans[0].len);
      assert s == s[..spans[0].len] + s[spans[0].len..];
    }
  }

  // ---------------------------------------------------------------------
  // Splicing
  // ---------------------------------------------------------------------

  datatype Replacement = Replacement(start: nat, end: nat, text: Text)

  predicate Fits(s: Text, item: Replacement) {
    item.start <= item.end <= |s|
  }

  function Clamp(s: Text, i: nat): (j: nat)
    ensures j <= |s|
  {
    if i <= |s| then i else |s|
  }

  // Offsets past the end of the text mean its end.
  function Splice(s: Text, item: Replacement): Text {
    s[..Clamp(s, item.start)] + item.text + s[Clamp(s, item.end)..]
  }

  // An open span of `spans`, which start at offset `base`, goes from `start` to `end`.
  ghost predicate SpanAt(spans: seq<Span>, base: nat, start: nat, end: nat)
    decreases |spans|
  {
    && spans != []
    && if start == base then spans[0].open && end == base + spans[0].len
       else base < start && SpanAt(spans[1..], base + spans[0].len, start, end)
  }

  ghost predicate Later(texts: Texts, start: nat) {
    forall k | k in texts :: start < k
  }

  lemma {:induction false} WeaveAgree(spans: seq<Span>, s: Text, base: nat, e: Texts, e': Texts)
    requires Covers(spans, s) && forall k | k >= base :: (k in e <==> k in e') && (k in e ==> e[k] == e'[k])
    ensures Weave(spans, s, base, e) == Weave(spans, s, base, e')
    decreases |spans|
  {
    if spans != [] {
      WeaveAgree(spans[1..], s[spans[0].len..], base + spans[0].len, e, e');
    }
  }

  function Shifted(item: Replacement, base: nat): Replacement
    requires base <= item.start && base <= item.end
  {
    Replacement(item.start - base, item.end - base, item.text)
  }

  lemma {:induction false} SpanBounds(spans: seq<Span>, s: Text, base: nat, start: nat, end: nat)
    requires Covers(spans, s) && SpanAt(spans, base, start, end)
    ensures base <= start < end <= base + |s|
    decreases |spans|
  {
    if start != base {
      SpanBounds(spans[1..], s[spans[0].len..], base + spans[0].len, start, end);
    }
  }

  lemma SpliceShift(w: Text, front: Text, rest: Text, item: Replacement, base: nat)
    requires w == front + rest
    requires base + |front| <= item.start && base + |front| <= item.end && Fits(rest, Shifted(item, base + |front|))
    ensures Fits(w, Shifted(item, base))
    ensures Splice(w, Shifted(item, base)) == front + Splice(rest, Shifted(item, base + |front|))
  {
    var near := Shifted(item, base + |front|);
    assert w[..item.start - base] == front + rest[..near.start];
    assert w[item.end - base..] == rest[near.end..];
  }

  lemma SpliceFront(w: Text, front: Text, rest: Text, item: Replacement)
    requires w == front + rest && item.end == item.start + |front|
    ensures Fits(w, Shifted(item, item.start)) && Splice(w, Shifted(item, item.start)) == item.text + rest
  {
    assert w[|front|..] == rest && w[..0] == [];
    assert [] + item.text + rest == item.text + rest;
  }

  lemma SpliceHere(spans: seq<Span>, s: Text, texts: Texts, item: Replacement)
    requires spans != [] && Covers(spans, s) && spans[0].open && item.end == item.start + spans[0].len
             && Later(texts, item.start)
    ensures Fits(Weave(spans, s, item.start, texts), Shifted(item, item.start))
    ensures Splice(Weave(spans, s, item.start, texts), Shifted(item, item.start)) ==
            Weave(spans, s, item.start, texts[item.start := item.text])
  {
    var n, base, e' := spans[0].len, item.start, texts[item.start := item.text];
    var rest := Weave(spans[1..], s[n..], base + n, texts);
    WeaveCons(spans, s, base, texts);
    WeaveCons(spans, s, base, e');
    WeaveAgree(spans[1..], s[n..], base + n, texts, e');
    assert base !in texts;
    SpliceFront(Weave(spans, s, base, texts), s[..n], rest, item);
  }

  lemma SplicePast(spans: seq<Span>, s: Text, base: nat, texts: Texts, e': Texts, item: Replacement)
    requires spans != [] && Covers(spans, s) && base !in texts && base !in e'
    requires base + spans[0].len <= item.start <= item.end
    requires Fits(Weave(spans[1..], s[spans[0].len..], base + spans[0].len, texts), Shifted(item, base + spans[0].len))
    requires Splice(Weave(spans[1..], s[spans[0].len..], base + spans[0].len, texts),
             Shifted(item, base + spans[0].len)) ==
             Weave(spans[1..], s[spans[0].len..], base + spans[0].len, e')
    ensures Fits(Weave(spans, s, base, texts), Shifted(item, base))
    ensures Splice(Weave(spans, s, base, texts), Shifted(item, base)) == Weave(spans, s, base, e')
  {
    WeaveCons(spans, s, base, texts);
    WeaveCons(spans, s, base, e');
    SpliceShift(Weave(spans, s, base, texts), s[..spans[0].len],
        Weave(spans[1..], s[spans[0].len..], base + spans[0].len, texts), item, base);
  }

  // Splicing a span that lies before every one replaced so far adds it to the replaced ones.
  lemma {:induction false} SpliceWeave(spans: seq<Span>, s: Text, base: nat, texts: Texts, item: Replacement)
    requires Covers(spans, s) && SpanAt(spans, base, item.start, item.end) && Later(texts, item.start)
             && base <= item.start <= item.end
    ensures Fits(Weave(spans, s, base, texts), Shifted(item, base))
    ensures Splice(Weave(spans, s, base, texts), Shifted(item, base))
            == Weave(spans, s, base, texts[item.start := item.text])
    decreases |spans|
  {
    if item.start == base {
      SpliceHere(spans, s, texts, item);
    } else {
      var n := spans[0].len;
      SpanBounds(spans[1..], s[n..], base + n, item.start, item.end);
      SpliceWeave(spans[1..], s[n..], base + n, texts, item);
      SplicePast(spans, s, base, texts, texts[item.start := item.text], item);
    }
  }

  // ---------------------------------------------------------------------
  // A list of replacements
  // ---------------------------------------------------------------------

  function SpliceAll(s: Text, items: seq<Replacement>): Text
    decreases |items|
  {
    if items == [] then s else SpliceAll(Splice(s, items[0]), items[1..])
  }

  ghost predicate Descending(items: seq<Replacement>) {
    forall i, j | 0 <= i < j < |items| :: items[i].start > items[j].start
  }

  function TextsOf(items: seq<Replacement>): Texts {
    if items == [] then map[] else TextsOf(items[..|items| - 1])[items[|items| - 1].start := items[|items| - 1].text]
  }

  lemma {:induction false} TextsFrom(items: seq<Replacement>, k: nat)
    requires k in TextsOf(items)
    ensures exists i | 0 <= i < |items| :: items[i].start == k
  {
    var n := |items| - 1;
    if items[n].start != k {
      TextsFrom(items[..n], k);
      var i :| 0 <= i < n && items[..n][i].start == k;
      assert items[i].start == k;
    }
  }

  // From right to left every span is still where it was, so one pass replaces them all.
  lemma {:induction false} SpliceAllWeaves(spans: seq<Span>, s: Text, items: seq<Replacement>, n: nat)
    requires Covers(spans, s) && Descending(items) && n <= |items|
    requires forall i | 0 <= i < |items| :: SpanAt(spans, 0, items[i].start, items[i].end)
    ensures SpliceAll(Weave(spans, s, 0, TextsOf(items[..n])), items[n..]) == Weave(spans, s, 0, TextsOf(items))
    decreases |items| - n
  {
    if n == |items| {
      assert items[..n] == items && items[n..] == [];
    } else {
      var item, done := items[n], TextsOf(items[..n]);
      SpanBounds(spans, s, 0, item.start, item.end);
      forall k | k in done ensures item.start < k {
        TextsFrom(items[..n], k);
      }
      SpliceWeave(spans, s, 0, done, item);
      assert Shifted(item, 0) == item;
      assert items[..n + 1][..n] == items[..n];
      assert TextsOf(items[..n + 1]) == done[item.start := item.text];
      SpliceAllWeaves(spans, s, items, n + 1);
      assert items[n..][1..] == items[n + 1..];
    }
  }
}
