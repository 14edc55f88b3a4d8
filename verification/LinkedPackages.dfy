/** The linker as a whole: what the text of a registered module imports is registered. */
module LinkedPackages {
  import opened Wrappers
  import opened ModuleLexer
  import opened JsonQuote
  import opened ModuleRewrite
  import opened ModuleScan
  import opened ScanRepeats
  import opened LinkedScan
  import opened SpelledText
  import P = PackageLoader

  // What scanning the module's text finds are its recorded targets.
  ghost predicate Speaks(m: P.Module) {
    forall i | 0 <= i < |Imports(Tokens(m.source))| :: Imports(Tokens(m.source))[i].specifier in m.targets
  }

  // The module is `code` with its imports rewritten to the module's targets.
  ghost predicate LinkedFrom(m: P.Module, code: Text) {
    var imports := Imports(Tokens(code));
    && |imports| == |m.targets| && !Overlapping(Tokens(code))
    && (forall i | 0 <= i < |imports| :: Linkable(m.targets[i]) && !Stops(imports[i].specifier))
    && m.source == RewrittenText(code, imports, m.targets)
  }

  lemma LinkedSpeaks(m: P.Module, code: Text)
    requires LinkedFrom(m, code)
    ensures Speaks(m)
  {
    LinkedModuleScans(code, m.targets);
  }

  // ---------------------------------------------------------------------
  // The alias of a package
  // ---------------------------------------------------------------------

  // `export * from "entry";`
  function StarAlias(entry: Text): seq<Piece> {
    [Plain("export"), SPACE, Sign('*'), SPACE, Plain("from"), SPACE, Literal(entry), Sign(';')]
  }

  // `export { default } from "entry";`
  function DefaultAlias(entry: Text): seq<Piece> {
    [Plain("export"), SPACE, Sign('{'), SPACE, Plain("default"), SPACE, Sign('}'), SPACE,
     Plain("from"), SPACE, Literal(entry), Sign(';')]
  }

  function AliasPieces(entry: Text, hasDefault: bool): seq<Piece> {
    if hasDefault then StarAlias(entry) + [Gap('\n')] + DefaultAlias(entry) else StarAlias(entry)
  }

  function AliasSource(entry: Text, hasDefault: bool): Text {
    AllSpelled(AliasPieces(entry, hasDefault))
  }

  lemma StarSpaced(entry: Text)
    ensures WellSpaced(StarAlias(entry))
  {
  }

  lemma DefaultSpaced(entry: Text)
    ensures WellSpaced(DefaultAlias(entry))
  {
  }

  lemma SpacedConcat(a: seq<Piece>, b: seq<Piece>)
    requires WellSpaced(a) && WellSpaced(b)
    ensures WellSpaced(a + b)
  {
  }

  lemma AliasSpaced(entry: Text, hasDefault: bool)
    ensures WellSpaced(AliasPieces(entry, hasDefault))
  {
    StarSpaced(entry);
    DefaultSpaced(entry);
    if hasDefault {
      SpacedConcat(StarAlias(entry), [Gap('\n')]);
      SpacedConcat(StarAlias(entry) + [Gap('\n')], DefaultAlias(entry));
    }
  }

  ghost predicate Quotes(ps: seq<Piece>, entry: Text) {
    forall i | 0 <= i < |ps| && ps[i].Literal? :: ps[i].value == entry
  }

  // Every string among the tokens is one of the literals.
  lemma {:induction false} StringsQuoted(ps: seq<Piece>, entry: Text, depth: nat)
    requires Quotes(ps, entry)
    ensures forall s | s in Shapes(ps, depth) && s.kind.String? :: s.value == Decode(Escape(entry))
  {
    if ps != [] {
      StringsQuoted(ps[1..], entry, DepthAfter(LexemeOf(ps[0]), depth));
    }
  }

  lemma ImportsQuoted(ps: seq<Piece>, entry: Text, ts: seq<Token>, i: nat)
    requires WellSpaced(ps) && Quotes(ps, entry) && WideCount(entry) == 0
    requires ts == Tokens(AllSpelled(ps)) && i < |Imports(ts)|
    ensures Imports(ts)[i].specifier == entry
  {
    SpelledTokens(ps);
    StringsQuoted(ps, entry, 0);
    DecodeEscape(entry);
    ImportsAreTokens(ts, i);
    var k :| 0 <= k < |ts| && ts[k].kind.String? && ts[k].value == Imports(ts)[i].specifier;
    assert ShapesOf(ts)[k] in Shapes(ps, 0);
  }

  lemma AliasQuotes(entry: Text, hasDefault: bool)
    ensures Quotes(AliasPieces(entry, hasDefault), entry)
  {
    assert Quotes(StarAlias(entry), entry) && Quotes(DefaultAlias(entry), entry);
  }

  // The alias imports the entry and nothing else.
  lemma AliasSpeaks(entry: Text, hasDefault: bool)
    requires WideCount(entry) == 0
    ensures Speaks(P.Alias(entry, AliasSource(entry, hasDefault)))
  {
    var ts := Tokens(AliasSource(entry, hasDefault));
    AliasSpaced(entry, hasDefault);
    AliasQuotes(entry, hasDefault);
    forall i | 0 <= i < |Imports(ts)| ensures Imports(ts)[i].specifier == entry {
      ImportsQuoted(AliasPieces(entry, hasDefault), entry, ts, i);
    }
  }

  // ---------------------------------------------------------------------
  // Runs of the loader
  // ---------------------------------------------------------------------

  ghost predicate AllSpeak(vm: P.Modules, registered: set<Text>) {
    forall n | n in registered && n in vm :: Speaks(vm[n])
  }

  // Every specifier in the text of a registered module names a registered module.
  ghost predicate Resolves(vm: P.Modules, registered: set<Text>) {
    forall n | n in registered && n in vm ::
      forall i | 0 <= i < |Imports(Tokens(vm[n].source))| :: Imports(Tokens(vm[n].source))[i].specifier in registered
  }

  // Packages are loaded as the linker prepares them.
  ghost predicate LinkedEvent(e: P.Event) {
    e.Load? ==> (forall n | n in e.prepared :: Speaks(e.prepared[n])) && Speaks(P.Alias(e.entry, e.text))
  }

  lemma SpeakNext(s: P.Registry, e: P.Event)
    requires AllSpeak(s.vm, s.registered) && P.Allowed(s, e) && LinkedEvent(e)
    ensures AllSpeak(P.Next(s, e).vm, P.Next(s, e).registered)
  {
    if e.Load? {
      var t := P.Next(s, e);
      forall n | n in t.registered && n in t.vm ensures Speaks(t.vm[n]) {
        if t.vm[n] != P.Alias(e.entry, e.text) && n !in P.Known(s.vm, s.registered) && n in e.prepared {
          assert t.vm[n] == e.prepared[n];
        }
      }
    }
  }

  lemma {:induction false} RunSpeaks(s: P.Registry, es: seq<P.Event>)
    requires AllSpeak(s.vm, s.registered) && P.Run(s, es) && forall e | e in es :: LinkedEvent(e)
    ensures AllSpeak(P.After(s, es).vm, P.After(s, es).registered)
    decreases |es|
  {
    if es != [] {
      SpeakNext(s, es[0]);
      RunSpeaks(P.Next(s, es[0]), es[1..]);
    }
  }

  // After any run from an empty registry, whatever the text of a loaded module imports was loaded too.
  lemma LoadedResolves(vm: P.Modules, es: seq<P.Event>)
    requires P.Run(P.Registry(vm, {}), es) && forall e | e in es :: LinkedEvent(e)
    ensures var s := P.After(P.Registry(vm, {}), es); Resolves(s.vm, s.registered)
  {
    P.RunStaysLoose(P.Registry(vm, {}), es);
    RunSpeaks(P.Registry(vm, {}), es);
    var s := P.After(P.Registry(vm, {}), es);
    forall n | n in s.registered && n in s.vm
      ensures forall i | 0 <= i < |Imports(Tokens(s.vm[n].source))| ::
              Imports(Tokens(s.vm[n].source))[i].specifier in s.registered
    {
      assert Speaks(s.vm[n]);
    }
  }
}
