/**
 Compiled programs and their mutable cells: inline caches, tier counters and the hints
 that remember where a global name was last found.
 */
module Programs {

  type CellId = nat

  // `hints` are the remembered slots of global names, one for each constant.
  datatype Function = Function(code: nat, hints: seq<CellId>, caches: seq<CellId>, tier: CellId, nested: seq<Function>)

  datatype Program = Ast(statements: nat) | Bytecode(main: Function)

  // A function without its cells: what a compiler produces from text alone.
  datatype Code = Code(code: nat, constants: nat, sites: nat, nested: seq<Code>)

  datatype Listing = AstListing(statements: nat) | BytecodeListing(main: Code)

  // What the cells hold; a cell that is not listed is as it was allocated.
  type Memory = map<CellId, nat>

  const PRISTINE: nat := 0

  function Holds(memory: Memory, c: CellId): nat {
    if c in memory then memory[c] else PRISTINE
  }

  ghost predicate AllPristine(memory: Memory, cells: set<CellId>) {
    forall c | c in cells :: Holds(memory, c) == PRISTINE
  }

  // ---------------------------------------------------------------------
  // Programs, their code and their cells
  // ---------------------------------------------------------------------

  function CodeOf(f: Function): Code {
    Code(f.code, |f.hints|, |f.caches|, CodesOf(f.nested))
  }

  function CodesOf(fs: seq<Function>): seq<Code> {
    if fs == [] then [] else [CodeOf(fs[0])] + CodesOf(fs[1..])
  }

  function ListingOf(p: Program): Listing {
    match p
    case Ast(s) => AstListing(s)
    case Bytecode(f) => BytecodeListing(CodeOf(f))
  }

  function Sites(f: Function): nat {
    |f.caches| + SitesIn(f.nested)
  }

  function SitesIn(fs: seq<Function>): nat {
    if fs == [] then 0 else Sites(fs[0]) + SitesIn(fs[1..])
  }

  // `stats` reports nothing for a program on the tree-walking tier.
  predicate NoGuards(p: Program) {
    p.Bytecode? ==> Sites(p.main) == 0
  }

  ghost function CacheCells(f: Function): set<CellId> {
    (set c | c in f.caches) + CacheCellsIn(f.nested)
  }

  ghost function CacheCellsIn(fs: seq<Function>): set<CellId> {
    if fs == [] then {} else CacheCells(fs[0]) + CacheCellsIn(fs[1..])
  }

  ghost function TierCells(f: Function): set<CellId> {
    {f.tier} + TierCellsIn(f.nested)
  }

  ghost function TierCellsIn(fs: seq<Function>): set<CellId> {
    if fs == [] then {} else TierCells(fs[0]) + TierCellsIn(fs[1..])
  }

  // The hint cells of a function tree, in order.
  function HintList(f: Function): seq<CellId> {
    f.hints + HintListIn(f.nested)
  }

  function HintListIn(fs: seq<Function>): seq<CellId> {
    if fs == [] then [] else HintList(fs[0]) + HintListIn(fs[1..])
  }

  function HintsOf(p: Program): seq<CellId> {
    if p.Ast? then [] else HintList(p.main)
  }

  function Hints(p: Program): set<CellId> {
    set c | c in HintsOf(p)
  }

  // Inline caches and counters: what a fork resets.
  ghost function Feedback(p: Program): set<CellId> {
    if p.Ast? then {} else CacheCells(p.main) + TierCells(p.main)
  }

  ghost function Cells(p: Program): set<CellId> {
    Feedback(p) + Hints(p)
  }

  // The feedback that running a program may write: its counters only while feedback is on.
  ghost function Guarded(p: Program, feedbackDisabled: bool): set<CellId> {
    if p.Ast? then {} else if feedbackDisabled then CacheCells(p.main) else Feedback(p)
  }

  // Hints are written whatever the setting.
  ghost function Writable(p: Program, feedbackDisabled: bool): set<CellId> {
    Guarded(p, feedbackDisabled) + Hints(p)
  }

  // ---------------------------------------------------------------------
  // Compiling and forking allocate cells from `next` on
  // ---------------------------------------------------------------------

  function Fresh(n: nat, next: CellId): seq<CellId> {
    seq(n, (i: nat) => next + i)
  }

  function Build(c: Code, next: CellId): (Function, CellId) {
    var n := next + c.constants + c.sites;
    var (nested, end) := BuildAll(c.nested, n + 1);
    (Function(c.code, Fresh(c.constants, next), Fresh(c.sites, next + c.constants), n, nested), end)
  }

  function BuildAll(cs: seq<Code>, next: CellId): (seq<Function>, CellId) {
    if cs == [] then ([], next)
    else
      var (f, mid) := Build(cs[0], next);
      var (fs, end) := BuildAll(cs[1..], mid);
      ([f] + fs, end)
  }

  function BuildProgram(l: Listing, next: CellId): (Program, CellId) {
    match l
    case AstListing(s) => (Ast(s), next)
    case BytecodeListing(c) => var (f, end) := Build(c, next); (Bytecode(f), end)
  }

  // A copy for a new owner: every function of the tree gets new caches and counters, and new
  // hint cells, into which the hints are copied.
  function Fork(f: Function, next: CellId): (Function, CellId) {
    var k, n := |f.hints|, |f.caches|;
    var (nested, end) := ForkAll(f.nested, next + k + n + 1);
    (Function(f.code, Fresh(k, next), Fresh(n, next + k), next + k + n, nested), end)
  }

  function ForkAll(fs: seq<Function>, next: CellId): (seq<Function>, CellId) {
    if fs == [] then ([], next)
    else
      var (f, mid) := Fork(fs[0], next);
      var (rest, end) := ForkAll(fs[1..], mid);
      ([f] + rest, end)
  }

  function ForkProgram(p: Program, next: CellId): (Program, CellId) {
    match p
    case Ast(s) => (p, next)
    case Bytecode(f) => var (g, end) := Fork(f, next); (Bytecode(g), end)
  }

  function Copied(memory: Memory, from: seq<CellId>, to: seq<CellId>): Memory
    requires |from| == |to|
    decreases |to|
  {
    if to == [] then memory
    else Copied(memory, from[..|to| - 1], to[..|to| - 1])[to[|to| - 1] := Holds(memory, from[|to| - 1])]
  }

  // Forking allocates what compiling the same code again would.
  lemma {:induction false} ForkIsRebuild(f: Function, next: CellId)
    ensures Fork(f, next) == Build(CodeOf(f), next)
    decreases f, 0
  {
    ForkAllIsRebuild(f.nested, next + |f.hints| + |f.caches| + 1);
  }

  lemma {:induction false} ForkAllIsRebuild(fs: seq<Function>, next: CellId)
    ensures ForkAll(fs, next) == BuildAll(CodesOf(fs), next)
    decreases fs
  {
    if fs != [] {
      ForkIsRebuild(fs[0], next);
      ForkAllIsRebuild(fs[1..], Fork(fs[0], next).1);
      assert CodesOf(fs)[1..] == CodesOf(fs[1..]);
    }
  }

  ghost predicate Within(s: set<CellId>, low: CellId, high: CellId) {
    forall c | c in s :: low <= c < high
  }

  ghost predicate ListWithin(s: seq<CellId>, low: CellId, high: CellId) {
    forall i | 0 <= i < |s| :: low <= s[i] < high
  }

  ghost predicate Increasing(s: seq<CellId>) {
    forall i, j | 0 <= i < j < |s| :: s[i] < s[j]
  }

  function HintCount(c: Code): nat {
    c.constants + HintCountIn(c.nested)
  }

  function HintCountIn(cs: seq<Code>): nat {
    if cs == [] then 0 else HintCount(cs[0]) + HintCountIn(cs[1..])
  }

  // What is built has the code asked for and owns only cells allocated for it, each once.
  ghost predicate FreshFunction(f: Function, next: CellId, end: CellId) {
    && Within(CacheCells(f), next, end) && Within(TierCells(f), next, end) && ListWithin(HintList(f), next, end)
    && Increasing(HintList(f))
    && (forall i | 0 <= i < |HintList(f)| :: HintList(f)[i] !in CacheCells(f) && HintList(f)[i] !in TierCells(f))
  }

  ghost predicate FreshFunctions(fs: seq<Function>, next: CellId, end: CellId) {
    && Within(CacheCellsIn(fs), next, end) && Within(TierCellsIn(fs), next, end)
        && ListWithin(HintListIn(fs), next, end)
    && Increasing(HintListIn(fs))
    && (forall i | 0 <= i < |HintListIn(fs)| ::
        HintListIn(fs)[i] !in CacheCellsIn(fs) && HintListIn(fs)[i] !in TierCellsIn(fs))
  }

  lemma FreshJoin(f: Function, fs: seq<Function>, all: seq<Function>, next: CellId, mid: CellId, end: CellId)
    requires all != [] && all[0] == f && all[1..] == fs && next <= mid <= end
    requires FreshFunction(f, next, mid) && FreshFunctions(fs, mid, end)
    ensures FreshFunctions(all, next, end)
  {
    var hints := HintListIn(all);
    forall i | 0 <= i < |hints| ensures hints[i] !in CacheCellsIn(all) && hints[i] !in TierCellsIn(all) {
      if i < |HintList(f)| {
        assert hints[i] == HintList(f)[i] && hints[i] < mid;
      } else {
        assert hints[i] == HintListIn(fs)[i - |HintList(f)|] && mid <= hints[i];
      }
    }
  }

  lemma FreshNode(f: Function, next: CellId, n: CellId, end: CellId)
    requires next <= n && f.hints == Fresh(|f.hints|, next) && f.caches == Fresh(|f.caches|, next + |f.hints|)
    requires f.tier == n == next + |f.hints| + |f.caches| && n < end && FreshFunctions(f.nested, n + 1, end)
    ensures FreshFunction(f, next, end)
  {
    var hints := HintList(f);
    forall i | 0 <= i < |hints| ensures hints[i] !in CacheCells(f) && hints[i] !in TierCells(f) {
      if i < |f.hints| {
        assert hints[i] == f.hints[i] == next + i;
      } else {
        assert hints[i] == HintListIn(f.nested)[i - |f.hints|] && n < hints[i];
      }
    }
  }

  lemma {:induction false} BuildIsFresh(c: Code, next: CellId)
    ensures CodeOf(Build(c, next).0) == c && next < Build(c, next).1
    ensures FreshFunction(Build(c, next).0, next, Build(c, next).1)
    decreases c, 0
  {
    var n := next + c.constants + c.sites;
    BuildAllIsFresh(c.nested, n + 1);
    FreshNode(Build(c, next).0, next, n, Build(c, next).1);
  }

  lemma {:induction false} BuildAllIsFresh(cs: seq<Code>, next: CellId)
    ensures CodesOf(BuildAll(cs, next).0) == cs && next <= BuildAll(cs, next).1
    ensures FreshFunctions(BuildAll(cs, next).0, next, BuildAll(cs, next).1)
    decreases cs
  {
    if cs != [] {
      var (f, mid) := Build(cs[0], next);
      BuildIsFresh(cs[0], next);
      BuildAllIsFresh(cs[1..], mid);
      assert BuildAll(cs, next).0[1..] == BuildAll(cs[1..], mid).0;
      FreshJoin(f, BuildAll(cs[1..], mid).0, BuildAll(cs, next).0, next, mid, BuildAll(cs, next).1);
    }
  }

  // The cells of a program: each hint once, and none of them a cache or a counter.
  ghost predicate Tidy(p: Program) {
    Increasing(HintsOf(p)) && Hints(p) !! Feedback(p)
  }

  lemma BuiltProgram(l: Listing, next: CellId)
    ensures ListingOf(BuildProgram(l, next).0) == l && next <= BuildProgram(l, next).1
    ensures Within(Cells(BuildProgram(l, next).0), next, BuildProgram(l, next).1) && Tidy(BuildProgram(l, next).0)
  {
    match l
    case AstListing(s) =>
    case BytecodeListing(c) => BuildIsFresh(c, next);
  }

  lemma ForkedProgram(p: Program, next: CellId)
    ensures ForkProgram(p, next) == BuildProgram(ListingOf(p), next)
  {
    match p
    case Ast(s) =>
    case Bytecode(f) => ForkIsRebuild(f, next);
  }

  lemma {:induction false} HintsCounted(f: Function)
    ensures |HintList(f)| == HintCount(CodeOf(f))
    decreases f, 0
  {
    HintsCountedIn(f.nested);
  }

  lemma {:induction false} HintsCountedIn(fs: seq<Function>)
    ensures |HintListIn(fs)| == HintCountIn(CodesOf(fs))
    decreases fs
  {
    if fs != [] {
      HintsCounted(fs[0]);
      HintsCountedIn(fs[1..]);
      assert CodesOf(fs)[1..] == CodesOf(fs[1..]);
    }
  }

  // Two programs of one listing have equally many hints.
  lemma SameHintCount(p: Program, q: Program)
    requires ListingOf(p) == ListingOf(q)
    ensures |HintsOf(p)| == |HintsOf(q)|
  {
    if p.Bytecode? {
      HintsCounted(p.main);
      HintsCounted(q.main);
    }
  }

  function SiteCount(c: Code): nat {
    c.sites + SiteCountIn(c.nested)
  }

  function SiteCountIn(cs: seq<Code>): nat {
    if cs == [] then 0 else SiteCount(cs[0]) + SiteCountIn(cs[1..])
  }

  lemma {:induction false} SitesCounted(f: Function)
    ensures Sites(f) == SiteCount(CodeOf(f))
    decreases f, 0
  {
    SitesCountedIn(f.nested);
  }

  lemma {:induction false} SitesCountedIn(fs: seq<Function>)
    ensures SitesIn(fs) == SiteCountIn(CodesOf(fs))
    decreases fs
  {
    if fs != [] {
      SitesCounted(fs[0]);
      SitesCountedIn(fs[1..]);
      assert CodesOf(fs)[1..] == CodesOf(fs[1..]);
    }
  }

  // Two programs of one listing agree on whether they have cache sites.
  lemma SameSites(p: Program, q: Program)
    requires ListingOf(p) == ListingOf(q)
    ensures NoGuards(p) == NoGuards(q)
  {
    if p.Bytecode? {
      SitesCounted(p.main);
      SitesCounted(q.main);
    }
  }

  // Without cache sites there is nothing a feedback-free run could write but hints.
  lemma {:induction false} NoSitesNoCells(f: Function)
    requires Sites(f) == 0
    ensures CacheCells(f) == {}
    decreases f, 0
  {
    NoSitesNoCellsIn(f.nested);
  }

  lemma {:induction false} NoSitesNoCellsIn(fs: seq<Function>)
    requires SitesIn(fs) == 0
    ensures CacheCellsIn(fs) == {}
    decreases fs
  {
    if fs != [] {
      NoSitesNoCells(fs[0]);
      NoSitesNoCellsIn(fs[1..]);
    }
  }

  lemma {:induction false} CopiedAt(memory: Memory, from: seq<CellId>, to: seq<CellId>, c: CellId)
    requires |from| == |to| && Increasing(to)
    ensures c !in to ==> Holds(Copied(memory, from, to), c) == Holds(memory, c)
    ensures forall i | 0 <= i < |to| && to[i] == c :: Holds(Copied(memory, from, to), c) == Holds(memory, from[i])
    decreases |to|
  {
    if to != [] {
      var n := |to| - 1;
      CopiedAt(memory, from[..n], to[..n], c);
    }
  }

  lemma {:induction false} CopiedKeys(memory: Memory, from: seq<CellId>, to: seq<CellId>)
    requires |from| == |to|
    ensures Copied(memory, from, to).Keys == memory.Keys + (set c | c in to)
    decreases |to|
  {
    if to != [] {
      var n := |to| - 1;
      CopiedKeys(memory, from[..n], to[..n]);
      assert to == to[..n] + [to[n]];
    }
  }
}
