/**
 The bounded cache of unexecuted program templates. Two owners may share a template only
 where the feedback of neither can reach the other.
 */
module ProgramCache {
  import opened Wrappers
  import opened Programs

  const MAX_ENTRIES: nat := 64
  const MAX_BYTES: nat := 2 * 1024 * 1024

  // Source text as its UTF-8 bytes.
  type Source = seq<bv8>

  datatype CompileError = CompileError(message: string)

  type Compiler = Source -> Result<Listing, CompileError>

  // ---------------------------------------------------------------------
  // The cache
  // ---------------------------------------------------------------------

  datatype Entry = Entry(program: Program, noGuards: bool)

  datatype Cache = Cache(programs: map<Source, Entry>, order: seq<Source>, bytes: nat)

  function TotalBytes(order: seq<Source>): nat {
    if order == [] then 0 else |order[0]| + TotalBytes(order[1..])
  }

  ghost predicate Distinct(order: seq<Source>) {
    forall i, j | 0 <= i < j < |order| :: order[i] != order[j]
  }

  // `order` lists the keys of `programs`, each once.
  ghost predicate Lists(order: seq<Source>, programs: map<Source, Entry>) {
    Distinct(order) && |programs| == |order| && forall s :: s in order <==> s in programs
  }

  ghost predicate Listed(c: Cache) {
    Lists(c.order, c.programs) && c.bytes == TotalBytes(c.order)
  }

  ghost predicate Bounded(c: Cache) {
    |c.order| <= MAX_ENTRIES && c.bytes <= MAX_BYTES
  }

  // An entry is an unexecuted compilation of its key.
  ghost predicate Compiled(compile: Compiler, s: Source, e: Entry) {
    compile(s) == Ok(ListingOf(e.program)) && e.noGuards == NoGuards(e.program)
  }

  ghost predicate Genuine(compile: Compiler, c: Cache) {
    forall s | s in c.programs :: Compiled(compile, s, c.programs[s])
  }

  predicate Crowded(c: Cache, len: nat) {
    |c.programs| >= MAX_ENTRIES || c.bytes + len > MAX_BYTES
  }

  function DropOldest(c: Cache): Cache
    requires c.order != [] && |c.order[0]| <= c.bytes
  {
    Cache(c.programs - {c.order[0]}, c.order[1..], c.bytes - |c.order[0]|)
  }

  lemma ListsTail(order: seq<Source>, programs: map<Source, Entry>)
    requires Lists(order, programs) && order != []
    ensures Lists(order[1..], programs - {order[0]})
  {
    var rest := programs - {order[0]};
    assert order[0] in programs;
    assert rest.Keys == programs.Keys - {order[0]};
    assert |rest| == |rest.Keys| && |programs| == |programs.Keys|;
    forall s ensures s in order[1..] <==> s in rest {
      assert order == [order[0]] + order[1..];
      assert s in order <==> s in programs;
    }
  }

  lemma DropKeeps(c: Cache)
    requires Listed(c) && c.order != []
    ensures |c.order[0]| <= c.bytes && Listed(DropOldest(c))
  {
    ListsTail(c.order, c.programs);
  }

  // The queue is never popped when empty.
  lemma CrowdedHasOldest(c: Cache, len: nat)
    requires Listed(c) && len <= MAX_BYTES && Crowded(c, len)
    ensures c.order != []
  {
  }

  ghost function Evict(c: Cache, len: nat): (d: Cache)
    requires Listed(c) && len <= MAX_BYTES
    ensures Listed(d) && !Crowded(d, len)
    decreases |c.order|
  {
    if Crowded(c, len) then CrowdedHasOldest(c, len); DropKeeps(c); Evict(DropOldest(c), len) else c
  }

  ghost predicate Room(order: seq<Source>, len: nat) {
    |order| < MAX_ENTRIES && TotalBytes(order) + len <= MAX_BYTES
  }

  // Eviction drops the shortest run of oldest entries that makes room, and nothing else.
  lemma {:induction false} EvictsLeast(c: Cache, len: nat) returns (k: nat)
    requires Listed(c) && len <= MAX_BYTES
    ensures k <= |c.order| && Evict(c, len).order == c.order[k..] && Room(c.order[k..], len)
    ensures forall j | 0 <= j < k :: !Room(c.order[j..], len)
    ensures forall s | s in c.order[k..] ::
            s in Evict(c, len).programs && s in c.programs && Evict(c, len).programs[s] == c.programs[s]
    decreases |c.order|
  {
    if Crowded(c, len) {
      CrowdedHasOldest(c, len);
      DropKeeps(c);
      var below := EvictsLeast(DropOldest(c), len);
      k := below + 1;
      assert DropOldest(c).order[below..] == c.order[k..];
      forall j | 0 <= j < k ensures !Room(c.order[j..], len) {
        if j == 0 {
          assert c.order[0..] == c.order;
        } else {
          assert DropOldest(c).order[j - 1..] == c.order[j..];
        }
      }
    } else {
      k := 0;
      assert c.order[0..] == c.order;
    }
  }

  function Added(c: Cache, s: Source, e: Entry): Cache {
    Cache(c.programs[s := e], c.order + [s], c.bytes + |s|)
  }

  lemma {:induction false} TotalBytesSnoc(order: seq<Source>, s: Source)
    ensures TotalBytes(order + [s]) == TotalBytes(order) + |s|
  {
    if order != [] {
      TotalBytesSnoc(order[1..], s);
      assert (order + [s])[1..] == order[1..] + [s];
    } else {
      assert [s][1..] == [];
    }
  }

  lemma AddKeeps(c: Cache, s: Source, e: Entry)
    requires Listed(c) && s !in c.programs && !Crowded(c, |s|)
    ensures Listed(Added(c, s, e)) && Bounded(Added(c, s, e))
  {
    TotalBytesSnoc(c.order, s);
    var d := Added(c, s, e);
    assert d.programs.Keys == c.programs.Keys + {s};
    assert |d.programs| == |d.programs.Keys| && |c.programs| == |c.programs.Keys|;
    assert s !in c.order;
  }

  // ---------------------------------------------------------------------
  // One lookup
  // ---------------------------------------------------------------------

  datatype Lookup = Lookup(cache: Cache, next: CellId, memory: Memory, result: Result<Program, CompileError>)

  datatype Given = Given(program: Program, next: CellId, memory: Memory)

  lemma ForkKeepsHintCount(p: Program, next: CellId)
    ensures |HintsOf(ForkProgram(p, next).0)| == |HintsOf(p)|
  {
    ForkedProgram(p, next);
    BuiltProgram(ListingOf(p), next);
    SameHintCount(ForkProgram(p, next).0, p);
  }

  function Forked(p: Program, next: CellId, memory: Memory): Given {
    var (q, end) := ForkProgram(p, next);
    ForkKeepsHintCount(p, next);
    Given(q, end, Copied(memory, HintsOf(p), HintsOf(q)))
  }

  // The template itself where only hints in it can be written, a fork of it otherwise.
  function HandOut(e: Entry, feedbackDisabled: bool, next: CellId, memory: Memory): Given {
    if feedbackDisabled && e.noGuards then Given(e.program, next, memory) else Forked(e.program, next, memory)
  }

  ghost function Store(c: Cache, s: Source, e: Entry): Cache
    requires Listed(c)
  {
    if |s| <= MAX_BYTES then Added(Evict(c, |s|), s, e) else c
  }

  ghost function Prepare(compile: Compiler, c: Cache, next: CellId, memory: Memory, s: Source,
      feedbackDisabled: bool): Lookup
    requires Listed(c)
  {
    if s in c.programs then
      var g := HandOut(c.programs[s], feedbackDisabled, next, memory);
      Lookup(c, g.next, g.memory, Ok(g.program))
    else
      match compile(s)
      case Err(e) => Lookup(c, next, memory, Err(e))
      case Ok(listing) =>
        var (template, mid) := BuildProgram(listing, next);
        var entry := Entry(template, NoGuards(template));
        var g := HandOut(entry, feedbackDisabled, mid, memory);
        Lookup(Store(c, s, entry), g.next, g.memory, Ok(g.program))
  }

  // Eviction keeps only entries that were there.
  lemma EvictKeeps(c: Cache, len: nat)
    requires Listed(c) && len <= MAX_BYTES
    ensures forall t | t in Evict(c, len).programs :: t in c.programs && Evict(c, len).programs[t] == c.programs[t]
  {
    var k := EvictsLeast(c, len);
    forall t | t in Evict(c, len).programs ensures t in c.programs && Evict(c, len).programs[t] == c.programs[t] {
      assert t in Evict(c, len).order;
    }
  }

  lemma StoreKeeps(compile: Compiler, c: Cache, s: Source, e: Entry)
    requires Listed(c) && Bounded(c) && Genuine(compile, c) && s !in c.programs && Compiled(compile, s, e)
    ensures Listed(Store(c, s, e)) && Bounded(Store(c, s, e)) && Genuine(compile, Store(c, s, e))
    ensures forall t | t in Store(c, s, e).programs ::
              (t == s && Store(c, s, e).programs[t] == e)
                  || (t in c.programs && Store(c, s, e).programs[t] == c.programs[t])
  {
    if |s| <= MAX_BYTES {
      EvictKeeps(c, |s|);
      AddKeeps(Evict(c, |s|), s, e);
    }
  }

  // ---------------------------------------------------------------------
  // Runs: lookups, and owners that run what they were handed
  // ---------------------------------------------------------------------

  datatype Handed = Handed(source: Source, feedbackDisabled: bool, program: Program)

  datatype State = State(cache: Cache, next: CellId, memory: Memory, handed: seq<Handed>)

  datatype Label = Look(source: Source, feedbackDisabled: bool) | Write(owner: nat, cell: CellId, value: nat)

  ghost predicate Enabled(s: State, l: Label) {
    l.Write? ==>
      && l.owner < |s.handed|
      && l.cell in Writable(s.handed[l.owner].program, s.handed[l.owner].feedbackDisabled)
  }

  // A cached template: allocated, tidy, and its caches and counters never touched.
  ghost predicate Template(p: Program, next: CellId, memory: Memory) {
    Within(Cells(p), 0, next) && Tidy(p) && AllPristine(memory, Feedback(p))
  }

  ghost predicate Allocated(memory: Memory, next: CellId) {
    forall c | c in memory :: c < next
  }

  ghost predicate SameBelow(memory: Memory, memory': Memory, next: CellId) {
    forall c: CellId | c < next :: Holds(memory', c) == Holds(memory, c)
  }

  ghost predicate TemplatesApart(c: Cache) {
    forall s, t | s in c.programs && t in c.programs && s != t ::
        Cells(c.programs[s].program) !! Cells(c.programs[t].program)
  }

  ghost predicate CacheInv(compile: Compiler, c: Cache, next: CellId, memory: Memory) {
    && Listed(c) && Bounded(c) && Genuine(compile, c) && Allocated(memory, next) && TemplatesApart(c)
    && forall s | s in c.programs :: Template(c.programs[s].program, next, memory)
  }

  // Owner and program `p` have no cell in common, unless `p` is the owner's own program; and
  // in no case is feedback of the owner a cell of `p`.
  ghost predicate Apart(h: Handed, p: Program) {
    && Guarded(h.program, h.feedbackDisabled) !! Cells(p)
    && (Cells(h.program) !! Cells(p) || (h.program == p && h.feedbackDisabled && NoGuards(p)))
  }

  ghost predicate HandedInv(compile: Compiler, s: State, i: nat)
    requires i < |s.handed|
  {
    && Within(Cells(s.handed[i].program), 0, s.next)
    && compile(s.handed[i].source) == Ok(ListingOf(s.handed[i].program))
    && (forall t | t in s.cache.programs :: Apart(s.handed[i], s.cache.programs[t].program))
    && (forall j | 0 <= j < |s.handed| && j != i :: Apart(s.handed[i], s.handed[j].program))
  }

  ghost predicate Inv(compile: Compiler, s: State) {
    && CacheInv(compile, s.cache, s.next, s.memory)
    && forall i | 0 <= i < |s.handed| :: HandedInv(compile, s, i)
  }

  ghost function Looked(compile: Compiler, s: State, source: Source, feedbackDisabled: bool): State
    requires Listed(s.cache)
  {
    var l := Prepare(compile, s.cache, s.next, s.memory, source, feedbackDisabled);
    State(l.cache, l.next, l.memory,
          if l.result.Ok? then s.handed + [Handed(source, feedbackDisabled, l.result.value)] else s.handed)
  }

  ghost function Next(compile: Compiler, s: State, l: Label): State
    requires Listed(s.cache) && Enabled(s, l)
  {
    match l
    case Look(source, feedbackDisabled) => Looked(compile, s, source, feedbackDisabled)
    case Write(_, cell, value) => s.(memory := s.memory[cell := value])
  }

  // Copying hints into new cells changes nothing else.
  lemma CopyFacts(memory: Memory, from: seq<CellId>, q: Program, next: CellId, end: CellId)
    requires |from| == |HintsOf(q)| && Within(Cells(q), next, end) && Tidy(q) && Allocated(memory, next) && next <= end
    ensures var after := Copied(memory, from, HintsOf(q));
            && Allocated(after, end) && AllPristine(after, Feedback(q)) && SameBelow(memory, after, next)
            && forall k | 0 <= k < |from| :: Holds(after, HintsOf(q)[k]) == Holds(memory, from[k])
  {
    var to := HintsOf(q);
    var after := Copied(memory, from, to);
    CopiedKeys(memory, from, to);
    assert forall k | 0 <= k < |to| :: to[k] in Hints(q);
    forall k | 0 <= k < |from| ensures Holds(after, to[k]) == Holds(memory, from[k]) {
      CopiedAt(memory, from, to, to[k]);
    }
    forall c: CellId | c < next || c in Feedback(q) ensures Holds(after, c) == Holds(memory, c) {
      CopiedAt(memory, from, to, c);
    }
    forall c | c in Feedback(q) ensures Holds(after, c) == PRISTINE {
      assert c in Cells(q) && c !in memory;
    }
  }

  // What a fork holds: nothing in its caches and counters, and its template's hints.
  lemma ForkedFacts(p: Program, next: CellId, memory: Memory)
    requires Allocated(memory, next)
    ensures var g := Forked(p, next, memory);
            && g.program == BuildProgram(ListingOf(p), next).0 && ListingOf(g.program) == ListingOf(p)
            && next <= g.next && Within(Cells(g.program), next, g.next) && Tidy(g.program)
            && Allocated(g.memory, g.next) && AllPristine(g.memory, Feedback(g.program))
            && |HintsOf(g.program)| == |HintsOf(p)|
            && (forall k | 0 <= k < |HintsOf(p)| ::
                Holds(g.memory, HintsOf(g.program)[k]) == Holds(memory, HintsOf(p)[k]))
            && SameBelow(memory, g.memory, next)
  {
    var (q, end) := ForkProgram(p, next);
    ForkedProgram(p, next);
    BuiltProgram(ListingOf(p), next);
    ForkKeepsHintCount(p, next);
    CopyFacts(memory, HintsOf(p), q, next, end);
  }

  // What is handed out has the entry's code; the owner's feedback is new, and so is everything else
  // unless it is the template itself.
  lemma HandOutFacts(e: Entry, feedbackDisabled: bool, next: CellId, memory: Memory)
    requires Within(Cells(e.program), 0, next) && Allocated(memory, next) && e.noGuards == NoGuards(e.program)
    ensures var g := HandOut(e, feedbackDisabled, next, memory);
            && next <= g.next && ListingOf(g.program) == ListingOf(e.program) && Allocated(g.memory, g.next)
            && Within(Guarded(g.program, feedbackDisabled), next, g.next)
            && (Within(Cells(g.program), next, g.next)
                || (g.program == e.program && feedbackDisabled && NoGuards(e.program)))
            && SameBelow(memory, g.memory, next)
  {
    if feedbackDisabled && e.noGuards {
      if e.program.Bytecode? {
        NoSitesNoCells(e.program.main);
      }
    } else {
      ForkedFacts(e.program, next, memory);
    }
  }

  // A template stays one while cells below `next` keep what they hold.
  lemma TemplateKeeps(p: Program, next: CellId, memory: Memory, next': CellId, memory': Memory)
    requires Template(p, next, memory) && next <= next' && SameBelow(memory, memory', next)
    ensures Template(p, next', memory')
  {
  }

  lemma NewTemplate(l: Listing, next: CellId, memory: Memory)
    requires Allocated(memory, next)
    ensures Template(BuildProgram(l, next).0, BuildProgram(l, next).1, memory)
            && Allocated(memory, BuildProgram(l, next).1)
  {
    BuiltProgram(l, next);
    var (p, end) := BuildProgram(l, next);
    forall c | c in Feedback(p) ensures Holds(memory, c) == PRISTINE {
      assert c in Cells(p) && c !in memory;
    }
  }

  // Where the template of a lookup comes from.
  ghost function EntryFor(compile: Compiler, c: Cache, next: CellId, s: Source): (Entry, CellId)
    requires s in c.programs || compile(s).Ok?
  {
    if s in c.programs then (c.programs[s], next)
    else
      var (template, mid) := BuildProgram(compile(s).value, next);
      (Entry(template, NoGuards(template)), mid)
  }

  lemma EntryFacts(compile: Compiler, c: Cache, next: CellId, memory: Memory, s: Source)
    requires CacheInv(compile, c, next, memory) && (s in c.programs || compile(s).Ok?)
    ensures var (e, mid) := EntryFor(compile, c, next, s);
            && next <= mid && Compiled(compile, s, e) && Template(e.program, mid, memory) && Allocated(memory, mid)
            && (s !in c.programs ==> Within(Cells(e.program), next, mid))
  {
    if s in c.programs {
      assert Compiled(compile, s, c.programs[s]);
    } else {
      NewTemplate(compile(s).value, next, memory);
      BuiltProgram(compile(s).value, next);
    }
  }

  // Storing a template whose cells are new keeps the templates apart.
  lemma StoreApart(compile: Compiler, c: Cache, s: Source, e: Entry, next: CellId, mid: CellId)
    requires Listed(c) && Bounded(c) && Genuine(compile, c) && s !in c.programs && Compiled(compile, s, e)
             && TemplatesApart(c)
    requires (forall t | t in c.programs :: Within(Cells(c.programs[t].program), 0, next))
             && Within(Cells(e.program), next, mid)
    ensures TemplatesApart(Store(c, s, e))
  {
    StoreKeeps(compile, c, s, e);
  }

  lemma StoreTemplates(compile: Compiler, c: Cache, s: Source, e: Entry, next: CellId, memory: Memory)
    requires Listed(c) && Bounded(c) && Genuine(compile, c) && s !in c.programs && Compiled(compile, s, e)
    requires Template(e.program, next, memory) && forall t | t in c.programs ::
             Template(c.programs[t].program, next, memory)
    ensures forall t | t in Store(c, s, e).programs :: Template(Store(c, s, e).programs[t].program, next, memory)
  {
    StoreKeeps(compile, c, s, e);
  }

  // One lookup, seen by the cache.
  lemma PrepareCache(compile: Compiler, c: Cache, next: CellId, memory: Memory, s: Source, feedbackDisabled: bool)
    requires CacheInv(compile, c, next, memory)
    ensures var l := Prepare(compile, c, next, memory, s, feedbackDisabled);
            && CacheInv(compile, l.cache, l.next, l.memory) && next <= l.next
            && (forall t | t in l.cache.programs ::
                  (t in c.programs && l.cache.programs[t] == c.programs[t])
                      || Within(Cells(l.cache.programs[t].program), next, l.next))
  {
    if s in c.programs || compile(s).Ok? {
      var (e, mid) := EntryFor(compile, c, next, s);
      EntryFacts(compile, c, next, memory, s);
      HandOutFacts(e, feedbackDisabled, mid, memory);
      var g := HandOut(e, feedbackDisabled, mid, memory);
      TemplatesKeep(c, next, memory, g.next, g.memory);
      if s !in c.programs {
        StoreKeeps(compile, c, s, e);
        TemplateKeeps(e.program, mid, memory, g.next, g.memory);
        StoreApart(compile, c, s, e, next, mid);
        StoreTemplates(compile, c, s, e, g.next, g.memory);
      }
    }
  }

  lemma TemplatesKeep(c: Cache, next: CellId, memory: Memory, next': CellId, memory': Memory)
    requires forall s | s in c.programs :: Template(c.programs[s].program, next, memory)
    requires next <= next' && SameBelow(memory, memory', next)
    ensures forall s | s in c.programs :: Template(c.programs[s].program, next', memory')
  {
    forall s | s in c.programs ensures Template(c.programs[s].program, next', memory') {
      TemplateKeeps(c.programs[s].program, next, memory, next', memory');
    }
  }

  lemma ApartByRange(h: Handed, p: Program, low: CellId, high: CellId)
    requires Within(Cells(h.program), low, high) && Within(Cells(p), 0, low)
    ensures Apart(h, p)
  {
    assert Guarded(h.program, h.feedbackDisabled) <= Cells(h.program);
  }

  lemma ApartDisjoint(h: Handed, p: Program)
    requires Cells(h.program) !! Cells(p)
    ensures Apart(h, p)
  {
    assert Guarded(h.program, h.feedbackDisabled) <= Cells(h.program);
  }

  // The holder of a template can write nothing in it but hints.
  lemma ApartShared(h: Handed)
    requires h.feedbackDisabled && NoGuards(h.program)
    ensures Guarded(h.program, true) == {} && Apart(h, h.program)
  {
    if h.program.Bytecode? {
      NoSitesNoCells(h.program.main);
    }
  }

  // One lookup, seen by the owner who asked.
  ghost predicate Answered(c: Cache, next: CellId, end: CellId, s: Source, feedbackDisabled: bool, p: Program) {
    && Within(Guarded(p, feedbackDisabled), next, end) && Within(Cells(p), 0, end)
    && (Within(Cells(p), next, end)
        || (s in c.programs && p == c.programs[s].program && feedbackDisabled && NoGuards(p)))
  }

  lemma PrepareAnswer(compile: Compiler, c: Cache, next: CellId, memory: Memory, s: Source, feedbackDisabled: bool)
    requires CacheInv(compile, c, next, memory)
    ensures var l := Prepare(compile, c, next, memory, s, feedbackDisabled);
            l.result.Ok? ==>
              && compile(s) == Ok(ListingOf(l.result.value))
              && Answered(c, next, l.next, s, feedbackDisabled, l.result.value)
  {
    if s in c.programs || compile(s).Ok? {
      var (e, mid) := EntryFor(compile, c, next, s);
      EntryFacts(compile, c, next, memory, s);
      HandOutFacts(e, feedbackDisabled, mid, memory);
    }
  }

  // ... and the cached templates, as seen by that owner.
  lemma AnswerApart(compile: Compiler, c: Cache, next: CellId, memory: Memory, s: Source, feedbackDisabled: bool,
      t: Source)
    requires CacheInv(compile, c, next, memory) && (s in c.programs || compile(s).Ok?)
    requires t in Prepare(compile, c, next, memory, s, feedbackDisabled).cache.programs
    ensures var l := Prepare(compile, c, next, memory, s, feedbackDisabled);
            l.result.Ok? && Apart(Handed(s, feedbackDisabled, l.result.value), l.cache.programs[t].program)
  {
    var l := Prepare(compile, c, next, memory, s, feedbackDisabled);
    var (e, mid) := EntryFor(compile, c, next, s);
    EntryFacts(compile, c, next, memory, s);
    HandOutFacts(e, feedbackDisabled, mid, memory);
    var h := Handed(s, feedbackDisabled, l.result.value);
    if s !in c.programs {
      StoreKeeps(compile, c, s, e);
    }
    var q := l.cache.programs[t].program;
    if t == s {
      if h.program == e.program && feedbackDisabled && NoGuards(e.program) {
        ApartShared(h);
      } else {
        ApartByRange(h, q, mid, l.next);
      }
    } else {
      assert Template(q, next, memory);
      if Within(Cells(h.program), mid, l.next) {
        ApartByRange(h, q, mid, l.next);
      } else {
        ApartDisjoint(h, q);
      }
    }
  }

  // ---------------------------------------------------------------------
  // Every step keeps the invariant
  // ---------------------------------------------------------------------

  lemma OldOwnerApart(compile: Compiler, s: State, source: Source, feedbackDisabled: bool, i: nat)
    requires Inv(compile, s) && i < |s.handed|
    ensures HandedInv(compile, Looked(compile, s, source, feedbackDisabled), i)
  {
    var u := Looked(compile, s, source, feedbackDisabled);
    var h := s.handed[i];
    assert HandedInv(compile, s, i);
    PrepareCache(compile, s.cache, s.next, s.memory, source, feedbackDisabled);
    PrepareAnswer(compile, s.cache, s.next, s.memory, source, feedbackDisabled);
    forall t | t in u.cache.programs ensures Apart(h, u.cache.programs[t].program) {
      if Within(Cells(u.cache.programs[t].program), s.next, u.next) {
        ApartDisjoint(h, u.cache.programs[t].program);
      }
    }
    forall j | 0 <= j < |u.handed| && j != i ensures Apart(h, u.handed[j].program) {
      if j < |s.handed| {
        assert u.handed[j] == s.handed[j];
      } else if Within(Cells(u.handed[j].program), s.next, u.next) {
        ApartDisjoint(h, u.handed[j].program);
      }
    }
  }

  lemma NewOwnerApart(compile: Compiler, s: State, source: Source, feedbackDisabled: bool)
    requires Inv(compile, s) && Prepare(compile, s.cache, s.next, s.memory, source, feedbackDisabled).result.Ok?
    ensures HandedInv(compile, Looked(compile, s, source, feedbackDisabled), |s.handed|)
  {
    var u := Looked(compile, s, source, feedbackDisabled);
    var h := u.handed[|s.handed|];
    PrepareAnswer(compile, s.cache, s.next, s.memory, source, feedbackDisabled);
    forall t | t in u.cache.programs ensures Apart(h, u.cache.programs[t].program) {
      AnswerApart(compile, s.cache, s.next, s.memory, source, feedbackDisabled, t);
    }
    forall j | 0 <= j < |s.handed| ensures Apart(h, u.handed[j].program) {
      assert HandedInv(compile, s, j) && u.handed[j] == s.handed[j];
      NewAndOld(s, source, h, s.handed[j], u.next);
    }
  }

  // A new owner and an earlier one share cells only if both hold the template.
  lemma NewAndOld(s: State, source: Source, h: Handed, g: Handed, end: CellId)
    requires Answered(s.cache, s.next, end, source, h.feedbackDisabled, h.program)
    requires Within(Cells(g.program), 0, s.next)
    requires source in s.cache.programs ==> Apart(g, s.cache.programs[source].program)
    ensures Apart(h, g.program)
  {
    if Within(Cells(h.program), s.next, end) {
      ApartByRange(h, g.program, s.next, end);
    } else if g.program == h.program {
      ApartShared(h);
    }
  }

  lemma LookKeeps(compile: Compiler, s: State, source: Source, feedbackDisabled: bool)
    requires Inv(compile, s)
    ensures Inv(compile, Looked(compile, s, source, feedbackDisabled))
  {
    PrepareCache(compile, s.cache, s.next, s.memory, source, feedbackDisabled);
    var u := Looked(compile, s, source, feedbackDisabled);
    forall i | 0 <= i < |u.handed| ensures HandedInv(compile, u, i) {
      if i < |s.handed| {
        OldOwnerApart(compile, s, source, feedbackDisabled, i);
      } else {
        NewOwnerApart(compile, s, source, feedbackDisabled);
      }
    }
  }

  // Whatever an owner writes, no template's caches and counters change.
  lemma WriteKeepsTemplate(h: Handed, p: Program, next: CellId, memory: Memory, c: CellId, v: nat)
    requires Apart(h, p) && Template(p, next, memory) && c in Writable(h.program, h.feedbackDisabled)
    ensures Template(p, next, memory[c := v])
  {
    assert Feedback(p) <= Cells(p) && Hints(h.program) <= Cells(h.program);
    assert c !in Feedback(p);
  }

  lemma WriteKeeps(compile: Compiler, s: State, l: Label)
    requires Inv(compile, s) && l.Write? && Enabled(s, l)
    ensures Inv(compile, Next(compile, s, l))
  {
    var u, h := Next(compile, s, l), s.handed[l.owner];
    assert HandedInv(compile, s, l.owner);
    assert l.cell in Cells(h.program);
    forall t | t in u.cache.programs ensures Template(u.cache.programs[t].program, u.next, u.memory) {
      WriteKeepsTemplate(h, s.cache.programs[t].program, s.next, s.memory, l.cell, l.value);
    }
    forall i | 0 <= i < |u.handed| ensures HandedInv(compile, u, i) {
      assert HandedInv(compile, s, i);
    }
  }

  lemma StepKeeps(compile: Compiler, s: State, l: Label)
    requires Inv(compile, s) && Enabled(s, l)
    ensures Inv(compile, Next(compile, s, l))
  {
    if l.Look? {
      LookKeeps(compile, s, l.source, l.feedbackDisabled);
    } else {
      WriteKeeps(compile, s, l);
    }
  }

  const EMPTY := State(Cache(map[], [], 0), 0, map[], [])

  ghost predicate Steps(compile: Compiler, r: State, l: Label, s: State) {
    Listed(r.cache) && Enabled(r, l) && s == Next(compile, r, l)
  }

  // `ss` are the states a run goes through, the empty one first.
  ghost predicate IsRun(compile: Compiler, ls: seq<Label>, ss: seq<State>) {
    && |ss| == |ls| + 1 && ss[0] == EMPTY
    && forall k | 0 <= k < |ls| :: Steps(compile, ss[k], ls[k], ss[k + 1])
  }

  lemma EmptyInv(compile: Compiler)
    ensures Inv(compile, EMPTY)
  {
  }

  lemma StepsKeep(compile: Compiler, r: State, l: Label, s: State)
    requires Inv(compile, r) && Steps(compile, r, l, s)
    ensures Inv(compile, s)
  {
    StepKeeps(compile, r, l);
  }

  // The invariant holds throughout every run.
  lemma {:induction false} Reached(compile: Compiler, ls: seq<Label>, ss: seq<State>, n: nat)
    requires IsRun(compile, ls, ss) && n <= |ls|
    ensures Inv(compile, ss[n])
  {
    if n == 0 {
      EmptyInv(compile);
    } else {
      Reached(compile, ls, ss, n - 1);
      StepsKeep(compile, ss[n - 1], ls[n - 1], ss[n]);
    }
  }

  // ---------------------------------------------------------------------
  // What holds after every run
  // ---------------------------------------------------------------------

  // A lookup answers as a compilation would; a failed one changes nothing.
  lemma Transparent(compile: Compiler, ls: seq<Label>, ss: seq<State>, n: nat, source: Source, feedbackDisabled: bool)
    requires IsRun(compile, ls, ss) && n <= |ls|
    ensures Listed(ss[n].cache)
    ensures var s := ss[n];
            var l := Prepare(compile, s.cache, s.next, s.memory, source, feedbackDisabled);
            match compile(source)
            case Err(e) => l == Lookup(s.cache, s.next, s.memory, Err(e))
            case Ok(listing) => l.result.Ok? && ListingOf(l.result.value) == listing
  {
    Reached(compile, ls, ss, n);
    var s := ss[n];
    PrepareAnswer(compile, s.cache, s.next, s.memory, source, feedbackDisabled);
    assert source in s.cache.programs ==> Compiled(compile, source, s.cache.programs[source]);
  }

  // Only an owner without feedback is given a template, and only one without cache sites. Anyone else
  // gets the program a compilation would build, its caches and counters untouched and its hints those
  // that its template holds at that moment.
  lemma HandedAsCompiled(compile: Compiler, s: State, source: Source, feedbackDisabled: bool)
      returns (e: Entry, at: CellId)
    requires Inv(compile, s) && compile(source).Ok?
    ensures s.next <= at && compile(source).value == ListingOf(e.program)
            && (source in s.cache.programs ==> e == s.cache.programs[source])
    ensures source !in s.cache.programs ==> AllPristine(s.memory, Cells(e.program))
    ensures var l := Prepare(compile, s.cache, s.next, s.memory, source, feedbackDisabled);
            && l.result.Ok?
            && (if feedbackDisabled && NoGuards(e.program) then l.result.value == e.program && l.memory == s.memory
                else
                  var p := l.result.value;
                  && p == BuildProgram(compile(source).value, at).0 && AllPristine(l.memory, Feedback(p))
                  && |HintsOf(p)| == |HintsOf(e.program)|
                  && forall k | 0 <= k < |HintsOf(p)| ::
                      Holds(l.memory, HintsOf(p)[k]) == Holds(s.memory, HintsOf(e.program)[k]))
  {
    var (entry, mid) := EntryFor(compile, s.cache, s.next, source);
    e, at := entry, mid;
    EntryFacts(compile, s.cache, s.next, s.memory, source);
    ForkedFacts(e.program, mid, s.memory);
    if source !in s.cache.programs {
      forall c | c in Cells(e.program) ensures Holds(s.memory, c) == PRISTINE {
        assert c !in s.memory;
      }
    }
  }

  // No inline cache or counter that an owner can write is a cell of another owner or of a template.
  lemma OwnersIsolated(compile: Compiler, ls: seq<Label>, ss: seq<State>, n: nat, i: nat, j: nat, t: Source)
    requires IsRun(compile, ls, ss) && n <= |ls| && i < |ss[n].handed|
    ensures var s := ss[n];
            var mine := Guarded(s.handed[i].program, s.handed[i].feedbackDisabled);
            && (j < |s.handed| && j != i ==> mine !! Cells(s.handed[j].program))
            && (t in s.cache.programs ==> mine !! Cells(s.cache.programs[t].program))
  {
    Reached(compile, ls, ss, n);
    assert HandedInv(compile, ss[n], i);
  }

  // Two owners have a cell in common exactly when they hold one and the same compiled program, which
  // happens only to owners without feedback; what they then share and can write are its hints.
  lemma HintsSharedExactly(compile: Compiler, ls: seq<Label>, ss: seq<State>, n: nat, i: nat, j: nat)
    requires IsRun(compile, ls, ss) && n <= |ls| && i < |ss[n].handed| && j < |ss[n].handed| && i != j
    ensures var g, h := ss[n].handed[i], ss[n].handed[j];
            && (!(Cells(g.program) !! Cells(h.program)) <==> g.program == h.program && g.program.Bytecode?)
            && (!(Cells(g.program) !! Cells(h.program)) ==>
                  && g.feedbackDisabled && h.feedbackDisabled && NoGuards(g.program)
                  && Writable(g.program, true) == Hints(g.program) && Writable(h.program, true) == Hints(g.program))
  {
    Reached(compile, ls, ss, n);
    var g, h := ss[n].handed[i], ss[n].handed[j];
    assert HandedInv(compile, ss[n], i) && HandedInv(compile, ss[n], j);
    assert Apart(g, h.program) && Apart(h, g.program);
    if g.program == h.program && g.program.Bytecode? {
      assert g.program.main.tier in Cells(g.program);
    }
    if !(Cells(g.program) !! Cells(h.program)) {
      ApartShared(g);
    }
  }

  // The caches and counters of a cached template are never written.
  lemma TemplatesPristine(compile: Compiler, ls: seq<Label>, ss: seq<State>, n: nat, t: Source)
    requires IsRun(compile, ls, ss) && n <= |ls| && t in ss[n].cache.programs
    ensures AllPristine(ss[n].memory, Feedback(ss[n].cache.programs[t].program))
  {
    Reached(compile, ls, ss, n);
  }

  // A template without sites is handed to every owner without feedback that asks again.
  lemma TemplateHandedAgain(compile: Compiler, s: State, source: Source)
    requires Inv(compile, s) && compile(source).Ok? && |source| <= MAX_BYTES
    ensures var u := Looked(compile, s, source, true);
            && Listed(u.cache) && |u.handed| == |s.handed| + 1
            && var p := u.handed[|s.handed|].program;
               NoGuards(p) ==> Looked(compile, u, source, true).handed == u.handed + [Handed(source, true, p)]
  {
    LookKeeps(compile, s, source, true);
    PrepareAnswer(compile, s.cache, s.next, s.memory, source, true);
    var e, at := HandedAsCompiled(compile, s, source, true);
    var u := Looked(compile, s, source, true);
    assert source in u.cache.programs;
    assert Compiled(compile, source, u.cache.programs[source]);
    SameSites(u.handed[|s.handed|].program, u.cache.programs[source].program);
  }

  // The cache holds at most 64 programs of at most 2 MiB of text, each queued once.
  lemma CacheBounded(compile: Compiler, ls: seq<Label>, ss: seq<State>, n: nat)
    requires IsRun(compile, ls, ss) && n <= |ls|
    ensures var c := ss[n].cache;
            && |c.programs| == |c.order| <= 64 && TotalBytes(c.order) == c.bytes <= 2 * 1024 * 1024
            && Distinct(c.order) && c.programs.Keys == (set s | s in c.order)
  {
    Reached(compile, ls, ss, n);
    var c := ss[n].cache;
    assert Lists(c.order, c.programs);
  }

  // ---------------------------------------------------------------------
  // The cache as the process holds it
  // ---------------------------------------------------------------------

  class FreshProgramCache {
    var programs: map<Source, Entry>
    var order: seq<Source>
    var bytes: nat
    var next: CellId
    var memory: Memory

    ghost function View(): Cache
      reads this
    {
      Cache(programs, order, bytes)
    }

    constructor ()
      ensures View() == EMPTY.cache && next == 0 && memory == map[]
    {
      programs, order, bytes, next, memory := map[], [], 0, 0, map[];
    }

    method MakeRoom(len: nat)
      requires Listed(View()) && len <= MAX_BYTES
      modifies this`programs, this`order, this`bytes
      ensures View() == Evict(old(View()), len)
    {
      while |programs| >= MAX_ENTRIES || bytes + len > MAX_BYTES
        invariant Listed(View()) && Evict(View(), len) == Evict(old(View()), len)
        decreases |order|
      {
        ghost var c := View();
        CrowdedHasOldest(c, len);
        DropKeeps(c);
        var oldest := order[0];
        order := order[1..];
        programs := programs - {oldest};
        bytes := bytes - |oldest|;
        assert View() == DropOldest(c);
      }
    }

    method Keep(source: Source, entry: Entry)
      requires Listed(View())
      modifies this`programs, this`order, this`bytes
      ensures View() == Store(old(View()), source, entry)
    {
      if |source| <= MAX_BYTES {
        MakeRoom(|source|);
        bytes := bytes + |source|;
        order := order + [source];
        programs := programs[source := entry];
      }
    }

    method PrepareFor(compile: Compiler, source: Source, feedbackDisabled: bool)
        returns (result: Result<Program, CompileError>)
      requires Listed(View())
      modifies this
      ensures Lookup(View(), next, memory, result)
              == Prepare(compile, old(View()), old(next), old(memory), source, feedbackDisabled)
    {
      if source in programs {
        var found := HandOut(programs[source], feedbackDisabled, next, memory);
        next, memory := found.next, found.memory;
        return Ok(found.program);
      }
      var compiled := compile(source);
      if compiled.Err? {
        return Err(compiled.error);
      }
      var (template, mid) := BuildProgram(compiled.value, next);
      var entry := Entry(template, NoGuards(template));
      Keep(source, entry);
      var given := HandOut(entry, feedbackDisabled, mid, memory);
      next, memory := given.next, given.memory;
      result := Ok(given.program);
    }
  }
}
