/** The life of a function reference: how an entry comes, what it goes through and how it leaves. */
module ReferenceLife {
  import opened Wrappers
  import opened Bridge
  import opened BridgeProtocol

  // An action of the main thread that takes an idle entry out.
  predicate TakenOut(s: State, l: Label, f: FuncId) {
    (l == Retire(f) || l.ShutdownTable?) && Leases(s.calls, f) == {}
  }

  // The end of the only lease of a retired entry.
  predicate EndsLast(s: State, l: Label, f: FuncId) {
    && l.End? && s.flow.running.Some? && Leases(s.calls, f) == {s.flow.running.value}
    && f in s.refs.table && s.refs.table[f].retired
  }

  predicate Leaves(s: State, l: Label, f: FuncId) {
    f in s.refs.table && (TakenOut(s, l, f) || EndsLast(s, l, f))
  }

  predicate Retires(l: Label, f: FuncId) {
    l == Retire(f) || l.ShutdownTable?
  }

  // The entry of `f` after an action, by what it was before.
  predicate EntryBecomes(r: RefTable, f: FuncId, left: bool, arrives: bool, retires: bool, t: RefTable) {
    && (f in t <==> arrives || (f in r && !left))
    && (f in t ==> (t[f].retired <==> f in r && (r[f].retired || retires)))
  }

  lemma IdleByLeases(s: State, f: FuncId)
    requires RefsInv(s.calls, s.refs) && f in s.refs.table
    ensures s.refs.table[f].inFlight == 0 <==> Leases(s.calls, f) == {}
  {
  }

  lemma FinishEntry(r: RefTable, g: FuncId, f: FuncId)
    requires g in r && r[g].inFlight > 0
    ensures EntryBecomes(r, f, f == g && r[g].retired && r[g].inFlight == 1, false, false, FinishRef(r, g))
  {
  }

  lemma MainEntry(r: References, f: FuncId, g: FuncId)
    requires r.next !in r.table
    ensures EntryBecomes(r.table, f, false, f == r.next, false, AddReference(r).table)
    ensures EntryBecomes(r.table, f, f == g && f in r.table && r.table[f].inFlight == 0, false, f == g,
                         RetireReference(r, g).table)
    ensures EntryBecomes(r.table, f, f in r.table && r.table[f].inFlight == 0, false, true, ShutdownReferences(r).table)
  {
  }

  lemma SameEntry(r: RefTable, g: FuncId, f: FuncId)
    requires g in r
    ensures EntryBecomes(r, f, false, false, false, r)
    ensures EntryBecomes(r, f, false, false, false, BeginRef(r, g))
    ensures EntryBecomes(r, f, false, false, false, AbortRef(r, g))
  {
  }

  lemma MainExactly(s: State, l: Label, f: FuncId, t: RefTable)
    requires RefsInv(s.calls, s.refs) && TableIs(s, l, t) && (l.Register? || l.Retire? || l.ShutdownTable?)
    ensures EntryBecomes(s.refs.table, f, Leaves(s, l, f), l.Register? && f == s.refs.next, Retires(l, f), t)
  {
    if f in s.refs.table {
      IdleByLeases(s, f);
    }
    MainEntry(s.refs, f, if l.Retire? then l.f else f);
  }

  // The running call of an End, and whether its lease is the last of a retired entry.
  lemma EndIsLast(s: State, env: bool, f: FuncId, g: FuncId)
    requires RefsInv(s.calls, s.refs) && CallsInv(s.calls)
    requires s.flow.running.Some? && s.flow.running.value in s.calls && !Over(s.calls[s.flow.running.value].phase)
    requires g == s.calls[s.flow.running.value].func
    ensures g in s.refs.table && s.refs.table[g].inFlight > 0
    ensures Leaves(s, End(env), f) <==> f == g && s.refs.table[g].retired && s.refs.table[g].inFlight == 1
  {
    LeaseCounted(s, s.flow.running.value);
    if f in s.refs.table {
      OnlyLease(s, s.flow.running.value, f);
    }
  }

  lemma CallExactly(s: State, l: Label, f: FuncId, t: RefTable)
    requires RefsInv(s.calls, s.refs) && CallsInv(s.calls) && TableIs(s, l, t) && (l.Begin? || l.Abort? || l.End?)
    ensures EntryBecomes(s.refs.table, f, Leaves(s, l, f), false, false, t)
  {
    match l
    case Begin(g) => SameEntry(s.refs.table, g, f);
    case Abort =>
      LeaseCounted(s, s.flow.dispatching.value);
      SameEntry(s.refs.table, s.calls[s.flow.dispatching.value].func, f);
    case End(env) =>
      var g := s.calls[s.flow.running.value].func;
      EndIsLast(s, env, f, g);
      FinishEntry(s.refs.table, g, f);
  }

  lemma EntryFrom(s: State, l: Label, f: FuncId, t: RefTable)
    requires RefsInv(s.calls, s.refs) && CallsInv(s.calls) && TableIs(s, l, t)
    ensures EntryBecomes(s.refs.table, f, Leaves(s, l, f), l.Register? && f == s.refs.next, Retires(l, f), t)
  {
    if l.Register? || l.Retire? || l.ShutdownTable? {
      MainExactly(s, l, f, t);
    } else if l.Begin? || l.Abort? || l.End? {
      CallExactly(s, l, f, t);
    }
  }

  // An entry comes only by registration. It leaves exactly when it is retired or shut down while
  // idle, or when the last lease of a retired entry ends. It is retired exactly by being retired or
  // shut down.
  lemma EntryExactly(s: State, l: Label, f: FuncId)
    requires Invariant(s) && Enabled(s, l)
    ensures EntryBecomes(s.refs.table, f, Leaves(s, l, f), l.Register? && f == s.refs.next, Retires(l, f),
                         Next(s, l).refs.table)
  {
    TableAfter(s, l);
    EntryFrom(s, l, f, Next(s, l).refs.table);
  }

  // Where an action leaves the references that await deletion.
  predicate DoomedIs(s: State, l: Label, d: set<FuncId>) {
    var r := s.refs;
    match l
    case Retire(g) => d == RetireReference(r, g).doomed
    case ShutdownTable => d == ShutdownReferences(r).doomed
    case DeleteDoomed(g) => d == r.doomed - {g}
    case End(env) => OnNodeNow(s) && d == FinishLease(r, s.calls[s.flow.running.value].func, env).doomed
    case _ => d == r.doomed
  }

  lemma DoomedAfter(s: State, l: Label)
    requires Enabled(s, l)
    ensures DoomedIs(s, l, Next(s, l).refs.doomed)
    ensures Next(s, l).refs.deleted == if l.DeleteDoomed? then s.refs.deleted + multiset{l.f} else s.refs.deleted
  {
  }

  lemma DoomedFrom(s: State, l: Label, f: FuncId, d: set<FuncId>)
    requires RefsInv(s.calls, s.refs) && CallsInv(s.calls) && DoomedIs(s, l, d)
    ensures f in d <==> (f in s.refs.doomed && l != DeleteDoomed(f)) || (Leaves(s, l, f) && l != End(false))
  {
    if l.End? {
      EndIsLast(s, l.envAvailable, f, s.calls[s.flow.running.value].func);
    } else if f in s.refs.table {
      IdleByLeases(s, f);
    }
  }

  // A reference awaits deletion exactly from leaving the table, unless the environment was already
  // gone, until it is deleted; and deleting is the only thing that is logged.
  lemma DeletionExactly(s: State, l: Label, f: FuncId)
    requires Invariant(s) && Enabled(s, l)
    ensures f in Next(s, l).refs.doomed <==>
              (f in s.refs.doomed && l != DeleteDoomed(f)) || (Leaves(s, l, f) && l != End(false))
    ensures Next(s, l).refs.deleted[f] == s.refs.deleted[f] + if l == DeleteDoomed(f) then 1 else 0
  {
    DoomedAfter(s, l);
    DoomedFrom(s, l, f, Next(s, l).refs.doomed);
  }

  // ---------------------------------------------------------------------
  // Runs
  // ---------------------------------------------------------------------

  predicate Callable(s: State, f: FuncId) {
    f in s.refs.table && !s.refs.table[f].retired
  }

  lemma SparedStep(s: State, l: Label, f: FuncId)
    requires Invariant(s) && Enabled(s, l) && !Retires(l, f) && (f < s.refs.next ==> Callable(s, f))
    ensures f < Next(s, l).refs.next ==> Callable(Next(s, l), f)
  {
    EntryExactly(s, l, f);
    assert Next(s, l).refs.next == if l.Register? then s.refs.next + 1 else s.refs.next;
  }

  lemma {:induction false} SparedRun(s: State, ls: seq<Label>, f: FuncId)
    requires Invariant(s) && Run(s, ls) && (forall l | l in ls :: !Retires(l, f))
             && (f < s.refs.next ==> Callable(s, f))
    ensures f < After(s, ls).refs.next ==> Callable(After(s, ls), f)
    decreases |ls|
  {
    if ls != [] {
      SparedStep(s, ls[0], f);
      StepKeeps(s, ls[0]);
      SparedRun(Next(s, ls[0]), ls[1..], f);
    }
  }

  // A registered function that nobody retires can be called for as long as the bridge is not shut
  // down, however many calls have ended or been aborted, and its reference is not deleted.
  lemma StaysCallable(ls: seq<Label>, f: FuncId)
    requires Run(INITIAL, ls) && (forall l | l in ls :: !Retires(l, f)) && f < After(INITIAL, ls).refs.next
    ensures var s := After(INITIAL, ls);
            && f in s.refs.table && !s.refs.table[f].retired && f !in s.refs.doomed && s.refs.deleted[f] == 0
            && (s.flow.dispatching.None? ==> Enabled(s, Begin(f)))
  {
    Reached([]);
    SparedRun(INITIAL, ls, f);
    Reached(ls);
  }
}
