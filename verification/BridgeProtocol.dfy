/**
 Every interleaving of the owner and Node threads on the host bridge.

 `Enabled` says which action may happen, `Next` what it does; `Invariant` is kept
 by every action, hence holds in every state of every run.
 */
module BridgeProtocol {
  import opened Wrappers
  import opened Bridge

  // Where a host call stands. Begun, Leased and Aborting are steps of `dispatch`
  // on the owner thread; Running to Dropping are steps of the Node callback.
  datatype Phase = Begun | Leased | Queued | Running | Replied | Thening | Dropping | Done | Aborting | Aborted

  datatype Call = Call(
    func: FuncId,
    phase: Phase,
    refLease: bool,             // the call still counts in its entry's in-flight number
    dep: bool,                  // the dependency lease is held
    drops: nat,                 // how often the dependency lease was dropped
    sender: bool,               // the reply sender is still there to be taken
    replies: nat,               // replies sent
    promise: Option<PromiseId>, // the promise a thenable result was registered under
    alive: bool,                // the guest still wants the result
    collected: bool)            // the settlement object is gone

  type Calls = map<CallId, Call>

  datatype References = References(
    table: RefTable,
    doomed: set<FuncId>,        // removed from the table, deletion outstanding
    deleted: multiset<FuncId>,  // log of deleted function references
    lastAborted: set<FuncId>,   // functions whose latest lease ended in an abort
    next: nat,
    released: bool)

  datatype Promises = Promises(
    table: map<PromiseId, CallId>,
    drained: map<PromiseId, CallId>, // taken out by a cancellation, not yet processed
    deleted: multiset<PromiseId>,    // log of deleted promise references
    made: map<PromiseId, CallId>,    // every promise ever registered
    next: nat)

  datatype Flow = Flow(
    next: CallId,
    dispatching: Option<CallId>, // the call the owner thread is dispatching
    queue: seq<CallId>,          // messages in the dispatcher's queue
    running: Option<CallId>)     // the call whose callback is on the Node stack

  // `deps` is the shared counter of dependency leases.
  datatype State = State(refs: References, calls: Calls, flow: Flow, promises: Promises, deps: int)

  const INITIAL := State(References(map[], {}, multiset{}, {}, 0, false), map[], Flow(0, None, [], None),
                         Promises(map[], map[], multiset{}, map[], 0), 0)

  datatype Label =
    // main-thread operations on the reference table
    | Register | Retire(f: FuncId) | ShutdownTable | DeleteDoomed(f: FuncId)
    // the owner thread: `dispatch`, and dropping a pending result
    | Begin(f: FuncId) | Lease | Enqueue | EnqueueFail | Abort | Abandon(c: CallId)
    // the Node callback of the call at the head of the queue
    | Start | ReplyNow | Thenable | End(envAvailable: bool) | DropMessage
    // settlements, which JavaScript may trigger at any time
    | Settle(c: CallId) | Prune(p: PromiseId) | Drain | CancelOne(p: PromiseId) | Collect(c: CallId)

  predicate OwnerLabel(l: Label) {
    l.Begin? || l.Lease? || l.Enqueue? || l.EnqueueFail? || l.Abort? || l.Abandon?
  }

  predicate At(s: State, c: Option<CallId>, phase: Phase) {
    c.Some? && c.value in s.calls && s.calls[c.value].phase == phase
  }

  predicate Settleable(calls: Calls, c: CallId) {
    c in calls && calls[c].promise.Some? && !calls[c].collected
  }

  predicate Enabled(s: State, l: Label) {
    match l
    case Register => true
    case Retire(f) => true
    case ShutdownTable => !s.refs.released
    case DeleteDoomed(f) => f in s.refs.doomed
    case Begin(f) => f in s.refs.table && s.flow.dispatching.None?
    case Lease => At(s, s.flow.dispatching, Begun)
    case Enqueue => At(s, s.flow.dispatching, Leased) && |s.flow.queue| < MAX_HOST_QUEUE
    case EnqueueFail => At(s, s.flow.dispatching, Leased)
    case Abort => At(s, s.flow.dispatching, Aborting)
    case Abandon(c) => c in s.calls
    case Start => s.flow.running.None? && s.flow.queue != [] && s.flow.queue[0] in s.calls
    case ReplyNow => At(s, s.flow.running, Running)
    case Thenable => At(s, s.flow.running, Running)
    case End(env) => At(s, s.flow.running, Replied) || (env && At(s, s.flow.running, Thening))
    case DropMessage => At(s, s.flow.running, Dropping)
    case Settle(c) => Settleable(s.calls, c)
    case Prune(p) => p in s.promises.table && Settleable(s.calls, s.promises.table[p])
        && !s.calls[s.promises.table[p]].alive
    case Drain => true
    case CancelOne(p) => p in s.promises.drained && s.promises.drained[p] in s.calls
    case Collect(c) => Settleable(s.calls, c) && s.calls[c].phase.Done?
  }

  // ---------------------------------------------------------------------
  // What an action does
  // ---------------------------------------------------------------------

  function AddReference(r: References): References {
    r.(table := r.table[r.next := RefEntry(0, false)], next := r.next + 1)
  }

  function RetireReference(r: References, f: FuncId): References {
    r.(table := RetireRef(r.table, f), doomed := if RetireRemoves(r.table, f) then r.doomed + {f} else r.doomed)
  }

  function ShutdownReferences(r: References): References {
    r.(released := true, table := ShutdownRefs(r.table), doomed := r.doomed + IdleRefs(r.table))
  }

  function DeleteReference(r: References, f: FuncId): References {
    r.(doomed := r.doomed - {f}, deleted := r.deleted + multiset{f})
  }

  function LeaseReference(r: References, f: FuncId): References
    requires f in r.table
  {
    r.(table := BeginRef(r.table, f))
  }

  function AbortLease(r: References, f: FuncId): References {
    r.(table := AbortRef(r.table, f), lastAborted := r.lastAborted + {f})
  }

  // Without an environment the entry goes but its reference is left to Node.
  function FinishLease(r: References, f: FuncId, env: bool): References {
    r.(table := FinishRef(r.table, f),
       doomed := if env && FinishRemoves(r.table, f) then r.doomed + {f} else r.doomed,
       lastAborted := r.lastAborted - {f})
  }

  function AddPromise(q: Promises, c: CallId): Promises {
    q.(table := q.table[q.next := c], made := q.made[q.next := c], next := q.next + 1)
  }

  function DrainPromises(q: Promises): Promises {
    q.(table := map[], drained := q.drained + q.table)
  }

  function DropDrained(q: Promises, p: PromiseId): Promises {
    q.(drained := q.drained - {p}, deleted := q.deleted + multiset{p})
  }

  function ReleasePromise(q: Promises, p: PromiseId): Promises {
    if p in q.table then q.(table := q.table - {p}, deleted := q.deleted + multiset{p}) else q
  }

  function SetCall(s: State, c: CallId, k: Call): State {
    s.(calls := s.calls[c := k])
  }

  // Set call `c` to `k`, dropping its dependency lease if it is held.
  function SetCallDropping(s: State, c: CallId, k: Call): State {
    if k.dep
    then s.(calls := s.calls[c := k.(dep := false, drops := k.drops + 1)], deps := s.deps - 1)
    else SetCall(s, c, k)
  }

  // Settlement::resolve: the first caller takes the sender, everyone else does nothing.
  function SettleCall(s: State, c: CallId): State
    requires c in s.calls && s.calls[c].promise.Some?
  {
    var k := s.calls[c];
    if !k.sender then s
    else SetCallDropping(s, c, k.(sender := false, replies := k.replies + 1))
         .(promises := ReleasePromise(s.promises, k.promise.value))
  }

  function Next(s: State, l: Label): State
    requires Enabled(s, l)
  {
    match l
    case Register => s.(refs := AddReference(s.refs))
    case Retire(f) => s.(refs := RetireReference(s.refs, f))
    case ShutdownTable => s.(refs := ShutdownReferences(s.refs))
    case DeleteDoomed(f) => s.(refs := DeleteReference(s.refs, f))
    case Begin(f) =>
      SetCall(s, s.flow.next, Call(f, Begun, true, false, 0, true, 0, None, true, false))
        .(refs := LeaseReference(s.refs, f), flow := s.flow.(next := s.flow.next + 1, dispatching := Some(s.flow.next)))
    case Lease =>
      var c := s.flow.dispatching.value;
      SetCall(s, c, s.calls[c].(phase := Leased, dep := true)).(deps := s.deps + 1)
    case Enqueue =>
      var c := s.flow.dispatching.value;
      SetCall(s, c, s.calls[c].(phase := Queued)).(flow := s.flow.(queue := s.flow.queue + [c], dispatching := None))
    case EnqueueFail =>
      var c := s.flow.dispatching.value;
      SetCallDropping(s, c, s.calls[c].(phase := Aborting, sender := false))
    case Abort =>
      var c := s.flow.dispatching.value;
      SetCall(s, c, s.calls[c].(phase := Aborted, refLease := false))
        .(refs := AbortLease(s.refs, s.calls[c].func), flow := s.flow.(dispatching := None))
    case Abandon(c) => SetCall(s, c, s.calls[c].(alive := false))
    case Start =>
      var c := s.flow.queue[0];
      SetCall(s, c, s.calls[c].(phase := Running)).(flow := s.flow.(queue := s.flow.queue[1..], running := Some(c)))
    case ReplyNow =>
      var c := s.flow.running.value;
      SetCall(s, c, s.calls[c].(phase := Replied, sender := false, replies := s.calls[c].replies + 1))
    case Thenable =>
      var c, p := s.flow.running.value, s.promises.next;
      SetCall(s, c, s.calls[c].(phase := Thening, promise := Some(p))).(promises := AddPromise(s.promises, c))
    case End(env) =>
      var c := s.flow.running.value;
      var thenable := s.calls[c].phase.Thening?;
      SetCall(s, c, s.calls[c].(refLease := false, phase := if thenable then Done else Dropping))
        .(refs := FinishLease(s.refs, s.calls[c].func, env),
          flow := if thenable then s.flow.(running := None) else s.flow)
    case DropMessage =>
      var c := s.flow.running.value;
      SetCallDropping(s, c, s.calls[c].(phase := Done)).(flow := s.flow.(running := None))
    case Settle(c) => SettleCall(s, c)
    case Prune(p) =>
      var s1 := SettleCall(s, s.promises.table[p]);
      s1.(promises := ReleasePromise(s1.promises, p))
    case Drain => s.(promises := DrainPromises(s.promises))
    case CancelOne(p) =>
      var c := s.promises.drained[p];
      var s1 := if Settleable(s.calls, c) then SettleCall(s, c) else s;
      s1.(promises := DropDrained(s1.promises, p))
    case Collect(c) => SetCallDropping(s, c, s.calls[c].(collected := true, sender := false))
  }

  // ---------------------------------------------------------------------
  // The invariant
  // ---------------------------------------------------------------------

  // The outstanding call leases of function `f`.
  function Leases(calls: Calls, f: FuncId): set<CallId> {
    set c | c in calls && calls[c].func == f && calls[c].refLease
  }

  // The calls whose dependency lease is held.
  function Dependents(calls: Calls): set<CallId> {
    set c | c in calls && calls[c].dep
  }

  ghost predicate RefsInv(calls: Calls, r: References) {
    && (forall f | f in r.table ::
          f < r.next && f !in r.doomed && f !in r.deleted
          && r.table[f].inFlight == |Leases(calls, f)|
          && (r.table[f].retired && r.table[f].inFlight == 0 ==> f in r.lastAborted))
    && (forall c | c in calls && calls[c].refLease :: calls[c].func in r.table)
    && (forall f | f in r.doomed :: f < r.next && f !in r.deleted)
    && (forall f | f in r.deleted :: f < r.next && r.deleted[f] == 1)
  }

  predicate OnOwner(p: Phase) { p.Begun? || p.Leased? || p.Aborting? }

  predicate OnNode(p: Phase) { p.Running? || p.Replied? || p.Thening? || p.Dropping? }

  predicate Over(p: Phase) { p.Dropping? || p.Done? || p.Aborted? }

  ghost predicate FlowInv(calls: Calls, w: Flow) {
    && |w.queue| <= MAX_HOST_QUEUE
    && (forall c | c in calls :: c < w.next)
    && (forall i | 0 <= i < |w.queue| :: w.queue[i] in calls && calls[w.queue[i]].phase.Queued?)
    && (forall i, j | 0 <= i < j < |w.queue| :: w.queue[i] != w.queue[j])
    && (forall c | c in calls && calls[c].phase.Queued? :: c in w.queue)
    && (forall c | c in calls :: OnOwner(calls[c].phase) <==> w.dispatching == Some(c))
    && (forall c | c in calls :: OnNode(calls[c].phase) <==> w.running == Some(c))
    && (w.dispatching.Some? ==> w.dispatching.value in calls)
    && (w.running.Some? ==> w.running.value in calls)
  }

  predicate CallInv(k: Call) {
    && k.replies <= 1 && (k.sender ==> k.replies == 0)
    && (if k.dep || k.phase.Begun? then k.drops == 0 else k.drops == 1)
    && (k.refLease <==> !Over(k.phase))
    && (k.collected ==> k.phase.Done? && k.promise.Some? && !k.sender)
    && (k.promise.Some? ==>
          && (k.phase.Thening? || k.phase.Done?)
          && k.dep == k.sender
          && (!k.sender && !k.collected ==> k.replies == 1))
    && (k.promise.None? ==>
          && !k.phase.Thening?
          && (k.sender <==> k.phase.Begun? || k.phase.Leased? || k.phase.Queued? || k.phase.Running?)
          && (k.dep <==>
                k.phase.Leased? || k.phase.Queued? || k.phase.Running? || k.phase.Replied? || k.phase.Dropping?)
          && (k.replies == 1 <==> k.phase.Replied? || k.phase.Dropping? || k.phase.Done?))
  }

  ghost predicate CallsInv(calls: Calls) {
    forall c | c in calls :: CallInv(calls[c])
  }

  predicate Tracked(q: Promises, p: PromiseId) {
    p in q.table || p in q.drained
  }

  // What the promise table owes to promise `p` of call `k`.
  predicate PromiseOf(k: Call, c: CallId, p: PromiseId, q: Promises) {
    && k.promise == Some(p)
    && q.deleted[p] == (if Tracked(q, p) then 0 else 1)
    && !(p in q.table && p in q.drained)
    && (p in q.table ==> q.table[p] == c && (k.sender || k.collected))
    && (p in q.drained ==> q.drained[p] == c)
    && (k.sender ==> Tracked(q, p))
  }

  ghost predicate MadeInv(calls: Calls, q: Promises) {
    forall p | p in q.made :: p < q.next && q.made[p] in calls && PromiseOf(calls[q.made[p]], q.made[p], p, q)
  }

  ghost predicate PromiseInv(calls: Calls, q: Promises) {
    && (forall p | p in q.table :: p in q.made)
    && (forall p | p in q.drained :: p in q.made)
    && (forall p | p in q.deleted :: p in q.made)
    && MadeInv(calls, q)
    && (forall c | c in calls && calls[c].promise.Some? ::
        calls[c].promise.value in q.made && q.made[calls[c].promise.value] == c)
  }

  ghost predicate Invariant(s: State) {
    && RefsInv(s.calls, s.refs)
    && FlowInv(s.calls, s.flow)
    && CallsInv(s.calls)
    && PromiseInv(s.calls, s.promises)
    && s.deps == |Dependents(s.calls)|
  }

  // ---------------------------------------------------------------------
  // Counting
  // ---------------------------------------------------------------------

  function Bit(b: bool): int {
    if b then 1 else 0
  }

  // Two sets that differ in `c` at most.
  lemma DifferInOne<T>(a: set<T>, b: set<T>, c: T)
    requires a - {c} == b - {c}
    ensures |b| == |a| - Bit(c in a) + Bit(c in b)
  {
    assert c in a ==> a == (a - {c}) + {c};
    assert c in b ==> b == (b - {c}) + {c};
    assert c !in a ==> a == a - {c};
    assert c !in b ==> b == b - {c};
  }

  predicate Counts(calls: Calls, c: CallId, f: FuncId) {
    c in calls && calls[c].func == f && calls[c].refLease
  }

  lemma LeasesAfter(calls: Calls, c: CallId, k: Call, f: FuncId)
    ensures |Leases(calls[c := k], f)|
         == |Leases(calls, f)| - Bit(Counts(calls, c, f)) + Bit(k.func == f && k.refLease)
  {
    DifferInOne(Leases(calls, f), Leases(calls[c := k], f), c);
  }

  lemma DependentsAfter(calls: Calls, c: CallId, k: Call)
    ensures |Dependents(calls[c := k])| == |Dependents(calls)| - Bit(c in calls && calls[c].dep) + Bit(k.dep)
  {
    DifferInOne(Dependents(calls), Dependents(calls[c := k]), c);
  }

  // ---------------------------------------------------------------------
  // The reference table under each kind of change
  // ---------------------------------------------------------------------

  lemma RefsFrame(calls: Calls, r: References, c: CallId, k: Call)
    requires RefsInv(calls, r)
    requires c in calls && calls[c].func == k.func && calls[c].refLease == k.refLease
    ensures RefsInv(calls[c := k], r)
  {
    forall f ensures |Leases(calls[c := k], f)| == |Leases(calls, f)| {
      LeasesAfter(calls, c, k, f);
    }
  }

  lemma RefsRegister(calls: Calls, r: References)
    requires RefsInv(calls, r)
    ensures RefsInv(calls, AddReference(r))
  {
    assert Leases(calls, r.next) == {};
  }

  lemma RefsRetire(calls: Calls, r: References, f: FuncId)
    requires RefsInv(calls, r)
    ensures RefsInv(calls, RetireReference(r, f))
  {
    if RetireRemoves(r.table, f) {
      forall c | c in calls && calls[c].refLease ensures calls[c].func != f {
        assert c in Leases(calls, calls[c].func);
      }
    }
  }

  lemma RefsShutdown(calls: Calls, r: References)
    requires RefsInv(calls, r)
    ensures RefsInv(calls, ShutdownReferences(r))
  {
    forall c | c in calls && calls[c].refLease ensures r.table[calls[c].func].inFlight != 0 {
      assert c in Leases(calls, calls[c].func);
    }
  }

  lemma RefsDelete(calls: Calls, r: References, f: FuncId)
    requires RefsInv(calls, r) && f in r.doomed
    ensures RefsInv(calls, DeleteReference(r, f))
  {
  }

  lemma RefsBegin(calls: Calls, r: References, c: CallId, k: Call)
    requires RefsInv(calls, r) && c !in calls && k.refLease && k.func in r.table
    ensures RefsInv(calls[c := k], LeaseReference(r, k.func))
  {
    forall f ensures |Leases(calls[c := k], f)| == |Leases(calls, f)| + Bit(f == k.func) {
      LeasesAfter(calls, c, k, f);
    }
  }

  // The lease counts after call `c` gave up its lease.
  lemma LeaseEnded(calls: Calls, c: CallId, k: Call, f: FuncId)
    requires c in calls && calls[c].refLease && k.func == calls[c].func && !k.refLease
    ensures |Leases(calls[c := k], f)| == |Leases(calls, f)| - Bit(f == k.func)
    ensures |Leases(calls, k.func)| > 0
    ensures Leases(calls, k.func) == Leases(calls[c := k], k.func) + {c}
  {
    LeasesAfter(calls, c, k, f);
    assert c in Leases(calls, k.func);
  }

  lemma RefsAbort(calls: Calls, r: References, c: CallId, k: Call)
    requires RefsInv(calls, r)
    requires c in calls && calls[c].refLease && k.func == calls[c].func && !k.refLease
    ensures RefsInv(calls[c := k], AbortLease(r, k.func))
  {
    forall f ensures |Leases(calls[c := k], f)| == |Leases(calls, f)| - Bit(f == k.func)
        && |Leases(calls, k.func)| > 0 {
      LeaseEnded(calls, c, k, f);
    }
  }

  // The entry of a retired function goes with its last lease.
  lemma RefsRemove(calls: Calls, r: References, c: CallId, k: Call, env: bool)
    requires RefsInv(calls, r) && FinishRemoves(r.table, k.func)
    requires c in calls && calls[c].refLease && k.func == calls[c].func && !k.refLease
    ensures RefsInv(calls[c := k], FinishLease(r, k.func, env))
  {
    var after := calls[c := k];
    forall f ensures |Leases(after, f)| == |Leases(calls, f)| - Bit(f == k.func) {
      LeaseEnded(calls, c, k, f);
    }
    LeaseEnded(calls, c, k, k.func);
    assert Leases(after, k.func) == {};
    forall d | d in after && after[d].refLease ensures after[d].func in r.table - {k.func} {
      assert d in Leases(after, after[d].func);
    }
  }

  lemma RefsFinish(calls: Calls, r: References, c: CallId, k: Call, env: bool)
    requires RefsInv(calls, r)
    requires c in calls && calls[c].refLease && k.func == calls[c].func && !k.refLease
    ensures RefsInv(calls[c := k], FinishLease(r, k.func, env))
  {
    if FinishRemoves(r.table, k.func) {
      RefsRemove(calls, r, c, k, env);
    } else {
      forall f ensures |Leases(calls[c := k], f)| == |Leases(calls, f)| - Bit(f == k.func)
          && |Leases(calls, k.func)| > 0 {
        LeaseEnded(calls, c, k, f);
      }
    }
  }

  // ---------------------------------------------------------------------
  // The promise table under each kind of change
  // ---------------------------------------------------------------------

  lemma PromiseFrame(calls: Calls, q: Promises, c: CallId, k: Call)
    requires PromiseInv(calls, q)
    requires c in calls ==> k.promise == calls[c].promise
    requires c !in calls ==> k.promise.None?
    requires k.promise.Some? ==> PromiseOf(k, c, k.promise.value, q)
    ensures PromiseInv(calls[c := k], q)
  {
  }

  lemma PromiseOther(calls: Calls, q: Promises, c: CallId, k: Call, p: PromiseId)
    requires PromiseInv(calls, q) && c in calls && calls[c].promise.None? && p in q.made
    ensures q.made[p] != c && q.made[p] in calls && PromiseOf(calls[q.made[p]], q.made[p], p, AddPromise(q, c))
  {
  }

  lemma PromiseNew(calls: Calls, q: Promises, c: CallId, k: Call)
    requires PromiseInv(calls, q) && c in calls
    requires k.promise == Some(q.next) && k.sender
    ensures PromiseOf(k, c, q.next, AddPromise(q, c))
  {
    assert q.next !in q.made;
  }

  lemma ThenableMade(calls: Calls, q: Promises, c: CallId, k: Call)
    requires PromiseInv(calls, q) && c in calls && calls[c].promise.None?
    requires k.promise == Some(q.next) && k.sender
    ensures MadeInv(calls[c := k], AddPromise(q, c))
  {
    var after, q' := calls[c := k], AddPromise(q, c);
    forall p | p in q'.made ensures p < q'.next && q'.made[p] in after
        && PromiseOf(after[q'.made[p]], q'.made[p], p, q') {
      if p == q.next {
        PromiseNew(calls, q, c, k);
      } else {
        PromiseOther(calls, q, c, k, p);
      }
    }
  }

  lemma PromiseThenable(calls: Calls, q: Promises, c: CallId, k: Call)
    requires PromiseInv(calls, q) && c in calls && calls[c].promise.None?
    requires k.promise == Some(q.next) && k.sender
    ensures PromiseInv(calls[c := k], AddPromise(q, c))
  {
    ThenableMade(calls, q, c, k);
  }

  lemma PromiseDrain(calls: Calls, q: Promises)
    requires PromiseInv(calls, q)
    ensures PromiseInv(calls, DrainPromises(q))
  {
    var q' := DrainPromises(q);
    forall p | p in q'.made ensures PromiseOf(calls[q'.made[p]], q'.made[p], p, q') {
      assert p in q.made;
    }
  }

  lemma PromiseSettle(calls: Calls, q: Promises, c: CallId, k: Call)
    requires PromiseInv(calls, q) && c in calls && calls[c].promise.Some? && calls[c].sender
    requires k.promise == calls[c].promise && !k.sender
    ensures PromiseInv(calls[c := k], ReleasePromise(q, k.promise.value))
    ensures k.promise.value !in ReleasePromise(q, k.promise.value).table
  {
  }

  lemma PromiseCancelled(calls: Calls, q: Promises, p: PromiseId)
    requires PromiseInv(calls, q) && p in q.drained && q.drained[p] in calls && !calls[q.drained[p]].sender
    ensures PromiseInv(calls, DropDrained(q, p))
  {
  }

  // ---------------------------------------------------------------------
  // Every action keeps the invariant, part by part
  // ---------------------------------------------------------------------

  // The one call an action changes, if any.
  function Subject(s: State, l: Label): Option<CallId>
    requires Enabled(s, l)
  {
    match l
    case Begin(_) => Some(s.flow.next)
    case Lease => s.flow.dispatching
    case Enqueue => s.flow.dispatching
    case EnqueueFail => s.flow.dispatching
    case Abort => s.flow.dispatching
    case Start => Some(s.flow.queue[0])
    case ReplyNow => s.flow.running
    case Thenable => s.flow.running
    case End(_) => s.flow.running
    case DropMessage => s.flow.running
    case Prune(p) => Some(s.promises.table[p])
    case CancelOne(p) => Some(s.promises.drained[p])
    case Abandon(c) => Some(c)
    case Settle(c) => Some(c)
    case Collect(c) => Some(c)
    case _ => None
  }

  // The new record of the call an action changes.
  function CallAfter(s: State, l: Label): Call
    requires Enabled(s, l) && Subject(s, l).Some?
    requires !l.Begin? ==> Subject(s, l).value in s.calls
  {
    Next(s, l).calls[Subject(s, l).value]
  }

  lemma OnlySubjectChanges(s: State, l: Label)
    requires Enabled(s, l)
    ensures Subject(s, l).None? ==> Next(s, l).calls == s.calls
    ensures Subject(s, l).Some? && !l.Begin? ==> Subject(s, l).value in s.calls
    ensures Subject(s, l).Some? ==> Next(s, l).calls == s.calls[Subject(s, l).value := CallAfter(s, l)]
  {
    match l
    case Prune(_) =>
    case CancelOne(_) =>
    case Settle(_) =>
    case _ =>
  }

  lemma CallKept(s: State, l: Label)
    requires Enabled(s, l) && Subject(s, l).Some?
    requires !l.Begin? ==> Subject(s, l).value in s.calls && CallInv(s.calls[Subject(s, l).value])
    requires l.Start? ==> s.calls[s.flow.queue[0]].phase.Queued?
    ensures CallInv(CallAfter(s, l))
  {
  }

  lemma CallsKept(s: State, l: Label)
    requires Enabled(s, l) && CallsInv(s.calls) && FlowInv(s.calls, s.flow)
    ensures CallsInv(Next(s, l).calls)
  {
    OnlySubjectChanges(s, l);
    if Subject(s, l).Some? {
      CallKept(s, l);
    }
  }

  // The counter moves exactly with the dependency lease of the call it changes.
  lemma DepsMove(s: State, l: Label)
    requires Enabled(s, l)
    requires Subject(s, l).Some? && !l.Begin?
             ==> Subject(s, l).value in s.calls && CallInv(s.calls[Subject(s, l).value])
    ensures Subject(s, l).None? ==> Next(s, l).deps == s.deps
    ensures Subject(s, l).Some? && !l.Begin? ==>
              Next(s, l).deps == s.deps - Bit(s.calls[Subject(s, l).value].dep) + Bit(CallAfter(s, l).dep)
    ensures l.Begin? ==> Next(s, l).deps == s.deps && !CallAfter(s, l).dep
  {
  }

  lemma DepsKept(s: State, l: Label)
    requires Enabled(s, l) && CallsInv(s.calls) && s.deps == |Dependents(s.calls)|
    requires s.flow.next !in s.calls
    ensures Next(s, l).deps == |Dependents(Next(s, l).calls)|
  {
    OnlySubjectChanges(s, l);
    DepsMove(s, l);
    if Subject(s, l).Some? {
      DependentsAfter(s.calls, Subject(s, l).value, CallAfter(s, l));
    }
  }

  lemma RefsKept(s: State, l: Label)
    requires Enabled(s, l) && CallsInv(s.calls) && RefsInv(s.calls, s.refs)
    requires s.flow.next !in s.calls
    ensures RefsInv(Next(s, l).calls, Next(s, l).refs)
  {
    OnlySubjectChanges(s, l);
    match l
    case Register => RefsRegister(s.calls, s.refs);
    case Retire(f) => RefsRetire(s.calls, s.refs, f);
    case ShutdownTable => RefsShutdown(s.calls, s.refs);
    case DeleteDoomed(f) => RefsDelete(s.calls, s.refs, f);
    case Drain =>
    case Begin(_) => RefsBegin(s.calls, s.refs, s.flow.next, CallAfter(s, l));
    case Abort => RefsAbort(s.calls, s.refs, s.flow.dispatching.value, CallAfter(s, l));
    case End(env) => RefsFinish(s.calls, s.refs, s.flow.running.value, CallAfter(s, l), env);
    case _ => RefsFrame(s.calls, s.refs, Subject(s, l).value, CallAfter(s, l));
  }

  lemma FlowFrame(calls: Calls, w: Flow, c: CallId, k: Call)
    requires FlowInv(calls, w) && c in calls
    requires OnOwner(k.phase) == OnOwner(calls[c].phase) && OnNode(k.phase) == OnNode(calls[c].phase)
    requires k.phase.Queued? == calls[c].phase.Queued?
    ensures FlowInv(calls[c := k], w)
  {
  }

  lemma FlowEnqueue(calls: Calls, w: Flow, c: CallId, k: Call)
    requires FlowInv(calls, w) && w.dispatching == Some(c) && k.phase.Queued? && |w.queue| < MAX_HOST_QUEUE
    ensures FlowInv(calls[c := k], w.(queue := w.queue + [c], dispatching := None))
  {
    assert c !in w.queue;
  }

  lemma FlowStart(calls: Calls, w: Flow, k: Call)
    requires FlowInv(calls, w) && w.running.None? && w.queue != [] && k.phase.Running?
    ensures FlowInv(calls[w.queue[0] := k], w.(queue := w.queue[1..], running := Some(w.queue[0])))
  {
    forall c | c in w.queue && c != w.queue[0] ensures c in w.queue[1..] {
      var i :| 0 <= i < |w.queue| && w.queue[i] == c;
      assert w.queue[1..][i - 1] == c;
    }
  }

  lemma FlowLeaves(calls: Calls, w: Flow, c: CallId, k: Call)
    requires FlowInv(calls, w) && !OnOwner(k.phase) && !OnNode(k.phase) && !k.phase.Queued?
    ensures w.dispatching == Some(c) ==> FlowInv(calls[c := k], w.(dispatching := None))
    ensures w.running == Some(c) ==> FlowInv(calls[c := k], w.(running := None))
  {
  }

  lemma FlowBegin(calls: Calls, w: Flow, k: Call)
    requires FlowInv(calls, w) && w.dispatching.None? && k.phase.Begun?
    ensures FlowInv(calls[w.next := k], w.(next := w.next + 1, dispatching := Some(w.next)))
  {
  }

  // How an action moves its call between owner, queue and Node.
  lemma FlowShape(s: State, l: Label)
    requires Enabled(s, l)
    ensures Subject(s, l).None? ==> Next(s, l).flow == s.flow
    ensures l.Begin? || l.Enqueue? || l.Start? || l.Abort? || l.DropMessage? || l.End? || Next(s, l).flow == s.flow
    ensures Subject(s, l).Some? && !l.Begin? && !l.Enqueue? && !l.Start? ==>
              var k, k' := s.calls[Subject(s, l).value], CallAfter(s, l);
              if Next(s, l).flow == s.flow
              then OnOwner(k.phase) == OnOwner(k'.phase) && OnNode(k.phase) == OnNode(k'.phase)
                   && k.phase.Queued? == k'.phase.Queued?
              else !OnOwner(k'.phase) && !OnNode(k'.phase) && !k'.phase.Queued?
                   && (if l.Abort? then Next(s, l).flow == s.flow.(dispatching := None)
                       else Next(s, l).flow == s.flow.(running := None))
  {
  }

  lemma FlowKept(s: State, l: Label)
    requires Enabled(s, l) && FlowInv(s.calls, s.flow)
    ensures FlowInv(Next(s, l).calls, Next(s, l).flow)
  {
    OnlySubjectChanges(s, l);
    FlowShape(s, l);
    if Subject(s, l).Some? {
      var c, k := Subject(s, l).value, CallAfter(s, l);
      if l.Begin? {
        FlowBegin(s.calls, s.flow, k);
      } else if l.Enqueue? {
        FlowEnqueue(s.calls, s.flow, c, k);
      } else if l.Start? {
        FlowStart(s.calls, s.flow, k);
      } else if Next(s, l).flow != s.flow {
        FlowLeaves(s.calls, s.flow, c, k);
      } else {
        FlowFrame(s.calls, s.flow, c, k);
      }
    }
  }

  // Settling, pruning and cancelling a call: one settlement, then the table.
  lemma SettledPromises(s: State, c: CallId)
    requires PromiseInv(s.calls, s.promises) && Settleable(s.calls, c) && CallInv(s.calls[c])
    ensures PromiseInv(SettleCall(s, c).calls, SettleCall(s, c).promises)
    ensures !SettleCall(s, c).calls[c].sender
    ensures s.calls[c].promise.value !in SettleCall(s, c).promises.table
  {
    if s.calls[c].sender {
      PromiseSettle(s.calls, s.promises, c, SettleCall(s, c).calls[c]);
    } else {
      var p := s.calls[c].promise.value;
      assert p in s.promises.made && PromiseOf(s.calls[c], c, p, s.promises);
    }
  }

  lemma CancelPromises(s: State, p: PromiseId)
    requires Enabled(s, CancelOne(p)) && CallsInv(s.calls) && PromiseInv(s.calls, s.promises)
    ensures PromiseInv(Next(s, CancelOne(p)).calls, Next(s, CancelOne(p)).promises)
  {
    var c := s.promises.drained[p];
    if Settleable(s.calls, c) {
      SettledPromises(s, c);
      var t := SettleCall(s, c);
      PromiseCancelled(t.calls, t.promises, p);
    } else {
      PromiseCancelled(s.calls, s.promises, p);
    }
  }

  lemma PromisesKept(s: State, l: Label)
    requires Enabled(s, l) && CallsInv(s.calls) && PromiseInv(s.calls, s.promises)
    requires s.flow.next !in s.calls
    ensures PromiseInv(Next(s, l).calls, Next(s, l).promises)
  {
    if l.Settle? {
      SettledPromises(s, l.c);
    } else if l.Prune? {
      SettledPromises(s, s.promises.table[l.p]);
    } else if l.CancelOne? {
      CancelPromises(s, l.p);
    } else if l.Drain? {
      PromiseDrain(s.calls, s.promises);
    } else {
      OnlySubjectChanges(s, l);
      if Subject(s, l).Some? {
        if l.Thenable? {
          PromiseThenable(s.calls, s.promises, Subject(s, l).value, CallAfter(s, l));
        } else {
          PromiseFrame(s.calls, s.promises, Subject(s, l).value, CallAfter(s, l));
        }
      }
    }
  }

  lemma StepKeeps(s: State, l: Label)
    requires Invariant(s) && Enabled(s, l)
    ensures Invariant(Next(s, l))
  {
    CallsKept(s, l);
    FlowKept(s, l);
    RefsKept(s, l);
    PromisesKept(s, l);
    DepsKept(s, l);
  }

  // ---------------------------------------------------------------------
  // Runs
  // ---------------------------------------------------------------------

  // Whether the actions of `ls` can happen in turn from `s`.
  predicate Run(s: State, ls: seq<Label>)
    decreases |ls|
  {
    ls == [] || (Enabled(s, ls[0]) && Run(Next(s, ls[0]), ls[1..]))
  }

  function After(s: State, ls: seq<Label>): State
    requires Run(s, ls)
    decreases |ls|
  {
    if ls == [] then s else After(Next(s, ls[0]), ls[1..])
  }

  lemma {:induction false} RunKeeps(s: State, ls: seq<Label>)
    requires Invariant(s) && Run(s, ls)
    ensures Invariant(After(s, ls))
    decreases |ls|
  {
    if ls != [] {
      StepKeeps(s, ls[0]);
      RunKeeps(Next(s, ls[0]), ls[1..]);
    }
  }

  lemma Reached(ls: seq<Label>)
    requires Run(INITIAL, ls)
    ensures Invariant(After(INITIAL, ls))
  {
    RunKeeps(INITIAL, ls);
  }

  lemma Subset<T>(a: set<T>, b: set<T>)
    requires a <= b
    ensures |a| <= |b|
  {
    assert b == a + (b - a);
  }

  function Elements(q: seq<CallId>): (r: set<CallId>)
    ensures forall c :: c in r <==> c in q
    ensures |r| <= |q|
  {
    if q == [] then {} else {q[0]} + Elements(q[1..])
  }

  lemma Union<T>(a: set<T>, b: set<T>)
    ensures |a + b| <= |a| + |b|
  {
    assert a + b == a + (b - a);
    Subset(b - a, b);
  }

  function Slot(o: Option<CallId>): (r: set<CallId>)
    ensures |r| <= 1 && forall c :: c in r <==> o == Some(c)
  {
    if o.Some? then {o.value} else {}
  }

  lemma LeasesBound(calls: Calls, w: Flow, f: FuncId)
    requires FlowInv(calls, w) && CallsInv(calls)
    ensures |Leases(calls, f)| <= MAX_HOST_QUEUE + 2
  {
    var owner, node := Slot(w.dispatching), Slot(w.running);
    forall c | c in Leases(calls, f) ensures c in Elements(w.queue) + owner + node {
      assert CallInv(calls[c]);
    }
    Subset(Leases(calls, f), Elements(w.queue) + owner + node);
    Union(Elements(w.queue), owner);
    Union(Elements(w.queue) + owner, node);
  }

  // In-flight numbers are lease counts, so the saturating arithmetic never
  // saturates: not at zero, and not at the top because the queue is bounded.
  lemma InFlightCountsLeases(ls: seq<Label>, f: FuncId)
    requires Run(INITIAL, ls)
    ensures var s := After(INITIAL, ls);
            f in s.refs.table ==>
              s.refs.table[f].inFlight == |Leases(s.calls, f)| && s.refs.table[f].inFlight <= MAX_HOST_QUEUE + 2
  {
    Reached(ls);
    LeasesBound(After(INITIAL, ls).calls, After(INITIAL, ls).flow, f);
  }

  // A function reference is deleted at most once, and never while some call
  // still holds a lease on it.
  lemma ReferenceSafety(ls: seq<Label>)
    requires Run(INITIAL, ls)
    ensures var s := After(INITIAL, ls);
            && (forall f :: s.refs.deleted[f] <= 1)
            && (forall c | c in s.calls && s.calls[c].refLease ::
                  var f := s.calls[c].func;
                  f in s.refs.table && s.refs.table[f].inFlight > 0 && f !in s.refs.doomed && s.refs.deleted[f] == 0)
            && (forall f | f in s.refs.table && s.refs.table[f].retired && Leases(s.calls, f) == {} ::
                f in s.refs.lastAborted)
  {
    Reached(ls);
    var s := After(INITIAL, ls);
    forall c | c in s.calls && s.calls[c].refLease ensures s.refs.table[s.calls[c].func].inFlight > 0 {
      assert c in Leases(s.calls, s.calls[c].func);
    }
  }

  // A retired reference that waits for a deletion no lease will bring about.
  predicate Stranded(s: State, f: FuncId) {
    f in s.refs.table && s.refs.table[f].retired && Leases(s.calls, f) == {}
  }

  // The action is an abort that ends the only lease of the retired reference `f`.
  predicate AbortsLast(s: State, l: Label, f: FuncId) {
    && l.Abort? && At(s, s.flow.dispatching, Aborting)
    && f in s.refs.table && s.refs.table[f].retired && Leases(s.calls, f) == {s.flow.dispatching.value}
  }

  lemma StrandedIsIdle(s: State, f: FuncId)
    requires RefsInv(s.calls, s.refs)
    ensures Stranded(s, f) <==> RetiredIdle(s.refs.table, f)
  {
  }

  lemma OnlyLease(s: State, c: CallId, f: FuncId)
    requires RefsInv(s.calls, s.refs) && f in s.refs.table && c in s.calls && s.calls[c].refLease
    ensures Leases(s.calls, f) == {c} <==> s.calls[c].func == f && s.refs.table[f].inFlight == 1
  {
    if s.calls[c].func == f && s.refs.table[f].inFlight == 1 {
      DifferInOne(Leases(s.calls, f), Leases(s.calls, f) - {c}, c);
      assert Leases(s.calls, f) - {c} == {};
    }
    assert Leases(s.calls, f) == {c} ==> c in Leases(s.calls, f);
  }

  lemma LeaseCounted(s: State, c: CallId)
    requires RefsInv(s.calls, s.refs) && CallsInv(s.calls) && c in s.calls && !Over(s.calls[c].phase)
    ensures s.calls[c].refLease && s.calls[c].func in s.refs.table && s.refs.table[s.calls[c].func].inFlight > 0
  {
    assert CallInv(s.calls[c]);
    assert c in Leases(s.calls, s.calls[c].func);
  }

  predicate RetiredIdle(r: RefTable, f: FuncId) {
    f in r && r[f].retired && r[f].inFlight == 0
  }

  lemma IdleAfterFinish(r: RefTable, g: FuncId, f: FuncId)
    requires g in r && r[g].inFlight > 0
    ensures RetiredIdle(FinishRef(r, g), f) <==> RetiredIdle(r, f)
    ensures RetiredIdle(AbortRef(r, g), f) <==> RetiredIdle(r, f) || (f == g && r[f].retired && r[f].inFlight == 1)
  {
  }

  lemma IdleAfterMain(r: References, f: FuncId, g: FuncId)
    requires r.next !in r.table
    ensures RetiredIdle(AddReference(r).table, f) <==> RetiredIdle(r.table, f)
    ensures RetiredIdle(RetireReference(r, g).table, f) <==> RetiredIdle(r.table, f) && f != g
    ensures !RetiredIdle(ShutdownReferences(r).table, f)
  {
  }

  // Where an action leaves the table of references.
  predicate TableIs(s: State, l: Label, t: RefTable) {
    var r := s.refs;
    match l
    case Register => t == AddReference(r).table
    case Retire(g) => t == RetireReference(r, g).table
    case ShutdownTable => t == ShutdownReferences(r).table
    case Begin(g) => g in r.table && t == BeginRef(r.table, g)
    case Abort => At(s, s.flow.dispatching, Aborting) && t == AbortRef(r.table, s.calls[s.flow.dispatching.value].func)
    case End(_) => OnNodeNow(s) && t == FinishRef(r.table, s.calls[s.flow.running.value].func)
    case _ => t == r.table
  }

  predicate OnNodeNow(s: State) {
    At(s, s.flow.running, Replied) || At(s, s.flow.running, Thening)
  }

  lemma TableAfter(s: State, l: Label)
    requires Enabled(s, l)
    ensures TableIs(s, l, Next(s, l).refs.table)
  {
  }

  lemma IdleAfter(s: State, l: Label, f: FuncId)
    requires RefsInv(s.calls, s.refs) && CallsInv(s.calls) && Enabled(s, l)
    ensures RetiredIdle(Next(s, l).refs.table, f) <==>
            if l.Abort? && s.calls[s.flow.dispatching.value].func == f
            then f in s.refs.table && s.refs.table[f].retired && s.refs.table[f].inFlight == 1
            else RetiredIdle(s.refs.table, f) && l != Retire(f) && !l.ShutdownTable? && l != Begin(f)
  {
    TableAfter(s, l);
    match l
    case Retire(g) => IdleAfterMain(s.refs, f, g);
    case Abort =>
      LeaseCounted(s, s.flow.dispatching.value);
      IdleAfterFinish(s.refs.table, s.calls[s.flow.dispatching.value].func, f);
    case End(_) =>
      LeaseCounted(s, s.flow.running.value);
      IdleAfterFinish(s.refs.table, s.calls[s.flow.running.value].func, f);
    case _ => IdleAfterMain(s.refs, f, f);
  }

  // An action strands a reference exactly when it is an abort that ends the only lease
  // of a retired one, and ends that state exactly when it deletes or leases it again.
  lemma StrandedExactly(s: State, l: Label, f: FuncId)
    requires Invariant(s) && Enabled(s, l)
    ensures !Stranded(s, f) && Stranded(Next(s, l), f) <==> AbortsLast(s, l, f)
    ensures Stranded(s, f) && !Stranded(Next(s, l), f) <==>
            Stranded(s, f) && (l == Retire(f) || l.ShutdownTable? || l == Begin(f))
  {
    StepKeeps(s, l);
    StrandedIsIdle(s, f);
    StrandedIsIdle(Next(s, l), f);
    IdleAfter(s, l, f);
    if l.Abort? && f in s.refs.table {
      OnlyLease(s, s.flow.dispatching.value, f);
    }
  }

  lemma {:induction false} RunSnoc(s: State, ls: seq<Label>, l: Label)
    requires Run(s, ls) && Enabled(After(s, ls), l)
    ensures Run(s, ls + [l]) && After(s, ls + [l]) == Next(After(s, ls), l)
    decreases |ls|
  {
    if ls == [] {
      assert Run(Next(s, l), []);
    } else {
      RunSnoc(Next(s, ls[0]), ls[1..], l);
      assert (ls + [l])[1..] == ls[1..] + [l];
    }
  }

  // The deferred deletion is lost where a lease ends in an abort: the run below
  // leaves a retired entry without leases whose reference was never deleted.
  lemma AbortKeepsRetiredEntry() returns (ls: seq<Label>)
    ensures Run(INITIAL, ls)
    ensures var s := After(INITIAL, ls);
            s.refs.table == map[0 := RefEntry(0, true)] && Leases(s.calls, 0) == {} && s.refs.deleted[0] == 0
  {
    ls := [];
    RunSnoc(INITIAL, ls, Register);
    ls := ls + [Register];
    RunSnoc(INITIAL, ls, Begin(0));
    ls := ls + [Begin(0)];
    RunSnoc(INITIAL, ls, Lease);
    ls := ls + [Lease];
    RunSnoc(INITIAL, ls, Retire(0));
    ls := ls + [Retire(0)];
    RunSnoc(INITIAL, ls, EnqueueFail);
    ls := ls + [EnqueueFail];
    RunSnoc(INITIAL, ls, Abort);
    ls := ls + [Abort];
  }

  // Each host call replies at most once, its dependency lease is dropped exactly
  // once (never twice, and never left behind by a finished call), the shared
  // counter counts the leases still held, and a promise reference is deleted
  // exactly once, exactly when its table entry is gone.
  lemma SettlesOnce(ls: seq<Label>)
    requires Run(INITIAL, ls)
    ensures var s := After(INITIAL, ls);
            && s.deps == |Dependents(s.calls)| >= 0
            && (forall c | c in s.calls ::
                  var k := s.calls[c];
                  && k.replies <= 1
                  && k.drops == (if k.dep || k.phase.Begun? then 0 else 1)
                  && (k.phase.Aborted? || (k.phase.Done? && !k.sender) ==> k.drops == 1)
                  && (k.promise.Some? ==>
                        s.promises.deleted[k.promise.value] == (if Tracked(s.promises, k.promise.value) then 0 else 1)))
  {
    Reached(ls);
    var s := After(INITIAL, ls);
    forall c | c in s.calls
      ensures CallInv(s.calls[c])
      ensures s.calls[c].promise.Some? ==>
                s.promises.deleted[s.calls[c].promise.value]
                    == (if Tracked(s.promises, s.calls[c].promise.value) then 0 else 1)
    {
      if s.calls[c].promise.Some? {
        var p := s.calls[c].promise.value;
        assert p in s.promises.made && PromiseOf(s.calls[c], c, p, s.promises);
      }
    }
  }

  // Once a cancellation has emptied the table and worked off what it took out,
  // no promise reference is left undeleted and no settlement is left unanswered.
  lemma CancellationLeavesNothing(ls: seq<Label>)
    requires Run(INITIAL, ls)
    ensures var s := After(INITIAL, ls);
            s.promises.table == map[] && s.promises.drained == map[] ==>
              forall c | c in s.calls && s.calls[c].promise.Some? ::
                && s.promises.deleted[s.calls[c].promise.value] == 1
                && !s.calls[c].dep && s.calls[c].drops == 1
                && (s.calls[c].replies == 1 || s.calls[c].collected)
  {
    Reached(ls);
    var s := After(INITIAL, ls);
    if s.promises.table == map[] && s.promises.drained == map[] {
      forall c | c in s.calls && s.calls[c].promise.Some?
        ensures s.promises.deleted[s.calls[c].promise.value] == 1 && CallInv(s.calls[c]) && !s.calls[c].sender
      {
        var p := s.calls[c].promise.value;
        assert p in s.promises.made && PromiseOf(s.calls[c], c, p, s.promises);
      }
    }
  }
}
