/**
 The table of exported functions: slots that are reused under a new generation, so
 that a late release of an old id can never reach the value that took its slot.
 */
module ExportSlots {
  import opened Wrappers
  import opened GuestHeap

  const MAX_GENERATION: nat := 0xffff_ffff_ffff_ffff

  type RootId = nat

  datatype ExportId = ExportId(slot: nat, generation: nat)

  datatype Slot = Slot(generation: nat, value: Option<Value>, pin: Option<RootId>)

  // `roots` and `nextRoot` are the collector's table of pinned values.
  datatype Table = Table(slots: seq<Slot>, free: seq<nat>, roots: map<RootId, Value>, nextRoot: RootId)

  function Empty(): Table {
    Table([], [], map[], 0)
  }

  // ---------------------------------------------------------------------
  // The operations
  // ---------------------------------------------------------------------

  // Where the next insertion goes: the most recently freed slot, else a new one.
  function Target(t: Table): nat {
    if t.free == [] then |t.slots| else t.free[|t.free| - 1]
  }

  predicate InsertFits(t: Table) {
    t.free != [] ==> Target(t) < |t.slots|
  }

  function NextId(t: Table): ExportId
    requires InsertFits(t)
  {
    ExportId(Target(t), if t.free == [] then 1 else t.slots[Target(t)].generation + 1)
  }

  function Filled(t: Table, v: Value): Slot
    requires InsertFits(t)
  {
    Slot(NextId(t).generation, Some(v), Some(t.nextRoot))
  }

  function Insert(t: Table, v: Value): Table
    requires InsertFits(t)
  {
    if t.free == [] then Table(t.slots + [Filled(t, v)], [], t.roots[t.nextRoot := v], t.nextRoot + 1)
    else Table(t.slots[Target(t) := Filled(t, v)], t.free[..|t.free| - 1], t.roots[t.nextRoot := v], t.nextRoot + 1)
  }

  predicate Hits(t: Table, id: ExportId) {
    id.slot < |t.slots| && t.slots[id.slot].generation == id.generation && t.slots[id.slot].value.Some?
  }

  function Get(t: Table, id: ExportId): Option<Value> {
    if Hits(t, id) then t.slots[id.slot].value else None
  }

  function Release(t: Table, id: ExportId): Table {
    if !Hits(t, id) then t
    else
      var slot := t.slots[id.slot];
      Table(
        t.slots[id.slot := Slot(slot.generation, None, None)],
        if slot.generation < MAX_GENERATION then t.free + [id.slot] else t.free,
        if slot.pin.Some? then t.roots - {slot.pin.value} else t.roots,
        t.nextRoot)
  }

  // ---------------------------------------------------------------------
  // The invariant
  // ---------------------------------------------------------------------

  predicate Reusable(slot: Slot) {
    slot.value.None? && slot.generation < MAX_GENERATION
  }

  // The free list names exactly the dead slots that have a generation left, once each.
  ghost predicate FreeInv(t: Table) {
    && (forall i, j | 0 <= i < j < |t.free| :: t.free[i] != t.free[j])
    && (forall i | 0 <= i < |t.free| :: t.free[i] < |t.slots| && Reusable(t.slots[t.free[i]]))
    && (forall s | 0 <= s < |t.slots| && Reusable(t.slots[s]) :: s in t.free)
  }

  ghost predicate GenerationInv(t: Table) {
    forall s | 0 <= s < |t.slots| :: 1 <= t.slots[s].generation <= MAX_GENERATION
  }

  ghost predicate Pinned(t: Table, s: nat, r: RootId) {
    s < |t.slots| && t.slots[s].pin == Some(r)
  }

  // The pinned roots are exactly the live slots' values, one root for each.
  ghost predicate PinInv(t: Table) {
    && (forall s | 0 <= s < |t.slots| :: t.slots[s].pin.Some? <==> t.slots[s].value.Some?)
    && (forall s | 0 <= s < |t.slots| && t.slots[s].pin.Some? ::
          t.slots[s].pin.value in t.roots && Some(t.roots[t.slots[s].pin.value]) == t.slots[s].value)
    && (forall r | r in t.roots :: r < t.nextRoot && exists s :: Pinned(t, s, r))
    && (forall s, u, r | Pinned(t, s, r) && Pinned(t, u, r) :: s == u)
  }

  ghost predicate Inv(t: Table) {
    FreeInv(t) && GenerationInv(t) && PinInv(t)
  }

  lemma InsertKeepsFree(t: Table, v: Value)
    requires FreeInv(t) && GenerationInv(t)
    ensures FreeInv(Insert(t, v)) && GenerationInv(Insert(t, v))
  {
    if t.free == [] {
      assert forall s | 0 <= s < |t.slots| :: Insert(t, v).slots[s] == t.slots[s];
    } else {
      ReuseKeepsFree(t, v);
    }
  }

  lemma ReuseKeepsFree(t: Table, v: Value)
    requires FreeInv(t) && GenerationInv(t) && t.free != []
    ensures FreeInv(Insert(t, v)) && GenerationInv(Insert(t, v))
  {
    var u := Insert(t, v);
    var last := |t.free| - 1;
    assert u.free == t.free[..last] && u.slots == t.slots[t.free[last] := Filled(t, v)];
    forall s | 0 <= s < |u.slots| && Reusable(u.slots[s]) ensures s in u.free {
      assert s in t.free;
    }
  }

  lemma InsertKeepsPins(t: Table, v: Value)
    requires InsertFits(t) && (t.free != [] ==> t.slots[Target(t)].value.None?) && PinInv(t)
    ensures PinInv(Insert(t, v))
  {
    var u, at := Insert(t, v), Target(t);
    forall s | 0 <= s < |u.slots| && u.slots[s].pin.Some?
      ensures u.slots[s].pin.value in u.roots && Some(u.roots[u.slots[s].pin.value]) == u.slots[s].value
    {
      if s != at {
        assert u.slots[s] == t.slots[s];
      }
    }
    forall r | r in u.roots ensures r < u.nextRoot && exists s :: Pinned(u, s, r) {
      if r == t.nextRoot {
        assert Pinned(u, at, r);
      } else {
        var s :| Pinned(t, s, r);
        assert Pinned(u, s, r);
      }
    }
    forall s: nat, w: nat, r | Pinned(u, s, r) && Pinned(u, w, r) ensures s == w {
      if s != at && w != at {
        assert Pinned(t, s, r) && Pinned(t, w, r);
      }
    }
  }

  lemma ReleaseKeepsFree(t: Table, id: ExportId)
    requires FreeInv(t) && GenerationInv(t)
    ensures FreeInv(Release(t, id)) && GenerationInv(Release(t, id))
  {
    var u := Release(t, id);
    forall s | 0 <= s < |u.slots| && Reusable(u.slots[s]) ensures s in u.free {
      if Hits(t, id) && s == id.slot {
        assert u.free[|t.free|] == s;
      } else {
        assert s in t.free;
        var i :| 0 <= i < |t.free| && t.free[i] == s;
        assert u.free[i] == s;
      }
    }
  }

  lemma ReleaseKeepsPins(t: Table, id: ExportId)
    requires PinInv(t)
    ensures PinInv(Release(t, id))
  {
    if Hits(t, id) {
      var u, gone := Release(t, id), t.slots[id.slot].pin.value;
      assert Pinned(t, id.slot, gone);
      forall s | 0 <= s < |u.slots| && u.slots[s].pin.Some?
        ensures u.slots[s].pin.value in u.roots && Some(u.roots[u.slots[s].pin.value]) == u.slots[s].value
      {
        assert u.slots[s] == t.slots[s] && Pinned(t, s, u.slots[s].pin.value);
      }
      forall r | r in u.roots ensures r < u.nextRoot && exists s :: Pinned(u, s, r) {
        var s :| Pinned(t, s, r);
        assert Pinned(u, s, r);
      }
      forall s: nat, w: nat, r | Pinned(u, s, r) && Pinned(u, w, r) ensures s == w {
        assert Pinned(t, s, r) && Pinned(t, w, r);
      }
    }
  }

  // ---------------------------------------------------------------------
  // Runs
  // ---------------------------------------------------------------------

  datatype Op = Put(value: Value) | Drop(id: ExportId)

  ghost predicate Steps(t: Table, op: Op, u: Table) {
    match op
    case Put(v) => InsertFits(t) && u == Insert(t, v)
    case Drop(id) => u == Release(t, id)
  }

  // `ts` are the tables a run goes through, the empty one first.
  ghost predicate IsRun(ops: seq<Op>, ts: seq<Table>) {
    && |ts| == |ops| + 1 && ts[0] == Empty()
    && forall k | 0 <= k < |ops| :: Steps(ts[k], ops[k], ts[k + 1])
  }

  lemma StepKeeps(t: Table, op: Op, u: Table)
    requires Inv(t) && Steps(t, op, u)
    ensures Inv(u)
  {
    match op
    case Put(v) => InsertKeepsFree(t, v); InsertKeepsPins(t, v);
    case Drop(id) => ReleaseKeepsFree(t, id); ReleaseKeepsPins(t, id);
  }

  // Every table of every run satisfies the invariant.
  lemma {:induction false} RunKeeps(ops: seq<Op>, ts: seq<Table>, n: nat)
    requires IsRun(ops, ts) && n <= |ops|
    ensures Inv(ts[n])
  {
    if n > 0 {
      RunKeeps(ops, ts, n - 1);
      StepKeeps(ts[n - 1], ops[n - 1], ts[n]);
    }
  }

  // Every list of operations has a run: an insertion always finds its slot.
  lemma {:induction false} RunExists(ops: seq<Op>) returns (ts: seq<Table>)
    ensures IsRun(ops, ts)
  {
    if ops == [] {
      ts := [Empty()];
    } else {
      var n := |ops| - 1;
      ts := RunExists(ops[..n]);
      RunKeeps(ops[..n], ts, n);
      var u := if ops[n].Put? then Insert(ts[n], ops[n].value) else Release(ts[n], ops[n].id);
      ts := ts + [u];
      forall k | 0 <= k < |ops| ensures Steps(ts[k], ops[k], ts[k + 1]) {
        assert k < n ==> ops[k] == ops[..n][k];
      }
    }
  }

  ghost predicate Issued(t: Table, id: ExportId) {
    id.slot < |t.slots| && 1 <= id.generation <= t.slots[id.slot].generation
  }

  // What one insertion issues, and that no other id changes its meaning.
  lemma InsertEffect(t: Table, v: Value, id: ExportId)
    requires FreeInv(t) && GenerationInv(t)
    ensures !Issued(t, NextId(t))
    ensures Issued(Insert(t, v), id) <==> Issued(t, id) || id == NextId(t)
    ensures Get(Insert(t, v), id) == if id == NextId(t) then Some(v) else Get(t, id)
  {
  }

  lemma ReleaseEffect(t: Table, drop: ExportId, id: ExportId)
    ensures Issued(Release(t, drop), id) <==> Issued(t, id)
    ensures Get(Release(t, drop), id) == if drop == id then None else Get(t, id)
  {
  }

  ghost predicate DroppedSince(ops: seq<Op>, i: nat, n: nat, id: ExportId)
    requires i <= n <= |ops|
  {
    exists j | i <= j < n :: ops[j] == Drop(id)
  }

  // The id handed out by operation `i` of a run.
  ghost function IdAt(ts: seq<Table>, i: nat): ExportId
    requires i < |ts| && InsertFits(ts[i])
  {
    NextId(ts[i])
  }

  // An id means the value it was issued for until it is first released, and nothing from then on,
  // however many early, late, repeated or forged releases the run contains.
  lemma {:induction false} LiveUntilReleased(ops: seq<Op>, ts: seq<Table>, i: nat, n: nat)
    requires IsRun(ops, ts) && i < n <= |ops| && ops[i].Put?
    ensures InsertFits(ts[i]) && Issued(ts[n], IdAt(ts, i))
    ensures Get(ts[n], IdAt(ts, i)) == if DroppedSince(ops, i, n, IdAt(ts, i)) then None else Some(ops[i].value)
  {
    assert Steps(ts[i], ops[i], ts[i + 1]);
    RunKeeps(ops, ts, n - 1);
    var id := IdAt(ts, i);
    if i < n - 1 {
      LiveUntilReleased(ops, ts, i, n - 1);
    }
    OneMore(ops, ts, i, n, id);
  }

  lemma OneMore(ops: seq<Op>, ts: seq<Table>, i: nat, n: nat, id: ExportId)
    requires |ts| == |ops| + 1 && i < n <= |ops| && ops[i].Put?
    requires Inv(ts[n - 1]) && Steps(ts[n - 1], ops[n - 1], ts[n])
    requires i == n - 1 ==> id == NextId(ts[i])
    requires i < n - 1 ==> Issued(ts[n - 1], id)
    requires i < n - 1 ==> Get(ts[n - 1], id) == if DroppedSince(ops, i, n - 1, id) then None else Some(ops[i].value)
    ensures Issued(ts[n], id)
    ensures Get(ts[n], id) == if DroppedSince(ops, i, n, id) then None else Some(ops[i].value)
  {
    match ops[n - 1]
    case Put(v) =>
      InsertEffect(ts[n - 1], v, id);
      assert i < n - 1 ==> (DroppedSince(ops, i, n, id) <==> DroppedSince(ops, i, n - 1, id));
    case Drop(drop) => ReleaseEffect(ts[n - 1], drop, id);
  }

  // No id is ever handed out twice.
  lemma NeverReused(ops: seq<Op>, ts: seq<Table>, i: nat, k: nat)
    requires IsRun(ops, ts) && i < k < |ops| && ops[i].Put? && ops[k].Put?
    ensures InsertFits(ts[i]) && InsertFits(ts[k]) && IdAt(ts, i) != IdAt(ts, k)
  {
    LiveUntilReleased(ops, ts, i, k);
    assert Steps(ts[k], ops[k], ts[k + 1]);
    RunKeeps(ops, ts, k);
    InsertEffect(ts[k], ops[k].value, IdAt(ts, k));
  }

  // An id that was never handed out means nothing.
  lemma {:induction false} UnissuedIsNothing(ops: seq<Op>, ts: seq<Table>, n: nat, id: ExportId)
    requires IsRun(ops, ts) && n <= |ops|
    requires forall i | 0 <= i < n && ops[i].Put? :: InsertFits(ts[i]) ==> IdAt(ts, i) != id
    ensures !Issued(ts[n], id) && Get(ts[n], id) == None
  {
    if n > 0 {
      UnissuedIsNothing(ops, ts, n - 1, id);
      RunKeeps(ops, ts, n - 1);
      assert Steps(ts[n - 1], ops[n - 1], ts[n]);
      if ops[n - 1].Put? {
        InsertEffect(ts[n - 1], ops[n - 1].value, id);
        assert IdAt(ts, n - 1) != id;
      } else {
        ReleaseEffect(ts[n - 1], ops[n - 1].id, id);
      }
    }
  }

  // ---------------------------------------------------------------------
  // The table as the runtime holds it
  // ---------------------------------------------------------------------

  ghost function ReleaseAll(t: Table, ids: seq<ExportId>): Table
    decreases |ids|
  {
    if ids == [] then t else ReleaseAll(Release(t, ids[0]), ids[1..])
  }

  // Draining forgets exactly the queued ids, in whatever order and however often they were queued.
  lemma {:induction false} DrainForgets(t: Table, ids: seq<ExportId>, id: ExportId)
    ensures Get(ReleaseAll(t, ids), id) == if id in ids then None else Get(t, id)
    decreases |ids|
  {
    if ids != [] {
      DrainForgets(Release(t, ids[0]), ids[1..], id);
      ReleaseEffect(t, ids[0], id);
      assert ids == [ids[0]] + ids[1..];
    }
  }

  class Slots {
    var slots: seq<Slot>
    var free: seq<nat>
    var roots: map<RootId, Value>
    var nextRoot: RootId

    ghost function View(): Table
      reads this
    {
      Table(slots, free, roots, nextRoot)
    }

    constructor ()
      ensures View() == Empty() && Inv(View())
    {
      slots, free, roots, nextRoot := [], [], map[], 0;
    }

    method Add(value: Value) returns (id: ExportId)
      requires Inv(View())
      modifies this
      ensures Inv(View()) && View() == Insert(old(View()), value)
      ensures id == NextId(old(View())) && id.generation <= MAX_GENERATION
    {
      ghost var before := View();
      var pin := nextRoot;
      nextRoot := nextRoot + 1;
      roots := roots[pin := value];
      var slot;
      if free == [] {
        slots := slots + [Slot(0, None, None)];
        slot := |slots| - 1;
      } else {
        slot := free[|free| - 1];
        free := free[..|free| - 1];
      }
      var generation := slots[slot].generation + 1;
      slots := slots[slot := Slot(generation, Some(value), Some(pin))];
      id := ExportId(slot, generation);
      assert before.free == [] ==> slots == before.slots + [Filled(before, value)];
      assert View() == Insert(before, value);
      InsertKeepsFree(before, value);
      InsertKeepsPins(before, value);
    }

    method Lookup(id: ExportId) returns (value: Option<Value>)
      ensures value == Get(View(), id)
    {
      if id.slot >= |slots| || slots[id.slot].generation != id.generation {
        return None;
      }
      value := slots[id.slot].value;
    }

    method Remove(id: ExportId)
      requires Inv(View())
      modifies this
      ensures Inv(View()) && View() == Release(old(View()), id)
    {
      ReleaseKeepsFree(View(), id);
      ReleaseKeepsPins(View(), id);
      if id.slot >= |slots| {
        return;
      }
      var entry := slots[id.slot];
      if entry.generation != id.generation || entry.value.None? {
        return;
      }
      if entry.pin.Some? {
        roots := roots - {entry.pin.value};
      }
      slots := slots[id.slot := Slot(entry.generation, None, None)];
      if entry.generation < MAX_GENERATION {
        free := free + [id.slot];
      }
    }

    // Applies the releases that finalizers queued since the last run.
    method DrainReleases(queued: seq<ExportId>)
      requires Inv(View())
      modifies this
      ensures Inv(View()) && View() == ReleaseAll(old(View()), queued)
    {
      var i := 0;
      while i < |queued|
        invariant 0 <= i <= |queued| && Inv(View())
        invariant ReleaseAll(View(), queued[i..]) == ReleaseAll(old(View()), queued)
      {
        Remove(queued[i]);
        i := i + 1;
      }
    }
  }
}
