/**
 The host bridge: reference leases with deferred deletion, and host calls whose
 promises settle once.

 Two threads act on the state. The owner thread dispatches host calls; the Node
 thread runs callbacks, settles promises and deletes N-API references. Every
 label below is one action under one lock or on one atomic; a run is any
 interleaving of enabled labels, so the Node-thread loops (prune, cancel,
 shutdown) may be interrupted between any two entries.

 A persistent reference is named by what it was created for: a host function's
 reference by its function id, a promise's reference by its promise id.
 */
module Bridge {
  import opened Wrappers

  // Bound on the dispatcher's queue of host calls.
  const MAX_HOST_QUEUE: nat := 1024

  type FuncId = nat
  type CallId = nat
  type PromiseId = nat

  datatype RefEntry = RefEntry(inFlight: nat, retired: bool)

  type RefTable = map<FuncId, RefEntry>

  // ---------------------------------------------------------------------
  // The reference table, one lock-protected operation each.
  // ---------------------------------------------------------------------

  function SaturatingDec(n: nat): nat {
    if n == 0 then 0 else n - 1
  }

  function BeginRef(refs: RefTable, f: FuncId): RefTable
    requires f in refs
  {
    refs[f := refs[f].(inFlight := refs[f].inFlight + 1)]
  }

  function AbortRef(refs: RefTable, f: FuncId): RefTable {
    if f in refs then refs[f := refs[f].(inFlight := SaturatingDec(refs[f].inFlight))] else refs
  }

  // Whether ending one lease of `f` takes the entry out of the table.
  predicate FinishRemoves(refs: RefTable, f: FuncId) {
    f in refs && refs[f].retired && SaturatingDec(refs[f].inFlight) == 0
  }

  function FinishRef(refs: RefTable, f: FuncId): RefTable {
    if FinishRemoves(refs, f) then refs - {f} else AbortRef(refs, f)
  }

  predicate RetireRemoves(refs: RefTable, f: FuncId) {
    f in refs && refs[f].inFlight == 0
  }

  function RetireRef(refs: RefTable, f: FuncId): RefTable {
    if f !in refs then refs
    else if RetireRemoves(refs, f) then refs - {f}
    else refs[f := refs[f].(retired := true)]
  }

  function IdleRefs(refs: RefTable): set<FuncId> {
    set f | f in refs && refs[f].inFlight == 0
  }

  function ShutdownRefs(refs: RefTable): RefTable {
    map f | f in refs && refs[f].inFlight != 0 :: refs[f].(retired := true)
  }

  /** The lock-protected table and the log of reference deletions. */
  class BridgeState {
    var refs: RefTable
    var deleted: multiset<FuncId>
    var released: bool

    constructor ()
      ensures refs == map[] && deleted == multiset{} && !released
    {
      refs, deleted, released := map[], multiset{}, false;
    }

    method InsertRef(id: FuncId)
      modifies `refs
      ensures refs == old(refs)[id := RefEntry(0, false)]
    {
      refs := refs[id := RefEntry(0, false)];
    }

    method BeginCall(id: FuncId) returns (r: Result<FuncId, string>)
      modifies `refs
      ensures r.Ok? <==> id in old(refs)
      ensures r.Ok? ==> r.value == id && refs == BeginRef(old(refs), id)
      ensures r.Err? ==> refs == old(refs)
    {
      if id !in refs {
        return Err("host function is not registered");
      }
      refs := refs[id := refs[id].(inFlight := refs[id].inFlight + 1)];
      return Ok(id);
    }

    method AbortCall(id: FuncId)
      modifies `refs
      ensures refs == AbortRef(old(refs), id)
    {
      if id in refs {
        refs := refs[id := refs[id].(inFlight := SaturatingDec(refs[id].inFlight))];
      }
    }

    method FinishCallOnMain(id: FuncId)
      modifies this
      ensures refs == FinishRef(old(refs), id) && released == old(released)
      ensures deleted == old(deleted) + if FinishRemoves(old(refs), id) then multiset{id} else multiset{}
      ensures id in old(refs) && !old(refs)[id].retired ==> id in refs && deleted == old(deleted)
    {
      if id !in refs {
        return;
      }
      var entry := refs[id].(inFlight := SaturatingDec(refs[id].inFlight));
      refs := refs[id := entry];
      if entry.retired && entry.inFlight == 0 {
        refs := refs - {id};
        deleted := deleted + multiset{id};
      }
    }

    method FinishCallOnTeardown(id: FuncId)
      modifies `refs
      ensures refs == FinishRef(old(refs), id)
      ensures id in old(refs) && !old(refs)[id].retired ==> id in refs
    {
      if id !in refs {
        return;
      }
      var entry := refs[id].(inFlight := SaturatingDec(refs[id].inFlight));
      refs := refs[id := entry];
      if entry.retired && entry.inFlight == 0 {
        refs := refs - {id};
      }
    }

    method Retire(id: FuncId)
      modifies this
      ensures refs == RetireRef(old(refs), id) && released == old(released)
      ensures deleted == old(deleted) + if RetireRemoves(old(refs), id) then multiset{id} else multiset{}
    {
      if id !in refs {
        return;
      }
      refs := refs[id := refs[id].(retired := true)];
      if refs[id].inFlight == 0 {
        refs := refs - {id};
        deleted := deleted + multiset{id};
      }
    }

    // The loop over the table, under the lock: every entry is retired and the
    // idle ones are taken out.
    method RetireAll() returns (immediate: set<FuncId>)
      modifies `refs
      ensures refs == ShutdownRefs(old(refs)) && immediate == IdleRefs(old(refs))
    {
      ghost var before := refs;
      var ids := refs.Keys;
      immediate := {};
      while ids != {}
        invariant ids <= before.Keys
        invariant forall f :: f in immediate <==> f in before && f !in ids && before[f].inFlight == 0
        invariant forall f :: f in refs <==> f in before && f !in immediate
        invariant forall f :: f in refs && f in ids ==> refs[f] == before[f]
        invariant forall f :: f in refs && f !in ids ==> refs[f] == before[f].(retired := true)
      {
        var id :| id in ids;
        refs := refs[id := refs[id].(retired := true)];
        if refs[id].inFlight == 0 {
          refs := refs - {id};
          immediate := immediate + {id};
        }
        ids := ids - {id};
      }
    }

    method DeleteAll(doomed: set<FuncId>)
      modifies `deleted
      ensures deleted == old(deleted) + multiset(doomed)
    {
      var left := doomed;
      while left != {}
        invariant left <= doomed
        invariant deleted == old(deleted) + multiset(doomed - left)
      {
        var id :| id in left;
        deleted := deleted + multiset{id};
        assert doomed - (left - {id}) == (doomed - left) + {id};
        left := left - {id};
      }
      assert doomed - left == doomed;
    }

    // Only the first call acts; references are deleted after the lock is gone.
    method ShutdownOnMain()
      modifies this
      ensures released
      ensures old(released) ==> refs == old(refs) && deleted == old(deleted)
      ensures !old(released) ==> refs == ShutdownRefs(old(refs))
      ensures !old(released) ==> deleted == old(deleted) + multiset(IdleRefs(old(refs)))
    {
      if released {
        return;
      }
      released := true;
      var immediate := RetireAll();
      DeleteAll(immediate);
    }
  }
}
