/** The runtime's host-module operations as they run: phases, rollback and revocation. */
module HostRegistry {
  import opened Wrappers
  import opened HostNames
  import opened HostModules

  // What assigning a global does: it works, it throws, or it has no effect.
  datatype Mode = Works | Throws | Ignored

  // What assigning each global does, which callback can be registered, and whether the wrapper
  // module evaluates.
  datatype Host = Host(modes: string -> Mode, registers: nat -> bool, evaluates: bool)

  // One enumerable property of the object the host passed.
  datatype Export = Export(key: string, isFunction: bool)

  // The lexer's verdict on export names; whatever it is, a usable name is an identifier.
  type Usable = string -> bool

  ghost predicate AdmitsKeys(usable: Usable) {
    forall k | usable(k) :: IsKey(k)
  }

  // Property keys of one object are distinct.
  ghost predicate DistinctKeys(offered: seq<Export>) {
    forall i, j | 0 <= i < j < |offered| :: offered[i].key != offered[j].key
  }

  predicate Acceptable(usable: Usable, offered: seq<Export>) {
    offered != [] && forall i | 0 <= i < |offered| :: usable(offered[i].key) && offered[i].isFunction
  }

  // Nothing the host environment does stands in the way.
  predicate Cooperates(host: Host, created: seq<string>) {
    host.evaluates && forall i | 0 <= i < |created| :: host.registers(i) && host.modes(created[i]).Works?
  }

  datatype RegisterError =
    | NoExports | UnusableKey(key: string) | NotAFunction(key: string)
    | CallbackFailed | CannotSet(global: string) | NotInstalled(global: string) | EvaluationFailed

  function Keys(exports: seq<Export>): seq<string> {
    seq(|exports|, (i: nat) requires i < |exports| => exports[i].key)
  }

  lemma KeysAre(offered: seq<Export>)
    ensures forall k :: k in Keys(offered) <==> exists i | 0 <= i < |offered| :: offered[i].key == k
  {
    forall k ensures k in Keys(offered) <==> exists i | 0 <= i < |offered| :: offered[i].key == k {
      if i :| 0 <= i < |offered| && offered[i].key == k {
        assert Keys(offered)[i] == k;
      }
    }
  }

  // The module is registered with this text and exactly these exports, and the global of the `i`th
  // holds the `i`th callback registered.
  ghost predicate Registered(u: View, name: Name, offered: seq<Export>, text: string, next: nat) {
    && name in u.sources && u.sources[name] == text && name in u.deferred && u.deferred[name] == text
    && name in u.owned && u.owned[name] == Created(name, Keys(offered))
    && name in u.exports && (forall k :: k in u.exports[name] <==> exists i | 0 <= i < |offered| :: offered[i].key == k)
    && forall i | 0 <= i < |offered| ::
         var g := Global(name, offered[i].key); g in u.globals && u.globals[g] == HostFunction(next + i)
  }

  lemma RegisteredAll(v: View, name: Name, offered: seq<Export>, text: string)
    requires ValidKeys(Keys(offered))
    ensures Registered(Next(v, Register(name, Keys(offered), text)), name, offered, text, v.nextId)
  {
    var keys := Keys(offered);
    KeysAre(offered);
    ExportsHold(v, name, keys, text);
    var u := Commit(v, name, keys, text);
    forall i | 0 <= i < |offered|
      ensures var g := Global(name, offered[i].key); g in u.globals && u.globals[g] == HostFunction(v.nextId + i)
    {
      assert keys[i] == offered[i].key;
    }
  }

  function ValueOf(globals: Globals, g: string): Option<GlobalValue> {
    if g in globals then Some(globals[g]) else None
  }

  function ValuesOf(globals: Globals, gs: seq<string>): seq<Option<GlobalValue>> {
    seq(|gs|, (i: nat) requires i < |gs| => ValueOf(globals, gs[i]))
  }

  // What an unregistration loop over `prior` removes.
  function IdsOf(prior: seq<Option<GlobalValue>>): set<nat> {
    set p | p in prior && p.Some? && p.value.HostFunction? :: p.value.id
  }

  lemma IdsOfValues(globals: Globals, gs: seq<string>)
    ensures IdsOf(ValuesOf(globals, gs)) == IdsAt(globals, Elements(gs))
  {
    var prior := ValuesOf(globals, gs);
    forall id | id in IdsAt(globals, Elements(gs)) ensures id in IdsOf(prior) {
      var g :| g in gs && g in globals && globals[g] == HostFunction(id);
      var i :| 0 <= i < |gs| && gs[i] == g;
      assert prior[i] in prior && prior[i] == Some(HostFunction(id));
    }
    forall id | id in IdsOf(prior) ensures id in IdsAt(globals, Elements(gs)) {
      var p :| p in prior && p == Some(HostFunction(id));
      var i :| 0 <= i < |gs| && prior[i] == p;
      assert gs[i] in Elements(gs);
    }
  }

  lemma IdsOfSnoc(prior: seq<Option<GlobalValue>>, p: Option<GlobalValue>)
    ensures IdsOf(prior + [p]) == IdsOf(prior) + (if p.Some? && p.value.HostFunction? then {p.value.id} else {})
  {
    assert forall q :: q in prior + [p] <==> q in prior || q == p;
  }

  lemma StaleSnoc(globals: Globals, previous: seq<string>, i: nat, kept: set<string>)
    requires i < |previous|
    ensures var before := Elements(previous[..i]) - kept;
            var after := Elements(previous[..i + 1]) - kept;
            && after == (if previous[i] in kept then before else before + {previous[i]})
            && globals - after == (if previous[i] in kept then globals - before else globals - before - {previous[i]})
            && IdsAt(globals, before) + IdsAt(globals - before, {previous[i]}) == IdsAt(globals, before + {previous[i]})
  {
    assert previous[..i + 1] == previous[..i] + [previous[i]];
    var before := Elements(previous[..i]) - kept;
    forall id | id in IdsAt(globals, before + {previous[i]})
      ensures id in IdsAt(globals, before) + IdsAt(globals - before, {previous[i]})
    {
      var g :| g in before + {previous[i]} && g in globals && globals[g] == HostFunction(id);
      if g !in before {
        assert g in globals - before;
      }
    }
  }

  // Revoking stale globals after the installation finds what was there before it.
  lemma StaleUntouched(globals: Globals, created: seq<string>, next: nat, previous: set<string>)
    ensures IdsAt(Install(globals, created, next, |created|), previous - Elements(created))
            == IdsAt(globals, previous - Elements(created))
  {
    var installed, stale := Install(globals, created, next, |created|), previous - Elements(created);
    assert created[..|created|] == created;
    forall g | g in stale ensures (g in installed <==> g in globals) && (g in globals ==> installed[g] == globals[g]) {
      InstalledElsewhere(globals, created, next, |created|, g);
    }
    assert forall id :: id in IdsAt(installed, stale) <==> id in IdsAt(globals, stale);
  }

  lemma RestoredIds(ids: set<nat>, next: nat, newIds: seq<nat>)
    requires forall id | id in ids :: id < next
    requires forall i | 0 <= i < |newIds| :: newIds[i] == next + i
    ensures ids + Numbers(next, |newIds|) - (set id | id in newIds) == ids
  {
    forall id | next <= id < next + |newIds| ensures id in newIds {
      assert newIds[id - next] == id;
    }
  }

  lemma RestoredModule(before: map<Name, set<string>>, after: map<Name, set<string>>, name: Name)
    requires name in before ==> name in after && after[name] == before[name]
    requires name !in before ==> name !in after
    requires after - {name} == before - {name}
    ensures after == before
  {
    forall n ensures (n in after <==> n in before) && (n in after ==> after[n] == before[n]) {
      if n != name {
        assert n in after <==> n in after - {name};
        assert n in before <==> n in before - {name};
        assert n in after ==> (after - {name})[n] == after[n];
        assert n in before ==> (before - {name})[n] == before[n];
      }
    }
  }

  class Runtime {
    var globals: Globals
    var exports: map<Name, set<string>>
    var sources: map<Name, string>
    var deferred: map<Name, string>
    var owned: map<Name, seq<string>>
    var ids: set<nat>
    var nextId: nat

    ghost function Now(): View
      reads this
    {
      View(globals, exports, sources, deferred, owned, ids, nextId)
    }

    method SetGlobal(mode: Mode, g: string, value: GlobalValue) returns (ok: bool)
      modifies this`globals
      ensures globals == if mode.Works? then old(globals)[g := value] else old(globals)
      ensures ok == !mode.Throws?
    {
      if mode.Works? {
        globals := globals[g := value];
      }
      ok := !mode.Throws?;
    }

    method RegisterCallbacks(registers: nat -> bool, n: nat) returns (newIds: seq<nat>, ok: bool)
      modifies this`ids, this`nextId
      ensures |newIds| <= n && (ok ==> |newIds| == n) && (ok <==> forall i | 0 <= i < n :: registers(i))
      ensures forall i | 0 <= i < |newIds| :: newIds[i] == old(nextId) + i
      ensures nextId == old(nextId) + |newIds| && ids == old(ids) + Numbers(old(nextId), |newIds|)
    {
      newIds, ok := [], true;
      while |newIds| < n
        invariant |newIds| <= n && ok && forall i | 0 <= i < |newIds| :: registers(i)
        invariant forall i | 0 <= i < |newIds| :: newIds[i] == old(nextId) + i
        invariant nextId == old(nextId) + |newIds| && ids == old(ids) + Numbers(old(nextId), |newIds|)
        decreases n - |newIds|
      {
        if !registers(|newIds|) {
          ok := false;
          return;
        }
        newIds := newIds + [nextId];
        ids := ids + {nextId};
        nextId := nextId + 1;
      }
    }

    method InstallGlobals(modes: string -> Mode, created: seq<string>, newIds: seq<nat>, ghost next: nat)
      returns (failure: Option<RegisterError>)
      requires |newIds| == |created| && forall i | 0 <= i < |newIds| :: newIds[i] == next + i
      modifies this`globals
      ensures failure.None? ==> globals == Install(old(globals), created, next, |created|)
      ensures (forall i | 0 <= i < |created| :: modes(created[i]).Works?) ==> failure.None?
      ensures forall g :: ValueOf(globals, g) == ValueOf(old(globals), g) || (g in created && modes(g).Works?)
    {
      for i := 0 to |created|
        invariant globals == Install(old(globals), created, next, i)
        invariant forall g :: ValueOf(globals, g) == ValueOf(old(globals), g) || (g in created && modes(g).Works?)
      {
        var g := created[i];
        var ok := SetGlobal(modes(g), g, HostFunction(newIds[i]));
        if !ok {
          return Some(CannotSet(g));
        }
        if ValueOf(globals, g) != Some(HostFunction(newIds[i])) {
          return Some(NotInstalled(g));
        }
      }
      failure := None;
    }

    // Puts back every global this call may have replaced.
    method RollBackGlobals(modes: string -> Mode, created: seq<string>, prior: seq<Option<GlobalValue>>,
        ghost before: Globals)
      requires prior == ValuesOf(before, created)
      requires forall g :: ValueOf(globals, g) == ValueOf(before, g) || (g in created && modes(g).Works?)
      modifies this`globals
      ensures globals == before
    {
      for i := 0 to |created|
        invariant forall g :: ValueOf(globals, g) == ValueOf(before, g) || (g in created[i..] && modes(g).Works?)
      {
        var g := created[i];
        if prior[i].Some? {
          var _ := SetGlobal(modes(g), g, prior[i].value);
        } else {
          globals := globals - {g};
        }
        assert forall h :: h in created[i..] <==> h == g || h in created[i + 1..];
      }
      forall g ensures (g in globals <==> g in before) && (g in globals ==> globals[g] == before[g]) {
        assert ValueOf(globals, g) == ValueOf(before, g);
      }
    }

    method UnregisterValues(prior: seq<Option<GlobalValue>>)
      modifies this`ids
      ensures ids == old(ids) - IdsOf(prior)
    {
      for i := 0 to |prior|
        invariant ids == old(ids) - IdsOf(prior[..i])
      {
        IdsOfSnoc(prior[..i], prior[i]);
        assert prior[..i + 1] == prior[..i] + [prior[i]];
        if prior[i].Some? && prior[i].value.HostFunction? {
          ids := ids - {prior[i].value.id};
        }
      }
      assert prior[..|prior|] == prior;
    }

    method UnregisterIds(newIds: seq<nat>)
      modifies this`ids
      ensures ids == old(ids) - (set id | id in newIds)
    {
      for i := 0 to |newIds|
        invariant ids == old(ids) - (set id | id in newIds[..i])
      {
        ids := ids - {newIds[i]};
        assert newIds[..i + 1] == newIds[..i] + [newIds[i]];
      }
      assert newIds[..|newIds|] == newIds;
    }

    // Drops a global and releases its callback.
    method RevokeGlobal(g: string) returns (removed: bool)
      modifies this`globals, this`ids
      ensures removed == (g in old(globals)) && globals == old(globals) - {g}
      ensures ids == old(ids) - IdsAt(old(globals), {g})
    {
      removed := g in globals;
      if removed {
        var value := globals[g];
        globals := globals - {g};
        if value.HostFunction? {
          ids := ids - {value.id};
        }
      }
    }

    // Revokes the globals of `previous` that are not in `kept`.
    method RevokeStale(previous: seq<string>, kept: seq<string>)
      modifies this`globals, this`ids
      ensures globals == old(globals) - (Elements(previous) - Elements(kept))
      ensures ids == old(ids) - IdsAt(old(globals), Elements(previous) - Elements(kept))
    {
      for i := 0 to |previous|
        invariant globals == old(globals) - (Elements(previous[..i]) - Elements(kept))
        invariant ids == old(ids) - IdsAt(old(globals), Elements(previous[..i]) - Elements(kept))
      {
        StaleSnoc(old(globals), previous, i, Elements(kept));
        if previous[i] !in kept {
          var _ := RevokeGlobal(previous[i]);
        }
      }
      assert previous[..|previous|] == previous;
    }

    // Takes the module out of every table and revokes its globals.
    method TakeOut(name: Name)
      modifies this
      ensures Now() == Next(old(Now()), Remove(name))
    {
      sources := sources - {name};
      deferred := deferred - {name};
      exports := exports - {name};
      if name in owned {
        var gone := owned[name];
        owned := owned - {name};
        RevokeStale(gone, []);
        assert Elements(gone) - Elements([]) == Elements(gone);
      }
    }

    method RemoveModule(name: Name) returns (removed: bool)
      modifies this
      ensures Now() == Next(old(Now()), Remove(name))
      ensures removed == (name in old(sources) || name in old(deferred) || name in old(exports))
      ensures name !in sources && name !in deferred && name !in exports && name !in owned
      ensures StaysExact(old(Now()), Now(), name)
    {
      CallStaysExact(Now(), Remove(name), name);
      removed := name in sources || name in deferred || name in exports;
      TakeOut(name);
    }

    // Puts the module tables back as they were before the wrapper was evaluated.
    method RollBackModule(name: Name, priorExports: Option<set<string>>, priorSource: Option<string>)
      modifies this`exports, this`deferred, this`sources
      ensures exports == if priorExports.Some? then old(exports)[name := priorExports.value] else old(exports) - {name}
      ensures sources == if priorSource.Some? then old(sources)[name := priorSource.value] else old(sources) - {name}
      ensures deferred == if priorSource.Some? then old(deferred)[name := priorSource.value] else old(deferred) - {name}
    {
      deferred := deferred - {name};
      exports := if priorExports.Some? then exports[name := priorExports.value] else exports - {name};
      if priorSource.Some? {
        deferred := deferred[name := priorSource.value];
        sources := sources[name := priorSource.value];
      } else {
        sources := sources - {name};
      }
    }

    // Phases one to three. On failure the caller rolls back.
    method Prepare(host: Host, name: Name, keys: seq<string>, created: seq<string>)
      returns (newIds: seq<nat>, failure: Option<RegisterError>)
      requires |created| == |keys|
      modifies this`globals, this`exports, this`ids, this`nextId
      ensures Cooperates(host, created) ==> failure.None?
      ensures |newIds| <= |keys| && forall i | 0 <= i < |newIds| :: newIds[i] == old(nextId) + i
      ensures nextId == old(nextId) + |newIds| && ids == old(ids) + Numbers(old(nextId), |newIds|)
      ensures forall g :: ValueOf(globals, g) == ValueOf(old(globals), g) || (g in created && host.modes(g).Works?)
      ensures exports - {name} == old(exports) - {name}
      ensures failure.None? ==>
                && |newIds| == |keys| && globals == Install(old(globals), created, old(nextId), |created|)
                && exports == old(exports)[name := set k | k in keys]
    {
      var ok;
      newIds, ok := RegisterCallbacks(host.registers, |keys|);
      if !ok {
        failure := Some(CallbackFailed);
        return;
      }
      failure := InstallGlobals(host.modes, created, newIds, old(nextId));
      if failure.Some? {
        return;
      }
      exports := exports[name := {}];
      if !host.evaluates {
        var partial :| partial <= (set k | k in keys);
        exports := exports[name := partial];
        failure := Some(EvaluationFailed);
      } else {
        exports := exports[name := set k | k in keys];
      }
    }

    method Undo(modes: string -> Mode, name: Name, created: seq<string>, prior: seq<Option<GlobalValue>>,
                priorExports: Option<set<string>>, priorSource: Option<string>, newIds: seq<nat>, ghost before: View)
      requires prior == ValuesOf(before.globals, created)
      requires priorExports == if name in before.exports then Some(before.exports[name]) else None
      requires priorSource == if name in before.sources then Some(before.sources[name]) else None
      requires forall g :: ValueOf(globals, g) == ValueOf(before.globals, g) || (g in created && modes(g).Works?)
      requires exports - {name} == before.exports - {name}
      requires sources == before.sources && deferred == before.deferred && owned == before.owned
      requires forall id | id in before.ids :: id < before.nextId
      requires ids == before.ids + Numbers(before.nextId, |newIds|)
      requires nextId == before.nextId + |newIds| && forall i | 0 <= i < |newIds| :: newIds[i] == before.nextId + i
      modifies this`globals, this`exports, this`sources, this`deferred, this`ids
      ensures Now() == Restored(before, name, |newIds|)
    {
      RollBackGlobals(modes, created, prior, before.globals);
      RollBackModule(name, priorExports, priorSource);
      UnregisterIds(newIds);
      RestoredModule(before.exports, exports, name);
      RestoredIds(before.ids, before.nextId, newIds);
    }

    // Retires what the new globals replaced and what the module no longer exports.
    method Finish(name: Name, keys: seq<string>, created: seq<string>, previous: seq<string>,
        prior: seq<Option<GlobalValue>>,
                  text: string, ghost before: View)
      requires created == Created(name, keys) && prior == ValuesOf(before.globals, created)
      requires previous == if name in before.owned then before.owned[name] else []
      requires globals == Install(before.globals, created, before.nextId, |created|)
      requires exports == before.exports[name := set k | k in keys]
      requires sources == before.sources && deferred == before.deferred && owned == before.owned
      requires ids == before.ids + Numbers(before.nextId, |keys|) && nextId == before.nextId + |keys|
      modifies this`globals, this`ids, this`owned, this`sources, this`deferred
      ensures Now() == Commit(before, name, keys, text)
    {
      UnregisterValues(prior);
      IdsOfValues(before.globals, created);
      StaleUntouched(before.globals, created, before.nextId, Elements(previous));
      RevokeStale(previous, created);
      assert Elements(previous) == Previous(before, name);
      owned := owned[name := created];
      deferred := deferred[name := text];
      sources := sources[name := text];
    }

    method Transact(host: Host, name: Name, keys: seq<string>, text: string) returns (failure: Option<RegisterError>)
      requires forall id | id in ids :: id < nextId
      modifies this
      ensures failure.None? ==> Now() == Next(old(Now()), Register(name, keys, text))
      ensures failure.Some? ==> old(nextId) <= nextId && Now() == Next(old(Now()), Refused(name, nextId - old(nextId)))
      ensures Cooperates(host, Created(name, keys)) ==> failure.None?
    {
      ghost var before := Now();
      var created := Created(name, keys);
      var previous := if name in owned then owned[name] else [];
      var prior := ValuesOf(globals, created);
      var priorExports := if name in exports then Some(exports[name]) else None;
      var priorSource := if name in sources then Some(sources[name]) else None;
      var newIds;
      newIds, failure := Prepare(host, name, keys, created);
      if failure.Some? {
        Undo(host.modes, name, created, prior, priorExports, priorSource, newIds, before);
      } else {
        Finish(name, keys, created, previous, prior, text, before);
      }
    }

    // Each call is one step of the runs in HostModules. A failed one restores all but the callback
    // counter exactly when the two registries of module text agreed about the name (RestoresExactly).
    method RegisterHostModule(host: Host, usable: Usable, name: Name, offered: seq<Export>, text: string)
      returns (r: Result<seq<string>, RegisterError>)
      requires AdmitsKeys(usable) && DistinctKeys(offered) && (forall id | id in ids :: id < nextId)
      modifies this
      ensures r.Ok? ==>
                Acceptable(usable, offered) && ValidKeys(Keys(offered)) && r.value == Created(name, Keys(offered))
      ensures r.Ok? ==> Now() == Next(old(Now()), Register(name, Keys(offered), text))
      ensures r.Ok? ==> Registered(Now(), name, offered, text, old(nextId))
      ensures r.Err? && !Acceptable(usable, offered) ==> Now() == old(Now())
      ensures r.Err? && Acceptable(usable, offered) ==>
                old(nextId) <= nextId && Now() == Next(old(Now()), Refused(name, nextId - old(nextId)))
      ensures Acceptable(usable, offered) && Cooperates(host, Created(name, Keys(offered))) ==> r.Ok?
      ensures StaysExact(old(Now()), Now(), name)
    {
      if offered == [] {
        return Err(NoExports);
      }
      for i := 0 to |offered|
        invariant Now() == old(Now())
        invariant forall j | 0 <= j < i :: usable(offered[j].key) && offered[j].isFunction
      {
        if !usable(offered[i].key) {
          return Err(UnusableKey(offered[i].key));
        }
        if !offered[i].isFunction {
          return Err(NotAFunction(offered[i].key));
        }
      }
      CallStaysExact(Now(), Register(name, Keys(offered), text), name);
      var failure := Transact(host, name, Keys(offered), text);
      if failure.Some? {
        CallStaysExact(old(Now()), Refused(name, nextId - old(nextId)), name);
      }
      r := if failure.Some? then Err(failure.value) else Ok(Created(name, Keys(offered)));
      if r.Ok? {
        RegisteredAll(old(Now()), name, offered, text);
      }
    }
  }
}
