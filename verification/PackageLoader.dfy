/**
 Loading an npm package graph into the guest: a worklist collects every module that the
 entry reaches, and the collected graph is registered as a whole or not at all.
 */
module PackageLoader {
  import opened Wrappers
  import ModuleLexer

  type Text = ModuleLexer.Text

  // A linked module: its text and the module ids its imports were rewritten to.
  datatype Module = Module(source: Text, targets: seq<Text>)

  // Why a module cannot be prepared: unreadable, rejected, CommonJS, unresolvable import.
  datatype LoadError = LoadError(message: string)

  // Reading, compiling, scanning, resolving and linking one module, by its canonical id.
  type Loading = Text -> Result<Module, LoadError>

  // ---------------------------------------------------------------------
  // The graph of a package
  // ---------------------------------------------------------------------

  ghost predicate ClosedUnder(load: Loading, s: set<Text>) {
    forall id, t | id in s && load(id).Ok? && t in load(id).value.targets :: t in s
  }

  // `id` belongs to every closed set that contains the entry.
  ghost predicate Reached(load: Loading, entry: Text, id: Text) {
    forall s: set<Text> | ClosedUnder(load, s) && entry in s :: id in s
  }

  ghost predicate NoRepeats(s: seq<Text>) {
    forall i, j | 0 <= i < j < |s| :: s[i] != s[j]
  }

  function Ids(s: seq<Text>): set<Text> {
    set id | id in s
  }

  // The loop's accounting: every scheduled id is prepared or pending, never both and once only.
  ghost predicate Accounted(order: seq<Text>, pending: seq<Text>, scheduled: set<Text>) {
    NoRepeats(order + pending) && scheduled == Ids(order + pending)
  }

  ghost predicate Faithful(load: Loading, order: seq<Text>, prepared: map<Text, Module>) {
    prepared.Keys == Ids(order) && forall id | id in prepared :: load(id) == Ok(prepared[id])
  }

  ghost predicate TargetsScheduled(prepared: map<Text, Module>, scheduled: set<Text>) {
    forall id, t | id in prepared && t in prepared[id].targets :: t in scheduled
  }

  ghost predicate AllReached(load: Loading, entry: Text, scheduled: set<Text>) {
    forall id | id in scheduled :: Reached(load, entry, id)
  }

  lemma IdsSnoc(s: seq<Text>, id: Text)
    ensures Ids(s + [id]) == Ids(s) + {id}
  {
  }

  lemma AccountedMore(order: seq<Text>, pending: seq<Text>, scheduled: set<Text>, t: Text)
    requires Accounted(order, pending, scheduled) && t !in scheduled
    ensures Accounted(order, pending + [t], scheduled + {t})
  {
    var all := order + pending;
    assert order + (pending + [t]) == all + [t];
    assert t !in all;
    IdsSnoc(all, t);
  }

  // One module's imports: those not seen before are scheduled and queued.
  method Schedule(targets: seq<Text>, pending: seq<Text>, scheduled: set<Text>, ghost order: seq<Text>)
    returns (pending': seq<Text>, scheduled': set<Text>)
    requires Accounted(order, pending, scheduled)
    ensures Accounted(order, pending', scheduled')
    ensures scheduled' == scheduled + Ids(targets)
    ensures |scheduled'| - |pending'| == |scheduled| - |pending|
  {
    pending', scheduled' := pending, scheduled;
    for i := 0 to |targets|
      invariant Accounted(order, pending', scheduled')
      invariant scheduled' == scheduled + Ids(targets[..i])
      invariant |scheduled'| - |pending'| == |scheduled| - |pending|
    {
      var t := targets[i];
      assert targets[..i + 1] == targets[..i] + [t];
      IdsSnoc(targets[..i], t);
      if t !in scheduled' {
        AccountedMore(order, pending', scheduled', t);
        scheduled' := scheduled' + {t};
        pending' := pending' + [t];
      }
    }
    assert targets[..|targets|] == targets;
  }

  lemma StillReached(load: Loading, entry: Text, id: Text, t: Text)
    requires Reached(load, entry, id) && load(id).Ok? && t in load(id).value.targets
    ensures Reached(load, entry, t)
  {
  }

  lemma SubsetSmaller(a: set<Text>, b: set<Text>)
    requires a <= b
    ensures |a| <= |b|
  {
    assert b == a + (b - a);
  }

  lemma TakeFirst(order: seq<Text>, pending: seq<Text>, scheduled: set<Text>)
    requires Accounted(order, pending, scheduled) && pending != []
    ensures Accounted(order + [pending[0]], pending[1..], scheduled) && pending[0] !in order && pending[0] in scheduled
  {
    var all := order + pending;
    assert all == (order + [pending[0]]) + pending[1..];
    assert all[|order|] == pending[0];
    forall i | 0 <= i < |order| ensures order[i] != pending[0] {
      assert all[i] == order[i] && all[i] != all[|order|];
    }
  }

  // Where the worklist stands: what it has prepared, in order, and what it still has to do.
  datatype Work = Work(order: seq<Text>, prepared: map<Text, Module>, pending: seq<Text>, scheduled: set<Text>)

  ghost predicate OnTrack(load: Loading, entry: Text, universe: set<Text>, w: Work) {
    && Accounted(w.order, w.pending, w.scheduled) && |w.scheduled| == |w.order| + |w.pending|
    && Faithful(load, w.order, w.prepared) && TargetsScheduled(w.prepared, w.scheduled)
    && AllReached(load, entry, w.scheduled) && entry in w.scheduled && w.scheduled <= universe
  }

  lemma ScheduledReached(load: Loading, entry: Text, universe: set<Text>, before: set<Text>, item: Text,
      after: set<Text>)
    requires ClosedUnder(load, universe) && AllReached(load, entry, before) && item in before && before <= universe
    requires load(item).Ok? && after == before + Ids(load(item).value.targets)
    ensures AllReached(load, entry, after) && after <= universe
  {
    forall id | id in after ensures Reached(load, entry, id) && id in universe {
      if id !in before {
        StillReached(load, entry, item, id);
      }
    }
  }

  lemma PreparedMore(load: Loading, order: seq<Text>, prepared: map<Text, Module>, item: Text, m: Module,
      before: set<Text>, after: set<Text>)
    requires Faithful(load, order, prepared) && TargetsScheduled(prepared, before)
    requires load(item) == Ok(m) && after == before + Ids(m.targets)
    ensures Faithful(load, order + [item], prepared[item := m]) && TargetsScheduled(prepared[item := m], after)
  {
    assert Ids(order + [item]) == Ids(order) + {item};
  }

  // One turn of the loop.
  method Turn(load: Loading, entry: Text, ghost universe: set<Text>, w: Work)
      returns (failure: Option<LoadError>, w': Work)
    requires ClosedUnder(load, universe) && OnTrack(load, entry, universe, w) && w.pending != []
    ensures failure.None? ==> OnTrack(load, entry, universe, w') && |w'.order| == |w.order| + 1
    ensures failure.Some? ==> exists id :: Reached(load, entry, id) && load(id) == Err(failure.value)
  {
    w' := w;
    var item := w.pending[0];
    TakeFirst(w.order, w.pending, w.scheduled);
    assert Reached(load, entry, item);
    var loaded := load(item);
    if loaded.Err? {
      failure := Some(loaded.error);
      return;
    }
    var pending, scheduled := Schedule(loaded.value.targets, w.pending[1..], w.scheduled, w.order + [item]);
    ScheduledReached(load, entry, universe, w.scheduled, item, scheduled);
    PreparedMore(load, w.order, w.prepared, item, loaded.value, w.scheduled, scheduled);
    w' := Work(w.order + [item], w.prepared[item := loaded.value], pending, scheduled);
    failure := None;
  }

  lemma Finished(load: Loading, entry: Text, universe: set<Text>, w: Work)
    requires OnTrack(load, entry, universe, w) && w.pending == []
    ensures NoRepeats(w.order) && w.prepared.Keys == w.scheduled && ClosedUnder(load, w.prepared.Keys)
  {
    assert w.order + [] == w.order;
  }

  // Collects the modules the entry reaches. `universe` are the ids that can be resolved at all.
  method Collect(load: Loading, entry: Text, ghost universe: set<Text>)
    returns (r: Result<map<Text, Module>, LoadError>, order: seq<Text>)
    requires ClosedUnder(load, universe) && entry in universe
    ensures r.Ok? ==>
              && NoRepeats(order) && Faithful(load, order, r.value) && entry in r.value
              && ClosedUnder(load, r.value.Keys) && AllReached(load, entry, r.value.Keys)
    ensures r.Err? ==> exists id :: Reached(load, entry, id) && load(id) == Err(r.error)
  {
    var w := Work([], map[], [entry], {entry});
    while w.pending != []
      invariant OnTrack(load, entry, universe, w)
      decreases |universe| - |w.order|
    {
      SubsetSmaller(w.scheduled, universe);
      var failure, w' := Turn(load, entry, universe, w);
      if failure.Some? {
        return Err(failure.value), [];
      }
      w := w';
    }
    Finished(load, entry, universe, w);
    r, order := Ok(w.prepared), w.order;
  }

  // The collected modules are exactly the reachable ones, and collecting fails exactly when one of them does.
  lemma CollectedExactly(load: Loading, entry: Text, order: seq<Text>, prepared: map<Text, Module>, id: Text)
    requires Faithful(load, order, prepared) && entry in prepared
    requires ClosedUnder(load, prepared.Keys) && AllReached(load, entry, prepared.Keys)
    ensures id in prepared <==> Reached(load, entry, id)
    ensures Reached(load, entry, id) ==> load(id).Ok?
  {
  }

  // ---------------------------------------------------------------------
  // Registering a collected graph
  // ---------------------------------------------------------------------

  type Modules = map<Text, Module>

  // Every registered module is in the VM and imports registered modules only.
  ghost predicate ClosedRegistry(vm: Modules, registered: set<Text>) {
    forall n | n in registered :: n in vm && forall t | t in vm[n].targets :: t in registered
  }

  // A collected graph: closed under its own imports, with the entry in it.
  ghost predicate Graph(order: seq<Text>, prepared: Modules, entry: Text) {
    && prepared.Keys == Ids(order) && entry in prepared
    && TargetsScheduled(prepared, prepared.Keys)
  }

  function Known(vm: Modules, registered: set<Text>): set<Text> {
    registered * vm.Keys
  }

  // No name that would be defined is taken by a module of somebody else.
  predicate Unclaimed(vm: Modules, known: set<Text>, order: seq<Text>) {
    forall i | 0 <= i < |order| :: order[i] in vm ==> order[i] in known
  }

  predicate NeedsAlias(known: set<Text>, specifier: Text, entry: Text) {
    specifier != entry && specifier !in known
  }

  function Alias(entry: Text, text: Text): Module {
    Module(text, [entry])
  }

  // The VM with the modules of `names` defined.
  function Extended(vm: Modules, names: set<Text>, prepared: Modules): Modules {
    vm + map id | id in names && id in prepared :: prepared[id]
  }

  // The VM after the new modules are defined.
  function Defined(vm: Modules, known: set<Text>, prepared: Modules): Modules {
    Extended(vm, prepared.Keys - known, prepared)
  }

  lemma ExtendedMore(vm: Modules, names: set<Text>, prepared: Modules, id: Text)
    requires id in prepared
    ensures Extended(vm, names, prepared)[id := prepared[id]] == Extended(vm, names + {id}, prepared)
  {
  }

  lemma ExtendedUndone(vm: Modules, names: set<Text>, prepared: Modules)
    requires forall n | n in names :: n !in vm
    ensures Extended(vm, names, prepared) - names == vm
  {
  }

  function RegisteredModules(vm: Modules, registered: set<Text>, prepared: Modules, specifier: Text, entry: Text,
      text: Text): Modules {
    var known := Known(vm, registered);
    var defined := Defined(vm, known, prepared);
    if NeedsAlias(known, specifier, entry) then defined[specifier := Alias(entry, text)] else defined
  }

  function RegisteredNames(vm: Modules, registered: set<Text>, prepared: Modules, specifier: Text,
      entry: Text): set<Text> {
    var known := Known(vm, registered);
    registered + (prepared.Keys - known) + (if NeedsAlias(known, specifier, entry) then {specifier} else {})
  }

  // The same, but registered modules may have been removed from the VM by others.
  ghost predicate LooselyClosed(vm: Modules, registered: set<Text>) {
    forall n | n in registered && n in vm :: forall t | t in vm[n].targets :: t in registered
  }

  lemma RegistrationLoose(vm: Modules, registered: set<Text>, order: seq<Text>, prepared: Modules, specifier: Text,
      entry: Text, text: Text)
    requires LooselyClosed(vm, registered) && Graph(order, prepared, entry)
    ensures LooselyClosed(RegisteredModules(vm, registered, prepared, specifier, entry, text),
                          RegisteredNames(vm, registered, prepared, specifier, entry))
  {
    var known := Known(vm, registered);
    var vm' := RegisteredModules(vm, registered, prepared, specifier, entry, text);
    var names := RegisteredNames(vm, registered, prepared, specifier, entry);
    assert prepared.Keys <= names;
    forall n | n in names && n in vm' ensures forall t | t in vm'[n].targets :: t in names {
      if NeedsAlias(known, specifier, entry) && n == specifier {
        assert vm'[n] == Alias(entry, text);
      } else if n in known {
        assert vm'[n] == vm[n];
      } else if n in prepared {
        assert vm'[n] == prepared[n];
      }
    }
  }

  // The modules of `s` are registered, in the VM, and import each other only.
  ghost predicate Intact(vm: Modules, registered: set<Text>, s: set<Text>) {
    s <= registered && forall n | n in s :: n in vm && forall t | t in vm[n].targets :: t in s
  }

  // The module and everything it imports, directly or not, is registered and in the VM.
  ghost predicate Present(vm: Modules, registered: set<Text>, entry: Text) {
    exists s: set<Text> :: entry in s && Intact(vm, registered, s)
  }

  // Registering restores the modules of the graph that others have removed.
  lemma RegistrationRestores(vm: Modules, registered: set<Text>, order: seq<Text>, prepared: Modules, specifier: Text,
      entry: Text, text: Text)
    requires Graph(order, prepared, entry)
    requires forall n | n in registered && n in vm && n in prepared :: vm[n] == prepared[n]
    ensures Present(RegisteredModules(vm, registered, prepared, specifier, entry, text),
                    RegisteredNames(vm, registered, prepared, specifier, entry), entry)
  {
    var known := Known(vm, registered);
    var vm' := RegisteredModules(vm, registered, prepared, specifier, entry, text);
    var names := RegisteredNames(vm, registered, prepared, specifier, entry);
    forall n | n in prepared ensures n in vm' && forall t | t in vm'[n].targets :: t in prepared {
      if NeedsAlias(known, specifier, entry) && n == specifier {
        assert vm'[n] == Alias(entry, text);
      } else {
        assert vm'[n] == prepared[n];
      }
    }
    assert Intact(vm', names, prepared.Keys);
  }

  lemma RegistrationCloses(vm: Modules, registered: set<Text>, order: seq<Text>, prepared: Modules, specifier: Text,
      entry: Text, text: Text)
    requires ClosedRegistry(vm, registered) && Graph(order, prepared, entry)
    ensures ClosedRegistry(RegisteredModules(vm, registered, prepared, specifier, entry, text),
                           RegisteredNames(vm, registered, prepared, specifier, entry))
  {
    var known := Known(vm, registered);
    var vm' := RegisteredModules(vm, registered, prepared, specifier, entry, text);
    var names := RegisteredNames(vm, registered, prepared, specifier, entry);
    assert known == registered && prepared.Keys <= names;
    forall n | n in names ensures n in vm' && forall t | t in vm'[n].targets :: t in names {
      if NeedsAlias(known, specifier, entry) && n == specifier {
        assert vm'[n] == Alias(entry, text);
      } else if n in known {
        assert vm'[n] == vm[n];
      } else {
        assert vm'[n] == prepared[n];
      }
    }
  }

  // ---------------------------------------------------------------------
  // Runs
  // ---------------------------------------------------------------------

  datatype Registry = Registry(vm: Modules, registered: set<Text>)

  // A package registered by the loader, or a change the host makes to the VM itself.
  datatype Event =
    | Load(order: seq<Text>, prepared: Modules, specifier: Text, entry: Text, text: Text)
    | HostDefine(name: Text, m: Module)
    | HostRemove(name: Text)

  ghost predicate Allowed(s: Registry, e: Event) {
    match e
    case Load(order, prepared, _, entry, _) => Graph(order, prepared, entry)
    case HostDefine(name, _) => name !in s.registered
    case HostRemove(_) => true
  }

  predicate LeavesRegistered(s: Registry, e: Event) {
    e.HostRemove? ==> e.name !in s.registered
  }

  function Next(s: Registry, e: Event): Registry {
    match e
    case Load(_, prepared, specifier, entry, text) =>
      Registry(RegisteredModules(s.vm, s.registered, prepared, specifier, entry, text),
               RegisteredNames(s.vm, s.registered, prepared, specifier, entry))
    case HostDefine(name, m) => s.(vm := s.vm[name := m])
    case HostRemove(name) => s.(vm := s.vm - {name})
  }

  ghost predicate Run(s: Registry, es: seq<Event>)
    decreases |es|
  {
    es == [] || (Allowed(s, es[0]) && Run(Next(s, es[0]), es[1..]))
  }

  // A run in which nobody removes the loader's modules.
  ghost predicate Undisturbed(s: Registry, es: seq<Event>)
    decreases |es|
  {
    es == [] || (LeavesRegistered(s, es[0]) && Undisturbed(Next(s, es[0]), es[1..]))
  }

  function After(s: Registry, es: seq<Event>): Registry
    decreases |es|
  {
    if es == [] then s else After(Next(s, es[0]), es[1..])
  }

  // However loads interleave with each other and with host changes that leave the loader's modules
  // alone, every registered module only imports registered ones, and none is ever dropped.
  lemma {:induction false} RunStaysClosed(s: Registry, es: seq<Event>)
    requires ClosedRegistry(s.vm, s.registered) && Run(s, es) && Undisturbed(s, es)
    ensures ClosedRegistry(After(s, es).vm, After(s, es).registered)
    ensures s.registered <= After(s, es).registered
    decreases |es|
  {
    if es != [] {
      if es[0].Load? {
        RegistrationCloses(s.vm, s.registered, es[0].order, es[0].prepared, es[0].specifier, es[0].entry, es[0].text);
      }
      RunStaysClosed(Next(s, es[0]), es[1..]);
    }
  }

  // When others remove them at will, what is left still only imports registered modules.
  lemma {:induction false} RunStaysLoose(s: Registry, es: seq<Event>)
    requires LooselyClosed(s.vm, s.registered) && Run(s, es)
    ensures LooselyClosed(After(s, es).vm, After(s, es).registered)
    ensures s.registered <= After(s, es).registered
    decreases |es|
  {
    if es != [] {
      if es[0].Load? {
        RegistrationLoose(s.vm, s.registered, es[0].order, es[0].prepared, es[0].specifier, es[0].entry, es[0].text);
      }
      RunStaysLoose(Next(s, es[0]), es[1..]);
    }
  }

  // ---------------------------------------------------------------------
  // The loader
  // ---------------------------------------------------------------------

  lemma InRegistered(vm: Modules, registered: set<Text>, prepared: Modules, specifier: Text, entry: Text, text: Text,
                     id: Text)
    requires id in prepared
    ensures id in RegisteredModules(vm, registered, prepared, specifier, entry, text)
    ensures id in RegisteredNames(vm, registered, prepared, specifier, entry)
  {
  }

  // The loader's modules in the VM are what loading them again gives.
  ghost predicate Current(load: Loading, vm: Modules, registered: set<Text>) {
    forall n | n in registered && n in vm && load(n).Ok? :: vm[n] == load(n).value
  }

  datatype PackageError = Unprepared(error: LoadError) | Claimed(name: Text) | Rejected

  class GuestPackageLoader {
    var vm: Modules
    var registered: set<Text>
    var loaded: map<Text, Text>

    constructor (modules: Modules)
      ensures vm == modules && registered == {} && loaded == map[]
    {
      vm, registered, loaded := modules, {}, map[];
    }

    // Refuses names that modules of somebody else already have.
    method FindClaimed(known: set<Text>, order: seq<Text>) returns (claimed: Option<Text>)
      ensures claimed.None? <==> Unclaimed(vm, known, order)
      ensures claimed.Some? ==> claimed.value in order && claimed.value in vm && claimed.value !in known
    {
      for i := 0 to |order|
        invariant forall j | 0 <= j < i :: order[j] in vm ==> order[j] in known
      {
        if order[i] in vm && order[i] !in known {
          return Some(order[i]);
        }
      }
      claimed := None;
    }

    // Defines the modules that are not known yet; stops at the first one the VM refuses.
    method DefineAll(known: set<Text>, order: seq<Text>, prepared: Modules) returns (ok: bool, added: seq<Text>)
      requires prepared.Keys == Ids(order) && Unclaimed(vm, known, order)
      modifies this`vm
      ensures forall n | n in added :: n !in old(vm) && n !in known && n in prepared
      ensures vm - Ids(added) == old(vm)
      ensures ok ==> vm == Defined(old(vm), known, prepared) && Ids(added) == prepared.Keys - known
    {
      ok, added := true, [];
      for i := 0 to |order|
        invariant ok && Ids(added) == Ids(order[..i]) - known
        invariant forall n | n in added :: n !in old(vm) && n !in known && n in prepared
        invariant vm == Extended(old(vm), Ids(added), prepared)
      {
        var id := order[i];
        assert order[..i + 1] == order[..i] + [id] && id in Ids(order);
        IdsSnoc(order[..i], id);
        if id !in known {
          if * {
            ExtendedUndone(old(vm), Ids(added), prepared);
            ok := false;
            return;
          }
          IdsSnoc(added, id);
          ExtendedMore(old(vm), Ids(added), prepared, id);
          vm := vm[id := prepared[id]];
          added := added + [id];
        }
      }
      assert order[..|order|] == order;
      ExtendedUndone(old(vm), Ids(added), prepared);
    }

    method RollBack(added: seq<Text>)
      modifies this`vm
      ensures vm == old(vm) - Ids(added)
    {
      for i := 0 to |added|
        invariant vm == old(vm) - Ids(added[..i])
      {
        vm := vm - {added[i]};
        assert added[..i + 1] == added[..i] + [added[i]];
      }
      assert added[..|added|] == added;
    }

    // Defines the graph and its alias, or leaves the VM as it was.
    method Install(specifier: Text, entry: Text, order: seq<Text>, prepared: Modules, text: Text)
      returns (failure: Option<PackageError>)
      requires Graph(order, prepared, entry)
      modifies this`vm, this`registered
      ensures failure.Some? ==> vm == old(vm) && registered == old(registered) && !failure.value.Unprepared?
      ensures failure.Some? && failure.value.Claimed? ==>
                var n := failure.value.name; n in vm && n !in registered && (n == specifier || n in order)
      ensures failure.None? ==>
                && vm == RegisteredModules(old(vm), old(registered), prepared, specifier, entry, text)
                && registered == RegisteredNames(old(vm), old(registered), prepared, specifier, entry)
                && forall n | n in old(vm) :: n in vm && vm[n] == old(vm)[n]
    {
      var known := Known(vm, registered);
      var claimed := FindClaimed(known, order);
      if claimed.Some? {
        return Some(Claimed(claimed.value));
      }
      if specifier != entry && specifier in vm && specifier !in known {
        return Some(Claimed(specifier));
      }
      var ok, added := DefineAll(known, order, prepared);
      if !ok {
        RollBack(added);
        return Some(Rejected);
      }
      if NeedsAlias(known, specifier, entry) {
        if * {
          RollBack(added);
          return Some(Rejected);
        }
        vm := vm[specifier := Alias(entry, text)];
        IdsSnoc(added, specifier);
        added := added + [specifier];
      }
      registered := registered + Ids(added);
      failure := None;
    }

    // What a call may have done to the registry, whatever its outcome.
    twostate predicate Careful()
      reads this
    {
      && LooselyClosed(vm, registered) && (old(ClosedRegistry(vm, registered)) ==> ClosedRegistry(vm, registered))
      && old(registered) <= registered && forall n | n in old(vm) :: n in vm && vm[n] == old(vm)[n]
    }

    // Collects and installs the graph of `entry`, and its alias.
    method LoadGraph(load: Loading, specifier: Text, entry: Text, text: Text, ghost universe: set<Text>)
      returns (failure: Option<PackageError>)
      requires ClosedUnder(load, universe) && entry in universe && LooselyClosed(vm, registered)
      modifies this`vm, this`registered
      ensures Careful()
      ensures failure.None? && old(Current(load, vm, registered)) ==> Present(vm, registered, entry)
      ensures failure.None? ==>
                && (specifier == entry || specifier in registered)
                && (forall id | Reached(load, entry, id) :: id in vm && id in registered)
                && forall id | id in vm && id !in old(vm) :: id == specifier || load(id) == Ok(vm[id])
      ensures failure.Some? ==>
                && vm == old(vm) && registered == old(registered)
                && Explained(load, vm, registered, specifier, entry, failure.value)
    {
      var collected, order := Collect(load, entry, universe);
      if collected.Err? {
        return Some(Unprepared(collected.error));
      }
      if * {
        return Some(Rejected);
      }
      var prepared := collected.value;
      CollectedIsGraph(load, order, prepared, entry);
      GraphFacts(load, vm, registered, order, prepared, specifier, entry, text);
      failure := Install(specifier, entry, order, prepared, text);
    }

    method LoadPackage(load: Loading, specifier: Text, entry: Text, text: Text, ghost universe: set<Text>)
      returns (r: Result<Text, PackageError>)
      requires ClosedUnder(load, universe) && entry in universe && LooselyClosed(vm, registered)
      modifies this
      ensures Careful()
      ensures r.Ok? && old(Current(load, vm, registered)) ==> Present(vm, registered, r.value)
      ensures r.Ok? ==> r.value in registered && (specifier == r.value || specifier in registered)
      ensures r.Ok? ==>
                || (vm == old(vm) && registered == old(registered) && loaded == old(loaded)
                    && specifier in loaded && r.value == loaded[specifier])
                || (r.value == entry && loaded == old(loaded)[specifier := entry]
                    && (forall id | Reached(load, entry, id) :: id in vm && id in registered)
                    && forall id | id in vm && id !in old(vm) :: id == specifier || load(id) == Ok(vm[id]))
      ensures r.Err? ==>
                && vm == old(vm) && registered == old(registered)
                && Explained(load, vm, registered, specifier, entry, r.error)
    {
      if specifier in loaded {
        var cached := loaded[specifier];
        if cached in registered && specifier in registered && registered <= vm.Keys {
          assert Intact(vm, registered, registered);
          return Ok(cached);
        }
        loaded := loaded - {specifier};
      }
      var failure := LoadGraph(load, specifier, entry, text, universe);
      if failure.Some? {
        return Err(failure.value);
      }
      assert Reached(load, entry, entry);
      loaded := loaded[specifier := entry];
      r := Ok(entry);
    }
  }

  // Why a package was refused: a module it reaches cannot be prepared, or somebody else has a name it needs.
  ghost predicate Explained(load: Loading, vm: Modules, registered: set<Text>, specifier: Text, entry: Text,
      e: PackageError) {
    match e
    case Unprepared(error) => exists id :: Reached(load, entry, id) && load(id) == Err(error)
    case Claimed(n) => n in vm && n !in registered && (n == specifier || Reached(load, entry, n))
    case Rejected => true
  }

  // What installing a collected graph would do.
  lemma GraphFacts(load: Loading, vm: Modules, registered: set<Text>, order: seq<Text>, prepared: Modules,
      specifier: Text,
                   entry: Text, text: Text)
    requires LooselyClosed(vm, registered) && Graph(order, prepared, entry) && Faithful(load, order, prepared)
    requires ClosedUnder(load, prepared.Keys) && AllReached(load, entry, prepared.Keys)
    ensures var vm', names := RegisteredModules(vm, registered, prepared, specifier, entry, text),
                              RegisteredNames(vm, registered, prepared, specifier, entry);
            && LooselyClosed(vm', names) && (ClosedRegistry(vm, registered) ==> ClosedRegistry(vm', names))
            && (Current(load, vm, registered) ==> Present(vm', names, entry))
            && (forall id | Reached(load, entry, id) :: id in vm' && id in names)
            && forall id | id in vm' && id !in vm :: id == specifier || load(id) == Ok(vm'[id])
    ensures forall n | n in order :: Reached(load, entry, n)
  {
    if ClosedRegistry(vm, registered) {
      RegistrationCloses(vm, registered, order, prepared, specifier, entry, text);
    }
    RegistrationLoose(vm, registered, order, prepared, specifier, entry, text);
    if Current(load, vm, registered) {
      RegistrationRestores(vm, registered, order, prepared, specifier, entry, text);
    }
    forall id | Reached(load, entry, id)
      ensures id in RegisteredModules(vm, registered, prepared, specifier, entry, text)
      ensures id in RegisteredNames(vm, registered, prepared, specifier, entry)
    {
      CollectedExactly(load, entry, order, prepared, id);
      InRegistered(vm, registered, prepared, specifier, entry, text, id);
    }
    forall n | n in order ensures Reached(load, entry, n) {
      assert n in prepared.Keys;
    }
  }

  lemma CollectedIsGraph(load: Loading, order: seq<Text>, prepared: Modules, entry: Text)
    requires Faithful(load, order, prepared) && ClosedUnder(load, prepared.Keys) && entry in prepared
    ensures Graph(order, prepared, entry)
  {
    forall id, t | id in prepared && t in prepared[id].targets ensures t in prepared {
      assert load(id).value == prepared[id];
    }
  }
}
