/**
 Registering and removing host modules: bridge callbacks, globals and a wrapper module
 that are installed together or not at all.
 */
module HostModules {
  import opened Wrappers
  import opened HostNames

  datatype GlobalValue = HostFunction(id: nat) | Plain(v: int)

  type Globals = map<string, GlobalValue>

  // `sources` is the host's registry of module text and `deferred` the interpreter's;
  // `ids` are the callbacks registered with the bridge.
  datatype View = View(
    globals: Globals, exports: map<Name, set<string>>, sources: map<Name, string>, deferred: map<Name, string>,
    owned: map<Name, seq<string>>, ids: set<nat>, nextId: nat)

  // ---------------------------------------------------------------------
  // What a successful call does
  // ---------------------------------------------------------------------

  function Created(name: Name, keys: seq<string>): seq<string> {
    seq(|keys|, (i: nat) requires i < |keys| => Global(name, keys[i]))
  }

  // The first `n` of `created` hold the callbacks from `next` on.
  function Install(globals: Globals, created: seq<string>, next: nat, n: nat): Globals
    requires n <= |created|
  {
    if n == 0 then globals else Install(globals, created, next, n - 1)[created[n - 1] := HostFunction(next + n - 1)]
  }

  function Elements(gs: seq<string>): set<string> {
    set g | g in gs
  }

  function IdsAt(globals: Globals, gs: set<string>): set<nat> {
    set g | g in gs && g in globals && globals[g].HostFunction? :: globals[g].id
  }

  function Numbers(next: nat, n: nat): (ids: set<nat>)
    ensures forall id :: id in ids <==> next <= id < next + n
  {
    if n == 0 then {} else Numbers(next, n - 1) + {next + n - 1}
  }

  function Previous(v: View, name: Name): set<string> {
    if name in v.owned then Elements(v.owned[name]) else {}
  }

  function Commit(v: View, name: Name, keys: seq<string>, text: string): View {
    var created := Created(name, keys);
    var mine := Elements(created);
    var stale := Previous(v, name) - mine;
    View(
      Install(v.globals, created, v.nextId, |created|) - stale,
      v.exports[name := set k | k in keys],
      v.sources[name := text],
      v.deferred[name := text],
      v.owned[name := created],
      v.ids + Numbers(v.nextId, |keys|) - IdsAt(v.globals, mine) - IdsAt(v.globals, stale),
      v.nextId + |keys|)
  }

  function Removed(v: View, name: Name): View {
    var gone := Previous(v, name);
    View(v.globals - gone, v.exports - {name}, v.sources - {name}, v.deferred - {name}, v.owned - {name},
         v.ids - IdsAt(v.globals, gone), v.nextId)
  }

  // The two registries of module text agree about `name`.
  predicate Aligned(v: View, name: Name) {
    (name in v.sources <==> name in v.deferred) && (name in v.sources ==> v.deferred[name] == v.sources[name])
  }

  // What a failed registration leaves: all as before, but the interpreter's text is taken from the host's.
  function Restored(v: View, name: Name, burned: nat): View {
    v.(nextId := v.nextId + burned,
       deferred := if name in v.sources then v.deferred[name := v.sources[name]] else v.deferred - {name})
  }

  // It leaves everything but the callback counter as before exactly when the registries agreed about the name.
  lemma RestoresExactly(v: View, name: Name, burned: nat)
    ensures Restored(v, name, burned) == v.(nextId := v.nextId + burned) <==> Aligned(v, name)
  {
    var u := Restored(v, name, burned);
    if Aligned(v, name) {
      assert u.deferred == v.deferred;
    } else {
      assert u.deferred != v.deferred by {
        assert name in u.deferred <==> name in v.sources;
      }
    }
  }

  // A state in which they do not: a module is defined, and registering it again with other text fails.
  lemma MisalignedReached(v: View, name: Name, text: string, burned: nat)
    ensures var u := After(v, [Define(name, text), FailedModule(name)]);
            && name in u.sources && name !in u.deferred && u.exports == v.exports
            && !Aligned(u, name) && name in Restored(u, name, burned).deferred
  {
    var first, second := Define(name, text), FailedModule(name);
    assert [first, second][1..] == [second] && [second][1..] == [];
    assert After(v, [first, second]) == After(Next(v, first), [second]) == After(Next(Next(v, first), second), []);
  }

  // ---------------------------------------------------------------------
  // Ownership
  // ---------------------------------------------------------------------

  ghost predicate Owns(v: View, n: Name, g: string) {
    n in v.owned && g in v.owned[n]
  }

  ghost predicate Unowned(v: View, g: string) {
    forall n | n in v.owned :: !Owns(v, n, g)
  }

  predicate BridgeName(g: string) {
    |g| >= 10 && g[..10] == "__hostmod_"
  }

  // A module's exports are exactly the keys whose globals it owns.
  ghost predicate ExportsMatch(v: View, n: Name)
    requires n in v.owned
  {
    && n in v.exports && n in v.sources
    && (forall k | k in v.exports[n] :: IsKey(k) && Owns(v, n, Global(n, k)))
    && (forall g | Owns(v, n, g) :: exists k | k in v.exports[n] :: g == Global(n, k))
  }

  // Global `g` holds a callback registered with the bridge.
  predicate Live(v: View, base: set<nat>, g: string) {
    g in v.globals && v.globals[g].HostFunction? && v.globals[g].id in v.ids && v.globals[g].id !in base
  }

  // An owned global holds a callback of the bridge that no other owned global holds.
  ghost predicate Exclusive(v: View, base: set<nat>) {
    && (forall n, g | Owns(v, n, g) :: Live(v, base, g))
    && (forall n, g, m, h | Owns(v, n, g) && Owns(v, m, h) && v.globals[g] == v.globals[h] :: n == m && g == h)
  }

  // The registered callbacks are those of `base` and those that owned globals hold, and no others.
  ghost predicate IdsExact(v: View, base: set<nat>) {
    && base <= v.ids
    && (forall id | id in v.ids :: id < v.nextId)
    && (forall id | id in v.ids - base :: exists n, g ::
        Owns(v, n, g) && g in v.globals && v.globals[g] == HostFunction(id))
  }

  // Nothing else was put under a bridge global's name.
  ghost predicate NoSquatters(v: View) {
    forall g | g in v.globals && v.globals[g].HostFunction? && BridgeName(g) :: !Unowned(v, g)
  }

  ghost predicate Apart(names: iset<Name>) {
    forall n, m | n in names && m in names :: Separable(n, m)
  }

  ghost predicate Inv(v: View, base: set<nat>, names: iset<Name>) {
    && (forall n | n in v.owned :: n in names && ExportsMatch(v, n))
    && Exclusive(v, base) && IdsExact(v, base) && NoSquatters(v)
  }

  predicate ValidKeys(keys: seq<string>) {
    && keys != []
    && (forall i | 0 <= i < |keys| :: IsKey(keys[i]))
    && (forall i, j | 0 <= i < j < |keys| :: keys[i] != keys[j])
  }

  // ---------------------------------------------------------------------
  // Facts about the installed globals
  // ---------------------------------------------------------------------

  lemma GlobalIsBridgeName(n: Name, k: string)
    ensures BridgeName(Global(n, k))
  {
    GlobalIs(n, k);
  }

  // Distinct keys give distinct globals.
  lemma CreatedDistinct(name: Name, keys: seq<string>, i: nat, j: nat)
    requires ValidKeys(keys) && i < j < |keys|
    ensures Created(name, keys)[i] != Created(name, keys)[j]
  {
    CollisionsExactly(name, keys[i], name, keys[j]);
  }

  // Two modules' globals differ when their names are separable.
  lemma ModulesDiffer(a: Name, k: string, b: Name, l: string)
    requires IsKey(k) && IsKey(l) && a != b && Separable(a, b)
    ensures Global(a, k) != Global(b, l)
  {
    CollisionsExactly(a, k, b, l);
  }

  lemma {:induction false} InstalledElsewhere(globals: Globals, created: seq<string>, next: nat, n: nat, g: string)
    requires n <= |created| && g !in created[..n]
    ensures g in Install(globals, created, next, n) <==> g in globals
    ensures g in globals ==> Install(globals, created, next, n)[g] == globals[g]
  {
    if n > 0 {
      assert created[..n] == created[..n - 1] + [created[n - 1]];
      InstalledElsewhere(globals, created, next, n - 1, g);
    }
  }

  lemma {:induction false} InstalledAt(globals: Globals, created: seq<string>, next: nat, n: nat, i: nat)
    requires i < n <= |created| && forall j | i < j < |created| :: created[i] != created[j]
    ensures created[i] in Install(globals, created, next, n)
    ensures Install(globals, created, next, n)[created[i]] == HostFunction(next + i)
  {
    if i < n - 1 {
      InstalledAt(globals, created, next, n - 1, i);
    }
  }

  // ---------------------------------------------------------------------
  // Registration keeps ownership exact
  // ---------------------------------------------------------------------

  ghost predicate Ready(v: View, base: set<nat>, names: iset<Name>, name: Name, keys: seq<string>) {
    Inv(v, base, names) && Apart(names) && name in names && ValidKeys(keys)
  }

  lemma OwnedIsGlobal(v: View, base: set<nat>, names: iset<Name>, n: Name, g: string) returns (k: string)
    requires Inv(v, base, names) && Owns(v, n, g)
    ensures IsKey(k) && g == Global(n, k)
  {
    assert ExportsMatch(v, n);
    k :| k in v.exports[n] && g == Global(n, k);
  }

  // The globals of another module are neither created nor stale.
  lemma OthersUntouched(v: View, base: set<nat>, names: iset<Name>, name: Name, keys: seq<string>, n: Name, g: string)
    requires Ready(v, base, names, name, keys) && n != name && Owns(v, n, g)
    ensures g !in Created(name, keys) && g !in Previous(v, name)
  {
    var k := OwnedIsGlobal(v, base, names, n, g);
    if g in Created(name, keys) {
      var i :| 0 <= i < |keys| && g == Global(name, keys[i]);
      ModulesDiffer(n, k, name, keys[i]);
    }
    if g in Previous(v, name) {
      var l := OwnedIsGlobal(v, base, names, name, g);
      ModulesDiffer(n, k, name, l);
    }
  }

  lemma CommittedElsewhere(v: View, name: Name, keys: seq<string>, text: string, g: string)
    requires g !in Created(name, keys)
    ensures g in Commit(v, name, keys, text).globals <==> g in v.globals && g !in Previous(v, name)
    ensures g in Commit(v, name, keys, text).globals ==> Commit(v, name, keys, text).globals[g] == v.globals[g]
  {
    var created := Created(name, keys);
    assert created[..|created|] == created;
    InstalledElsewhere(v.globals, created, v.nextId, |created|, g);
  }

  lemma CommittedAt(v: View, name: Name, keys: seq<string>, text: string, i: nat)
    requires ValidKeys(keys) && i < |keys|
    ensures Created(name, keys)[i] in Commit(v, name, keys, text).globals
    ensures Commit(v, name, keys, text).globals[Created(name, keys)[i]] == HostFunction(v.nextId + i)
  {
    var created := Created(name, keys);
    forall j | i < j < |created| ensures created[i] != created[j] {
      CreatedDistinct(name, keys, i, j);
    }
    InstalledAt(v.globals, created, v.nextId, |created|, i);
  }

  ghost function Retired(v: View, name: Name, keys: seq<string>): set<nat> {
    var mine := Elements(Created(name, keys));
    IdsAt(v.globals, mine) + IdsAt(v.globals, Previous(v, name) - mine)
  }

  // The callbacks a registration retires are exactly those its module held before.
  lemma RetiredIsMine(v: View, base: set<nat>, names: iset<Name>, name: Name, keys: seq<string>, id: nat)
    requires Ready(v, base, names, name, keys)
    ensures id in Retired(v, name, keys)
            <==> exists g :: Owns(v, name, g) && g in v.globals && v.globals[g] == HostFunction(id)
  {
    var mine := Elements(Created(name, keys));
    if id in IdsAt(v.globals, mine) {
      var g :| g in mine && g in v.globals && v.globals[g] == HostFunction(id);
      var i :| 0 <= i < |keys| && g == Global(name, keys[i]);
      GlobalIsBridgeName(name, keys[i]);
      var n :| n in v.owned && Owns(v, n, g);
      if n != name {
        OthersUntouched(v, base, names, name, keys, n, g);
      }
    } else if id in Retired(v, name, keys) {
      var g :| g in Previous(v, name) && g in v.globals && v.globals[g] == HostFunction(id);
      assert Owns(v, name, g);
    }
    if g :| Owns(v, name, g) && g in v.globals && v.globals[g] == HostFunction(id) {
      assert g in Previous(v, name);
      assert g in mine || g in Previous(v, name) - mine;
    }
  }

  lemma CommitIds(v: View, base: set<nat>, names: iset<Name>, name: Name, keys: seq<string>, text: string, id: nat)
    requires Ready(v, base, names, name, keys)
    ensures id in Commit(v, name, keys, text).ids <==>
            v.nextId <= id < v.nextId + |keys|
            || (id in v.ids && !exists g :: Owns(v, name, g) && g in v.globals && v.globals[g] == HostFunction(id))
  {
    RetiredIsMine(v, base, names, name, keys, id);
  }

  // What an owned global holds after a registration: a new callback for the module registered ...
  lemma CommitMine(v: View, base: set<nat>, names: iset<Name>, name: Name, keys: seq<string>, text: string, g: string)
      returns (i: nat)
    requires Ready(v, base, names, name, keys) && g in Created(name, keys)
    ensures i < |keys| && g == Created(name, keys)[i]
    ensures var u := Commit(v, name, keys, text);
            Live(u, base, g) && u.globals[g] == HostFunction(v.nextId + i)
  {
    i :| 0 <= i < |keys| && g == Created(name, keys)[i];
    CommittedAt(v, name, keys, text, i);
    CommitIds(v, base, names, name, keys, text, v.nextId + i);
  }

  // ... and what it held before for every other.
  lemma CommitOthers(v: View, base: set<nat>, names: iset<Name>, name: Name, keys: seq<string>, text: string, n: Name,
      g: string)
    requires Ready(v, base, names, name, keys) && n != name && Owns(v, n, g)
    ensures var u := Commit(v, name, keys, text);
            Live(u, base, g) && g in v.globals && u.globals[g] == v.globals[g] && u.globals[g].id < v.nextId
  {
    OthersUntouched(v, base, names, name, keys, n, g);
    CommittedElsewhere(v, name, keys, text, g);
    CommitIds(v, base, names, name, keys, text, v.globals[g].id);
  }

  lemma CommitDistinct(v: View, base: set<nat>, names: iset<Name>, name: Name, keys: seq<string>, text: string, n: Name,
      g: string, m: Name, h: string)
    requires Ready(v, base, names, name, keys)
    requires if n == name then g in Created(name, keys) else Owns(v, n, g)
    requires if m == name then h in Created(name, keys) else Owns(v, m, h)
    ensures var u := Commit(v, name, keys, text);
            g in u.globals && h in u.globals && (u.globals[g] == u.globals[h] ==> n == m && g == h)
  {
    if n == name {
      var i := CommitMine(v, base, names, name, keys, text, g);
      if m == name {
        var j := CommitMine(v, base, names, name, keys, text, h);
      } else {
        CommitOthers(v, base, names, name, keys, text, m, h);
      }
    } else {
      CommitOthers(v, base, names, name, keys, text, n, g);
      if m == name {
        var j := CommitMine(v, base, names, name, keys, text, h);
      } else {
        CommitOthers(v, base, names, name, keys, text, m, h);
      }
    }
  }

  lemma CommitHolds(v: View, base: set<nat>, names: iset<Name>, name: Name, keys: seq<string>, text: string, n: Name,
      g: string)
    requires Ready(v, base, names, name, keys)
    requires if n == name then g in Created(name, keys) else Owns(v, n, g)
    ensures Live(Commit(v, name, keys, text), base, g)
  {
    if n == name {
      var i := CommitMine(v, base, names, name, keys, text, g);
    } else {
      CommitOthers(v, base, names, name, keys, text, n, g);
    }
  }

  lemma CommitOwns(v: View, name: Name, keys: seq<string>, text: string, n: Name, g: string)
    ensures Owns(Commit(v, name, keys, text), n, g) <==> if n == name then g in Created(name, keys) else Owns(v, n, g)
  {
  }

  lemma CommitExclusive(v: View, base: set<nat>, names: iset<Name>, name: Name, keys: seq<string>, text: string)
    requires Ready(v, base, names, name, keys)
    ensures Exclusive(Commit(v, name, keys, text), base)
  {
    var u := Commit(v, name, keys, text);
    forall n, g | Owns(u, n, g) ensures Live(u, base, g) {
      CommitOwns(v, name, keys, text, n, g);
      CommitHolds(v, base, names, name, keys, text, n, g);
    }
    forall n, g, m, h | Owns(u, n, g) && Owns(u, m, h) && u.globals[g] == u.globals[h] ensures n == m && g == h {
      CommitOwns(v, name, keys, text, n, g);
      CommitOwns(v, name, keys, text, m, h);
      CommitDistinct(v, base, names, name, keys, text, n, g, m, h);
    }
  }

  lemma CommitIdsExact(v: View, base: set<nat>, names: iset<Name>, name: Name, keys: seq<string>, text: string)
    requires Ready(v, base, names, name, keys)
    ensures IdsExact(Commit(v, name, keys, text), base)
  {
    var u := Commit(v, name, keys, text);
    forall id | id in base ensures id in u.ids {
      CommitIds(v, base, names, name, keys, text, id);
    }
    forall id | id in u.ids - base ensures exists n, g ::
        Owns(u, n, g) && g in u.globals && u.globals[g] == HostFunction(id) {
      CommitIds(v, base, names, name, keys, text, id);
      if v.nextId <= id < v.nextId + |keys| {
        CommittedAt(v, name, keys, text, id - v.nextId);
        assert Owns(u, name, Created(name, keys)[id - v.nextId]);
      } else {
        assert id in v.ids - base;
        var n, g :| Owns(v, n, g) && g in v.globals && v.globals[g] == HostFunction(id);
        OthersUntouched(v, base, names, name, keys, n, g);
        CommittedElsewhere(v, name, keys, text, g);
        assert Owns(u, n, g);
      }
    }
  }

  lemma CommitNoSquatters(v: View, base: set<nat>, names: iset<Name>, name: Name, keys: seq<string>, text: string)
    requires Ready(v, base, names, name, keys)
    ensures NoSquatters(Commit(v, name, keys, text))
  {
    var u := Commit(v, name, keys, text);
    forall g | g in u.globals && u.globals[g].HostFunction? && BridgeName(g) ensures !Unowned(u, g) {
      if g in Created(name, keys) {
        assert Owns(u, name, g);
      } else {
        CommittedElsewhere(v, name, keys, text, g);
        var n :| n in v.owned && Owns(v, n, g);
        assert Owns(u, n, g);
      }
    }
  }

  lemma CommitExports(v: View, base: set<nat>, names: iset<Name>, name: Name, keys: seq<string>, text: string, n: Name)
    requires Ready(v, base, names, name, keys) && n in Commit(v, name, keys, text).owned
    ensures n in names && ExportsMatch(Commit(v, name, keys, text), n)
  {
    var u := Commit(v, name, keys, text);
    if n == name {
      forall k | k in u.exports[n] ensures IsKey(k) && Owns(u, n, Global(n, k)) {
        var i :| 0 <= i < |keys| && keys[i] == k;
        assert Created(name, keys)[i] == Global(n, k);
      }
      forall g | Owns(u, n, g) ensures exists k | k in u.exports[n] :: g == Global(n, k) {
        var i :| 0 <= i < |keys| && g == Created(name, keys)[i];
        assert keys[i] in u.exports[n];
      }
    } else {
      assert ExportsMatch(v, n);
      forall g | Owns(u, n, g) ensures exists k | k in u.exports[n] :: g == Global(n, k) {
        assert Owns(v, n, g);
      }
      forall k | k in u.exports[n] ensures IsKey(k) && Owns(u, n, Global(n, k)) {
        assert Owns(v, n, Global(n, k));
      }
    }
  }

  lemma CommitKeeps(v: View, base: set<nat>, names: iset<Name>, name: Name, keys: seq<string>, text: string)
    requires Ready(v, base, names, name, keys)
    ensures Inv(Commit(v, name, keys, text), base, names)
  {
    CommitExclusive(v, base, names, name, keys, text);
    CommitIdsExact(v, base, names, name, keys, text);
    CommitNoSquatters(v, base, names, name, keys, text);
    forall n | n in Commit(v, name, keys, text).owned ensures n in names
        && ExportsMatch(Commit(v, name, keys, text), n) {
      CommitExports(v, base, names, name, keys, text, n);
    }
  }

  // ---------------------------------------------------------------------
  // Removal keeps ownership exact
  // ---------------------------------------------------------------------

  lemma RemovedHolds(v: View, base: set<nat>, names: iset<Name>, name: Name, n: Name, g: string)
    requires Inv(v, base, names) && Apart(names) && name in names && Owns(Removed(v, name), n, g)
    ensures var u := Removed(v, name);
            Owns(v, n, g) && n != name && g in u.globals && u.globals[g] == v.globals[g] && v.globals[g].id in u.ids
  {
    var u := Removed(v, name);
    assert Owns(v, n, g) && n != name;
    OthersUntouched(v, base, names, name, ["key"], n, g);
    assert v.globals[g].id !in IdsAt(v.globals, Previous(v, name)) by {
      if v.globals[g].id in IdsAt(v.globals, Previous(v, name)) {
        var h :| h in Previous(v, name) && h in v.globals && v.globals[h] == HostFunction(v.globals[g].id);
        assert Owns(v, name, h);
      }
    }
  }

  lemma RemovedIdsExact(v: View, base: set<nat>, names: iset<Name>, name: Name)
    requires Inv(v, base, names) && Apart(names) && name in names
    ensures IdsExact(Removed(v, name), base)
  {
    var u := Removed(v, name);
    forall id | id in base ensures id in u.ids {
      if id in IdsAt(v.globals, Previous(v, name)) {
        var h :| h in Previous(v, name) && h in v.globals && v.globals[h] == HostFunction(id);
        assert Owns(v, name, h);
      }
    }
    forall id | id in u.ids - base ensures exists n, g ::
        Owns(u, n, g) && g in u.globals && u.globals[g] == HostFunction(id) {
      assert id in v.ids - base;
      var n, g :| Owns(v, n, g) && g in v.globals && v.globals[g] == HostFunction(id);
      assert n != name ==> Owns(u, n, g);
      RemovedHolds(v, base, names, name, n, g);
    }
  }

  lemma RemovedNoSquatters(v: View, name: Name)
    requires NoSquatters(v)
    ensures NoSquatters(Removed(v, name))
  {
    var u := Removed(v, name);
    forall g | g in u.globals && u.globals[g].HostFunction? && BridgeName(g) ensures !Unowned(u, g) {
      var n :| n in v.owned && Owns(v, n, g);
      assert Owns(u, n, g);
    }
  }

  lemma RemovedExports(v: View, name: Name, n: Name)
    requires n in v.owned && n != name && ExportsMatch(v, n)
    ensures ExportsMatch(Removed(v, name), n)
  {
    var u := Removed(v, name);
    forall g | Owns(u, n, g) ensures exists k | k in u.exports[n] :: g == Global(n, k) {
      assert Owns(v, n, g);
    }
    forall k | k in u.exports[n] ensures IsKey(k) && Owns(u, n, Global(n, k)) {
      assert Owns(v, n, Global(n, k));
    }
  }

  lemma RemovedKeeps(v: View, base: set<nat>, names: iset<Name>, name: Name)
    requires Inv(v, base, names) && Apart(names) && name in names
    ensures Inv(Removed(v, name), base, names)
  {
    var u := Removed(v, name);
    RemovedIdsExact(v, base, names, name);
    RemovedNoSquatters(v, name);
    forall n, g | Owns(u, n, g) ensures Live(u, base, g) {
      RemovedHolds(v, base, names, name, n, g);
    }
    forall n, g, m, h | Owns(u, n, g) && Owns(u, m, h) && u.globals[g] == u.globals[h] ensures n == m && g == h {
      RemovedHolds(v, base, names, name, n, g);
      RemovedHolds(v, base, names, name, m, h);
    }
    forall n | n in u.owned ensures n in names && ExportsMatch(u, n) {
      RemovedExports(v, name, n);
    }
  }

  // ---------------------------------------------------------------------
  // Runs
  // ---------------------------------------------------------------------

  // A refused registration may have used up callback numbers. Guest modules may be defined, and
  // registering one may fail, which drops the interpreter's text for the name.
  datatype Call =
    | Register(name: Name, keys: seq<string>, text: string) | Refused(name: Name, burned: nat) | Remove(name: Name)
    | Define(name: Name, text: string) | FailedModule(name: Name)

  predicate Allowed(c: Call, names: iset<Name>) {
    match c
    case Register(name, keys, _) => name in names && ValidKeys(keys)
    case Remove(name) => name in names
    case _ => true
  }

  function Next(v: View, c: Call): View {
    match c
    case Register(name, keys, text) => Commit(v, name, keys, text)
    case Refused(name, burned) => Restored(v, name, burned)
    case Remove(name) => Removed(v, name)
    case Define(name, text) => v.(sources := v.sources[name := text], deferred := v.deferred[name := text])
    case FailedModule(name) => v.(deferred := v.deferred - {name})
  }

  function After(v: View, calls: seq<Call>): View
    decreases |calls|
  {
    if calls == [] then v else After(Next(v, calls[0]), calls[1..])
  }

  // A runtime in which no host module is registered yet; `base` are callbacks exposed by other means.
  ghost predicate Untouched(v: View, base: set<nat>) {
    && v.owned == map[] && v.ids == base && (forall id | id in base :: id < v.nextId)
    && forall g | g in v.globals && v.globals[g].HostFunction? :: !BridgeName(g)
  }

  // Module text and unused callback numbers do not matter.
  lemma TextIrrelevant(v: View, u: View, base: set<nat>, names: iset<Name>)
    requires Inv(v, base, names)
    requires u == v.(nextId := u.nextId, sources := u.sources, deferred := u.deferred)
    requires u.nextId >= v.nextId && v.sources.Keys <= u.sources.Keys
    ensures Inv(u, base, names)
  {
    forall n | n in u.owned ensures ExportsMatch(u, n) {
      assert ExportsMatch(v, n);
      forall g | Owns(u, n, g) ensures exists k | k in u.exports[n] :: g == Global(n, k) {
        assert Owns(v, n, g);
      }
      forall k | k in u.exports[n] ensures IsKey(k) && Owns(u, n, Global(n, k)) {
        assert Owns(v, n, Global(n, k));
      }
    }
    assert forall n, g :: Owns(u, n, g) <==> Owns(v, n, g);
    forall id | id in u.ids - base ensures exists n, g ::
        Owns(u, n, g) && g in u.globals && u.globals[g] == HostFunction(id) {
      assert id in v.ids - base;
      var n, g :| Owns(v, n, g) && g in v.globals && v.globals[g] == HostFunction(id);
      assert Owns(u, n, g);
    }
    forall g | g in u.globals && u.globals[g].HostFunction? && BridgeName(g) ensures !Unowned(u, g) {
      var n :| n in v.owned && Owns(v, n, g);
      assert Owns(u, n, g);
    }
  }

  lemma CallKeeps(v: View, base: set<nat>, names: iset<Name>, c: Call)
    requires Inv(v, base, names) && Apart(names) && Allowed(c, names)
    ensures Inv(Next(v, c), base, names)
  {
    match c
    case Register(name, keys, text) => CommitKeeps(v, base, names, name, keys, text);
    case Remove(name) => RemovedKeeps(v, base, names, name);
    case _ => TextIrrelevant(v, Next(v, c), base, names);
  }

  lemma {:induction false} RunKeeps(v: View, base: set<nat>, names: iset<Name>, calls: seq<Call>)
    requires Inv(v, base, names) && Apart(names) && forall i | 0 <= i < |calls| :: Allowed(calls[i], names)
    ensures Inv(After(v, calls), base, names)
    decreases |calls|
  {
    if calls != [] {
      CallKeeps(v, base, names, calls[0]);
      RunKeeps(Next(v, calls[0]), base, names, calls[1..]);
    }
  }

  // Each export's global holds the callback that was registered for it.
  lemma ExportsHold(v: View, name: Name, keys: seq<string>, text: string)
    requires ValidKeys(keys)
    ensures forall i | 0 <= i < |keys| ::
              var g, u := Global(name, keys[i]), Commit(v, name, keys, text);
              g in u.globals && u.globals[g] == HostFunction(v.nextId + i)
  {
    var created := Created(name, keys);
    forall i | 0 <= i < |keys|
      ensures var g, u := Global(name, keys[i]), Commit(v, name, keys, text);
              g in u.globals && u.globals[g] == HostFunction(v.nextId + i)
    {
      forall j | i < j < |created| ensures created[i] != created[j] {
        CreatedDistinct(name, keys, i, j);
      }
      InstalledAt(v.globals, created, v.nextId, |created|, i);
      assert created[i] in Elements(created);
    }
  }

  // Whatever separable names are in use, ownership stays exact between the two states.
  ghost predicate StaysExact(v: View, u: View, name: Name) {
    forall base: set<nat>, names: iset<Name> | Inv(v, base, names) && Apart(names) && name in names ::
        Inv(u, base, names)
  }

  lemma CallStaysExact(v: View, c: Call, name: Name)
    requires c.name == name && (c.Register? ==> ValidKeys(c.keys))
    ensures StaysExact(v, Next(v, c), name)
  {
    forall base: set<nat>, names: iset<Name> | Inv(v, base, names) && Apart(names) && name in names
      ensures Inv(Next(v, c), base, names)
    {
      CallKeeps(v, base, names, c);
    }
  }

  // Host module `n` is registered and exports `k`.
  ghost predicate Offers(v: View, n: Name, k: string) {
    n in v.owned && n in v.exports && k in v.exports[n]
  }

  // After every run over separable names, the registered callbacks are exactly the ones exposed before
  // and one for each export of each registered host module, held by that export's own global.
  lemma CallbacksExact(v: View, base: set<nat>, names: iset<Name>, calls: seq<Call>)
    requires Untouched(v, base) && Apart(names) && forall i | 0 <= i < |calls| :: Allowed(calls[i], names)
    ensures var u := After(v, calls);
            && (forall n, k | Offers(u, n, k) ::
                  Global(n, k) in u.globals && u.globals[Global(n, k)].HostFunction?
                      && u.globals[Global(n, k)].id in u.ids - base)
            && (forall n, k, m, l | Offers(u, n, k) && Offers(u, m, l) && (n != m || k != l) ::
                  u.globals[Global(n, k)] != u.globals[Global(m, l)])
            && base <= u.ids
            && (forall id | id in u.ids - base ::
                  exists n, k :: Offers(u, n, k) && u.globals[Global(n, k)] == HostFunction(id))
  {
    RunKeeps(v, base, names, calls);
    var u := After(v, calls);
    forall n, k | Offers(u, n, k) ensures Owns(u, n, Global(n, k)) && IsKey(k) {
      assert ExportsMatch(u, n);
    }
    forall n, k, m, l | Offers(u, n, k) && Offers(u, m, l) && (n != m || k != l)
      ensures u.globals[Global(n, k)] != u.globals[Global(m, l)]
    {
      assert Owns(u, n, Global(n, k)) && Owns(u, m, Global(m, l));
      CollisionsExactly(n, k, m, l);
    }
    forall id | id in u.ids - base ensures exists n, k ::
        Offers(u, n, k) && u.globals[Global(n, k)] == HostFunction(id) {
      var n, g :| Owns(u, n, g) && g in u.globals && u.globals[g] == HostFunction(id);
      assert ExportsMatch(u, n);
      var k :| k in u.exports[n] && g == Global(n, k);
      assert Offers(u, n, k);
    }
  }

  lemma AsciiApart(names: iset<Name>)
    requires forall n | n in names :: Ascii(n)
    ensures Apart(names)
  {
  }

  // Two names that are not separable lose this: registering the second takes over the first's
  // global and retires its callback, while the first module is still registered.
  lemma OwnershipLost(a: Name, b: Name) returns (k: string, l: string)
    requires a != b && !Separable(a, b)
    ensures IsKey(k) && IsKey(l)
    ensures var v := View(map[], map[], map[], map[], map[], {}, 0);
            var u := After(v, [Register(a, [k], ""), Register(b, [l], "")]);
            && Offers(u, a, k) && Global(a, k) == Global(b, l)
            && u.ids == {1} && Global(a, k) in u.globals && u.globals[Global(a, k)] == HostFunction(1)
            && Global(a, k) !in After(u, [Remove(b)]).globals && a in After(u, [Remove(b)]).owned
  {
    k, l := NamesApartExactly(a, b);
    var v := View(map[], map[], map[], map[], map[], {}, 0);
    var first, second := Register(a, [k], ""), Register(b, [l], "");
    var w := Commit(v, a, [k], "");
    var u := Commit(w, b, [l], "");
    var g := Global(a, k);
    assert Created(a, [k]) == [g] && Created(b, [l]) == [g];
    assert Install(v.globals, [g], 0, 1) == map[g := HostFunction(0)];
    assert w.globals == map[g := HostFunction(0)] && w.nextId == 1;
    assert w.ids == {0};
    assert Install(w.globals, [g], 1, 1) == map[g := HostFunction(1)];
    assert g in Elements([g]) && 0 in IdsAt(w.globals, Elements([g]));
    assert u.ids == {1} && u.globals == map[g := HostFunction(1)];
    assert [first, second][1..] == [second] && [second][1..] == [];
    assert After(v, [first, second]) == After(w, [second]) == After(u, []) == u;
    assert [Remove(b)][1..] == [];
    assert After(u, [Remove(b)]) == Removed(u, b);
    assert g in Previous(u, b);
  }
}
