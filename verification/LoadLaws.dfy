/** What every load keeps and does: crates/around-extensions/src/lib.rs:755-987. */
module LoadLaws {
  import opened Pcm
  import opened Registers
  import opened Extensions

  function LoadedIds(w: World): set<MetaId> {
    set n | n in w.loadedMeta :: w.loadedMeta[n].id
  }

  /** No register entry carries the id of an extension that is not loaded. */
  ghost predicate Clean(slots: map<string, Slot>, ids: set<MetaId>) {
    forall s, e | s in slots && e in slots[s].entries :: e.meta in ids
  }

  ghost predicate Closed(w: World) {
    forall n, d | n in w.loadedMeta && d in w.loadedMeta[n].dependsOn :: d in w.loaded
  }

  ghost predicate DistinctIds(w: World) {
    && (forall n, m | n in w.loadedMeta && m in w.loadedMeta && w.loadedMeta[n].id == w.loadedMeta[m].id :: n == m)
    && LoadedIds(w) !! w.held
  }

  /** The framework invariant. */
  ghost predicate WellFormed(w: World) {
    && w.loaded.Keys == w.loadedMeta.Keys
    && DistinctIds(w) && Closed(w) && Clean(w.slots, LoadedIds(w))
    && (forall s | s in w.slots && w.slots[s].owner.Some? :: w.slots[s].owner.value in w.loaded)
  }

  // --------------------------------------------------------------- one install

  lemma {:induction false} AttachedSlots(slots: map<string, Slot>, defs: seq<string>, lib: Library, owner: string,
                                         id: MetaId)
    ensures forall s :: s in Attached(slots, defs, lib, owner, id) <==> s in slots || s in defs
    ensures forall s | s in defs ::
              Attached(slots, defs, lib, owner, id)[s] == Slot(Some(owner), Tagged(Created(lib, s), id))
    ensures forall s | s in slots && s !in defs :: Attached(slots, defs, lib, owner, id)[s] == slots[s]
  {
    if |defs| > 0 {
      AttachedSlots(slots, defs[..|defs| - 1], lib, owner, id);
    }
  }

  /** Attaching and polling add entries of the new id and nothing else. */
  lemma InstalledClean(slots: map<string, Slot>, ids: set<MetaId>, lib: Library, owner: string, id: MetaId)
    requires Clean(slots, ids)
    ensures Clean(Polled(Attached(slots, lib.slotDefs, lib, owner, id), lib, owner, id), ids + {id})
  {
    var attached := Attached(slots, lib.slotDefs, lib, owner, id);
    AttachedSlots(slots, lib.slotDefs, lib, owner, id);
    var polled := Polled(attached, lib, owner, id);
    forall s, e | s in polled && e in polled[s].entries ensures e.meta in ids + {id} {
      if s in lib.slotDefs {
        assert polled[s] == attached[s];
      } else {
        assert s in slots && attached[s] == slots[s];
      }
    }
  }

  lemma OneMoreId(w: World, u: World, name: string, id: MetaId, dependsOn: seq<string>)
    requires name !in w.loadedMeta && u.loadedMeta == w.loadedMeta[name := OwnedMeta(id, dependsOn)]
    ensures LoadedIds(u) == LoadedIds(w) + {id}
  {
    assert name in u.loadedMeta && u.loadedMeta[name].id == id;
    forall i | i in LoadedIds(w) ensures i in LoadedIds(u) {
      var n :| n in w.loadedMeta && w.loadedMeta[n].id == i;
      assert u.loadedMeta[n] == w.loadedMeta[n];
    }
  }

  lemma InstallWellFormed(w: World, name: string, path: string, meta: ExtensionMeta, env: Env)
    requires WellFormed(w) && env.Proper() && name !in w.loaded
    requires forall d | d in meta.dependsOn :: d in w.loaded
    ensures WellFormed(Install(w, name, path, meta, env).0)
  {
    var u := Install(w, name, path, meta, env).0;
    if Install(w, name, path, meta, env).1.Ok? {
      var lib, id := env.disk[path], env.alloc(w.clock, Live(w));
      assert id !in Live(w);
      InstalledClean(w.slots, LoadedIds(w), lib, name, id);
      AttachedSlots(w.slots, lib.slotDefs, lib, name, id);
      OneMoreId(w, u, name, id, meta.dependsOn);
    }
  }

  // ---------------------------------------------------------- what a load adds

  predicate NoRepeats(names: seq<string>) {
    forall i, j | 0 <= i < j < |names| :: names[i] != names[j]
  }

  /** Fit to be loaded: resolved, right version, opens, initialises. */
  predicate Fit(index: map<string, (string, ExtensionMeta)>, env: Env, name: string) {
    && name in index
    && var (path, meta) := index[name];
    && meta.apiVersion == CURRENT_API_VERSION
    && path in env.disk
    && (env.disk[path].init.Some? ==> env.disk[path].init.value == 0)
  }

  /** Nothing known or loaded is lost, and every name still resolves as it did. */
  ghost predicate Kept(w: World, u: World, env: Env) {
    && (forall n | n in w.index :: n in u.index && u.index[n] == w.index[n])
    && (forall n :: Found(u, env, n) == Found(w, env, n))
    && (forall n | n in w.loaded :: n in u.loaded && u.loaded[n] == w.loaded[n])
    && (forall n | n in w.loadedMeta :: n in u.loadedMeta && u.loadedMeta[n] == w.loadedMeta[n])
    && w.slots.Keys <= u.slots.Keys && u.held == w.held && u.loading == w.loading
  }

  /** The initialisations `added` between w and u: each once, none of an extension
      loaded or being loaded, each after those of all its dependencies. */
  ghost predicate Topological(w: World, u: World, added: seq<string>) {
    && u.inits == w.inits + added
    && NoRepeats(added)
    && (forall i | 0 <= i < |added| ::
          && added[i] !in w.loaded && added[i] !in w.loading && added[i] in u.index
          && forall d | d in u.index[added[i]].1.dependsOn :: d in w.loaded || d in added[..i])
  }

  /** What was newly loaded was initialised and is fit, and records its dependencies. */
  ghost predicate Justified(w: World, u: World, env: Env, added: seq<string>, ok: bool) {
    && (forall n | n in u.loaded && n !in w.loaded ::
          n in added && Fit(u.index, env, n) && n in u.loadedMeta
            && u.loadedMeta[n].dependsOn == u.index[n].1.dependsOn)
    && (ok ==> forall n | n in added :: n in u.loaded)
  }

  ghost predicate Loads(w: World, u: World, env: Env, added: seq<string>, ok: bool) {
    Kept(w, u, env) && Topological(w, u, added) && Justified(w, u, env, added, ok)
  }

  lemma LoadsNothing(w: World, u: World, env: Env, ok: bool)
    requires u.loaded == w.loaded && u.loadedMeta == w.loadedMeta && u.inits == w.inits && u.slots == w.slots
    requires u.held == w.held && u.loading == w.loading
    requires forall n | n in w.index :: n in u.index && u.index[n] == w.index[n]
    requires forall n :: Found(u, env, n) == Found(w, env, n)
    ensures Loads(w, u, env, [], ok)
  {
  }

  lemma LoadsThen(w: World, u: World, v: World, env: Env, a: seq<string>, b: seq<string>, ok: bool)
    requires Loads(w, u, env, a, true) && Loads(u, v, env, b, ok)
    ensures Loads(w, v, env, a + b, ok)
  {
    assert Topological(w, v, a + b) by {
      TopologicalThen(w, u, v, env, a, b);
    }
  }

  lemma TopologicalThen(w: World, u: World, v: World, env: Env, a: seq<string>, b: seq<string>)
    requires Kept(w, u, env) && Topological(w, u, a) && (forall n | n in a :: n in u.loaded)
    requires Kept(u, v, env) && Topological(u, v, b) && (forall n | n in u.loaded && n !in w.loaded :: n in a)
    ensures Topological(w, v, a + b)
  {
    var added := a + b;
    assert w.inits + added == (w.inits + a) + b;
    forall i, j | 0 <= i < j < |added| ensures added[i] != added[j] {
      if i < |a| <= j {
        assert a[i] in u.loaded;
      }
    }
    forall i | 0 <= i < |added|
      ensures added[i] !in w.loaded && added[i] !in w.loading && added[i] in v.index
      ensures forall d | d in v.index[added[i]].1.dependsOn :: d in w.loaded || d in added[..i]
    {
      if i < |a| {
        assert added[..i] == a[..i];
      } else {
        var k := i - |a|;
        assert added[..i] == a + b[..k];
      }
    }
  }

  /** The claim comes and goes without a trace. */
  lemma Unclaim(w: World, c: World, r: World, name: string, env: Env, added: seq<string>, ok: bool)
    requires c == w.(index := c.index, loading := w.loading + {name}) && name !in w.loading
    requires forall n | n in w.index :: n in c.index && c.index[n] == w.index[n]
    requires forall n :: Found(c, env, n) == Found(w, env, n)
    requires Loads(c, r, env, added, ok)
    ensures Loads(w, Released(r, name), env, added, ok)
  {
  }

  lemma InstallLoads(w: World, name: string, path: string, meta: ExtensionMeta, env: Env)
    requires w.loaded.Keys == w.loadedMeta.Keys
    requires name !in w.loaded && name !in w.loading && name in w.index && w.index[name] == (path, meta)
    requires meta.apiVersion == CURRENT_API_VERSION && forall d | d in meta.dependsOn :: d in w.loaded
    ensures var (u, r) := Install(w, name, path, meta, env);
            var added := if path in env.disk then [name] else [];
            Loads(w, u, env, added, r.Ok?) && (r.Ok? ==> name in u.loaded)
  {
    var (u, r) := Install(w, name, path, meta, env);
    if path !in env.disk {
      LoadsNothing(w, u, env, false);
    } else {
      var lib, id := env.disk[path], env.alloc(w.clock, Live(w));
      AttachedSlots(w.slots, lib.slotDefs, lib, name, id);
    }
  }

  /** What claiming a name changes, and what an accepted claim says. */
  lemma ClaimedShape(w: World, name: string, env: Env)
    ensures var (c, found) := Claimed(w, name, env);
            && c == w.(index := c.index, loading := w.loading + {name})
            && (forall n | n in w.index :: n in c.index && c.index[n] == w.index[n])
            && (forall n ::
                  Found(c, env, n) == Found(w, env, n) && Found(Released(c, name), env, n) == Found(w, env, n))
            && (found.Ok? ==> name in c.index && c.index[name] == found.value
                              && found.value.1.apiVersion == CURRENT_API_VERSION)
  {
    hide FirstNamed, Listed, Universe, FirstMissing;
  }

  lemma ClaimedWellFormed(w: World, name: string, env: Env)
    requires WellFormed(w)
    ensures var c := Claimed(w, name, env).0; WellFormed(c) && WellFormed(Released(c, name))
  {
    hide Claimed, Found, Universe;
    var c := Claimed(w, name, env).0;
    ClaimedShape(w, name, env);
    assert LoadedIds(c) == LoadedIds(w);
    ReleasedWellFormed(c, name);
  }

  lemma ReleasedWellFormed(w: World, name: string)
    requires WellFormed(w)
    ensures WellFormed(Released(w, name))
  {
    assert LoadedIds(Released(w, name)) == LoadedIds(w);
  }

  /** Every load keeps the invariant, keeps what was loaded, and initialises each
      new extension once, after its dependencies; it leaves the name loaded when it
      succeeds and its claims released when it does not. */
  lemma {:induction false} LoadLoads(w: World, name: string, env: Env) returns (added: seq<string>)
    requires WellFormed(w) && env.Proper()
    ensures var (u, r) := Load(w, name, env);
            Loads(w, u, env, added, r.Ok?) && WellFormed(u) && (r.Ok? ==> name in u.loaded)
    decreases |Universe(w, env) - w.loading|, 0, 0
  {
    hide Loads, Install, Claimed, WellFormed, Universe;
    added := [];
    ClaimedShape(w, name, env);
    ClaimedWellFormed(w, name, env);
    var (u, r) := Load(w, name, env);
    if name in w.loaded || name in w.loading {
      LoadsNothing(w, w, env, r.Ok?);
      return;
    }
    var (c, found) := Claimed(w, name, env);
    if found.Err? {
      LoadsNothing(w, u, env, false);
      return;
    }
    var (path, meta) := found.value;
    ClaimShrinks(Universe(w, env), w.loading, name);
    var ready, deps := LoadAll(c, meta.dependsOn, env).0, LoadAll(c, meta.dependsOn, env).1;
    added := LoadAllLoad(c, meta.dependsOn, env);
    Unclaim(w, c, ready, name, env, added, deps.Ok?);
    ReleasedWellFormed(ready, name);
    if deps.Ok? {
      var more := AfterDependencies(w, c, ready, name, path, meta, env, added);
      added := added + more;
    }
  }

  lemma {:induction false} LoadAllLoad(w: World, names: seq<string>, env: Env) returns (added: seq<string>)
    requires WellFormed(w) && env.Proper()
    ensures var (u, r) := LoadAll(w, names, env);
            Loads(w, u, env, added, r.Ok?) && WellFormed(u) && (r.Ok? ==> forall n | n in names :: n in u.loaded)
    decreases |Universe(w, env) - w.loading|, 1, |names|
  {
    hide Loads, Load;
    if |names| == 0 {
      LoadsNothing(w, w, env, true);
      return [];
    }
    added := LoadLoads(w, names[0], env);
    var (next, r) := Load(w, names[0], env);
    if r.Ok? {
      var more := LoadAllLoad(next, names[1..], env);
      var (u, r2) := LoadAll(next, names[1..], env);
      LoadsThen(w, next, u, env, added, more, r2.Ok?);
      LoadsKeeps(next, u, env, more, r2.Ok?);
      added := added + more;
    }
  }

  lemma LoadsKeeps(w: World, u: World, env: Env, added: seq<string>, ok: bool)
    requires Loads(w, u, env, added, ok)
    ensures forall n | n in w.loaded :: n in u.loaded
  {
  }

  /** Once the dependencies are loaded, the claim is dropped and the install runs. */
  lemma AfterDependencies(w: World, c: World, ready: World, name: string, path: string, meta: ExtensionMeta, env: Env,
                          a: seq<string>)
    returns (more: seq<string>)
    requires WellFormed(ready) && env.Proper() && name !in w.loaded && name !in w.loading
    requires c == w.(index := c.index, loading := w.loading + {name}) && name in c.index
             && c.index[name] == (path, meta)
    requires meta.apiVersion == CURRENT_API_VERSION && forall d | d in meta.dependsOn :: d in ready.loaded
    requires Loads(c, ready, env, a, true) && Loads(w, Released(ready, name), env, a, true)
    ensures var (done, r) := Install(ready, name, path, meta, env);
            && Loads(w, Released(done, name), env, a + more, r.Ok?)
            && WellFormed(Released(done, name)) && (r.Ok? ==> name in done.loaded)
  {
    assert ready.loaded.Keys == ready.loadedMeta.Keys;
    hide Loads, WellFormed, Install, Released;
    var bare := Released(ready, name);
    InstallReleased(ready, name, path, meta, env);
    assert name !in ready.loaded && ready.index[name] == (path, meta) && name !in bare.loading by {
      NotItself(w, c, ready, name, env, a);
    }
    InstallWellFormed(ready, name, path, meta, env);
    ReleasedWellFormed(Install(ready, name, path, meta, env).0, name);
    InstallLoads(bare, name, path, meta, env);
    more := if path in env.disk then [name] else [];
    LoadsThen(w, bare, Install(bare, name, path, meta, env).0, env, a, more,
              Install(ready, name, path, meta, env).1.Ok?);
  }

  /** Installing does not look at the claims. */
  lemma InstallReleased(w: World, name: string, path: string, meta: ExtensionMeta, env: Env)
    ensures var (u, r) := Install(w, name, path, meta, env);
            Install(Released(w, name), name, path, meta, env) == (Released(u, name), r)
    ensures Released(w, name).loaded == w.loaded && Released(w, name).loadedMeta == w.loadedMeta
  {
    assert Live(Released(w, name)) == Live(w);
  }

  /** Loading its dependencies never loads the extension itself. */
  lemma NotItself(w: World, c: World, ready: World, name: string, env: Env, a: seq<string>)
    requires name !in c.loaded && name in c.loading && name in c.index && Loads(c, ready, env, a, true)
    ensures name !in ready.loaded && name in ready.index && ready.index[name] == c.index[name]
    ensures name !in Released(ready, name).loading
  {
  }

  // ------------------------------------------------------- when a load succeeds

  function Dependencies(w: World, env: Env, name: string): seq<string> {
    match Found(w, env, name)
    case Some(entry) => entry.1.dependsOn
    case None => []
  }

  /** A walk along dependencies through names not loaded yet. */
  ghost predicate Trail(w: World, env: Env, p: seq<string>) {
    && |p| > 0
    && (forall i | 0 <= i < |p| :: p[i] !in w.loaded)
    && (forall i | 0 <= i < |p| - 1 :: p[i + 1] in Dependencies(w, env, p[i]))
  }

  predicate Resolvable(w: World, env: Env, name: string) {
    match Found(w, env, name)
    case None => false
    case Some((path, meta)) =>
      && meta.apiVersion == CURRENT_API_VERSION
      && path in env.disk
      && (env.disk[path].init.Some? ==> env.disk[path].init.value == 0)
  }

  /** Everything reachable and not loaded resolves, has the right version, opens and
      initialises, is not being loaded already, and is not reachable from itself. */
  ghost predicate Loadable(w: World, env: Env, name: string) {
    forall p | Trail(w, env, p) && p[0] == name ::
      NoRepeats(p) && p[|p| - 1] !in w.loading && Resolvable(w, env, p[|p| - 1])
  }

  /** The slots required by everything reachable are registered already. */
  ghost predicate SlotsReady(w: World, env: Env, name: string) {
    forall p | Trail(w, env, p) && p[0] == name && Found(w, env, p[|p| - 1]).Some? ::
      forall s | s in Found(w, env, p[|p| - 1]).value.1.dependsOnSlots :: s in w.slots
  }

  lemma {:induction false} LoadableLoads(w: World, name: string, env: Env)
    requires WellFormed(w) && env.Proper() && Loadable(w, env, name) && SlotsReady(w, env, name)
    ensures Load(w, name, env).1.Ok?
    decreases |Universe(w, env) - w.loading|, 0, 0
  {
    hide WellFormed, Universe, Loadable, SlotsReady, Trail, Install, Claimed;
    if name !in w.loaded {
      var (c, found) := Claimed(w, name, env);
      LoadableClaims(w, name, env);
      ClaimedShape(w, name, env);
      ClaimedWellFormed(w, name, env);
      ClaimShrinks(Universe(w, env), w.loading, name);
      var meta := found.value.1;
      forall d | d in meta.dependsOn ensures Loadable(c, env, d) && SlotsReady(c, env, d) {
        LoadableDependency(w, name, env, c, d);
      }
      LoadableAllLoad(c, meta.dependsOn, env);
      InstallSucceeds(LoadAll(c, meta.dependsOn, env).0, name, found.value.0, meta, env);
    }
  }

  lemma InstallSucceeds(w: World, name: string, path: string, meta: ExtensionMeta, env: Env)
    requires path in env.disk && (env.disk[path].init.Some? ==> env.disk[path].init.value == 0)
    ensures Install(w, name, path, meta, env).1.Ok?
  {
  }

  lemma LoadableClaims(w: World, name: string, env: Env)
    requires name !in w.loaded && Loadable(w, env, name) && SlotsReady(w, env, name)
    ensures name !in w.loading && Claimed(w, name, env).1.Ok?
    ensures var path := Claimed(w, name, env).1.value.0;
            path in env.disk && (env.disk[path].init.Some? ==> env.disk[path].init.value == 0)
    ensures Found(w, env, name) == Some(Claimed(w, name, env).1.value)
  {
    assert Trail(w, env, [name]);
    var meta := Found(w, env, name).value.1;
    var claimed := Indexed(w, env, name).(loading := w.loading + {name});
    assert forall s | s in meta.dependsOnSlots :: s in claimed.slots;
  }

  /** Past a claimed name, every trail is one step longer seen from the name. */
  lemma TrailFromName(w: World, env: Env, c: World, name: string, p: seq<string>)
    requires name !in w.loaded && c.loaded == w.loaded && (forall n :: Found(c, env, n) == Found(w, env, n))
    requires Trail(c, env, p) && p[0] in Dependencies(w, env, name)
    ensures Trail(w, env, [name] + p)
  {
    var longer := [name] + p;
    forall i | 0 <= i < |longer| - 1 ensures longer[i + 1] in Dependencies(w, env, longer[i]) {
      if i > 0 {
        assert p[i] in Dependencies(c, env, p[i - 1]);
      }
    }
  }

  lemma NoRepeatsTail(name: string, p: seq<string>)
    requires NoRepeats([name] + p) && |p| > 0
    ensures NoRepeats(p) && p[|p| - 1] != name
  {
    var longer := [name] + p;
    forall i, j | 0 <= i < j < |p| ensures p[i] != p[j] {
      assert longer[i + 1] == p[i] && longer[j + 1] == p[j];
    }
    assert longer[0] == name && longer[|p|] == p[|p| - 1];
  }

  lemma LoadableDependency(w: World, name: string, env: Env, c: World, d: string)
    requires name !in w.loaded && Loadable(w, env, name) && SlotsReady(w, env, name)
    requires c == w.(index := c.index, loading := w.loading + {name})
    requires forall n :: Found(c, env, n) == Found(w, env, n)
    requires d in Dependencies(w, env, name)
    ensures Loadable(c, env, d) && SlotsReady(c, env, d)
  {
    hide FreshScan, Found, NoRepeats, Dependencies;
    forall p | Trail(c, env, p) && p[0] == d
      ensures NoRepeats(p) && p[|p| - 1] !in c.loading && Resolvable(c, env, p[|p| - 1])
      ensures Found(c, env, p[|p| - 1]).Some? ==>
                forall s | s in Found(c, env, p[|p| - 1]).value.1.dependsOnSlots :: s in c.slots
    {
      var longer := [name] + p;
      TrailFromName(w, env, c, name, p);
      assert longer[|longer| - 1] == p[|p| - 1] && longer[0] == name;
      NoRepeatsTail(name, p);
    }
  }

  /** Loading something else only shortens the trails. */
  lemma LoadableLater(w: World, u: World, env: Env, name: string)
    requires Loadable(w, env, name) && SlotsReady(w, env, name) && Kept(w, u, env)
    ensures Loadable(u, env, name) && SlotsReady(u, env, name)
  {
    forall p | Trail(u, env, p) && p[0] == name ensures Trail(w, env, p) {
      forall i | 0 <= i < |p| - 1 ensures p[i + 1] in Dependencies(w, env, p[i]) {
        assert p[i + 1] in Dependencies(u, env, p[i]);
      }
    }
  }

  lemma {:induction false} LoadableAllLoad(w: World, names: seq<string>, env: Env)
    requires WellFormed(w) && env.Proper()
    requires forall n | n in names :: Loadable(w, env, n) && SlotsReady(w, env, n)
    ensures LoadAll(w, names, env).1.Ok?
    decreases |Universe(w, env) - w.loading|, 1, |names|
  {
    hide WellFormed, Universe, Loadable, SlotsReady, Load, Loads;
    if |names| > 0 {
      LoadableLoads(w, names[0], env);
      var next := Load(w, names[0], env).0;
      var added := LoadLoads(w, names[0], env);
      LoadsKept(w, next, env, added, true);
      forall n | n in names[1..] ensures Loadable(next, env, n) && SlotsReady(next, env, n) {
        LoadableLater(w, next, env, n);
      }
      LoadableAllLoad(next, names[1..], env);
    }
  }

  lemma LoadsKept(w: World, u: World, env: Env, added: seq<string>, ok: bool)
    requires Loads(w, u, env, added, ok)
    ensures Kept(w, u, env)
  {
  }

  function Position(names: seq<string>, name: string): (k: nat)
    requires name in names
    ensures k < |names| && names[k] == name
  {
    if names[|names| - 1] == name then |names| - 1 else Position(names[..|names| - 1], name)
  }

  lemma UniquePosition(names: seq<string>, name: string, k: nat)
    requires NoRepeats(names) && k < |names| && names[k] == name
    ensures Position(names, name) == k
  {
  }

  /** One step along a trail of newly loaded names goes back in initialisation order. */
  lemma TrailStep(w: World, u: World, env: Env, added: seq<string>, x: string, y: string)
    requires WellFormed(u) && Loads(w, u, env, added, true)
    requires x in u.loaded && x !in w.loaded && y !in w.loaded && y in Dependencies(w, env, x)
    ensures y in u.loaded && x in added && y in added
    ensures Position(added, y) < Position(added, x)
  {
    assert x in added && Found(u, env, x) == Some(u.index[x]);
    var i := Position(added, x);
    assert y in u.index[added[i]].1.dependsOn;
    var j :| 0 <= j < i && added[j] == y;
    UniquePosition(added, y, j);
  }

  lemma {:induction false} TrailGoesBack(w: World, u: World, env: Env, added: seq<string>, p: seq<string>)
    requires WellFormed(u) && Loads(w, u, env, added, true) && Trail(w, env, p) && p[0] in u.loaded
    ensures forall i | 0 <= i < |p| :: p[i] in u.loaded && p[i] in added
    ensures forall i | 0 <= i < |p| - 1 :: Position(added, p[|p| - 1]) < Position(added, p[i])
    ensures NoRepeats(p)
    decreases |p|
  {
    hide WellFormed, Loads, Dependencies, Position, Found;
    if |p| == 1 {
      NewlyLoaded(w, u, env, added, p[0]);
    } else {
      var n := |p| - 1;
      assert Trail(w, env, p[..n]);
      TrailGoesBack(w, u, env, added, p[..n]);
      assert p[..n][n - 1] == p[n - 1];
      TrailStep(w, u, env, added, p[n - 1], p[n]);
      forall i | 0 <= i < n ensures Position(added, p[n]) < Position(added, p[i]) {
        assert p[..n][i] == p[i];
      }
      forall i, j | 0 <= i < j < |p| ensures p[i] != p[j] {
        assert p[..n][i] == p[i];
        if j < n {
          assert p[..n][j] == p[j];
        }
      }
    }
  }

  lemma NewlyLoaded(w: World, u: World, env: Env, added: seq<string>, name: string)
    requires Loads(w, u, env, added, true) && name in u.loaded && name !in w.loaded
    ensures name in added && name !in w.loading && Resolvable(w, env, name)
  {
    var i := Position(added, name);
    assert added[i] !in w.loading;
    assert Found(u, env, name) == Found(w, env, name);
  }

  lemma LoadedWasLoadable(w: World, name: string, env: Env)
    requires WellFormed(w) && env.Proper() && Load(w, name, env).1.Ok?
    ensures Loadable(w, env, name)
  {
    hide WellFormed, Loads, Load;
    var u := Load(w, name, env).0;
    var added := LoadLoads(w, name, env);
    forall p | Trail(w, env, p) && p[0] == name
      ensures NoRepeats(p) && p[|p| - 1] !in w.loading && Resolvable(w, env, p[|p| - 1])
    {
      TrailGoesBack(w, u, env, added, p);
      NewlyLoaded(w, u, env, added, p[|p| - 1]);
    }
  }

  /** Main theorem: with the required slots registered, load succeeds exactly when
      everything reachable and not loaded is fit and the dependencies are acyclic. */
  lemma LoadSucceedsExactly(w: World, name: string, env: Env)
    requires WellFormed(w) && env.Proper() && SlotsReady(w, env, name)
    ensures Load(w, name, env).1.Ok? <==> Loadable(w, env, name)
  {
    hide WellFormed, Loadable, SlotsReady, Load;
    if Load(w, name, env).1.Ok? {
      LoadedWasLoadable(w, name, env);
    }
    if Loadable(w, env, name) {
      LoadableLoads(w, name, env);
    }
  }
}
