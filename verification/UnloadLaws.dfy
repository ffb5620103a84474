/** What a load registers, unload, and two-phase reload:
    crates/around-extensions/src/lib.rs:859-1423. */
module UnloadLaws {
  import opened Pcm
  import opened Registers
  import opened Extensions
  import opened LoadLaws
  import opened ScanLaws

  lemma OneIdLess(w: World, u: World, name: string)
    requires DistinctIds(w) && name in w.loadedMeta && u.loadedMeta == w.loadedMeta - {name}
    ensures LoadedIds(u) == LoadedIds(w) - {w.loadedMeta[name].id}
  {
    forall i | i in LoadedIds(w) && i != w.loadedMeta[name].id ensures i in LoadedIds(u) {
      var n :| n in w.loadedMeta && w.loadedMeta[n].id == i;
      assert n in u.loadedMeta && u.loadedMeta[n].id == i;
    }
  }

  /** Unload keeps the invariant; it is refused exactly for a name that is not
      loaded or that another loaded extension depends on, and then changes nothing. */
  lemma UnloadKeepsWellFormed(w: World, name: string)
    requires WellFormed(w)
    ensures WellFormed(Unload(w, name).0)
    ensures Unload(w, name).1.Ok? <==> name in w.loaded && Undepended(w, name)
    ensures Unload(w, name).1.Err? ==> Unload(w, name).0 == w
  {
    var u := Unload(w, name).0;
    if Dependents(w, name) != {} {
      var n :| n in Dependents(w, name);
      assert n in w.loaded && name in w.loadedMeta[n].dependsOn;
    } else {
      assert forall n | n in w.loaded && n != name && name in w.loadedMeta[n].dependsOn :: n in Dependents(w, name);
      if name in w.loadedMeta {
        OneIdLess(w, u, name);
        RemovedClean(w.slots, LoadedIds(w), name, w.loadedMeta[name].id);
      }
    }
  }

  lemma RemovedClean(slots: map<string, Slot>, ids: set<MetaId>, name: string, id: MetaId)
    requires Clean(slots, ids)
    ensures Clean(Removed(slots, name, id), ids - {id})
  {
    var removed := Removed(slots, name, id);
    forall s, e | s in removed && e in removed[s].entries ensures e.meta in ids - {id} {
      WithoutMembers(slots[s].entries, id, e);
    }
  }

  /** A removed extension's slots go; from every other slot exactly its entries go,
      and every other extension's stay, in order. */
  lemma UnloadRemovesExactly(w: World, name: string, s: string)
    requires WellFormed(w) && Unload(w, name).1.Ok?
    ensures var u := Unload(w, name).0;
            && (s in u.slots <==> s in w.slots && w.slots[s].owner != Some(name))
            && (s in u.slots ==>
                  && u.slots[s].owner == w.slots[s].owner
                  && OnlyOf(u.slots[s].entries, w.loadedMeta[name].id) == []
                  && (forall n | n in u.loaded ::
                        OnlyOf(u.slots[s].entries, w.loadedMeta[n].id)
                        == OnlyOf(w.slots[s].entries, w.loadedMeta[n].id))
                  && (forall e | e in u.slots[s].entries :: e.meta in LoadedIds(u)))
  {
    var u, id := Unload(w, name).0, w.loadedMeta[name].id;
    UnloadKeepsWellFormed(w, name);
    if s in u.slots {
      OnlyOfWithout(w.slots[s].entries, id, id);
      forall n | n in u.loaded
        ensures OnlyOf(u.slots[s].entries, w.loadedMeta[n].id) == OnlyOf(w.slots[s].entries, w.loadedMeta[n].id)
      {
        OnlyOfWithout(w.slots[s].entries, id, w.loadedMeta[n].id);
      }
    }
  }

  // ------------------------------------------------------ what a load registers

  /** After an install every register, owned or not, holds what the library creates
      for it, once; elsewhere nothing changed but for slots it redefined. */
  lemma InstallRegistersOnce(w: World, name: string, path: string, meta: ExtensionMeta, env: Env, s: string)
    requires WellFormed(w) && env.Proper() && name !in w.loaded && Install(w, name, path, meta, env).1.Ok?
    requires s in Install(w, name, path, meta, env).0.slots
    ensures var u := Install(w, name, path, meta, env).0;
            var id := u.loadedMeta[name].id;
            && OnlyOf(u.slots[s].entries, id) == Tagged(Created(u.loaded[name], s), id)
            && (s !in u.loaded[name].slotDefs ==>
                  s in w.slots && w.slots[s].entries <= u.slots[s].entries
                  && forall m | m != id :: OnlyOf(u.slots[s].entries, m) == OnlyOf(w.slots[s].entries, m))
  {
    hide Created, OnlyOf, Tagged, Attached;
    var lib, id := env.disk[path], env.alloc(w.clock, Live(w));
    assert id !in Live(w);
    AttachedSlots(w.slots, lib.slotDefs, lib, name, id);
    OfTagged(Created(lib, s), id, id);
    if s !in lib.slotDefs {
      assert w.slots[s].owner != Some(name);
      NoneOf(w.slots[s].entries, id);
      var none: seq<Entry> := [];
      assert none + Tagged(Created(lib, s), id) == Tagged(Created(lib, s), id);
      forall m ensures OnlyOf(w.slots[s].entries + Tagged(Created(lib, s), id), m)
                       == OnlyOf(w.slots[s].entries, m) + (if m == id then Tagged(Created(lib, s), id) else [])
      {
        OnlyOfConcat(w.slots[s].entries, Tagged(Created(lib, s), id), m);
        OfTagged(Created(lib, s), id, m);
      }
      assert forall m :: OnlyOf(w.slots[s].entries, m) + none == OnlyOf(w.slots[s].entries, m);
    }
  }

  /** A successful load leaves its extension registered once in every slot there is. */
  lemma LoadRegistersOnce(w: World, name: string, env: Env)
    requires WellFormed(w) && env.Proper() && name !in w.loaded && Load(w, name, env).1.Ok?
    ensures var u := Load(w, name, env).0;
            && name in u.loaded && name in u.loadedMeta
            && Found(w, env, name).Some? && Found(w, env, name).value.0 in env.disk
            && u.loaded[name] == env.disk[Found(w, env, name).value.0]
            && forall s | s in u.slots ::
                 OnlyOf(u.slots[s].entries, u.loadedMeta[name].id)
                 == Tagged(Created(u.loaded[name], s), u.loadedMeta[name].id)
  {
    hide WellFormed, Loads, Install, Claimed, Universe, OnlyOf, Tagged, Created;
    var (c, found) := Claimed(w, name, env);
    ClaimedShape(w, name, env);
    ClaimedWellFormed(w, name, env);
    var (path, meta) := found.value;
    var ready := LoadAll(c, meta.dependsOn, env).0;
    var added := LoadAllLoad(c, meta.dependsOn, env);
    NotItself(w, c, ready, name, env, added);
    InstallRecords(ready, name, path, meta, env);
    ClaimedIsFound(w, name, env);
    forall s | s in Install(ready, name, path, meta, env).0.slots
      ensures var u := Install(ready, name, path, meta, env).0;
              OnlyOf(u.slots[s].entries, u.loadedMeta[name].id)
              == Tagged(Created(u.loaded[name], s), u.loadedMeta[name].id)
    {
      InstallRegistersOnce(ready, name, path, meta, env, s);
    }
  }

  lemma InstallRecords(w: World, name: string, path: string, meta: ExtensionMeta, env: Env)
    requires Install(w, name, path, meta, env).1.Ok?
    ensures var u := Install(w, name, path, meta, env).0;
            name in u.loaded && name in u.loadedMeta && path in env.disk && u.loaded[name] == env.disk[path]
  {
  }

  lemma ClaimedIsFound(w: World, name: string, env: Env)
    requires Claimed(w, name, env).1.Ok?
    ensures Found(w, env, name) == Some(Claimed(w, name, env).1.value)
  {
    hide FreshScan, Universe;
  }

  // ----------------------------------------------------------- load then unload

  lemma {:induction false} LoadAllLoaded(w: World, names: seq<string>, env: Env)
    requires forall n | n in names :: n in w.loaded
    ensures LoadAll(w, names, env) == (w, Ok(()))
    decreases |names|
  {
    if |names| > 0 {
      LoadAllLoaded(w, names[1..], env);
    }
  }

  /** Entries of a new id come and go without a trace. */
  lemma SlotsRestored(slots: map<string, Slot>, ids: set<MetaId>, lib: Library, name: string, id: MetaId)
    requires Clean(slots, ids) && id !in ids
    requires forall s | s in slots :: slots[s].owner != Some(name)
    requires forall s | s in lib.slotDefs :: s !in slots
    ensures Removed(Polled(Attached(slots, lib.slotDefs, lib, name, id), lib, name, id), name, id) == slots
  {
    hide Created, Without;
    var attached := Attached(slots, lib.slotDefs, lib, name, id);
    var polled := Polled(attached, lib, name, id);
    AttachedSlots(slots, lib.slotDefs, lib, name, id);
    forall s | s in slots ensures Removed(polled, name, id)[s] == slots[s] {
      assert attached[s] == slots[s];
      WithoutConcat(slots[s].entries, Tagged(Created(lib, s), id), id);
      OfTagged(Created(lib, s), id, id);
      WithoutAbsent(slots[s].entries, id);
      assert slots[s].entries + [] == slots[s].entries;
    }
    assert Removed(polled, name, id).Keys == slots.Keys;
  }

  /** With its dependencies loaded, a load is a claim and an install. */
  lemma LoadIsInstall(w: World, name: string, env: Env)
    requires WellFormed(w) && name !in w.loaded && Load(w, name, env).1.Ok?
    requires forall d | d in Dependencies(w, env, name) :: d in w.loaded
    ensures name !in w.loading && Claimed(w, name, env).1.Ok?
    ensures var (c, found) := Claimed(w, name, env);
            Load(w, name, env).0 == Released(Install(c, name, found.value.0, found.value.1, env).0, name)
            && Install(c, name, found.value.0, found.value.1, env).1.Ok?
  {
    hide Install, Universe, FreshScan, WellFormed;
    var (c, found) := Claimed(w, name, env);
    ClaimedShape(w, name, env);
    if found.Ok? {
      assert Found(w, env, name) == Found(c, env, name);
      LoadAllLoaded(c, found.value.1.dependsOn, env);
    }
  }

  lemma InstallThenUnload(w: World, name: string, path: string, meta: ExtensionMeta, env: Env)
    requires WellFormed(w) && env.Proper() && name !in w.loaded && Install(w, name, path, meta, env).1.Ok?
    requires forall s | s in env.disk[path].slotDefs :: s !in w.slots
    ensures var u := Install(w, name, path, meta, env).0;
            && u.loaded.Keys == u.loadedMeta.Keys && Unload(u, name).1.Ok?
            && Unload(u, name).0 == w.(inits := u.inits, clock := u.clock)
  {
    hide Removed, Attached, Polled;
    var u := Install(w, name, path, meta, env).0;
    var lib, id := env.disk[path], env.alloc(w.clock, Live(w));
    assert id !in Live(w);
    SlotsRestored(w.slots, LoadedIds(w), lib, name, id);
    assert Dependents(u, name) == {} by {
      assert forall n | n in w.loadedMeta :: u.loadedMeta[n] == w.loadedMeta[n];
    }
    assert u.loadedMeta - {name} == w.loadedMeta && u.loaded - {name} == w.loaded;
  }

  /** Loading an extension whose dependencies are loaded and whose slot names are
      new, and unloading it again, restores every register and the slot map. */
  lemma LoadThenUnload(w: World, name: string, env: Env)
    requires WellFormed(w) && env.Proper() && name !in w.loaded
    requires Load(w, name, env).1.Ok?
    requires forall d | d in Dependencies(w, env, name) :: d in w.loaded
    requires forall s | name in Load(w, name, env).0.loaded && s in Load(w, name, env).0.loaded[name].slotDefs ::
              s !in w.slots
    ensures var u := Load(w, name, env).0;
            && u.loaded.Keys == u.loadedMeta.Keys
            && Unload(u, name).1.Ok?
            && Unload(u, name).0 == w.(index := u.index, inits := u.inits, clock := u.clock)
  {
    hide Removed, Attached, Polled, Claimed, WellFormed, Load, Universe;
    var (c, found) := Claimed(w, name, env);
    LoadIsInstall(w, name, env);
    ClaimedShape(w, name, env);
    ClaimedWellFormed(w, name, env);
    InstallThenUnload(c, name, found.value.0, found.value.1, env);
    assert w.loading + {name} - {name} == w.loading;
  }

  // --------------------------------------------------------------- reload

  /** prepare_reload leaves every map and register alone: the old version serves on.
      What it prepares is held under an id nobody else has. */
  lemma PrepareKeeps(w: World, path: string, env: Env)
    requires WellFormed(w) && env.Proper()
    ensures var (u, r) := PrepareReload(w, path, env);
            && u == w.(held := u.held, inits := u.inits, clock := u.clock)
            && (r.Err? ==> u.held == w.held)
            && (r.Ok? ==> u.held == w.held + {r.value.id} && r.value.id !in Live(w))
            && WellFormed(u)
  {
    var (u, r) := PrepareReload(w, path, env);
    assert LoadedIds(u) == LoadedIds(w);
  }

  lemma NameOfId(w: World, name: string)
    requires DistinctIds(w) && name in w.loadedMeta
    ensures NameOf(w, w.loadedMeta[name].id) == Some(name)
  {
  }

  /** No other loaded extension depends on the name. */
  ghost predicate Undepended(w: World, name: string) {
    forall n | n in w.loadedMeta && n != name :: name !in w.loadedMeta[n].dependsOn
  }

  /** A commit is refused exactly for an unknown id or an extension others depend
      on, and then only the pending version is given up. */
  lemma RejectedCommitKeeps(w: World, oldId: MetaId, p: Pending)
    requires WellFormed(w)
    ensures var (u, r) := CommitReload(w, oldId, p);
            && (r.Err? ==> u == w.(held := w.held - {p.id}))
            && (r.Ok? <==> exists name :: name in w.loaded && w.loadedMeta[name].id == oldId && Undepended(w, name))
  {
    var name := NameOf(w, oldId);
    if name.Some? {
      NameOfId(w, name.value);
      if Dependents(w, name.value) != {} {
        var n :| n in Dependents(w, name.value);
        assert n in w.loaded && name.value in w.loadedMeta[n].dependsOn;
      } else {
        assert forall n | n in w.loaded && n != name.value && name.value in w.loadedMeta[n].dependsOn ::
            n in Dependents(w, name.value);
      }
    }
  }

  /** A register after a successful reload: the new version's slots hold its entries;
      every other surviving register lost exactly the old version's entries and
      gained what was prepared for it. */
  lemma ReloadedSlot(w: World, name: string, p: Pending, s: string)
    requires WellFormed(w) && name in w.loaded && Dependents(w, name) == {}
    ensures var u, oldId := Replaced(w, name, p), w.loadedMeta[name].id;
            && (s in u.slots <==> (s in w.slots && w.slots[s].owner != Some(name)) || s in p.lib.slotDefs)
            && (s in u.slots && s in p.lib.slotDefs ==>
                  u.slots[s] == Slot(Some(name), Tagged(Created(p.lib, s), p.id)
                                  + (if s in p.entries then Tagged(p.entries[s], p.id) else [])))
            && (s in u.slots && s !in p.lib.slotDefs ==>
                  u.slots[s] == w.slots[s].(entries := Without(w.slots[s].entries, oldId)
                                                       + (if s in p.entries then Tagged(p.entries[s], p.id) else [])))
  {
    AttachedSlots(Dropped(w, name).slots, p.lib.slotDefs, p.lib, name, p.id);
    var none: seq<Entry> := [];
    if s in w.slots {
      assert Without(w.slots[s].entries, w.loadedMeta[name].id) + none
        == Without(w.slots[s].entries, w.loadedMeta[name].id);
    }
    assert Tagged(Created(p.lib, s), p.id) + none == Tagged(Created(p.lib, s), p.id);
  }

  /** Reload keeps the invariant exactly when the new version's dependencies are
      loaded, which the commit stores but does not check. */
  lemma ReloadKeepsWellFormedExactly(w: World, name: string, p: Pending)
    requires WellFormed(w) && name in w.loaded && Dependents(w, name) == {} && p.id in w.held
    ensures WellFormed(Replaced(w, name, p)) <==> forall d | d in p.meta.dependsOn :: d in w.loaded
  {
    hide Without, Removed, Attached, WithEntries, Created, Clean, DistinctIds, LoadedIds;
    if forall d | d in p.meta.dependsOn :: d in w.loaded {
      ReloadKeepsWellFormed(w, name, p);
    } else {
      assert Replaced(w, name, p).loaded.Keys == w.loaded.Keys;
      assert Replaced(w, name, p).loadedMeta[name].dependsOn == p.meta.dependsOn;
    }
  }

  lemma ReloadKeepsWellFormed(w: World, name: string, p: Pending)
    requires WellFormed(w) && name in w.loaded && Dependents(w, name) == {} && p.id in w.held
    requires forall d | d in p.meta.dependsOn :: d in w.loaded
    ensures WellFormed(Replaced(w, name, p))
  {
    hide Without, Removed, Attached, WithEntries, Created, Clean;
    var u, bare := Replaced(w, name, p), Dropped(w, name);
    assert WellFormed(bare) by {
      UnloadKeepsWellFormed(w, name);
    }
    OneMoreId(bare, u, name, p.id, p.meta.dependsOn);
    OneIdLess(w, bare, name);
    ReplacedClean(w, name, p);
    forall s | s in u.slots && u.slots[s].owner.Some? ensures u.slots[s].owner.value in u.loaded {
      ReloadedSlot(w, name, p, s);
    }
  }

  lemma ReplacedClean(w: World, name: string, p: Pending)
    requires WellFormed(w) && name in w.loaded && Dependents(w, name) == {}
    ensures Clean(Replaced(w, name, p).slots, LoadedIds(w) - {w.loadedMeta[name].id} + {p.id})
  {
    hide Without, Removed, Attached, WithEntries, Created, Replaced;
    var u := Replaced(w, name, p);
    forall s, e | s in u.slots && e in u.slots[s].entries
      ensures e.meta in LoadedIds(w) - {w.loadedMeta[name].id} + {p.id} {
      ReloadedSlot(w, name, p, s);
      if s in w.slots {
        WithoutMembers(w.slots[s].entries, w.loadedMeta[name].id, e);
      }
    }
  }

  /** Each register holds of the new version just what it creates for it. */
  ghost predicate OncePerSlot(u: World, p: Pending) {
    forall s | s in u.slots :: OnlyOf(u.slots[s].entries, p.id) == Tagged(Created(p.lib, s), p.id)
  }

  /** One version's entries after another's were removed and new ones appended. */
  lemma EntriesAfter(base: seq<Entry>, objects: seq<Object>, oldId: MetaId, newId: MetaId, meta: MetaId)
    ensures OnlyOf(Without(base, oldId) + Tagged(objects, newId), meta)
         == (if meta == oldId then [] else OnlyOf(base, meta)) + (if meta == newId then Tagged(objects, newId) else [])
  {
    OnlyOfConcat(Without(base, oldId), Tagged(objects, newId), meta);
    OnlyOfWithout(base, oldId, meta);
    OfTagged(objects, newId, meta);
  }

  lemma {:induction false} NoneOf(entries: seq<Entry>, meta: MetaId)
    requires forall e | e in entries :: e.meta != meta
    ensures OnlyOf(entries, meta) == []
  {
    if |entries| > 0 {
      assert entries[|entries| - 1] in entries;
      NoneOf(entries[..|entries| - 1], meta);
    }
  }

  /** One extension's entries in a register. */
  function Share(w: World, s: string, meta: MetaId): seq<Entry> {
    if s in w.slots then OnlyOf(w.slots[s].entries, meta) else []
  }

  /** What a register holds of one version after a reload, from what was prepared. */
  lemma ShareAfterReload(w: World, name: string, p: Pending, s: string, meta: MetaId)
    requires WellFormed(w) && name in w.loaded && Dependents(w, name) == {} && s in Replaced(w, name, p).slots
    ensures OnlyOf(Replaced(w, name, p).slots[s].entries, meta) ==
      (if s in p.lib.slotDefs then (if meta == p.id then Tagged(Created(p.lib, s), p.id) else [])
       else if meta == w.loadedMeta[name].id then [] else Share(w, s, meta))
      + (if meta == p.id && s in p.entries then Tagged(p.entries[s], p.id) else [])
  {
    hide Without, OnlyOf, Removed, Attached, WithEntries, Created, Replaced, Clean, DistinctIds;
    var oldId := w.loadedMeta[name].id;
    var appended := if s in p.entries then p.entries[s] else [];
    var none: seq<Entry> := [];
    ReloadedSlot(w, name, p, s);
    if s in p.lib.slotDefs {
      OfTagged(Created(p.lib, s), p.id, meta);
      OfTagged(appended, p.id, meta);
      OnlyOfConcat(Tagged(Created(p.lib, s), p.id), Tagged(appended, p.id), meta);
    } else {
      EntriesAfter(w.slots[s].entries, appended, oldId, p.id, meta);
    }
    assert Tagged([], p.id) == none;
  }

  /** What the commit pushes into a slot besides what the slot's own definition polls. */
  function Arriving(p: Pending, s: string): seq<Object> {
    if s in p.entries then p.entries[s] else []
  }

  /** Nothing arrives for a slot the new version defines, and for every other slot that
      survives just what it creates for it. */
  ghost predicate ArrivesOnce(w: World, name: string, p: Pending) {
    && (forall s | s in p.lib.slotDefs :: Arriving(p, s) == [])
    && (forall s | s in w.slots && s !in p.lib.slotDefs && w.slots[s].owner != Some(name) ::
          Arriving(p, s) == Created(p.lib, s))
  }

  lemma {:induction false} TaggedInjective(a: seq<Object>, b: seq<Object>, id: MetaId)
    requires Tagged(a, id) == Tagged(b, id)
    ensures a == b
  {
    forall i | 0 <= i < |a| ensures a[i] == b[i] {
      assert Tagged(a, id)[i] == Tagged(b, id)[i];
    }
  }

  /** One register after a commit holds the new version once exactly if ... */
  lemma SlotRegistered(w: World, name: string, p: Pending, s: string)
    requires WellFormed(w) && name in w.loaded && Dependents(w, name) == {} && p.id in w.held
    requires s in Replaced(w, name, p).slots
    ensures OnlyOf(Replaced(w, name, p).slots[s].entries, p.id) == Tagged(Created(p.lib, s), p.id)
            <==> Arriving(p, s) == if s in p.lib.slotDefs then [] else Created(p.lib, s)
    ensures s !in p.lib.slotDefs ==> s in w.slots && w.slots[s].owner != Some(name)
  {
    hide Without, OnlyOf, Removed, Attached, WithEntries, Created, Tagged, Replaced;
    ShareAfterReload(w, name, p, s, p.id);
    ReloadedSlot(w, name, p, s);
    if s in w.slots {
      NoneOf(w.slots[s].entries, p.id);
    }
    var created, arriving := Tagged(Created(p.lib, s), p.id), Tagged(Arriving(p, s), p.id);
    var none: seq<Entry> := [];
    NothingTagged(p.id);
    assert OnlyOf(Replaced(w, name, p).slots[s].entries, p.id)
      == (if s in p.lib.slotDefs then created else none) + arriving;
    if s in p.lib.slotDefs {
      assert |created + arriving| == |created| + |Arriving(p, s)|;
      assert created + none == created;
    } else {
      assert none + arriving == arriving;
      if arriving == created {
        TaggedInjective(Arriving(p, s), Created(p.lib, s), p.id);
      }
    }
  }

  lemma NothingTagged(id: MetaId)
    ensures Tagged([], id) == []
  {
  }

  /** Main theorem of reload. From any well-formed world, however long after its
      preparation, committing a version still held leaves no entry of the old version,
      keeps every other extension's entries in the surviving slots the new version does
      not redefine, and registers the new version once per slot exactly when each slot
      gets its entries on one way. */
  lemma ReloadReplacesExactly(w: World, name: string, p: Pending)
    requires WellFormed(w) && name in w.loaded && Dependents(w, name) == {} && p.id in w.held
    ensures var (u, r) := CommitReload(w, w.loadedMeta[name].id, p);
            && r.Ok?
            && (OncePerSlot(u, p) <==> ArrivesOnce(w, name, p))
            && (forall s | s in u.slots :: OnlyOf(u.slots[s].entries, w.loadedMeta[name].id) == [])
            && (forall s, n | s in u.slots && n in w.loaded && n != name ::
                  OnlyOf(u.slots[s].entries, w.loadedMeta[n].id)
                  == if s in p.lib.slotDefs then [] else Share(w, s, w.loadedMeta[n].id))
  {
    hide Without, OnlyOf, Removed, Attached, WithEntries, Created, Tagged, Replaced;
    CommitsTo(w, w, name, p);
    var u := Replaced(w, name, p);
    forall s | s in u.slots
      ensures OnlyOf(u.slots[s].entries, p.id) == Tagged(Created(p.lib, s), p.id)
              <==> Arriving(p, s) == if s in p.lib.slotDefs then [] else Created(p.lib, s)
      ensures s !in p.lib.slotDefs ==> s in w.slots && w.slots[s].owner != Some(name)
    {
      SlotRegistered(w, name, p, s);
    }
    forall s | s in p.lib.slotDefs || (s in w.slots && w.slots[s].owner != Some(name)) ensures s in u.slots {
      ReloadedSlot(w, name, p, s);
    }
    forall s, n | s in u.slots && n in w.loaded
      ensures OnlyOf(u.slots[s].entries, w.loadedMeta[n].id)
              == if s in p.lib.slotDefs || n == name then [] else Share(w, s, w.loadedMeta[n].id)
    {
      OthersShare(w, name, p, s, n);
    }
  }

  lemma OthersShare(w: World, name: string, p: Pending, s: string, n: string)
    requires WellFormed(w) && name in w.loaded && Dependents(w, name) == {} && p.id in w.held
    requires s in Replaced(w, name, p).slots && n in w.loaded
    ensures OnlyOf(Replaced(w, name, p).slots[s].entries, w.loadedMeta[n].id)
         == if s in p.lib.slotDefs || n == name then [] else Share(w, s, w.loadedMeta[n].id)
  {
    hide Without, OnlyOf, Removed, Attached, WithEntries, Created, Tagged, Replaced;
    ShareAfterReload(w, name, p, s, w.loadedMeta[n].id);
    assert w.loadedMeta[n].id in LoadedIds(w) && w.loadedMeta[n].id != p.id;
  }

  /** Whether preparing polls this slot for the new version. */
  predicate PolledAt(w: World, p: Pending, s: string) {
    s in w.slots && w.slots[s].owner != Some(p.meta.name)
  }

  /** The condition in terms of the slots when the version was prepared, in w, and when
      it is committed, in v: a slot that it defines was not polled, and every other one
      that survives was. */
  predicate NamedConsistently(w: World, v: World, name: string, p: Pending) {
    && (forall s | s in p.lib.slotDefs && |Created(p.lib, s)| > 0 :: !PolledAt(w, p, s))
    && (forall s | s in v.slots && s !in p.lib.slotDefs && v.slots[s].owner != Some(name) && |Created(p.lib, s)| > 0 ::
          PolledAt(w, p, s))
  }

  /** A version prepared in w and committed in any later world v is registered once per
      slot exactly when the names are consistent: bearing another name than the
      extension it replaces and defining a slot of it, it is registered there twice; in
      a slot attached since, not at all. */
  lemma RegisteredOnceExactly(w: World, path: string, env: Env, v: World, name: string)
    requires WellFormed(w) && env.Proper() && PrepareReload(w, path, env).1.Ok?
    requires WellFormed(v) && name in v.loaded && Dependents(v, name) == {}
    requires PrepareReload(w, path, env).1.value.id in v.held
    ensures var p := PrepareReload(w, path, env).1.value;
            OncePerSlot(CommitReload(v, v.loadedMeta[name].id, p).0, p) <==> NamedConsistently(w, v, name, p)
  {
    hide Created, WellFormed, CommitReload, OncePerSlot;
    var p := PrepareReload(w, path, env).1.value;
    assert p.entries == PolledEntries(w.slots, p.lib, p.meta.name);
    ReloadReplacesExactly(v, name, p);
    forall s ensures Arriving(p, s) == if PolledAt(w, p, s) then Created(p.lib, s) else [] {
    }
  }

  /** Committed at once under its own name, a version that takes no other's slot is
      always registered once. */
  lemma OwnNameRegistersOnce(w: World, path: string, env: Env, name: string)
    requires WellFormed(w) && env.Proper() && name in w.loaded && Dependents(w, name) == {}
    requires PrepareReload(w, path, env).1.Ok? && PrepareReload(w, path, env).1.value.meta.name == name
    requires forall s | s in PrepareReload(w, path, env).1.value.lib.slotDefs && s in w.slots ::
              w.slots[s].owner == Some(name)
    ensures var (v, p) := (PrepareReload(w, path, env).0, PrepareReload(w, path, env).1.value);
            var (u, r) := CommitReload(v, w.loadedMeta[name].id, p);
            r.Ok? && OncePerSlot(u, p)
  {
    hide Created, WellFormed, CommitReload, OncePerSlot;
    PrepareKeeps(w, path, env);
    var v, p := PrepareReload(w, path, env).0, PrepareReload(w, path, env).1.value;
    assert Dependents(v, name) == Dependents(w, name);
    InLoadedMeta(w, name);
    RegisteredOnceExactly(w, path, env, v, name);
    ReloadReplacesExactly(v, name, p);
  }

  lemma InLoadedMeta(w: World, name: string)
    requires WellFormed(w) && name in w.loaded
    ensures name in w.loadedMeta
  {
  }

  const OldVersion: Library := Library(Some(ExtensionMeta("a", 1, [], [])), None, ["s"], map[])

  const OtherName: Library :=
    Library(Some(ExtensionMeta("b", 1, [], [])), None, ["s"], map[CreateSymbol("s") := [Object(0, 0)]])

  /** A disk with both, scanned, and the first one loaded. */
  predicate BothOnDisk(env: Env) {
    env.disk == map["old" := OldVersion, "new" := OtherName] && env.directories == map["dir" := ["old", "new"]]
  }

  function Scanned(env: Env): World { Scan(Empty, ["dir"], env).0 }

  function OneLoaded(env: Env): World { Load(Scanned(env), "a", env).0 }

  lemma ScannedIs(env: Env)
    requires BothOnDisk(env)
    ensures Scan(Empty, ["dir"], env).1.Ok?
    ensures var (a, b) := (OldVersion.meta.value, OtherName.meta.value);
            Scanned(env) == Empty.(searchPaths := ["dir"], index := map["a" := ("old", a), "b" := ("new", b)])
  {
    var files, paths := ["old", "new"], ["dir"];
    assert files[1..] == ["new"] && files[1..][1..] == [] && paths[1..] == [];
    var index := FileIndexed(map[], env, "old");
    assert index == map["a" := ("old", OldVersion.meta.value)];
    var both := FileIndexed(index, env, "new");
    assert FilesIndexed(map[], env, files) == FilesIndexed(index, env, files[1..])
      == FilesIndexed(both, env, files[1..][1..]) == both;
    assert PathsIndexed(map[], env, paths) == PathsIndexed(both, env, paths[1..]) == (both, Ok(()));
  }

  lemma OneLoadedIs(env: Env)
    requires env.Proper() && BothOnDisk(env)
    ensures Load(Scanned(env), "a", env).1.Ok?
    ensures var w := OneLoaded(env);
            && WellFormed(w) && w.loading == {} && w.held == {}
            && w.slots == map["s" := Slot(Some("a"), [])]
            && w.loaded == map["a" := OldVersion] && w.loadedMeta.Keys == {"a"} && w.loadedMeta["a"].dependsOn == []
  {
    ScannedIs(env);
    var w, meta := Scanned(env), OldVersion.meta.value;
    var claimed := w.(loading := {"a"});
    EmptyIsWellFormed(w);
    OldIsClaimed(w, env);
    InstallsOld(claimed, env);
    NothingToLoad(claimed, env);
    hide *;
    var added := LoadLoads(w, "a", env);
    LoadIs(w, "a", env);
  }

  lemma EmptyIsWellFormed(w: World)
    requires w.loaded == map[] && w.loadedMeta == map[] && w.slots == map[]
    ensures WellFormed(w)
  {
  }

  lemma NothingToLoad(w: World, env: Env)
    ensures LoadAll(w, [], env) == (w, Ok(()))
  {
  }

  lemma OldIsClaimed(w: World, env: Env)
    requires "a" in w.index && w.index["a"] == ("old", OldVersion.meta.value) && w.loading == {}
    ensures Claimed(w, "a", env) == (w.(loading := {"a"}), Ok(("old", OldVersion.meta.value)))
  {
    hide FreshScan, Universe;
    var meta := OldVersion.meta.value;
    assert Indexed(w, env, "a") == w by {
      assert w.index["a" := ("old", meta)] == w.index;
    }
    assert w.loading + {"a"} == {"a"} && Checked(w.(loading := {"a"}), "a", meta) == None;
  }

  lemma InstallsOld(w: World, env: Env)
    requires BothOnDisk(env) && w.slots == map[] && w.loaded == map[] && w.loadedMeta == map[] && w.held == {}
    ensures var (u, r) := Install(w, "a", "old", OldVersion.meta.value, env);
            && r.Ok? && u.slots == map["s" := Slot(Some("a"), [])]
            && u.loaded == map["a" := OldVersion] && u.loadedMeta.Keys == {"a"} && u.loadedMeta["a"].dependsOn == []
            && u.held == {} && u.loading == w.loading
  {
    hide CreateSymbol;
    var id := env.alloc(w.clock, Live(w));
    var defs := ["s"];
    assert defs[..0] == [];
    assert Attached(w.slots, defs[..0], OldVersion, "a", id) == map[];
    assert Tagged(Created(OldVersion, "s"), id) == [];
    assert Attached(w.slots, defs, OldVersion, "a", id) == map["s" := Slot(Some("a"), [])];
  }

  /** A version named otherwise that defines the old one's slot is entered twice. */
  lemma EnteredTwice(env: Env)
    requires env.Proper() && BothOnDisk(env)
    ensures Load(Scanned(env), "a", env).1.Ok? && "a" in OneLoaded(env).loadedMeta
    ensures PrepareReload(OneLoaded(env), "new", env).1.Ok?
    ensures var w := OneLoaded(env);
            var (v, p) := (PrepareReload(w, "new", env).0, PrepareReload(w, "new", env).1.value);
            var (u, r) := CommitReload(v, w.loadedMeta["a"].id, p);
            && r.Ok? && "s" in u.slots
            && u.slots["s"].entries == [Entry(Object(0, 0), p.id), Entry(Object(0, 0), p.id)]
  {
    OneLoadedIs(env);
    hide *;
    ReloadEntersTwice(OneLoaded(env), env);
  }

  lemma ReloadEntersTwice(w: World, env: Env)
    requires env.Proper() && BothOnDisk(env) && WellFormed(w) && w.slots == map["s" := Slot(Some("a"), [])]
    requires w.loaded == map["a" := OldVersion] && w.loadedMeta.Keys == {"a"} && w.loadedMeta["a"].dependsOn == []
    ensures PrepareReload(w, "new", env).1.Ok?
    ensures var (v, p) := (PrepareReload(w, "new", env).0, PrepareReload(w, "new", env).1.value);
            var (u, r) := CommitReload(v, w.loadedMeta["a"].id, p);
            && r.Ok? && "s" in u.slots
            && u.slots["s"].entries == [Entry(Object(0, 0), p.id), Entry(Object(0, 0), p.id)]
  {
    hide Without, Removed, Attached, WithEntries, CreateSymbol, Replaced, WellFormed, CommitReload;
    assert "s" in OtherName.slotDefs by {
      assert OtherName.slotDefs[0] == "s";
    }
    PrepareKeeps(w, "new", env);
    var v, p := PrepareReload(w, "new", env).0, PrepareReload(w, "new", env).1.value;
    assert Dependents(w, "a") == {} && Dependents(v, "a") == {};
    CommitsTo(w, v, "a", p);
    ReloadedSlot(v, "a", p, "s");
    var o := [Object(0, 0)];
    assert Created(OtherName, "s") == o && p.entries["s"] == o;
    assert Tagged(o, p.id) == [Entry(Object(0, 0), p.id)];
    assert [] + Tagged(o, p.id) == Tagged(o, p.id);
  }

  lemma CommitsTo(w: World, v: World, name: string, p: Pending)
    requires WellFormed(w) && v == w.(held := v.held, inits := v.inits, clock := v.clock)
    requires name in w.loaded && Dependents(w, name) == {}
    ensures CommitReload(v, w.loadedMeta[name].id, p).0 == Replaced(v, name, p)
    ensures CommitReload(v, w.loadedMeta[name].id, p).1.Ok?
  {
    assert Dependents(v, name) == Dependents(w, name);
    assert LoadedIds(v) == LoadedIds(w);
    NameOfId(w, name);
    assert NameOf(v, w.loadedMeta[name].id) == Some(name);
  }
}
