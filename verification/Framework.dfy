/** The framework singleton: maps updated in place by every operation, and polling
    loops; crates/around-extensions/src/lib.rs. Each method computes the function
    of the same name in Extensions. */
module Framework {
  import opened Pcm
  import opened Registers
  import opened Extensions
  import opened LoadLaws
  import opened UnloadLaws

  /** A library's create function for one slot: an object, or null past the end. */
  function CreateAt(lib: Library, slot: string, index: nat): Option<Object> {
    var objects := Created(lib, slot);
    if index < |objects| then Some(objects[index]) else None
  }

  /** Calls create(0), create(1), ... until it returns null. */
  method Poll(lib: Library, slot: string) returns (objects: seq<Object>)
    ensures objects == Created(lib, slot)
  {
    objects := [];
    var index := 0;
    var entry := CreateAt(lib, slot, index);
    while entry.Some?
      invariant index <= |Created(lib, slot)| && entry == CreateAt(lib, slot, index)
      invariant objects == Created(lib, slot)[..index]
      decreases |Created(lib, slot)| - index
    {
      objects := objects + [entry.value];
      index := index + 1;
      entry := CreateAt(lib, slot, index);
    }
    assert Created(lib, slot)[..|Created(lib, slot)|] == Created(lib, slot);
  }

  lemma PolledSplit(slots: map<string, Slot>, seen: set<string>, lib: Library, owner: string, id: MetaId, s: string)
    requires s in slots
    ensures PolledSome(slots, seen + {s}, lib, owner, id)
         == PolledSome(slots, seen, lib, owner, id)[s := Polled(slots, lib, owner, id)[s]]
  {
  }

  lemma PolledSlot(slots: map<string, Slot>, seen: set<string>, lib: Library, owner: string, id: MetaId, s: string)
    requires s in slots && s !in seen
    ensures s in PolledSome(slots, seen, lib, owner, id) && PolledSome(slots, seen, lib, owner, id)[s] == slots[s]
    ensures Polled(slots, lib, owner, id)[s]
         == if slots[s].owner == Some(owner) then slots[s]
            else slots[s].(entries := slots[s].entries + Tagged(Created(lib, s), id))
    ensures PolledSome(slots, seen, lib, owner, id)[s := slots[s]] == PolledSome(slots, seen, lib, owner, id)
  {
  }

  lemma PolledNone(slots: map<string, Slot>, lib: Library, owner: string, id: MetaId)
    ensures PolledSome(slots, {}, lib, owner, id) == slots
  {
  }

  lemma PolledEvery(slots: map<string, Slot>, lib: Library, owner: string, id: MetaId)
    ensures PolledSome(slots, slots.Keys, lib, owner, id) == Polled(slots, lib, owner, id)
  {
  }

  /** Polled, for the slots seen so far. */
  ghost function PolledSome(slots: map<string, Slot>, seen: set<string>, lib: Library, owner: string,
                            id: MetaId): map<string, Slot> {
    map s | s in slots :: if s in seen then Polled(slots, lib, owner, id)[s] else slots[s]
  }

  class Framework {
    const env: Env
    var searchPaths: seq<string>
    var slotMap: map<string, Slot>
    var index: map<string, (string, ExtensionMeta)>
    var loaded: map<string, Library>
    var loadedMeta: map<string, OwnedMeta>
    var loading: set<string>
    var held: set<MetaId>
    var inits: seq<string>
    var clock: nat

    function Value(): World
      reads this
    {
      World(searchPaths, slotMap, index, loaded, loadedMeta, loading, held, inits, clock)
    }

    constructor (env: Env)
      ensures this.env == env && Value() == Empty && WellFormed(Value())
    {
      this.env := env;
      searchPaths, slotMap, index, loaded, loadedMeta := [], map[], map[], map[], map[];
      loading, held, inits, clock := {}, {}, [], 0;
    }

    /** attach_register: a host slot with its fresh register. */
    method AttachRegister(name: string)
      modifies this`slotMap
      ensures Value() == old(Value()).(slots := old(slotMap)[name := Slot(None, [])])
      ensures old(WellFormed(Value())) ==> WellFormed(Value())
    {
      slotMap := slotMap[name := Slot(None, [])];
      assert LoadedIds(Value()) == LoadedIds(old(Value()));
    }

    /** scan: stores the paths, then walks their directories. */
    method ScanPaths(paths: seq<string>) returns (r: Result<(), LoadError>)
      modifies this`searchPaths, this`index
      ensures (Value(), r) == Scan(old(Value()), paths, env)
    {
      searchPaths := paths;
      for k := 0 to |paths|
        invariant Value() == old(Value()).(searchPaths := paths, index := index)
        invariant PathsIndexed(old(index), env, paths) == PathsIndexed(index, env, paths[k..])
      {
        if paths[k] !in env.directories {
          return Err(Unreadable(paths[k]));
        }
        ScanFiles(env.directories[paths[k]]);
      }
      return Ok(());
    }

    /** The files of one directory; the first of a name stays. */
    method ScanFiles(files: seq<string>)
      modifies this`index
      ensures index == FilesIndexed(old(index), env, files)
    {
      for k := 0 to |files|
        invariant FilesIndexed(old(index), env, files) == FilesIndexed(index, env, files[k..])
      {
        var entry := MetaAt(env.disk, files[k]);
        if entry.Some? && entry.value.1.name !in index {
          index := index[entry.value.1.name := entry.value];
        }
      }
    }

    /** fresh_scan: walks the stored search paths, skipping unreadable directories, and
        indexes the first match. */
    method FreshScanInto(name: string) returns (found: bool)
      modifies this`index
      ensures match FreshScan(old(Value()), env, name)
              case None => !found && Value() == old(Value())
              case Some(entry) => found && Value() == old(Value()).(index := old(index)[name := entry])
    {
      for k := 0 to |searchPaths|
        invariant Value() == old(Value())
        invariant FreshScan(Value(), env, name) == FirstNamed(env.disk, Listed(env, searchPaths[k..]), name)
      {
        assert searchPaths[k..][1..] == searchPaths[k + 1..];
        if searchPaths[k] in env.directories {
          var files := env.directories[searchPaths[k]];
          ghost var rest := Listed(env, searchPaths[k + 1..]);
          for j := 0 to |files|
            invariant Value() == old(Value())
            invariant FreshScan(Value(), env, name) == FirstNamed(env.disk, files[j..] + rest, name)
          {
            assert (files[j..] + rest)[1..] == files[j + 1..] + rest;
            var entry := MetaAt(env.disk, files[j]);
            if entry.Some? && entry.value.1.name == name {
              index := index[name := entry.value];
              return true;
            }
          }
          assert files[|files|..] + rest == rest;
        } else {
          assert [] + Listed(env, searchPaths[k + 1..]) == Listed(env, searchPaths[k + 1..]);
        }
      }
      return false;
    }

    /** The claim, the index lookup and the checks at the head of load. */
    method Claim(name: string) returns (r: Result<(string, ExtensionMeta), LoadError>)
      modifies this`index, this`loading
      ensures (Value(), r) == Claimed(old(Value()), name, env)
    {
      loading := loading + {name};
      if name !in index {
        var found := FreshScanInto(name);
        if !found {
          return Err(NotFound(name));
        }
      }
      assert Value() == Indexed(old(Value()), env, name).(loading := old(loading) + {name});
      var meta := index[name].1;
      if meta.apiVersion != CURRENT_API_VERSION {
        return Err(ApiVersionMismatch(name, meta.apiVersion));
      }
      var missing := MissingSlot(meta.dependsOnSlots);
      if missing.Some? {
        return Err(missing.value);
      }
      return Ok(index[name]);
    }

    method MissingSlot(required: seq<string>) returns (r: Option<LoadError>)
      ensures r == FirstMissing(slotMap, required)
    {
      for k := 0 to |required|
        invariant FirstMissing(slotMap, required) == FirstMissing(slotMap, required[k..])
      {
        if required[k] !in slotMap {
          return Some(SlotNotRegistered(required[k]));
        }
      }
      return None;
    }

    /** AROUND_SLOTS: attach each defined slot and fill its register. */
    method AttachOwned(defs: seq<string>, lib: Library, owner: string, id: MetaId)
      modifies this`slotMap
      ensures slotMap == Attached(old(slotMap), defs, lib, owner, id)
    {
      for k := 0 to |defs|
        invariant slotMap == Attached(old(slotMap), defs[..k], lib, owner, id)
      {
        var objects := Poll(lib, defs[k]);
        slotMap := slotMap[defs[k] := Slot(Some(owner), Tagged(objects, id))];
        assert defs[..k + 1][..k] == defs[..k];
      }
      assert defs[..|defs|] == defs;
    }

    /** Polls the slots of others, one by one in some order. */
    method PollOthers(lib: Library, owner: string, id: MetaId)
      modifies this`slotMap
      ensures slotMap == Polled(old(slotMap), lib, owner, id)
    {
      var todo := slotMap.Keys;
      ghost var seen: set<string> := {};
      PolledNone(slotMap, lib, owner, id);
      PolledEvery(slotMap, lib, owner, id);
      hide Polled, PolledSome, Tagged, Created;
      while todo != {}
        invariant todo + seen == old(slotMap).Keys && todo !! seen
        invariant slotMap == PolledSome(old(slotMap), seen, lib, owner, id)
        decreases |todo|
      {
        var s :| s in todo;
        PolledSplit(old(slotMap), seen, lib, owner, id, s);
        PolledSlot(old(slotMap), seen, lib, owner, id, s);
        if slotMap[s].owner != Some(owner) {
          var objects := Poll(lib, s);
          slotMap := slotMap[s := slotMap[s].(entries := slotMap[s].entries + Tagged(objects, id))];
        }
        todo, seen := todo - {s}, seen + {s};
      }
    }

    /** The end of load, once the dependencies are there. */
    method InstallLibrary(name: string, path: string, meta: ExtensionMeta) returns (r: Result<(), LoadError>)
      modifies this
      ensures (Value(), r) == Install(old(Value()), name, path, meta, env)
    {
      hide Attached, Polled, FreshScan;
      if path !in env.disk {
        return Err(OpenFailed(path));
      }
      var lib := env.disk[path];
      var id := env.alloc(clock, Live(Value()));
      clock, inits := clock + 1, inits + [name];
      if lib.init.Some? && lib.init.value != 0 {
        return Err(InitFailed(name, lib.init.value));
      }
      AttachOwned(lib.slotDefs, lib, name, id);
      PollOthers(lib, name, id);
      loaded := loaded[name := lib];
      loadedMeta := loadedMeta[name := OwnedMeta(id, meta.dependsOn)];
      return Ok(());
    }

    /** load: recursive and depth first; the claim is released on every exit. */
    method LoadExtension(name: string) returns (r: Result<(), LoadError>)
      modifies this
      ensures (Value(), r) == Load(old(Value()), name, env)
      decreases |Universe(Value(), env) - loading|, 0, 0
    {
      hide Install, Claimed, Universe;
      if name in loaded {
        return Ok(());
      }
      if name in loading {
        return Err(Circular(name));
      }
      var found := Claim(name);
      if found.Err? {
        loading := loading - {name};
        return Err(found.error);
      }
      ClaimShrinks(Universe(old(Value()), env), old(loading), name);
      var deps := LoadDependencies(found.value.1.dependsOn);
      if deps.Err? {
        loading := loading - {name};
        return deps;
      }
      r := InstallLibrary(name, found.value.0, found.value.1);
      loading := loading - {name};
    }

    method LoadDependencies(names: seq<string>) returns (r: Result<(), LoadError>)
      modifies this
      ensures (Value(), r) == LoadAll(old(Value()), names, env)
      decreases |Universe(Value(), env) - loading|, 1
    {
      hide Load, Universe;
      for k := 0 to |names|
        invariant LoadAll(old(Value()), names, env) == LoadAll(Value(), names[k..], env)
        invariant loading == old(loading) && Universe(Value(), env) == Universe(old(Value()), env)
      {
        r := LoadExtension(names[k]);
        if r.Err? {
          return;
        }
      }
      return Ok(());
    }

    // --------------------------------------------------------------- unloading

    /** Whether some other loaded extension depends on the name. */
    method HasDependents(name: string) returns (found: bool)
      ensures found == (Dependents(Value(), name) != {})
    {
      var todo := loadedMeta.Keys;
      while todo != {}
        invariant todo <= loadedMeta.Keys
        invariant forall n | n in loadedMeta && n !in todo :: n !in Dependents(Value(), name)
        decreases |todo|
      {
        var n :| n in todo;
        if n != name && name in loadedMeta[n].dependsOn {
          assert n in Dependents(Value(), name);
          return true;
        }
        todo := todo - {n};
      }
      return false;
    }

    /** remove_by_meta on every register. */
    method RemoveEverywhere(id: MetaId)
      modifies this`slotMap
      ensures slotMap == map s | s in old(slotMap) :: old(slotMap)[s].(entries := Without(old(slotMap)[s].entries, id))
    {
      var todo := slotMap.Keys;
      while todo != {}
        invariant todo <= slotMap.Keys == old(slotMap).Keys
        invariant forall s | s in todo :: slotMap[s] == old(slotMap)[s]
        invariant forall s | s in slotMap && s !in todo ::
                    slotMap[s] == old(slotMap)[s].(entries := Without(old(slotMap)[s].entries, id))
        decreases |todo|
      {
        var s :| s in todo;
        slotMap := slotMap[s := slotMap[s].(entries := Without(slotMap[s].entries, id))];
        todo := todo - {s};
      }
    }

    /** remove_owned_slots: retain over the slot map. */
    method RemoveOwnedSlots(owner: string)
      modifies this`slotMap
      ensures slotMap == map s | s in old(slotMap) && old(slotMap)[s].owner != Some(owner) :: old(slotMap)[s]
    {
      var todo := slotMap.Keys;
      while todo != {}
        invariant todo <= slotMap.Keys <= old(slotMap).Keys
        invariant forall s | s in slotMap :: slotMap[s] == old(slotMap)[s]
        invariant forall s | s in old(slotMap) && s !in todo :: s in slotMap <==> old(slotMap)[s].owner != Some(owner)
        decreases |todo|
      {
        var s :| s in todo;
        if slotMap[s].owner == Some(owner) {
          slotMap := slotMap - {s};
        }
        todo := todo - {s};
      }
    }

    method UnloadExtension(name: string) returns (r: Result<(), LoadError>)
      requires loaded.Keys == loadedMeta.Keys
      modifies this
      ensures (Value(), r) == Unload(old(Value()), name)
    {
      var refused := HasDependents(name);
      if refused {
        return Err(DependentsRemain(name));
      }
      if name !in loadedMeta {
        return Err(NotFound(name));
      }
      var id := loadedMeta[name].id;
      loadedMeta := loadedMeta - {name};
      RemoveEverywhere(id);
      RemoveOwnedSlots(name);
      loaded := loaded - {name};
      assert slotMap == Removed(old(slotMap), name, id);
      return Ok(());
    }

    // --------------------------------------------------------------- reloading

    /** The entries a library creates for the slots its name does not own. */
    method PollEntries(lib: Library, name: string) returns (entries: map<string, seq<Object>>)
      ensures entries == PolledEntries(slotMap, lib, name)
    {
      entries := map[];
      var todo := slotMap.Keys;
      while todo != {}
        invariant todo <= slotMap.Keys
        invariant forall s ::
                    s in entries
                    <==> s in slotMap && s !in todo && slotMap[s].owner != Some(name) && |Created(lib, s)| > 0
        invariant forall s | s in entries :: entries[s] == Created(lib, s)
        decreases |todo|
      {
        var s :| s in todo;
        if slotMap[s].owner != Some(name) {
          var objects := Poll(lib, s);
          if |objects| > 0 {
            entries := entries[s := objects];
          }
        }
        todo := todo - {s};
      }
    }

    method Prepare(path: string) returns (r: Result<Pending, LoadError>)
      modifies this`clock, this`inits, this`held
      ensures (Value(), r) == PrepareReload(old(Value()), path, env)
    {
      hide PolledEntries;
      if path !in env.disk {
        return Err(OpenFailed(path));
      }
      var lib := env.disk[path];
      if lib.meta.None? {
        return Err(NoMetadata(path));
      }
      var meta, id := lib.meta.value, env.alloc(clock, Live(Value()));
      var entries := PollEntries(lib, meta.name);
      clock, inits := clock + 1, inits + [meta.name];
      if lib.init.Some? && lib.init.value != 0 {
        return Err(InitFailed(meta.name, lib.init.value));
      }
      held := held + {id};
      return Ok(Pending(lib, meta, id, entries));
    }

    /** The name under which this id is loaded, searched pointer by pointer. */
    method FindName(id: MetaId) returns (name: Option<string>)
      requires DistinctIds(Value())
      ensures name == NameOf(Value(), id)
    {
      var todo := loadedMeta.Keys;
      while todo != {}
        invariant todo <= loadedMeta.Keys
        invariant forall n | n in loadedMeta && n !in todo :: loadedMeta[n].id != id
        decreases |todo|
      {
        var n :| n in todo;
        if loadedMeta[n].id == id {
          NameOfId(Value(), n);
          return Some(n);
        }
        todo := todo - {n};
      }
      return None;
    }

    /** Pushes the prepared entries into the slots that still exist. */
    method PushPrepared(entries: map<string, seq<Object>>, id: MetaId)
      modifies this`slotMap
      ensures slotMap == WithEntries(old(slotMap), entries, id)
    {
      var todo := entries.Keys;
      while todo != {}
        invariant todo <= entries.Keys && slotMap.Keys == old(slotMap).Keys
        invariant forall s | s in slotMap ::
                    slotMap[s] == if s in entries && s !in todo
                                  then old(slotMap)[s].(entries := old(slotMap)[s].entries + Tagged(entries[s], id))
                                  else old(slotMap)[s]
        decreases |todo|
      {
        var s :| s in todo;
        if s in slotMap {
          slotMap := slotMap[s := slotMap[s].(entries := slotMap[s].entries + Tagged(entries[s], id))];
        }
        todo := todo - {s};
      }
    }

    method Commit(oldId: MetaId, p: Pending) returns (r: Result<(), LoadError>)
      requires WellFormed(Value())
      modifies this
      ensures (Value(), r) == CommitReload(old(Value()), oldId, p)
    {
      hide Attached, WithEntries, Clean, Closed, Removed;
      held := held - {p.id};
      var found := FindName(oldId);
      assert found == NameOf(old(Value()), oldId);
      if found.None? {
        return Err(NotFound("meta pointer"));
      }
      var name := found.value;
      var refused := HasDependents(name);
      assert Dependents(Value(), name) == Dependents(old(Value()), name);
      if refused {
        return Err(DependentsRemain(name));
      }
      assert Dropped(Value(), name) == Dropped(old(Value()), name).(held := held);
      Replace(name, oldId, p);
      return Ok(());
    }

    /** The point of no return: the old version out, the new one in. */
    method Replace(name: string, oldId: MetaId, p: Pending)
      requires name in loadedMeta && loadedMeta[name].id == oldId && held == held - {p.id}
      modifies this
      ensures Value() == Replaced(old(Value()), name, p)
    {
      hide Attached, WithEntries, Without;
      loadedMeta, loaded := loadedMeta - {name}, loaded - {name};
      RemoveEverywhere(oldId);
      RemoveOwnedSlots(name);
      assert slotMap == Removed(old(slotMap), name, oldId);
      AttachOwned(p.lib.slotDefs, p.lib, name, p.id);
      PushPrepared(p.entries, p.id);
      loaded := loaded[name := p.lib];
      loadedMeta := loadedMeta[name := OwnedMeta(p.id, p.meta.dependsOn)];
    }

    method ReloadExtension(name: string, path: string) returns (r: Result<(), LoadError>)
      requires WellFormed(Value()) && env.Proper()
      modifies this
      ensures (Value(), r) == Reload(old(Value()), name, path, env)
    {
      hide WellFormed, CommitReload, PrepareReload;
      if name !in loadedMeta {
        return Err(NotFound(name));
      }
      var oldId := loadedMeta[name].id;
      PrepareKeeps(Value(), path, env);
      var pending := Prepare(path);
      if pending.Err? {
        return Err(pending.error);
      }
      r := Commit(oldId, pending.value);
    }
  }
}
