/** What the framework answers when it refuses, and what it has done by then:
    crates/around-extensions/src/lib.rs:755-1262. */
module AnswerLaws {
  import opened Pcm
  import opened Registers
  import opened Extensions
  import opened LoadLaws
  import opened ScanLaws
  import opened UnloadLaws

  /** The first of these slots that is not registered. */
  predicate FirstAbsent(slots: map<string, Slot>, required: seq<string>, i: nat) {
    i < |required| && required[i] !in slots && forall j | 0 <= j < i :: required[j] in slots
  }

  lemma {:induction false} FirstMissingIs(slots: map<string, Slot>, required: seq<string>, i: nat)
    requires FirstAbsent(slots, required, i)
    ensures FirstMissing(slots, required) == Some(SlotNotRegistered(required[i]))
  {
    if i > 0 {
      assert FirstAbsent(slots, required[1..], i - 1);
      FirstMissingIs(slots, required[1..], i - 1);
    }
  }

  /** A load of what is loaded changes nothing; one under way is circular; then the name
      must resolve, to the current version, with its slots registered, the first absent
      one being named. */
  lemma {:induction false} LoadRefusals(w: World, name: string, env: Env)
    ensures name in w.loaded ==> Load(w, name, env) == (w, Ok(()))
    ensures name !in w.loaded && name in w.loading ==> Load(w, name, env) == (w, Err(Circular(name)))
    ensures name !in w.loaded && name !in w.loading && Found(w, env, name).None? ==>
              Load(w, name, env).1 == Err(NotFound(name))
    ensures name !in w.loaded && name !in w.loading && Found(w, env, name).Some? ==>
              var meta := Found(w, env, name).value.1;
              && (meta.apiVersion != 1 ==> Load(w, name, env).1 == Err(ApiVersionMismatch(name, meta.apiVersion)))
              && (meta.apiVersion == 1 ==>
                    forall i: nat | FirstAbsent(w.slots, meta.dependsOnSlots, i) ::
                      Load(w, name, env).1 == Err(SlotNotRegistered(meta.dependsOnSlots[i])))
  {
    hide FreshScan, Install, LoadAll, FirstMissing, Universe;
    if name !in w.loaded && name !in w.loading && Found(w, env, name).Some? {
      var meta := Found(w, env, name).value.1;
      forall i: nat | meta.apiVersion == 1 && FirstAbsent(w.slots, meta.dependsOnSlots, i)
        ensures Load(w, name, env).1 == Err(SlotNotRegistered(meta.dependsOnSlots[i]))
      {
        FirstMissingIs(w.slots, meta.dependsOnSlots, i);
      }
    }
  }

  /** A dependency's refusal is the load's; the dependencies after it are not tried. */
  lemma {:induction false} DependencyRefusals(w: World, names: seq<string>, env: Env, k: nat)
    requires k < |names| && LoadAll(w, names[..k], env).1.Ok?
    ensures var (v, r) := Load(LoadAll(w, names[..k], env).0, names[k], env);
            r.Err? ==> LoadAll(w, names, env) == (v, r)
    decreases k
  {
    hide Load;
    if k > 0 {
      assert names[..k][1..] == names[1..][..k - 1];
      DependencyRefusals(Load(w, names[0], env).0, names[1..], env, k - 1);
    }
  }

  lemma DependencyStops(w: World, name: string, env: Env)
    requires name !in w.loaded && name !in w.loading && Claimed(w, name, env).1.Ok?
    ensures var (c, found) := Claimed(w, name, env);
            var (v, deps) := LoadAll(c, found.value.1.dependsOn, env);
            && (deps.Err? ==> Load(w, name, env) == (Released(v, name), Err(deps.error)))
            && (deps.Ok? ==>
                  Load(w, name, env).1 == Install(v, name, found.value.0, found.value.1, env).1)
  {
    LoadIs(w, name, env);
  }

  /** With its dependencies loaded an extension fails to open with nothing changed, or to
      initialise with its code, registering nothing. */
  lemma InstallRefusals(w: World, name: string, path: string, meta: ExtensionMeta, env: Env)
    ensures path !in env.disk ==> Install(w, name, path, meta, env) == (w, Err(OpenFailed(path)))
    ensures path in env.disk && env.disk[path].init.Some? && env.disk[path].init.value != 0 ==>
              var (u, r) := Install(w, name, path, meta, env);
              && r == Err(InitFailed(name, env.disk[path].init.value)) && u.inits == w.inits + [name]
              && u.slots == w.slots && u.loaded == w.loaded && u.loadedMeta == w.loadedMeta
    ensures path in env.disk && (env.disk[path].init.None? || env.disk[path].init.value == 0) ==>
              var (u, r) := Install(w, name, path, meta, env);
              && r.Ok? && u.inits == w.inits + [name]
              && u.loaded == w.loaded[name := env.disk[path]] && name in u.loadedMeta
              && u.loadedMeta[name].dependsOn == meta.dependsOn
  {
    hide Attached, Polled;
  }

  /** Unload names a remaining dependent's dependency before it looks for the name. */
  lemma UnloadRefusals(w: World, name: string)
    requires w.loaded.Keys == w.loadedMeta.Keys
    ensures !Undepended(w, name) ==> Unload(w, name) == (w, Err(DependentsRemain(name)))
    ensures Undepended(w, name) && name !in w.loaded ==> Unload(w, name) == (w, Err(NotFound(name)))
  {
    if !Undepended(w, name) {
      var n :| n in w.loadedMeta && n != name && name in w.loadedMeta[n].dependsOn;
      assert n in Dependents(w, name);
    } else {
      assert Dependents(w, name) == {};
    }
  }

  /** Preparing fails to open, to find metadata, or to initialise, each with its reason;
      otherwise the version is as the disk has it, with what it creates for every slot that
      its own name does not own. */
  lemma PrepareAnswers(w: World, path: string, env: Env)
    ensures path !in env.disk ==> PrepareReload(w, path, env) == (w, Err(OpenFailed(path)))
    ensures path in env.disk && env.disk[path].meta.None? ==> PrepareReload(w, path, env) == (w, Err(NoMetadata(path)))
    ensures path in env.disk && env.disk[path].meta.Some? ==>
              var lib := env.disk[path];
              var (u, r) := PrepareReload(w, path, env);
              && u.inits == w.inits + [lib.meta.value.name]
              && (if lib.init.Some? && lib.init.value != 0
                  then r == Err(InitFailed(lib.meta.value.name, lib.init.value)) && u.held == w.held
                  else
                    && r.Ok? && r.value.lib == lib && r.value.meta == lib.meta.value
                    && u.held == w.held + {r.value.id}
                    && (forall s | s in r.value.entries ::
                          s in w.slots && w.slots[s].owner != Some(lib.meta.value.name)
                          && r.value.entries[s] == Created(lib, s) != [])
                    && (forall s | s in w.slots && w.slots[s].owner != Some(lib.meta.value.name)
                                   && Created(lib, s) != [] :: s in r.value.entries))
  {
    hide Created;
  }

  /** Why a commit is refused: nobody has that address, or somebody depends on whoever
      has. */
  lemma CommitRefusals(w: World, oldId: MetaId, p: Pending)
    requires WellFormed(w)
    ensures (forall n | n in w.loadedMeta :: w.loadedMeta[n].id != oldId) ==>
              CommitReload(w, oldId, p) == (w.(held := w.held - {p.id}), Err(NotFound("meta pointer")))
    ensures forall n | n in w.loadedMeta && w.loadedMeta[n].id == oldId && !Undepended(w, n) ::
              CommitReload(w, oldId, p) == (w.(held := w.held - {p.id}), Err(DependentsRemain(n)))
  {
    hide Replaced;
    forall n | n in w.loadedMeta && w.loadedMeta[n].id == oldId && !Undepended(w, n)
      ensures CommitReload(w, oldId, p) == (w.(held := w.held - {p.id}), Err(DependentsRemain(n)))
    {
      NameOfId(w, n);
      var m :| m in w.loadedMeta && m != n && n in w.loadedMeta[m].dependsOn;
      assert m in Dependents(w, n);
    }
  }
}
