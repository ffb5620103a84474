/** Whole runs of the framework: any sequence of scans, host slots, loads, unloads,
    preparations, commits and reloads, from the empty framework, over a disk that may
    change before each of them. */
module FrameworkRuns {
  import opened Pcm
  import opened Registers
  import opened Extensions
  import opened LoadLaws
  import opened UnloadLaws

  /** What may be called. A pending version is committed or dropped by whoever holds it,
      any number of operations after its preparation. */
  datatype Op =
    | ScanAll(paths: seq<string>)
    | AttachSlot(slot: string)
    | LoadOne(name: string)
    | UnloadOne(name: string)
    | PrepareOne(path: string)
    | CommitOne(oldId: MetaId, pending: Pending)
    | DropOne(pending: Pending)
    | ReloadOne(name: string, path: string)

  /** An operation with the disk and allocator it meets. */
  datatype Call = Call(op: Op, env: Env)

  /** The framework and the prepared versions its callers hold. */
  datatype Standing = Standing(world: World, pendings: set<Pending>)

  const Nothing := Standing(Empty, {})

  ghost function Done(s: Standing, c: Call): Standing
    requires s.world.loaded.Keys == s.world.loadedMeta.Keys
  {
    match c.op
    case ScanAll(paths) => s.(world := Scan(s.world, paths, c.env).0)
    case AttachSlot(slot) => s.(world := s.world.(slots := s.world.slots[slot := Slot(None, [])]))
    case LoadOne(name) => s.(world := Load(s.world, name, c.env).0)
    case UnloadOne(name) => s.(world := Unload(s.world, name).0)
    case PrepareOne(path) =>
      var (w, p) := PrepareReload(s.world, path, c.env);
      Standing(w, if p.Ok? then s.pendings + {p.value} else s.pendings)
    case CommitOne(oldId, p) => Standing(CommitReload(s.world, oldId, p).0, s.pendings - {p})
    case DropOne(p) => Standing(s.world.(held := s.world.held - {p.id}), s.pendings - {p})
    case ReloadOne(name, path) => s.(world := Reload(s.world, name, path, c.env).0)
  }

  /** A committed or dropped version is one somebody holds, and a version that gets in
      finds its dependencies loaded: the one thing the code leaves to its callers. */
  ghost predicate Allowed(s: Standing, c: Call) {
    && c.env.Proper()
    && (c.op.CommitOne? ==> c.op.pending in s.pendings
                            && (CommitReload(s.world, c.op.oldId, c.op.pending).1.Ok? ==>
                                  Prudent(s.world, c.op.pending.meta)))
    && (c.op.DropOne? ==> c.op.pending in s.pendings)
    && (c.op.ReloadOne? && Reload(s.world, c.op.name, c.op.path, c.env).1.Ok? ==>
          Prudent(s.world, c.env.disk[c.op.path].meta.value))
  }

  ghost predicate Prudent(w: World, meta: ExtensionMeta) {
    forall d | d in meta.dependsOn :: d in w.loaded
  }

  /** The framework invariant, with every pending version's address its own and held. */
  ghost predicate Sound(s: Standing) {
    && WellFormed(s.world) && s.world.loading == {}
    && (forall p | p in s.pendings :: p.id in s.world.held)
    && (forall p, q | p in s.pendings && q in s.pendings && p.id == q.id :: p == q)
  }

  lemma StepKeeps(s: Standing, c: Call)
    requires Sound(s) && Allowed(s, c)
    ensures Sound(Done(s, c))
  {
    hide Scan, Load, Unload, Reload, PrepareReload, CommitReload, WellFormed;
    assert s.world.loaded.Keys == s.world.loadedMeta.Keys by {
      SameKeys(s.world);
    }
    match c.op
    case ScanAll(paths) => ScanKeeps(s.world, paths, c.env);
    case AttachSlot(slot) => AttachKeeps(s.world, slot);
    case LoadOne(name) =>
      var added := LoadLoads(s.world, name, c.env);
      LoadsKept(s.world, Load(s.world, name, c.env).0, c.env, added, Load(s.world, name, c.env).1.Ok?);
    case UnloadOne(name) => UnloadKeeps(s.world, name);
    case PrepareOne(path) =>
      PrepareKeeps(s.world, path, c.env);
      HeldIsLive(s.world);
      var (w, p) := PrepareReload(s.world, path, c.env);
      if p.Ok? {
        assert forall q | q in s.pendings :: q.id in s.world.held && q.id != p.value.id;
      }
      assert Done(s, c) == Standing(w, if p.Ok? then s.pendings + {p.value} else s.pendings);
    case CommitOne(oldId, p) => CommitKeeps(s.world, oldId, p);
    case DropOne(p) => GiveUp(s.world, p.id);
    case ReloadOne(name, path) => ReloadKeeps(s.world, name, path, c.env);
  }

  lemma SameKeys(w: World)
    requires WellFormed(w)
    ensures w.loaded.Keys == w.loadedMeta.Keys
  {
  }

  lemma HeldIsLive(w: World)
    ensures w.held <= Live(w)
  {
  }

  lemma ScanKeeps(w: World, paths: seq<string>, env: Env)
    requires WellFormed(w)
    ensures var u := Scan(w, paths, env).0; WellFormed(u) && u.loading == w.loading && u.held == w.held
  {
    assert LoadedIds(Scan(w, paths, env).0) == LoadedIds(w);
  }

  lemma AttachKeeps(w: World, slot: string)
    requires WellFormed(w)
    ensures WellFormed(w.(slots := w.slots[slot := Slot(None, [])]))
  {
    assert LoadedIds(w.(slots := w.slots[slot := Slot(None, [])])) == LoadedIds(w);
  }

  lemma UnloadKeeps(w: World, name: string)
    requires WellFormed(w)
    ensures var u := Unload(w, name).0; WellFormed(u) && u.loading == w.loading && u.held == w.held
  {
    UnloadKeepsWellFormed(w, name);
  }

  lemma CommitKeeps(w: World, oldId: MetaId, p: Pending)
    requires WellFormed(w) && p.id in w.held
    requires CommitReload(w, oldId, p).1.Ok? ==> Prudent(w, p.meta)
    ensures var u := CommitReload(w, oldId, p).0;
            WellFormed(u) && u.loading == w.loading && u.held == w.held - {p.id}
  {
    hide Replaced;
    GiveUp(w, p.id);
    var name := NameOf(w, oldId);
    if name.Some? && Dependents(w, name.value) == {} {
      ReloadKeepsWellFormed(w, name.value, p);
      ReplacedKeeps(w, name.value, p);
    }
  }

  /** Giving a prepared version up frees its id only. */
  lemma GiveUp(w: World, id: MetaId)
    requires WellFormed(w)
    ensures WellFormed(w.(held := w.held - {id}))
  {
    assert LoadedIds(w.(held := w.held - {id})) == LoadedIds(w);
  }

  lemma ReplacedKeeps(w: World, name: string, p: Pending)
    requires name in w.loadedMeta
    ensures Replaced(w, name, p).loading == w.loading && Replaced(w, name, p).held == w.held - {p.id}
  {
  }

  lemma ReloadKeeps(w: World, name: string, path: string, env: Env)
    requires WellFormed(w) && env.Proper()
    requires Reload(w, name, path, env).1.Ok? ==> Prudent(w, env.disk[path].meta.value)
    ensures var u := Reload(w, name, path, env).0; WellFormed(u) && u.loading == w.loading && u.held == w.held
  {
    hide WellFormed, CommitReload;
    if name in w.loadedMeta {
      PrepareKeeps(w, path, env);
      HeldIsLive(w);
      var (v, p) := PrepareReload(w, path, env);
      if p.Ok? {
        CommitKeeps(v, w.loadedMeta[name].id, p.value);
        assert w.held + {p.value.id} - {p.value.id} == w.held;
      }
    }
  }

  /** The standings a run goes through. */
  ghost predicate Reaches(calls: seq<Call>, s: Standing)
    decreases |calls|
  {
    if |calls| == 0 then s == Nothing
    else
      var n := |calls| - 1;
      exists before ::
        Reaches(calls[..n], before) && before.world.loaded.Keys == before.world.loadedMeta.Keys
        && Allowed(before, calls[n]) && s == Done(before, calls[n])
  }

  ghost predicate OfLoaded(w: World, e: Entry) {
    exists n :: n in w.loaded && n in w.loadedMeta && w.loadedMeta[n].id == e.meta
  }

  ghost predicate AllOfLoaded(w: World, entries: seq<Entry>) {
    forall e | e in entries :: OfLoaded(w, e)
  }

  /** In every run, over any changes of the disk: the loaded set is closed under
      dependencies, no register entry carries the address of an extension that is not
      loaded, owned slots belong to loaded extensions, every pending version still
      holds an address of its own, and no claim is left behind. */
  lemma {:induction false} EveryRunSound(calls: seq<Call>, s: Standing)
    requires Reaches(calls, s)
    ensures Sound(s)
    ensures forall n, d | n in s.world.loaded && d in s.world.loadedMeta[n].dependsOn :: d in s.world.loaded
    ensures forall slot | slot in s.world.slots :: AllOfLoaded(s.world, s.world.slots[slot].entries)
    decreases |calls|
  {
    hide Done, Allowed, WellFormed;
    if |calls| == 0 {
      NothingSound();
    } else {
      var n := |calls| - 1;
      var before :| Reaches(calls[..n], before) && before.world.loaded.Keys == before.world.loadedMeta.Keys
                    && Allowed(before, calls[n]) && s == Done(before, calls[n]);
      EveryRunSound(calls[..n], before);
      StepKeeps(before, calls[n]);
    }
    SoundMeans(s.world);
  }

  lemma NothingSound()
    ensures Sound(Nothing)
  {
  }

  lemma SoundMeans(w: World)
    requires WellFormed(w)
    ensures w.loaded.Keys == w.loadedMeta.Keys
    ensures forall n, d | n in w.loaded && d in w.loadedMeta[n].dependsOn :: d in w.loaded
    ensures forall slot | slot in w.slots :: AllOfLoaded(w, w.slots[slot].entries)
  {
    forall slot | slot in w.slots ensures AllOfLoaded(w, w.slots[slot].entries) {
      forall e | e in w.slots[slot].entries ensures OfLoaded(w, e) {
        assert e.meta in LoadedIds(w);
      }
    }
  }

  lemma ReachesThen(calls: seq<Call>, s: Standing, c: Call, u: Standing)
    requires Reaches(calls, s) && s.world.loaded.Keys == s.world.loadedMeta.Keys && Allowed(s, c) && u == Done(s, c)
    ensures Reaches(calls + [c], u)
  {
    hide Done, Allowed;
    assert (calls + [c])[..|calls|] == calls;
  }

  /** One scan and one load, from the start. */
  lemma RunLoads(paths: seq<string>, name: string, env: Env) returns (calls: seq<Call>)
    requires env.Proper()
    ensures Reaches(calls, Standing(Load(Scan(Empty, paths, env).0, name, env).0, {}))
  {
    hide Load, Scan, Reaches;
    var scan, load := Call(ScanAll(paths), env), Call(LoadOne(name), env);
    var scanned := Standing(Scan(Empty, paths, env).0, {});
    ReachesNothing();
    assert Allowed(Nothing, scan) && Done(Nothing, scan) == scanned;
    assert scanned.world.loaded.Keys == scanned.world.loadedMeta.Keys by {
      ScanKeepsLoaded(Empty, paths, env);
    }
    assert Allowed(scanned, load) && Done(scanned, load) == Standing(Load(scanned.world, name, env).0, {});
    hide Done, Allowed;
    ReachesThen([], Nothing, scan, scanned);
    ReachesThen([] + [scan], scanned, load, Standing(Load(scanned.world, name, env).0, {}));
    calls := [] + [scan] + [load];
  }

  lemma ScanKeepsLoaded(w: World, paths: seq<string>, env: Env)
    ensures Scan(w, paths, env).0.loaded == w.loaded && Scan(w, paths, env).0.loadedMeta == w.loadedMeta
  {
  }

  /** A preparation and its commit. */
  lemma RunReloads(w: World, calls: seq<Call>, path: string, env: Env, id: MetaId) returns (more: seq<Call>)
    requires Reaches(calls, Standing(w, {})) && WellFormed(w) && env.Proper() && PrepareReload(w, path, env).1.Ok?
    requires PrepareReload(w, path, env).1.value.meta.dependsOn == []
    ensures var (v, p) := PrepareReload(w, path, env);
            Reaches(more, Standing(CommitReload(v, id, p.value).0, {}))
  {
    var v, p := PrepareReload(w, path, env).0, PrepareReload(w, path, env).1.value;
    PrepareKeeps(w, path, env);
    SameKeys(w);
    SameKeys(v);
    hide PrepareReload, CommitReload, WellFormed, Reaches;
    var prepare, commit := Call(PrepareOne(path), env), Call(CommitOne(id, p), env);
    var prepared := Standing(v, {p});
    assert Allowed(Standing(w, {}), prepare) && Done(Standing(w, {}), prepare) == prepared;
    CommitAllowed(prepared, commit);
    hide Done, Allowed;
    ReachesThen(calls, Standing(w, {}), prepare, prepared);
    ReachesThen(calls + [prepare], prepared, commit, Standing(CommitReload(v, id, p).0, {}));
    more := calls + [prepare] + [commit];
  }

  /** A held version without dependencies may always be committed. */
  lemma CommitAllowed(s: Standing, c: Call)
    requires c.op.CommitOne? && c.env.Proper() && s.pendings == {c.op.pending} && c.op.pending.meta.dependsOn == []
    requires s.world.loaded.Keys == s.world.loadedMeta.Keys
    ensures Allowed(s, c) && Done(s, c) == Standing(CommitReload(s.world, c.op.oldId, c.op.pending).0, {})
  {
    hide CommitReload;
    assert s.pendings - {c.op.pending} == {};
  }

  /** A run, allowed throughout, that leaves one object registered twice. */
  lemma RunEntersTwice(env: Env) returns (calls: seq<Call>, s: Standing)
    requires env.Proper() && BothOnDisk(env)
    ensures Reaches(calls, s)
    ensures "s" in s.world.slots && |s.world.slots["s"].entries| == 2
            && s.world.slots["s"].entries[0] == s.world.slots["s"].entries[1]
  {
    EnteredTwice(env);
    OneLoadedIs(env);
    var w := OneLoaded(env);
    var (v, p) := PrepareReload(w, "new", env);
    assert p.value.meta.dependsOn == [] by {
      PreparedMeta(w, "new", env);
    }
    calls := RunLoads(["dir"], "a", env);
    hide *;
    calls := RunReloads(w, calls, "new", env, w.loadedMeta["a"].id);
    s := Standing(CommitReload(v, w.loadedMeta["a"].id, p.value).0, {});
  }

  lemma ReachesNothing()
    ensures Reaches([], Nothing)
  {
  }

  lemma PreparedMeta(w: World, path: string, env: Env)
    requires PrepareReload(w, path, env).1.Ok?
    ensures path in env.disk && env.disk[path].meta == Some(PrepareReload(w, path, env).1.value.meta)
  {
  }
}
