/** The extension framework's state and its scan, load, unload and reload:
    crates/around-extensions/src/lib.rs. */
module Extensions {
  import opened Pcm
  import opened Registers

  const CURRENT_API_VERSION: U32 := 1

  datatype ExtensionMeta = ExtensionMeta(name: string, apiVersion: U32, dependsOn: seq<string>,
    dependsOnSlots: seq<string>)

  /** A shared library: its exported metadata, what around_init returns if it is
      exported, the slots it defines, and what each create symbol yields before the
      first null. */
  datatype Library = Library(
    meta: Option<ExtensionMeta>, init: Option<int>, slotDefs: seq<string>, creates: map<string, seq<Object>>)

  /** A register slot: who owns it, none for the host's, and its entries. */
  datatype Slot = Slot(owner: Option<string>, entries: seq<Entry>)

  /** A loaded extension's heap metadata. */
  datatype OwnedMeta = OwnedMeta(id: MetaId, dependsOn: seq<string>)

  datatype World = World(
    searchPaths: seq<string>,
    slots: map<string, Slot>,
    index: map<string, (string, ExtensionMeta)>,
    loaded: map<string, Library>,
    loadedMeta: map<string, OwnedMeta>,
    loading: set<string>,
    held: set<MetaId>,
    inits: seq<string>,
    clock: nat)

  const Empty: World := World([], map[], map[], map[], map[], {}, {}, [], 0)

  /** The libraries that open, the readable directories with the order in which they
      list their library files, and the heap allocator. */
  datatype Env = Env(disk: map<string, Library>, directories: map<string, seq<string>>,
    alloc: (nat, set<MetaId>) -> MetaId)
  {
    /** Addresses in use are not handed out; freed ones may be. */
    ghost predicate Proper() {
      forall clock: nat, live: set<MetaId> :: alloc(clock, live) !in live
    }
  }

  datatype LoadError =
    | Circular(name: string)
    | NotFound(name: string)
    | ApiVersionMismatch(name: string, got: U32)
    | SlotNotRegistered(slot: string)
    | OpenFailed(path: string)
    | InitFailed(name: string, code: int)
    | DependentsRemain(name: string)
    | NoMetadata(path: string)
    | Unreadable(path: string)

  // ------------------------------------------------------------ create symbols

  function Lower(c: char): char {
    if 'A' <= c <= 'Z' then c - 'A' + 'a' else c
  }

  /** The create symbol of a slot: lower case, "::" as "_", then "_create". */
  function CreateSymbol(slot: string): string {
    Flattened(slot) + "_create"
  }

  function Flattened(slot: string): string {
    if |slot| == 0 then ""
    else if |slot| >= 2 && slot[0] == ':' && slot[1] == ':' then "_" + Flattened(slot[2..])
    else [Lower(slot[0])] + Flattened(slot[1..])
  }

  /** The objects a library creates for a slot, polled until null. */
  function Created(lib: Library, slot: string): seq<Object> {
    var symbol := CreateSymbol(slot);
    if symbol in lib.creates then lib.creates[symbol] else []
  }

  // ----------------------------------------------------------------- resolving

  /** What a library file says it is: its path and exported metadata, if it opens. */
  function MetaAt(disk: map<string, Library>, path: string): Option<(string, ExtensionMeta)> {
    if path in disk && disk[path].meta.Some? then Some((path, disk[path].meta.value)) else None
  }

  /** The first of these files whose metadata bears the name. */
  function FirstNamed(disk: map<string, Library>, files: seq<string>, name: string)
    : (r: Option<(string, ExtensionMeta)>)
    ensures r.Some? ==> r.value.0 in disk && disk[r.value.0].meta == Some(r.value.1) && r.value.1.name == name
  {
    if |files| == 0 then None
    else
      var first := MetaAt(disk, files[0]);
      if first.Some? && first.value.1.name == name then first else FirstNamed(disk, files[1..], name)
  }

  /** The library files in the readable ones of these directories, in order. */
  function Listed(env: Env, paths: seq<string>): seq<string> {
    if |paths| == 0 then []
    else (if paths[0] in env.directories then env.directories[paths[0]] else []) + Listed(env, paths[1..])
  }

  /** fresh_scan: the first library with the name in the stored search paths. */
  function FreshScan(w: World, env: Env, name: string): (r: Option<(string, ExtensionMeta)>)
    ensures r.Some? ==> name in OnDisk(env) && r.value.1.name == name
  {
    FirstNamed(env.disk, Listed(env, w.searchPaths), name)
  }

  function Found(w: World, env: Env, name: string): Option<(string, ExtensionMeta)> {
    if name in w.index then Some(w.index[name]) else FreshScan(w, env, name)
  }

  // ------------------------------------------------------------------ scanning

  /** One file of a scan: a name is indexed once, and stays as it was first found. */
  function FileIndexed(index: map<string, (string, ExtensionMeta)>, env: Env, path: string)
    : map<string, (string, ExtensionMeta)> {
    match MetaAt(env.disk, path)
    case None => index
    case Some(entry) => if entry.1.name in index then index else index[entry.1.name := entry]
  }

  function FilesIndexed(index: map<string, (string, ExtensionMeta)>, env: Env, files: seq<string>)
    : map<string, (string, ExtensionMeta)>
    decreases |files|
  {
    if |files| == 0 then index else FilesIndexed(FileIndexed(index, env, files[0]), env, files[1..])
  }

  /** Directory by directory; an unreadable one ends the scan. */
  function PathsIndexed(index: map<string, (string, ExtensionMeta)>, env: Env, paths: seq<string>)
    : (map<string, (string, ExtensionMeta)>, Result<(), LoadError>)
    decreases |paths|
  {
    if |paths| == 0 then (index, Ok(()))
    else if paths[0] !in env.directories then (index, Err(Unreadable(paths[0])))
    else PathsIndexed(FilesIndexed(index, env, env.directories[paths[0]]), env, paths[1..])
  }

  /** scan: stores the search paths and fills the index from them. */
  function Scan(w: World, paths: seq<string>, env: Env): (World, Result<(), LoadError>) {
    var (index, r) := PathsIndexed(w.index, env, paths);
    (w.(searchPaths := paths, index := index), r)
  }

  /** The index after resolving a name. */
  function Indexed(w: World, env: Env, name: string): World {
    match Found(w, env, name)
    case Some(entry) => w.(index := w.index[name := entry])
    case None => w
  }

  function OnDisk(env: Env): set<string> {
    set path | path in env.disk && env.disk[path].meta.Some? :: env.disk[path].meta.value.name
  }

  /** Every name that can resolve; resolving does not change it. */
  function Universe(w: World, env: Env): set<string> {
    w.index.Keys + OnDisk(env)
  }

  lemma ResolvedInUniverse(w: World, env: Env, name: string)
    ensures Universe(Indexed(w, env, name), env) == Universe(w, env)
    ensures Found(w, env, name).Some? ==> name in Universe(w, env)
  {
  }

  /** The version check, then the required slots in order. */
  function Checked(w: World, name: string, meta: ExtensionMeta): Option<LoadError> {
    if meta.apiVersion != CURRENT_API_VERSION then Some(ApiVersionMismatch(name, meta.apiVersion))
    else FirstMissing(w.slots, meta.dependsOnSlots)
  }

  function FirstMissing(slots: map<string, Slot>, required: seq<string>): (r: Option<LoadError>)
    ensures r.None? <==> forall s | s in required :: s in slots
  {
    if |required| == 0 then None
    else if required[0] !in slots then Some(SlotNotRegistered(required[0]))
    else FirstMissing(slots, required[1..])
  }

  // ---------------------------------------------------------------- installing

  function Live(w: World): set<MetaId> {
    (set n | n in w.loadedMeta :: w.loadedMeta[n].id) + w.held
  }

  /** AROUND_SLOTS: each defined slot is attached with a fresh register and filled. */
  function Attached(slots: map<string, Slot>, defs: seq<string>, lib: Library, owner: string,
                    id: MetaId): map<string, Slot> {
    if |defs| == 0 then slots
    else
      var n := |defs| - 1;
      Attached(slots, defs[..n], lib, owner, id)[defs[n] := Slot(Some(owner), Tagged(Created(lib, defs[n]), id))]
  }

  /** Entries for the slots of others. */
  function Polled(slots: map<string, Slot>, lib: Library, owner: string, id: MetaId): map<string, Slot> {
    map s | s in slots ::
      if slots[s].owner == Some(owner) then slots[s]
      else slots[s].(entries := slots[s].entries + Tagged(Created(lib, s), id))
  }

  /** The end of a load: open, initialise, register, record. */
  function Install(w: World, name: string, path: string, meta: ExtensionMeta,
                   env: Env): (r: (World, Result<(), LoadError>))
    ensures r.0.loading == w.loading && r.0.index == w.index
  {
    if path !in env.disk then (w, Err(OpenFailed(path)))
    else
      var lib, id := env.disk[path], env.alloc(w.clock, Live(w));
      var started := w.(clock := w.clock + 1, inits := w.inits + [name]);
      if lib.init.Some? && lib.init.value != 0 then (started, Err(InitFailed(name, lib.init.value)))
      else
        (started.(slots := Polled(Attached(w.slots, lib.slotDefs, lib, name, id), lib, name, id),
                  loaded := w.loaded[name := lib],
                  loadedMeta := w.loadedMeta[name := OwnedMeta(id, meta.dependsOn)]),
         Ok(()))
  }

  function Released(w: World, name: string): (r: World)
    ensures r.index == w.index && r.loading == w.loading - {name}
  {
    w.(loading := w.loading - {name})
  }

  /** Claims the name, resolves it and checks what it asks for. */
  function Claimed(w: World, name: string, env: Env): (r: (World, Result<(string, ExtensionMeta), LoadError>))
    ensures r.0.loading == w.loading + {name} && Universe(r.0, env) == Universe(w, env)
    ensures r.1.Ok? ==> name in Universe(w, env)
  {
    ResolvedInUniverse(w, env, name);
    var claimed := Indexed(w, env, name).(loading := w.loading + {name});
    match Found(w, env, name)
    case None => (claimed, Err(NotFound(name)))
    case Some((path, meta)) =>
      match Checked(claimed, name, meta)
      case Some(e) => (claimed, Err(e))
      case None => (claimed, Ok((path, meta)))
  }

  /** load. */
  function Load(w: World, name: string, env: Env): (r: (World, Result<(), LoadError>))
    ensures r.0.loading == w.loading && Universe(r.0, env) == Universe(w, env)
    decreases |Universe(w, env) - w.loading|, 0, 0
  {
    if name in w.loaded then (w, Ok(()))
    else if name in w.loading then (w, Err(Circular(name)))
    else
      var (claimed, found) := Claimed(w, name, env);
      match found
      case Err(e) => (Released(claimed, name), Err(e))
      case Ok((path, meta)) =>
        ClaimShrinks(Universe(w, env), w.loading, name);
        var (ready, deps) := LoadAll(claimed, meta.dependsOn, env);
        match deps
        case Err(e) => (Released(ready, name), Err(e))
        case Ok(_) =>
          var (done, r) := Install(ready, name, path, meta, env);
          (Released(done, name), r)
  }

  function LoadAll(w: World, names: seq<string>, env: Env): (r: (World, Result<(), LoadError>))
    ensures r.0.loading == w.loading && Universe(r.0, env) == Universe(w, env)
    decreases |Universe(w, env) - w.loading|, 1, |names|
  {
    if |names| == 0 then (w, Ok(()))
    else
      var (next, r) := Load(w, names[0], env);
      if r.Err? then (next, r) else LoadAll(next, names[1..], env)
  }

  /** Claiming a resolvable name leaves fewer to claim: why load terminates. */
  lemma ClaimShrinks(universe: set<string>, loading: set<string>, name: string)
    requires name in universe && name !in loading
    ensures |universe - (loading + {name})| < |universe - loading|
  {
    var rest := universe - (loading + {name});
    assert universe - loading == rest + {name};
  }

  // ----------------------------------------------------------------- unloading

  function Dependents(w: World, name: string): set<string> {
    set n | n in w.loadedMeta && n != name && name in w.loadedMeta[n].dependsOn
  }

  /** What every register keeps, and which slots survive. */
  function Removed(slots: map<string, Slot>, name: string, id: MetaId): map<string, Slot> {
    map s | s in slots && slots[s].owner != Some(name) :: slots[s].(entries := Without(slots[s].entries, id))
  }

  function Dropped(w: World, name: string): World
    requires name in w.loadedMeta
  {
    w.(slots := Removed(w.slots, name, w.loadedMeta[name].id), loadedMeta := w.loadedMeta - {name},
       loaded := w.loaded - {name})
  }

  /** unload, on a world whose two maps of loaded extensions agree. */
  function Unload(w: World, name: string): (World, Result<(), LoadError>)
    requires w.loaded.Keys == w.loadedMeta.Keys
  {
    if Dependents(w, name) != {} then (w, Err(DependentsRemain(name)))
    else if name !in w.loadedMeta then (w, Err(NotFound(name)))
    else (Dropped(w, name), Ok(()))
  }

  // ----------------------------------------------------------------- reloading

  /** A prepared new version: its library, metadata, id and polled entries. */
  datatype Pending = Pending(lib: Library, meta: ExtensionMeta, id: MetaId, entries: map<string, seq<Object>>)

  /** Entries polled for every slot the new version's name does not own. */
  function PolledEntries(slots: map<string, Slot>, lib: Library, name: string): map<string, seq<Object>> {
    map s | s in slots && slots[s].owner != Some(name) && |Created(lib, s)| > 0 :: Created(lib, s)
  }

  /** prepare_reload: the new version is opened, polled and initialised aside. */
  function PrepareReload(w: World, path: string, env: Env): (World, Result<Pending, LoadError>) {
    if path !in env.disk then (w, Err(OpenFailed(path)))
    else
      var lib := env.disk[path];
      if lib.meta.None? then (w, Err(NoMetadata(path)))
      else
        var meta, id := lib.meta.value, env.alloc(w.clock, Live(w));
        var entries := PolledEntries(w.slots, lib, meta.name);
        var started := w.(clock := w.clock + 1, inits := w.inits + [meta.name]);
        if lib.init.Some? && lib.init.value != 0 then (started, Err(InitFailed(meta.name, lib.init.value)))
        else (started.(held := w.held + {id}), Ok(Pending(lib, meta, id, entries)))
  }

  /** The extension whose metadata has this id. */
  ghost function NameOf(w: World, id: MetaId): Option<string> {
    if exists n :: n in w.loadedMeta && w.loadedMeta[n].id == id
    then var n :| n in w.loadedMeta && w.loadedMeta[n].id == id; Some(n)
    else None
  }

  /** Prepared entries go to whichever of their slots still exist. */
  function WithEntries(slots: map<string, Slot>, entries: map<string, seq<Object>>, id: MetaId): map<string, Slot> {
    map s | s in slots ::
      if s in entries then slots[s].(entries := slots[s].entries + Tagged(entries[s], id)) else slots[s]
  }

  function Replaced(w: World, name: string, p: Pending): World
    requires name in w.loadedMeta
  {
    var rest := Dropped(w, name);
    rest.(slots := WithEntries(Attached(rest.slots, p.lib.slotDefs, p.lib, name, p.id), p.entries, p.id),
          loaded := rest.loaded[name := p.lib],
          loadedMeta := rest.loadedMeta[name := OwnedMeta(p.id, p.meta.dependsOn)],
          held := w.held - {p.id})
  }

  /** commit_reload; the pending version is given up either way. */
  ghost function CommitReload(w: World, oldId: MetaId, p: Pending): (World, Result<(), LoadError>) {
    match NameOf(w, oldId)
    case None => (w.(held := w.held - {p.id}), Err(NotFound("meta pointer")))
    case Some(name) =>
      if Dependents(w, name) != {} then (w.(held := w.held - {p.id}), Err(DependentsRemain(name)))
      else (Replaced(w, name, p), Ok(()))
  }

  /** reload: prepare and commit in one call. */
  ghost function Reload(w: World, name: string, path: string, env: Env): (World, Result<(), LoadError>) {
    if name !in w.loadedMeta then (w, Err(NotFound(name)))
    else
      var (prepared, p) := PrepareReload(w, path, env);
      match p
      case Err(e) => (prepared, Err(e))
      case Ok(pending) => CommitReload(prepared, w.loadedMeta[name].id, pending)
  }
}
