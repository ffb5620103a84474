/** What a scan indexes, and that the index is no more than a cache:
    crates/around-extensions/src/lib.rs:630-733. */
module ScanLaws {
  import opened Pcm
  import opened Extensions

  function Lookup(index: map<string, (string, ExtensionMeta)>, name: string): Option<(string, ExtensionMeta)> {
    if name in index then Some(index[name]) else None
  }

  function Either<T>(first: Option<T>, second: Option<T>): Option<T> {
    if first.Some? then first else second
  }

  /** Leading search paths that can be read: those a scan gets to. */
  function Readable(env: Env, paths: seq<string>): (n: nat)
    ensures n <= |paths| && (n == |paths| || paths[n] !in env.directories)
    ensures forall k | 0 <= k < n :: paths[k] in env.directories
  {
    if |paths| == 0 || paths[0] !in env.directories then 0 else 1 + Readable(env, paths[1..])
  }

  lemma {:induction false} FirstNamedConcat(disk: map<string, Library>, a: seq<string>, b: seq<string>, name: string)
    ensures FirstNamed(disk, a + b, name) == Either(FirstNamed(disk, a, name), FirstNamed(disk, b, name))
  {
    if |a| == 0 {
      assert a + b == b;
    } else {
      assert (a + b)[1..] == a[1..] + b;
      FirstNamedConcat(disk, a[1..], b, name);
    }
  }

  lemma {:induction false} FilesIndexedIs(index: map<string, (string, ExtensionMeta)>, env: Env, files: seq<string>,
                                          name: string)
    ensures Lookup(FilesIndexed(index, env, files), name)
         == Either(Lookup(index, name), FirstNamed(env.disk, files, name))
    decreases |files|
  {
    if |files| > 0 {
      FilesIndexedIs(FileIndexed(index, env, files[0]), env, files[1..], name);
    }
  }

  lemma {:induction false} PathsIndexedIs(index: map<string, (string, ExtensionMeta)>, env: Env, paths: seq<string>,
                                          name: string)
    ensures var (after, r) := PathsIndexed(index, env, paths);
            var read := Listed(env, paths[..Readable(env, paths)]);
            && Lookup(after, name) == Either(Lookup(index, name), FirstNamed(env.disk, read, name))
            && (r.Ok? <==> Readable(env, paths) == |paths|)
    decreases |paths|
  {
    hide FirstNamed, FilesIndexed, Lookup;
    if |paths| > 0 && paths[0] in env.directories {
      var files, rest := env.directories[paths[0]], paths[1..];
      var read := paths[..Readable(env, paths)];
      assert read[1..] == rest[..Readable(env, rest)];
      FilesIndexedIs(index, env, files, name);
      PathsIndexedIs(FilesIndexed(index, env, files), env, rest, name);
      FirstNamedConcat(env.disk, files, Listed(env, read[1..]), name);
    } else {
      NothingNamed(env.disk, name);
    }
  }

  lemma NothingNamed(disk: map<string, Library>, name: string)
    ensures FirstNamed(disk, [], name) == None
  {
  }

  predicate Bears(disk: map<string, Library>, file: string, name: string) {
    file in disk && disk[file].meta.Some? && disk[file].meta.value.name == name
  }

  /** Of several files the first that opens with that name counts. */
  lemma {:induction false} FirstNamedAt(disk: map<string, Library>, files: seq<string>, name: string, i: nat)
    requires i <= |files| && forall j | 0 <= j < i :: !Bears(disk, files[j], name)
    ensures i == |files| ==> FirstNamed(disk, files, name) == None
    ensures i < |files| && Bears(disk, files[i], name) ==>
              FirstNamed(disk, files, name) == Some((files[i], disk[files[i]].meta.value))
  {
    if i > 0 {
      FirstNamedAt(disk, files[1..], name, i - 1);
    }
  }

  /** Of several search paths the first whose directory can be read and holds a library of
      the name; unreadable ones are passed over. */
  lemma {:induction false} FreshScanFinds(w: World, env: Env, name: string, k: nat)
    requires k <= |w.searchPaths|
    requires forall i | 0 <= i < k && w.searchPaths[i] in env.directories ::
               FirstNamed(env.disk, env.directories[w.searchPaths[i]], name) == None
    ensures k == |w.searchPaths| ==> FreshScan(w, env, name) == None
    ensures k < |w.searchPaths| && w.searchPaths[k] in env.directories
            && FirstNamed(env.disk, env.directories[w.searchPaths[k]], name).Some? ==>
              FreshScan(w, env, name) == FirstNamed(env.disk, env.directories[w.searchPaths[k]], name)
    decreases k
  {
    hide FirstNamed;
    var paths := w.searchPaths;
    if |paths| == 0 {
      NothingNamed(env.disk, name);
    } else {
      var files := if paths[0] in env.directories then env.directories[paths[0]] else [];
      FirstNamedConcat(env.disk, files, Listed(env, paths[1..]), name);
      NothingNamed(env.disk, name);
      if k > 0 {
        FreshScanFinds(w.(searchPaths := paths[1..]), env, name, k - 1);
      }
    }
  }

  /** A scan keeps what is indexed and adds, under every other name, the first library
      bearing it in the directories up to the first unreadable one, which it reports. */
  lemma ScanIndexes(w: World, paths: seq<string>, env: Env)
    ensures var (u, r) := Scan(w, paths, env);
            var read := Listed(env, paths[..Readable(env, paths)]);
            && (forall name :: Lookup(u.index, name)
                               == Either(Lookup(w.index, name), FirstNamed(env.disk, read, name)))
            && u == w.(searchPaths := paths, index := u.index)
            && (r.Ok? <==> forall p | p in paths :: p in env.directories)
  {
    hide FirstNamed, Listed, PathsIndexed, Lookup, Readable;
    forall name
      ensures Lookup(PathsIndexed(w.index, env, paths).0, name)
           == Either(Lookup(w.index, name), FirstNamed(env.disk, Listed(env, paths[..Readable(env, paths)]), name))
    {
      PathsIndexedIs(w.index, env, paths, name);
    }
    PathsIndexedIs(w.index, env, paths, "");
    if Readable(env, paths) == |paths| {
      assert forall p | p in paths :: p in env.directories;
    } else {
      assert paths[Readable(env, paths)] in paths;
    }
  }

  /** Every name resolves after a complete scan as it would from the stored paths alone. */
  lemma ScanResolves(w: World, paths: seq<string>, env: Env, name: string)
    requires Scan(w, paths, env).1.Ok?
    ensures Found(Scan(w, paths, env).0, env, name) == Found(w.(searchPaths := paths), env, name)
  {
    hide FirstNamed, Listed, PathsIndexed;
    PathsIndexedIs(w.index, env, paths, name);
    assert paths[..|paths|] == paths;
    assert Lookup(Scan(w, paths, env).0.index, name)
        == Either(Lookup(w.index, name), FirstNamed(env.disk, Listed(env, paths), name));
  }

  /** Worlds that differ in their index only, and resolve every name alike. */
  ghost predicate SameButIndex(w: World, v: World, env: Env) {
    v == w.(index := v.index) && forall n :: Found(v, env, n) == Found(w, env, n)
  }

  lemma ClaimsAlike(w: World, v: World, name: string, env: Env)
    requires SameButIndex(w, v, env)
    ensures SameButIndex(Claimed(w, name, env).0, Claimed(v, name, env).0, env)
    ensures Claimed(v, name, env).1 == Claimed(w, name, env).1
  {
    hide FirstNamed, Listed, FirstMissing, Universe;
    var c, d := Claimed(w, name, env).0, Claimed(v, name, env).0;
    assert Found(v, env, name) == Found(w, env, name);
    forall n ensures Found(d, env, n) == Found(c, env, n) {
      assert Found(v, env, n) == Found(w, env, n);
    }
  }

  lemma InstallsAlike(w: World, v: World, name: string, path: string, meta: ExtensionMeta, env: Env)
    requires SameButIndex(w, v, env)
    ensures SameButIndex(Install(w, name, path, meta, env).0, Install(v, name, path, meta, env).0, env)
    ensures Install(v, name, path, meta, env).1 == Install(w, name, path, meta, env).1
  {
    hide FirstNamed, Listed, Attached, Polled;
    assert Live(v) == Live(w);
    var a, b := Install(w, name, path, meta, env).0, Install(v, name, path, meta, env).0;
    forall n ensures Found(b, env, n) == Found(a, env, n) {
      assert Found(v, env, n) == Found(w, env, n);
    }
  }

  lemma ReleasesAlike(w: World, v: World, name: string, env: Env)
    requires SameButIndex(w, v, env)
    ensures SameButIndex(Released(w, name), Released(v, name), env)
  {
    hide FirstNamed, Listed;
    forall n ensures Found(Released(v, name), env, n) == Found(Released(w, name), env, n) {
      assert Found(v, env, n) == Found(w, env, n);
    }
  }

  /** load, once through its body. */
  lemma LoadIs(w: World, name: string, env: Env)
    requires name !in w.loaded && name !in w.loading
    ensures var (c, found) := Claimed(w, name, env);
            Load(w, name, env) ==
            if found.Err? then (Released(c, name), Err(found.error))
            else
              var (ready, deps) := LoadAll(c, found.value.1.dependsOn, env);
              if deps.Err? then (Released(ready, name), Err(deps.error))
              else
                var (done, r) := Install(ready, name, found.value.0, found.value.1, env);
                (Released(done, name), r)
  {
    hide Claimed, Install, Released, LoadAll;
  }

  /** The index decides nothing: loads in two worlds that resolve alike answer alike and
      leave worlds that differ in their index only. */
  lemma {:induction false} LoadsAlike(w: World, v: World, name: string, env: Env)
    requires SameButIndex(w, v, env)
    ensures SameButIndex(Load(w, name, env).0, Load(v, name, env).0, env)
    ensures Load(v, name, env).1 == Load(w, name, env).1
    decreases |Universe(w, env) - w.loading|, 0, 0
  {
    assert v.loaded == w.loaded && v.loading == w.loading;
    if name !in w.loaded && name !in w.loading {
      hide SameButIndex, Claimed, Install, Released, Universe, Load, LoadAll;
      LoadIs(w, name, env);
      LoadIs(v, name, env);
      ClaimsAlike(w, v, name, env);
      var (c, found) := Claimed(w, name, env);
      var d := Claimed(v, name, env).0;
      ReleasesAlike(c, d, name, env);
      if found.Ok? {
        var (path, meta) := found.value;
        ClaimShrinks(Universe(w, env), w.loading, name);
        LoadAllAlike(c, d, meta.dependsOn, env);
        var ready, other := LoadAll(c, meta.dependsOn, env).0, LoadAll(d, meta.dependsOn, env).0;
        ReleasesAlike(ready, other, name, env);
        InstallsAlike(ready, other, name, path, meta, env);
        ReleasesAlike(Install(ready, name, path, meta, env).0, Install(other, name, path, meta, env).0, name, env);
      }
    }
  }

  lemma {:induction false} LoadAllAlike(w: World, v: World, names: seq<string>, env: Env)
    requires SameButIndex(w, v, env)
    ensures SameButIndex(LoadAll(w, names, env).0, LoadAll(v, names, env).0, env)
    ensures LoadAll(v, names, env).1 == LoadAll(w, names, env).1
    decreases |Universe(w, env) - w.loading|, 1, |names|
  {
    hide SameButIndex, Load, Universe;
    if |names| > 0 {
      LoadsAlike(w, v, names[0], env);
      LoadAllAlike(Load(w, names[0], env).0, Load(v, names[0], env).0, names[1..], env);
    }
  }

  /** Scanning first changes no load: over one disk, after a complete scan every load
      answers and does what it would with the search paths alone and nothing scanned. */
  lemma ScanChangesNoLoad(w: World, paths: seq<string>, env: Env, name: string)
    requires Scan(w, paths, env).1.Ok?
    ensures var (scanned, bare) := (Scan(w, paths, env).0, w.(searchPaths := paths));
            && Load(scanned, name, env).1 == Load(bare, name, env).1
            && Load(scanned, name, env).0 == Load(bare, name, env).0.(index := Load(scanned, name, env).0.index)
  {
    var scanned, bare := Scan(w, paths, env).0, w.(searchPaths := paths);
    forall n ensures Found(scanned, env, n) == Found(bare, env, n) {
      ScanResolves(w, paths, env, n);
    }
    hide Load, Found, Scan;
    LoadsAlike(bare, scanned, name, env);
  }
}
