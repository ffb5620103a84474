/** What the create symbols are, character by character, and what a load finds under
    them: crates/around-extensions/src/lib.rs:878-957. */
module SymbolLaws {
  import opened Pcm
  import opened Registers
  import opened Extensions
  import opened LoadLaws
  import opened ScanLaws
  import opened UnloadLaws

  predicate HasPath(s: string) {
    exists i :: 0 <= i < |s| - 1 && s[i] == ':' && s[i + 1] == ':'
  }

  predicate Small(c: char, d: char) {
    if 'A' <= c <= 'Z' then d as int == c as int + 32 else d == c
  }

  lemma {:induction false} PlainName(s: string)
    requires !HasPath(s)
    ensures |Flattened(s)| == |s| && forall i | 0 <= i < |s| :: Small(s[i], Flattened(s)[i])
  {
    if |s| > 0 {
      assert forall i | 0 <= i < |s| - 1 :: s[1..][i] == s[i + 1];
      PlainName(s[1..]);
      assert |s| > 1 ==> !(s[0] == ':' && s[0 + 1] == ':');
      assert forall i | 1 <= i < |s| :: s[i] == s[1..][i - 1];
    }
  }

  /** A name without a path gets small ASCII letters and the suffix; everything else in
      it stays as it is. */
  lemma PlainSymbol(s: string)
    requires !HasPath(s)
    ensures |CreateSymbol(s)| == |s| + 7 && CreateSymbol(s)[|s|..] == "_create"
    ensures forall i | 0 <= i < |s| :: Small(s[i], CreateSymbol(s)[i])
  {
    PlainName(s);
  }

  lemma NextChar(c: char, s: string)
    requires c == ':' ==> |s| == 0 || s[0] != ':'
    ensures Flattened([c] + s) == [Lower(c)] + Flattened(s)
  {
    assert ([c] + s)[1..] == s;
  }

  lemma NextPath(s: string)
    ensures Flattened("::" + s) == "_" + Flattened(s)
  {
    assert ("::" + s)[2..] == s;
  }

  /** Each "::" between two parts becomes one "_". */
  lemma {:induction false} JoinedName(a: string, b: string)
    requires |a| > 0 ==> a[|a| - 1] != ':'
    ensures Flattened(a + "::" + b) == Flattened(a) + "_" + Flattened(b)
  {
    Regrouped(a, "::", b);
    JoinedPath(a, b);
  }

  lemma Regrouped(a: string, b: string, c: string)
    ensures a + b + c == a + (b + c)
  {
  }

  /** One character, or one "::", before a joined name. */
  lemma JoinedAfter(head: string, small: string, rest: string, b: string)
    requires Flattened(rest + ("::" + b)) == Flattened(rest) + "_" + Flattened(b)
    requires Flattened(head + rest) == small + Flattened(rest)
    requires Flattened(head + (rest + ("::" + b))) == small + Flattened(rest + ("::" + b))
    ensures Flattened((head + rest) + ("::" + b)) == Flattened(head + rest) + "_" + Flattened(b)
  {
    hide Flattened;
    Regrouped(head, rest, "::" + b);
    Regrouped(small, Flattened(rest), "_" + Flattened(b));
    Regrouped(Flattened(rest), "_", Flattened(b));
    Regrouped(small + Flattened(rest), "_", Flattened(b));
  }

  lemma {:induction false} JoinedPath(a: string, b: string)
    requires |a| > 0 ==> a[|a| - 1] != ':'
    ensures Flattened(a + ("::" + b)) == Flattened(a) + "_" + Flattened(b)
  {
    hide Flattened, Lower;
    if |a| == 0 {
      NextPath(b);
      assert a + ("::" + b) == "::" + b;
      Nothing();
    } else if |a| >= 2 && a[0] == ':' && a[1] == ':' {
      var rest := a[2..];
      assert a == "::" + rest;
      JoinedPath(rest, b);
      NextPath(rest);
      NextPath(rest + ("::" + b));
      JoinedAfter("::", "_", rest, b);
    } else {
      var rest := a[1..];
      assert a == [a[0]] + rest;
      JoinedPath(rest, b);
      NextChar(a[0], rest);
      NextChar(a[0], rest + ("::" + b));
      JoinedAfter([a[0]], [Lower(a[0])], rest, b);
    }
  }

  lemma Nothing()
    ensures Flattened("") == ""
  {
  }

  const CodecSlot: string := "around_audio_sdk::codec::Codec"
  const CodecSymbol: string := "around_audio_sdk_codec_codec_create"

  predicate AllSmall(s: string) {
    forall c | c in s :: c != ':' && !('A' <= c <= 'Z')
  }

  lemma SmallAlready(s: string)
    requires AllSmall(s)
    ensures Flattened(s) == s
  {
    assert forall i | 0 <= i < |s| :: s[i] in s;
    PlainName(s);
  }

  lemma CrateIsSmall()
    ensures AllSmall("around_audio_sdk")
  {
  }

  lemma TraitFlattened()
    ensures Flattened("Codec") == "codec"
  {
  }

  lemma PathFlattened()
    ensures Flattened("codec") == "codec"
  {
  }

  lemma Spelled()
    ensures CodecSlot == "around_audio_sdk" + "::" + ("codec" + "::" + "Codec")
    ensures CodecSymbol == "around_audio_sdk" + "_" + ("codec" + "_" + "codec") + "_create"
  {
  }

  /** The symbol codec extensions export for the codec slot. */
  lemma CodecSymbolIs()
    ensures CreateSymbol(CodecSlot) == CodecSymbol
  {
    SymbolOfParts("around_audio_sdk", "codec", "Codec");
    CrateIsSmall();
    SmallAlready("around_audio_sdk");
    PathFlattened();
    TraitFlattened();
    hide *;
    Spelled();
  }

  lemma SymbolOfParts(a: string, b: string, c: string)
    requires 0 < |a| && 0 < |b| && a[|a| - 1] != ':' && b[|b| - 1] != ':'
    ensures CreateSymbol(a + "::" + (b + "::" + c))
         == Flattened(a) + "_" + (Flattened(b) + "_" + Flattened(c)) + "_create"
  {
    JoinedName(a, b + "::" + c);
    JoinedName(b, c);
  }

  // ------------------------------------------------------------ what a load finds

  const CodecExtension: Library :=
    Library(Some(ExtensionMeta("wav", 1, [], [CodecSlot])), Some(0), [],
            map[CodecSymbol := [Object(1, 2), Object(3, 4)]])

  /** A host with the codec slot, and a directory with one codec extension. */
  function CodecHost(): World {
    Empty.(slots := map[CodecSlot := Slot(None, [])], searchPaths := ["dir"])
  }

  predicate CodecDisk(env: Env) {
    env.disk == map["libwav" := CodecExtension] && env.directories == map["dir" := ["libwav"]]
  }

  /** From that disk a load finds the extension, and the register then holds its two
      objects in order, under the address of its metadata. */
  lemma CodecLoads(env: Env)
    requires env.Proper() && CodecDisk(env)
    ensures var (u, r) := Load(CodecHost(), "wav", env);
            && r.Ok? && u.loaded == map["wav" := CodecExtension] && "wav" in u.loadedMeta && u.inits == ["wav"]
            && u.slots.Keys == {CodecSlot} && u.slots[CodecSlot].owner == None
            && u.slots[CodecSlot].entries
               == [Entry(Object(1, 2), u.loadedMeta["wav"].id), Entry(Object(3, 4), u.loadedMeta["wav"].id)]
  {
    CodecClaimed(env);
    var c := Claimed(CodecHost(), "wav", env).0;
    CodecInstalled(c, env);
    NothingToLoad(c, env);
    LoadIs(CodecHost(), "wav", env);
  }

  lemma CodecClaimed(env: Env)
    requires CodecDisk(env)
    ensures var (c, found) := Claimed(CodecHost(), "wav", env);
            && found == Ok(("libwav", CodecExtension.meta.value))
            && c == CodecHost().(index := c.index, loading := {"wav"})
  {
    hide Universe;
    var w, meta := CodecHost(), CodecExtension.meta.value;
    var paths, files := ["dir"], ["libwav"];
    assert paths[1..] == [] && files[1..] == [] && Listed(env, paths) == files + [] == files;
    assert Found(w, env, "wav") == Some(("libwav", meta));
    assert w.loading + {"wav"} == {"wav"};
    assert [CodecSlot][1..] == [];
    assert FirstMissing(w.slots, [CodecSlot]) == None;
  }

  lemma CodecInstalled(w: World, env: Env)
    requires CodecDisk(env) && w == CodecHost().(index := w.index, loading := w.loading)
    ensures var (u, r) := Install(w, "wav", "libwav", CodecExtension.meta.value, env);
            && r.Ok? && u.loaded == map["wav" := CodecExtension] && "wav" in u.loadedMeta && u.inits == ["wav"]
            && u.slots.Keys == {CodecSlot} && u.slots[CodecSlot].owner == None
            && u.slots[CodecSlot].entries
               == [Entry(Object(1, 2), u.loadedMeta["wav"].id), Entry(Object(3, 4), u.loadedMeta["wav"].id)]
  {
    hide CreateSymbol;
    CodecSymbolIs();
    var id := env.alloc(w.clock, Live(w));
    assert Attached(w.slots, [], CodecExtension, "wav", id) == w.slots;
    assert Created(CodecExtension, CodecSlot) == [Object(1, 2), Object(3, 4)];
    assert [] + Tagged(Created(CodecExtension, CodecSlot), id) == Tagged(Created(CodecExtension, CodecSlot), id);
  }
}
