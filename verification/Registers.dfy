/** The generated Vec register: crates/around-extensions-macros/src/lib.rs. */
module Registers {
  /** Identity of a loaded extension's metadata: its heap address, which a later
      allocation may get again once it is freed. */
  type MetaId = nat

  /** What an entry pointer leads to: a vtable and the data it acts on. */
  datatype Object = Object(vtable: nat, data: nat)

  datatype Entry = Entry(item: Object, meta: MetaId)

  function Tagged(objects: seq<Object>, meta: MetaId): (r: seq<Entry>)
    ensures |r| == |objects| && forall i | 0 <= i < |r| :: r[i] == Entry(objects[i], meta)
  {
    if |objects| == 0 then []
    else Tagged(objects[..|objects| - 1], meta) + [Entry(objects[|objects| - 1], meta)]
  }

  /** What remains of a register when one extension's entries are removed. */
  function Without(entries: seq<Entry>, meta: MetaId): (r: seq<Entry>)
    ensures |r| <= |entries|
  {
    if |entries| == 0 then []
    else
      var rest := Without(entries[..|entries| - 1], meta);
      var last := entries[|entries| - 1];
      if last.meta == meta then rest else rest + [last]
  }

  /** One extension's entries, in order. */
  function OnlyOf(entries: seq<Entry>, meta: MetaId): seq<Entry> {
    if |entries| == 0 then []
    else
      var rest := OnlyOf(entries[..|entries| - 1], meta);
      var last := entries[|entries| - 1];
      if last.meta == meta then rest + [last] else rest
  }

  lemma Emptied(meta: MetaId)
    ensures Without([], meta) == [] == OnlyOf([], meta)
  {
  }

  lemma StepOf(entries: seq<Entry>, last: Entry, meta: MetaId)
    ensures Without(entries + [last], meta)
         == if last.meta == meta then Without(entries, meta) else Without(entries, meta) + [last]
    ensures OnlyOf(entries + [last], meta)
         == if last.meta == meta then OnlyOf(entries, meta) + [last] else OnlyOf(entries, meta)
  {
    assert (entries + [last])[..|entries|] == entries;
  }

  lemma {:induction false} WithoutMembers(entries: seq<Entry>, meta: MetaId, e: Entry)
    ensures e in Without(entries, meta) <==> e in entries && e.meta != meta
  {
    if |entries| > 0 {
      var n := |entries| - 1;
      WithoutMembers(entries[..n], meta, e);
      assert entries == entries[..n] + [entries[n]];
    }
  }

  lemma {:induction false} WithoutConcat(a: seq<Entry>, b: seq<Entry>, meta: MetaId)
    ensures Without(a + b, meta) == Without(a, meta) + Without(b, meta)
  {
    if |b| == 0 {
      assert a + b == a;
    } else {
      hide Without;
      var n := |b| - 1;
      WithoutConcat(a, b[..n], meta);
      StepOf(a + b[..n], b[n], meta);
      StepOf(b[..n], b[n], meta);
      Apart(a, b);
    }
  }

  lemma {:induction false} OnlyOfConcat(a: seq<Entry>, b: seq<Entry>, meta: MetaId)
    ensures OnlyOf(a + b, meta) == OnlyOf(a, meta) + OnlyOf(b, meta)
  {
    if |b| == 0 {
      assert a + b == a;
    } else {
      hide OnlyOf;
      var n := |b| - 1;
      OnlyOfConcat(a, b[..n], meta);
      StepOf(a + b[..n], b[n], meta);
      StepOf(b[..n], b[n], meta);
      Apart(a, b);
    }
  }

  lemma Apart(a: seq<Entry>, b: seq<Entry>)
    requires |b| > 0
    ensures b == b[..|b| - 1] + [b[|b| - 1]] && a + b == (a + b[..|b| - 1]) + [b[|b| - 1]]
  {
  }

  lemma {:induction false} WithoutAbsent(entries: seq<Entry>, meta: MetaId)
    requires forall e | e in entries :: e.meta != meta
    ensures Without(entries, meta) == entries
  {
    if |entries| > 0 {
      var n := |entries| - 1;
      assert entries == entries[..n] + [entries[n]];
      assert entries[n] in entries;
      WithoutAbsent(entries[..n], meta);
    }
  }

  lemma {:induction false} OfTagged(objects: seq<Object>, id: MetaId, meta: MetaId)
    ensures Without(Tagged(objects, id), meta) == if id == meta then [] else Tagged(objects, id)
    ensures OnlyOf(Tagged(objects, id), meta) == if id == meta then Tagged(objects, id) else []
  {
    if |objects| > 0 {
      hide Without, OnlyOf;
      var n := |objects| - 1;
      OfTagged(objects[..n], id, meta);
      StepOf(Tagged(objects[..n], id), Entry(objects[n], id), meta);
    }
  }

  /** Removing one extension's entries leaves each other's as they were. */
  lemma {:induction false} OnlyOfWithout(entries: seq<Entry>, removed: MetaId, meta: MetaId)
    ensures OnlyOf(Without(entries, removed), meta) == if meta == removed then [] else OnlyOf(entries, meta)
  {
    if |entries| > 0 {
      hide Without, OnlyOf;
      var n := |entries| - 1;
      OnlyOfWithout(entries[..n], removed, meta);
      assert entries == entries[..n] + [entries[n]];
      StepOf(entries[..n], entries[n], removed);
      StepOf(entries[..n], entries[n], meta);
      StepOf(Without(entries[..n], removed), entries[n], meta);
    }
  }

  class VecRegister {
    var entries: seq<Entry>

    constructor ()
      ensures entries == []
    {
      entries := [];
    }

    method Push(item: Object, meta: MetaId)
      modifies this
      ensures entries == old(entries) + [Entry(item, meta)]
    {
      entries := entries + [Entry(item, meta)];
    }

    /** retain over the entries: each removed object is dropped once, in order. */
    method RemoveByMeta(meta: MetaId) returns (removed: nat, dropped: seq<Entry>)
      modifies this
      ensures entries == Without(old(entries), meta)
      ensures dropped == OnlyOf(old(entries), meta) && removed == |dropped|
    {
      hide Without, OnlyOf;
      var before := |entries|;
      var kept: seq<Entry> := [];
      dropped := [];
      Emptied(meta);
      for i := 0 to |entries|
        invariant entries == old(entries)
        invariant kept == Without(entries[..i], meta) && dropped == OnlyOf(entries[..i], meta)
        invariant |kept| + |dropped| == i
      {
        StepOf(entries[..i], entries[i], meta);
        assert entries[..i + 1] == entries[..i] + [entries[i]];
        if entries[i].meta == meta {
          dropped := dropped + [entries[i]];
        } else {
          kept := kept + [entries[i]];
        }
      }
      assert entries[..|entries|] == entries;
      entries := kept;
      removed := before - |entries|;
    }

    method AllEntries() returns (objects: seq<Object>)
      ensures |objects| == |entries| && forall i | 0 <= i < |objects| :: objects[i] == entries[i].item
    {
      objects := [];
      for i := 0 to |entries|
        invariant |objects| == i && forall k | 0 <= k < i :: objects[k] == entries[k].item
      {
        objects := objects + [entries[i].item];
      }
    }
  }
}
