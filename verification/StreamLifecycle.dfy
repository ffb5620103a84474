/** Ownership of codec streams and reader contexts across prepare, run and the
    engine's end: crates/around-engine/src/pipeline.rs. Threads interleave step by
    step; stream ids and handles are fresh numbers. */
module StreamLifecycle {
  import opened Pcm

  type Handle = nat
  type ThreadId = nat
  type StreamId = nat

  /** The three resource options of ActiveStream: the stream pointer, the codec it
      belongs to (both named by the codec stream's handle) and the reader context. */
  datatype Active = Active(ptr: Option<Handle>, codec: Option<Handle>, reader: Option<Handle>)

  const Emptied := Active(None, None, None)

  /** Where a thread is in prepare or in a run. */
  datatype Pc =
    | Opening(reader: Handle)
    | Opened(codecStream: Handle, reader: Handle)
    | Rejecting(reader: Handle)
    | Counting
    | Starting(id: StreamId)
    | Decoding(id: StreamId, codecStream: Handle, reader: Handle)
    | Closing(id: StreamId, reader: Handle)
    | Uncounting(id: StreamId)
    | Removing(id: StreamId)
    | Finished

  datatype Drop = CodecDrop(handle: Handle) | ReaderDrop(handle: Handle)

  datatype State = State(
    threads: map<ThreadId, Pc>,
    streams: map<StreamId, Active>,
    counter: U32,
    drops: seq<Drop>,
    pairs: map<Handle, Handle>,
    readers: set<Handle>,
    nextId: StreamId,
    nextHandle: Handle,
    alive: bool)

  const Fresh := State(map[], map[], 0, [], map[], {}, 0, 0, true)

  datatype Event =
    | PrepareStart(t: ThreadId)
    | OpenFails(t: ThreadId)
    | OpenSucceeds(t: ThreadId)
    | RejectCodec(t: ThreadId)
    | RejectReader(t: ThreadId)
    | Insert(t: ThreadId)
    | Count(t: ThreadId)
    | RunStart(t: ThreadId, id: StreamId)
    | RunFails(t: ThreadId)
    | Take(t: ThreadId)
    | CloseCodec(t: ThreadId)
    | CloseReader(t: ThreadId)
    | Uncount(t: ThreadId)
    | Remove(t: ThreadId)
    | DropEngine
    | DropStream(id: StreamId)

  predicate Quiet(s: State) {
    forall t | t in s.threads :: s.threads[t].Finished?
  }

  predicate Enabled(s: State, e: Event) {
    match e
    case PrepareStart(t) => s.alive && t !in s.threads
    case OpenFails(t) => t in s.threads && s.threads[t].Opening?
    case OpenSucceeds(t) => t in s.threads && s.threads[t].Opening?
    case RejectCodec(t) => t in s.threads && s.threads[t].Opened?
    case RejectReader(t) => t in s.threads && s.threads[t].Rejecting?
    case Insert(t) => t in s.threads && s.threads[t].Opened?
    case Count(t) => t in s.threads && s.threads[t].Counting?
    case RunStart(t, id) => s.alive && t !in s.threads
    case RunFails(t) => t in s.threads && s.threads[t].Starting?
    case Take(t) => t in s.threads && s.threads[t].Starting?
    case CloseCodec(t) => t in s.threads && s.threads[t].Decoding?
    case CloseReader(t) => t in s.threads && s.threads[t].Closing?
    case Uncount(t) => t in s.threads && s.threads[t].Uncounting?
    case Remove(t) => t in s.threads && s.threads[t].Removing?
    case DropEngine => s.alive && Quiet(s)
    case DropStream(id) => !s.alive && id in s.streams
  }

  function Up(counter: U32): U32 { (counter + 1) % 0x1_0000_0000 }

  function Down(counter: U32): U32 { (counter + 0xFFFF_FFFF) % 0x1_0000_0000 }

  datatype TakeError = NotFound | ResourcesConsumed | CodecConsumed | ReaderConsumed

  /** take_stream_resources: the options are taken one after the other, so a later
      failure would lose the earlier ones. */
  function TakeResources(a: Active): (r: (Active, Result<(Handle, Handle), TakeError>)) {
    if a.ptr.None? then (a, Err(ResourcesConsumed))
    else if a.codec.None? then (a.(ptr := None), Err(CodecConsumed))
    else if a.reader.None? then (a.(ptr := None, codec := None), Err(ReaderConsumed))
    else (Emptied, Ok((a.ptr.value, a.reader.value)))
  }

  /** Options missing later on cost those before them, and are named by the error. */
  lemma TakePartial(a: Active)
    ensures a.ptr.None? ==> TakeResources(a) == (a, Err(ResourcesConsumed))
    ensures a.ptr.Some? && a.codec.None? ==> TakeResources(a) == (Active(None, None, a.reader), Err(CodecConsumed))
    ensures a.ptr.Some? && a.codec.Some? && a.reader.None? ==> TakeResources(a) == (Emptied, Err(ReaderConsumed))
  {
  }

  /** ActiveStream's drop: the codec stream, then its reader context. */
  function DropsOf(a: Active): (drops: seq<Drop>)
    ensures forall d :: d in drops <==>
      (d.CodecDrop? && a.ptr == Some(d.handle) && a.codec.Some?) || (d.ReaderDrop? && a.reader == Some(d.handle))
    ensures |drops| <= 2 && (|drops| == 2 ==> drops[0].CodecDrop? && drops[1].ReaderDrop?)
  {
    (if a.ptr.Some? && a.codec.Some? then [CodecDrop(a.ptr.value)] else [])
    + (if a.reader.Some? then [ReaderDrop(a.reader.value)] else [])
  }

  function Dropped(s: State, a: Active): State {
    s.(drops := s.drops + DropsOf(a), counter := if a.ptr.Some? && a.codec.Some? then Down(s.counter) else s.counter)
  }

  /** Only an entry with its codec stream counts when it goes. */
  lemma DropCounts(s: State, a: Active)
    ensures a.ptr.None? || a.codec.None? ==> Dropped(s, a).counter == s.counter
    ensures a.ptr.Some? && a.codec.Some? && s.counter > 0 ==> Dropped(s, a).counter == s.counter - 1
    ensures a.ptr.Some? && a.codec.Some? && s.counter == 0 ==> Dropped(s, a).counter == 0xFFFF_FFFF
  {
  }

  /** The stream entry as the source holds it: three options emptied in place. */
  class ActiveStream {
    var ptr: Option<Handle>
    var codec: Option<Handle>
    var reader: Option<Handle>

    function Value(): Active
      reads this
    {
      Active(ptr, codec, reader)
    }

    constructor (codecStream: Handle, reader: Handle)
      ensures Value() == Active(Some(codecStream), Some(codecStream), Some(reader))
    {
      this.ptr, this.codec, this.reader := Some(codecStream), Some(codecStream), Some(reader);
    }

    method TakeStreamResources() returns (r: Result<(Handle, Handle), TakeError>)
      modifies this
      ensures (Value(), r) == TakeResources(old(Value()))
    {
      var takenPtr := ptr;
      ptr := None;
      if takenPtr.None? {
        return Err(ResourcesConsumed);
      }
      var takenCodec := codec;
      codec := None;
      if takenCodec.None? {
        return Err(CodecConsumed);
      }
      var takenReader := reader;
      reader := None;
      if takenReader.None? {
        return Err(ReaderConsumed);
      }
      return Ok((takenPtr.value, takenReader.value));
    }

    method Drop(counter: U32) returns (drops: seq<Drop>, after: U32)
      modifies this
      ensures drops == DropsOf(old(Value())) && after == Dropped(Fresh.(counter := counter), old(Value())).counter
      ensures reader == None
    {
      drops, after := [], counter;
      var takenPtr, takenCodec := ptr, codec;
      ptr, codec := None, None;
      if takenPtr.Some? && takenCodec.Some? {
        drops := drops + [CodecDrop(takenPtr.value)];
        after := Down(after);
      }
      var takenReader := reader;
      reader := None;
      if takenReader.Some? {
        drops := drops + [ReaderDrop(takenReader.value)];
      }
    }
  }

  function Moved(s: State, t: ThreadId, pc: Pc): State {
    s.(threads := s.threads[t := pc])
  }

  function Taken(s: State, t: ThreadId, id: StreamId): State {
    if id !in s.streams then Moved(s, t, Finished)
    else
      var (left, r) := TakeResources(s.streams[id]);
      var s1 := s.(streams := s.streams[id := left]);
      match r
      case Err(_) => Moved(s1, t, Finished)
      case Ok((codecStream, reader)) => Moved(s1, t, Decoding(id, codecStream, reader))
  }

  function Apply(s: State, e: Event): State
    requires Enabled(s, e)
  {
    match e
    case PrepareStart(t) =>
      Moved(s, t, Opening(s.nextHandle)).(readers := s.readers + {s.nextHandle}, nextHandle := s.nextHandle + 1)
    case OpenFails(t) =>
      Moved(s, t, Finished).(drops := s.drops + [ReaderDrop(s.threads[t].reader)])
    case OpenSucceeds(t) =>
      var reader := s.threads[t].reader;
      Moved(s, t, Opened(s.nextHandle, reader)).(pairs := s.pairs[s.nextHandle := reader],
                                                nextHandle := s.nextHandle + 1)
    case RejectCodec(t) =>
      Moved(s, t, Rejecting(s.threads[t].reader)).(drops := s.drops + [CodecDrop(s.threads[t].codecStream)])
    case RejectReader(t) =>
      Moved(s, t, Finished).(drops := s.drops + [ReaderDrop(s.threads[t].reader)])
    case Insert(t) =>
      var Opened(codecStream, reader) := s.threads[t];
      Moved(s, t, Counting).(streams := s.streams[s.nextId :=
                                          Active(Some(codecStream), Some(codecStream), Some(reader))],
                           nextId := s.nextId + 1)
    case Count(t) => Moved(s, t, Finished).(counter := Up(s.counter))
    case RunStart(t, id) => Moved(s, t, Starting(id))
    case RunFails(t) => Moved(s, t, Finished)
    case Take(t) => Taken(s, t, s.threads[t].id)
    case CloseCodec(t) =>
      var Decoding(id, codecStream, reader) := s.threads[t];
      Moved(s, t, Closing(id, reader)).(drops := s.drops + [CodecDrop(codecStream)])
    case CloseReader(t) =>
      var Closing(id, reader) := s.threads[t];
      Moved(s, t, Uncounting(id)).(drops := s.drops + [ReaderDrop(reader)])
    case Uncount(t) => Moved(s, t, Removing(s.threads[t].id)).(counter := Down(s.counter))
    case Remove(t) =>
      var id := s.threads[t].id;
      var s1 := Moved(s, t, Finished);
      if id in s.streams then Dropped(s1, s.streams[id]).(streams := s.streams - {id}) else s1
    case DropEngine => s.(alive := false)
    case DropStream(id) => Dropped(s, s.streams[id]).(streams := s.streams - {id})
  }

  /** Whether the events can happen in this order from the start. */
  predicate Feasible(events: seq<Event>)
    decreases |events|, 0
  {
    |events| == 0 ||
    (Feasible(events[..|events| - 1]) && Enabled(After(events[..|events| - 1]), events[|events| - 1]))
  }

  function After(events: seq<Event>): State
    requires Feasible(events)
    decreases |events|, 1
  {
    if |events| == 0 then Fresh else Apply(After(events[..|events| - 1]), events[|events| - 1])
  }

  // ---------------------------------------------------------------- ownership

  datatype Holder = Thread(t: ThreadId) | Stream(id: StreamId)

  function HeldCodec(s: State, h: Holder): Option<Handle> {
    match h
    case Thread(t) =>
      if t in s.threads && (s.threads[t].Opened? || s.threads[t].Decoding?)
        then Some(s.threads[t].codecStream) else None
    case Stream(id) => if id in s.streams then s.streams[id].codec else None
  }

  predicate HasReader(pc: Pc) {
    pc.Opening? || pc.Opened? || pc.Rejecting? || pc.Decoding? || pc.Closing?
  }

  function HeldReader(s: State, h: Holder): Option<Handle> {
    match h
    case Thread(t) => if t in s.threads && HasReader(s.threads[t]) then Some(s.threads[t].reader) else None
    case Stream(id) => if id in s.streams then s.streams[id].reader else None
  }

  /** Every codec stream and reader has one owner until it is dropped. */
  ghost predicate Owned(s: State) {
    && (forall h, k :: HeldCodec(s, h).Some? && HeldCodec(s, h) == HeldCodec(s, k) ==> h == k)
    && (forall h, k :: HeldReader(s, h).Some? && HeldReader(s, h) == HeldReader(s, k) ==> h == k)
    && (forall h :: HeldCodec(s, h).Some? ==>
          var c := HeldCodec(s, h).value;
          c in s.pairs && CodecDrop(c) !in s.drops && HeldReader(s, h) == Some(s.pairs[c]))
    && (forall h :: HeldReader(s, h).Some? ==>
          HeldReader(s, h).value in s.readers && ReaderDrop(HeldReader(s, h).value) !in s.drops)
  }

  /** Nothing is lost: what is not yet dropped is still held. */
  ghost predicate NothingLeaks(s: State) {
    && (forall c | c in s.pairs :: CodecDrop(c) in s.drops || exists h :: HeldCodec(s, h) == Some(c))
    && (forall r | r in s.readers :: ReaderDrop(r) in s.drops || exists h :: HeldReader(s, h) == Some(r))
  }

  /** A reader without its codec stream has outlived it. */
  ghost predicate ReadersOutlive(s: State) {
    forall h, c :: HeldReader(s, h).Some? && HeldCodec(s, h).None?
        && c in s.pairs && s.pairs[c] == HeldReader(s, h).value
      ==> CodecDrop(c) in s.drops
  }

  ghost predicate OncePerDrop(s: State) {
    forall i, j | 0 <= i < j < |s.drops| :: s.drops[i] != s.drops[j]
  }

  /** Reader drops come after the drop of the codec stream that reads through them. */
  ghost predicate InOrder(s: State) {
    forall i, c | 0 <= i < |s.drops| && c in s.pairs && s.drops[i] == ReaderDrop(s.pairs[c]) ::
      CodecDrop(c) in s.drops[..i]
  }

  /** Handles in use are below the next fresh one; readers serve one codec stream. */
  ghost predicate Numbered(s: State) {
    && (forall c | c in s.pairs :: c < s.nextHandle && s.pairs[c] in s.readers)
    && (forall r | r in s.readers :: r < s.nextHandle)
    && (forall c, d | c in s.pairs && d in s.pairs && s.pairs[c] == s.pairs[d] :: c == d)
    && (forall d | d in s.drops :: (d.CodecDrop? ==> d.handle in s.pairs) && (d.ReaderDrop? ==> d.handle in s.readers))
    && (forall id | id in s.streams :: id < s.nextId)
    && (forall t, c | t in s.threads && s.threads[t].Opening? && c in s.pairs :: s.pairs[c] != s.threads[t].reader)
  }

  /** The three options are all present, of one codec stream, or all taken. */
  predicate AllOrNone(a: Active) {
    a == Emptied || (a.ptr.Some? && a.codec == a.ptr && a.reader.Some?)
  }

  predicate Running(pc: Pc) { pc.Decoding? || pc.Closing? || pc.Uncounting? || pc.Removing? }

  ghost predicate Whole(s: State) {
    && (forall id | id in s.streams :: AllOrNone(s.streams[id]))
    && (forall t | t in s.threads && Running(s.threads[t]) ::
          s.threads[t].id < s.nextId && (s.threads[t].id in s.streams ==> s.streams[s.threads[t].id] == Emptied))
    && (!s.alive ==> Quiet(s))
  }

  // ------------------------------------------------------------------ the count

  /** Streams whose resources nobody has taken. */
  function Waiting(s: State): set<StreamId> {
    set id | id in s.streams && s.streams[id].ptr.Some?
  }

  /** Threads between taking the resources and the decrement. */
  function Busy(s: State): set<ThreadId> {
    set t | t in s.threads && (s.threads[t].Decoding? || s.threads[t].Closing? || s.threads[t].Uncounting?)
  }

  /** Threads between the insertion and the increment. */
  function Uncounted(s: State): set<ThreadId> {
    set t | t in s.threads && s.threads[t].Counting?
  }

  /** The counter, modulo its width, with both windows accounted for. */
  ghost predicate CounterExact(s: State) {
    (s.counter + |Uncounted(s)|) % 0x1_0000_0000 == (|Waiting(s)| + |Busy(s)|) % 0x1_0000_0000
  }

  ghost predicate Inv(s: State) {
    Owned(s) && NothingLeaks(s) && ReadersOutlive(s) && OncePerDrop(s) && InOrder(s) && Numbered(s) && Whole(s)
      && CounterExact(s)
  }

  // --------------------------------------------------------------- preservation

  /** Where a holder's resources are after a step that only hands them over. */
  function HandedTo(s: State, e: Event, h: Holder): Holder
    requires Enabled(s, e)
  {
    match e
    case Insert(t) => if h == Thread(t) then Stream(s.nextId) else h
    case Take(t) =>
      if h == Stream(s.threads[t].id) && s.threads[t].id in s.streams
        && s.streams[s.threads[t].id] != Emptied then Thread(t) else h
    case _ => h
  }

  /** Who held, before a step, what this holder holds after it. */
  function Origin(s: State, e: Event, h: Holder): Holder
    requires Enabled(s, e)
  {
    match e
    case Insert(t) => if h == Stream(s.nextId) then Thread(t) else h
    case Take(t) => if h == Thread(t) then Stream(s.threads[t].id) else h
    case _ => h
  }

  /** What a take makes of every holder. */
  lemma TakeHandsOver(s: State, t: ThreadId, h: Holder)
    requires Enabled(s, Take(t)) && Whole(s)
    ensures var u, id := Apply(s, Take(t)), s.threads[t].id;
            var from := if h == Thread(t) then Stream(id) else if h == Stream(id) then Thread(t) else h;
            HeldCodec(u, h) == HeldCodec(s, from) && HeldReader(u, h) == HeldReader(s, from)
    ensures HeldCodec(s, Thread(t)) == None && HeldReader(s, Thread(t)) == None
    ensures var id := s.threads[t].id;
            (HeldCodec(s, Stream(id)).Some? || HeldReader(s, Stream(id)).Some?) ==>
              id in s.streams && s.streams[id] != Emptied
  {
    assert s.threads[t].id in s.streams ==> AllOrNone(s.streams[s.threads[t].id]);
  }

  /** What a step holds, holder by holder: what was held, or a fresh handle. */
  lemma CodecAfter(s: State, e: Event, h: Holder)
    requires Enabled(s, e) && Numbered(s) && Whole(s) && HeldCodec(Apply(s, e), h).Some?
    ensures (HeldCodec(s, Origin(s, e, h)) == HeldCodec(Apply(s, e), h) && HandedTo(s, e, Origin(s, e, h)) == h)
            || (e.OpenSucceeds? && h == Thread(e.t) && HeldCodec(Apply(s, e), h).value == s.nextHandle)
  {
    hide HeldCodec, Apply;
    if e.Take? {
      TakeHandsOver(s, e.t, h);
    } else {
      match h
      case Thread(t) => ThreadAfter(s, e, t);
      case Stream(id) => EntryAfter(s, e, id);
    }
  }

  lemma ReaderAfter(s: State, e: Event, h: Holder)
    requires Enabled(s, e) && Numbered(s) && Whole(s) && HeldReader(Apply(s, e), h).Some?
    ensures (HeldReader(s, Origin(s, e, h)) == HeldReader(Apply(s, e), h) && HandedTo(s, e, Origin(s, e, h)) == h)
            || (e.PrepareStart? && h == Thread(e.t) && HeldReader(Apply(s, e), h).value == s.nextHandle)
  {
    hide HeldReader, Apply;
    if e.Take? {
      TakeHandsOver(s, e.t, h);
    } else {
      match h
      case Thread(t) => ThreadAfter(s, e, t);
      case Stream(id) => EntryAfter(s, e, id);
    }
  }

  /** Every other step, holder by holder. */
  lemma ThreadAfter(s: State, e: Event, t: ThreadId)
    requires Enabled(s, e) && !e.Take?
    ensures var u, h := Apply(s, e), Thread(t);
            && (HeldCodec(u, h).Some? && e != OpenSucceeds(t) ==> HeldCodec(u, h) == HeldCodec(s, h))
            && (HeldReader(u, h).Some? && e != PrepareStart(t) ==> HeldReader(u, h) == HeldReader(s, h))
    ensures e == Insert(t) ==> HeldCodec(Apply(s, e), Thread(t)) == None && HeldReader(Apply(s, e), Thread(t)) == None
    ensures e == OpenSucceeds(t) ==> HeldCodec(Apply(s, e), Thread(t)) == Some(s.nextHandle)
    ensures e == PrepareStart(t) ==> HeldReader(Apply(s, e), Thread(t)) == Some(s.nextHandle)
  {
  }

  lemma EntryAfter(s: State, e: Event, id: StreamId)
    requires Enabled(s, e) && Numbered(s) && Whole(s) && !e.Take?
    ensures var u, h := Apply(s, e), Stream(id);
            var k := if e.Insert? && id == s.nextId then Thread(e.t) else h;
            && (HeldCodec(u, h).Some? ==> HeldCodec(u, h) == HeldCodec(s, k))
            && (HeldReader(u, h).Some? ==> HeldReader(u, h) == HeldReader(s, k))
  {
  }

  lemma OneHolder(s: State, e: Event)
    requires Enabled(s, e) && Owned(s) && Numbered(s) && Whole(s)
    ensures forall h, k ::
              HeldCodec(Apply(s, e), h).Some? && HeldCodec(Apply(s, e), h) == HeldCodec(Apply(s, e), k) ==> h == k
    ensures forall h, k ::
              HeldReader(Apply(s, e), h).Some? && HeldReader(Apply(s, e), h) == HeldReader(Apply(s, e), k) ==> h == k
  {
    hide HeldCodec, HeldReader, Apply, HandedTo, Origin, Enabled;
    var u := Apply(s, e);
    forall h, k | HeldCodec(u, h).Some? && HeldCodec(u, h) == HeldCodec(u, k) ensures h == k {
      CodecAfter(s, e, h);
      CodecAfter(s, e, k);
    }
    forall h, k | HeldReader(u, h).Some? && HeldReader(u, h) == HeldReader(u, k) ensures h == k {
      ReaderAfter(s, e, h);
      ReaderAfter(s, e, k);
    }
  }

  /** The drops of one step, and who makes them. */
  function NewDrops(s: State, e: Event): seq<Drop>
    requires Enabled(s, e)
  {
    match e
    case OpenFails(t) => [ReaderDrop(s.threads[t].reader)]
    case RejectCodec(t) => [CodecDrop(s.threads[t].codecStream)]
    case RejectReader(t) => [ReaderDrop(s.threads[t].reader)]
    case CloseCodec(t) => [CodecDrop(s.threads[t].codecStream)]
    case CloseReader(t) => [ReaderDrop(s.threads[t].reader)]
    case DropStream(id) => DropsOf(s.streams[id])
    case _ => []
  }

  function Dropper(e: Event): Holder {
    match e
    case OpenFails(t) => Thread(t)
    case RejectCodec(t) => Thread(t)
    case RejectReader(t) => Thread(t)
    case CloseCodec(t) => Thread(t)
    case CloseReader(t) => Thread(t)
    case DropStream(id) => Stream(id)
    case _ => Thread(0)
  }

  /** A finished run removes an emptied entry, so only these steps drop. */
  lemma DropsAfter(s: State, e: Event)
    requires Enabled(s, e) && Whole(s)
    ensures Apply(s, e).drops == s.drops + NewDrops(s, e)
  {
  }

  /** What is dropped was held by the dropper and no longer is. */
  lemma DropperHeld(s: State, e: Event, d: Drop)
    requires Enabled(s, e) && Whole(s) && d in NewDrops(s, e)
    ensures HandedTo(s, e, Dropper(e)) == Dropper(e)
    ensures d.CodecDrop? ==> HeldCodec(s, Dropper(e)) == Some(d.handle) && HeldCodec(Apply(s, e), Dropper(e)) == None
    ensures d.ReaderDrop? ==> HeldReader(s, Dropper(e)) == Some(d.handle) && HeldReader(Apply(s, e), Dropper(e)) == None
  {
  }

  /** What is held is handed over or dropped. */
  lemma CodecOnward(s: State, e: Event, h: Holder)
    requires Enabled(s, e) && Whole(s) && Numbered(s) && HeldCodec(s, h).Some?
    ensures HeldCodec(Apply(s, e), HandedTo(s, e, h)) == HeldCodec(s, h)
            || CodecDrop(HeldCodec(s, h).value) in NewDrops(s, e)
  {
    hide HeldCodec, Apply, NewDrops;
    if e.Take? {
      TakeHandsOver(s, e.t, h);
      TakeHandsOver(s, e.t, HandedTo(s, e, h));
    } else {
      match h
      case Thread(t) => ThreadOnward(s, e, t);
      case Stream(id) => EntryOnward(s, e, id);
    }
  }

  lemma ReaderOnward(s: State, e: Event, h: Holder)
    requires Enabled(s, e) && Whole(s) && Numbered(s) && HeldReader(s, h).Some?
    ensures HeldReader(Apply(s, e), HandedTo(s, e, h)) == HeldReader(s, h)
            || ReaderDrop(HeldReader(s, h).value) in NewDrops(s, e)
  {
    hide HeldReader, Apply, NewDrops;
    if e.Take? {
      TakeHandsOver(s, e.t, h);
      TakeHandsOver(s, e.t, HandedTo(s, e, h));
    } else {
      match h
      case Thread(t) => ThreadOnward(s, e, t);
      case Stream(id) => EntryOnward(s, e, id);
    }
  }

  lemma ThreadOnward(s: State, e: Event, t: ThreadId)
    requires Enabled(s, e) && !e.Take?
    ensures var h, k := Thread(t), if e == Insert(t) then Stream(s.nextId) else Thread(t);
            && (HeldCodec(s, h).Some? ==>
                  HeldCodec(Apply(s, e), k) == HeldCodec(s, h)
                  || CodecDrop(HeldCodec(s, h).value) in NewDrops(s, e))
            && (HeldReader(s, h).Some? ==>
                  HeldReader(Apply(s, e), k) == HeldReader(s, h)
                  || ReaderDrop(HeldReader(s, h).value) in NewDrops(s, e))
  {
  }

  lemma EntryOnward(s: State, e: Event, id: StreamId)
    requires Enabled(s, e) && Whole(s) && Numbered(s) && !e.Take?
    ensures var h := Stream(id);
            && (HeldCodec(s, h).Some? ==>
                  HeldCodec(Apply(s, e), h) == HeldCodec(s, h)
                  || CodecDrop(HeldCodec(s, h).value) in NewDrops(s, e))
            && (HeldReader(s, h).Some? ==>
                  HeldReader(Apply(s, e), h) == HeldReader(s, h)
                  || ReaderDrop(HeldReader(s, h).value) in NewDrops(s, e))
  {
  }

  /** Nobody drops a reader and keeps the codec stream. */
  lemma DropperKeepsNothing(s: State, e: Event, r: Handle)
    requires Enabled(s, e) && Whole(s) && ReaderDrop(r) in NewDrops(s, e)
    ensures HeldCodec(Apply(s, e), Dropper(e)) == None
  {
  }

  lemma Grows(s: State, e: Event)
    requires Enabled(s, e) && Numbered(s)
    ensures forall c | c in s.pairs :: c in Apply(s, e).pairs && Apply(s, e).pairs[c] == s.pairs[c]
    ensures s.readers <= Apply(s, e).readers
    ensures forall c | c in Apply(s, e).pairs && c !in s.pairs ::
              e.OpenSucceeds? && c == s.nextHandle && Apply(s, e).pairs[c] == s.threads[e.t].reader
    ensures forall r | r in Apply(s, e).readers && r !in s.readers :: e.PrepareStart? && r == s.nextHandle
  {
  }

  /** Ownership survives every step. */
  lemma OwnedStep(s: State, e: Event)
    requires Enabled(s, e) && Owned(s) && Numbered(s) && Whole(s)
    ensures Owned(Apply(s, e))
  {
    hide HeldCodec, HeldReader, Apply, HandedTo, NewDrops, Dropper, Whole;
    var u := Apply(s, e);
    OneHolder(s, e);
    forall h | HeldCodec(u, h).Some?
      ensures var c := HeldCodec(u, h).value;
              c in u.pairs && CodecDrop(c) !in u.drops && HeldReader(u, h) == Some(u.pairs[c])
    {
      HeldCodecOpen(s, e, h);
    }
    forall h | HeldReader(u, h).Some?
      ensures HeldReader(u, h).value in u.readers && ReaderDrop(HeldReader(u, h).value) !in u.drops
    {
      HeldReaderOpen(s, e, h);
    }
  }

  lemma HeldCodecOpen(s: State, e: Event, h: Holder)
    requires Enabled(s, e) && Owned(s) && Numbered(s) && Whole(s) && HeldCodec(Apply(s, e), h).Some?
    ensures var u, c := Apply(s, e), HeldCodec(Apply(s, e), h).value;
            c in u.pairs && CodecDrop(c) !in u.drops && HeldReader(u, h) == Some(u.pairs[c])
  {
    hide HeldCodec, HeldReader, HandedTo, Origin, NewDrops, Dropper, Whole, Apply;
    var u, c := Apply(s, e), HeldCodec(Apply(s, e), h).value;
    Grows(s, e);
    DropsAfter(s, e);
    CodecAfter(s, e, h);
    OpenedHolds(s, e);
    if CodecDrop(c) in NewDrops(s, e) {
      DropperHeld(s, e, CodecDrop(c));
    }
    var k := Origin(s, e, h);
    if HeldCodec(s, k) == Some(c) && HandedTo(s, e, k) == h {
      ReaderOnward(s, e, k);
      var r := s.pairs[c];
      if ReaderDrop(r) in NewDrops(s, e) {
        DropperHeld(s, e, ReaderDrop(r));
        DropperKeepsNothing(s, e, r);
      }
    }
  }

  /** A freshly opened codec stream is held with the reader it was given. */
  lemma OpenedHolds(s: State, e: Event)
    requires Enabled(s, e)
    ensures e.OpenSucceeds? ==> s.nextHandle in Apply(s, e).pairs
                                && HeldReader(Apply(s, e), Thread(e.t)) == Some(Apply(s, e).pairs[s.nextHandle])
    ensures e.PrepareStart? ==> s.nextHandle in Apply(s, e).readers
  {
  }

  lemma HeldReaderOpen(s: State, e: Event, h: Holder)
    requires Enabled(s, e) && Owned(s) && Numbered(s) && Whole(s) && HeldReader(Apply(s, e), h).Some?
    ensures HeldReader(Apply(s, e), h).value in Apply(s, e).readers
    ensures ReaderDrop(HeldReader(Apply(s, e), h).value) !in Apply(s, e).drops
  {
    hide HeldCodec, HeldReader, HandedTo, Origin, NewDrops, Dropper, Whole, Apply;
    var r := HeldReader(Apply(s, e), h).value;
    Grows(s, e);
    DropsAfter(s, e);
    ReaderAfter(s, e, h);
    OpenedHolds(s, e);
    if ReaderDrop(r) in NewDrops(s, e) {
      DropperHeld(s, e, ReaderDrop(r));
    }
  }

  lemma NothingLeaksStep(s: State, e: Event)
    requires Enabled(s, e) && Owned(s) && NothingLeaks(s) && Numbered(s) && Whole(s)
    ensures NothingLeaks(Apply(s, e))
  {
    hide HeldCodec, HeldReader, HandedTo, Origin, NewDrops, Dropper, Whole, Apply, Owned;
    var u := Apply(s, e);
    Grows(s, e);
    DropsAfter(s, e);
    FreshHeld(s, e);
    forall c | c in u.pairs && CodecDrop(c) !in u.drops ensures exists h :: HeldCodec(u, h) == Some(c) {
      if c in s.pairs {
        var h :| HeldCodec(s, h) == Some(c);
        CodecOnward(s, e, h);
      }
    }
    forall r | r in u.readers && ReaderDrop(r) !in u.drops ensures exists h :: HeldReader(u, h) == Some(r) {
      if r in s.readers {
        var h :| HeldReader(s, h) == Some(r);
        ReaderOnward(s, e, h);
      }
    }
  }

  lemma FreshHeld(s: State, e: Event)
    requires Enabled(s, e)
    ensures e.OpenSucceeds? ==> HeldCodec(Apply(s, e), Thread(e.t)) == Some(s.nextHandle)
    ensures e.PrepareStart? ==> HeldReader(Apply(s, e), Thread(e.t)) == Some(s.nextHandle)
  {
  }

  lemma OncePerDropStep(s: State, e: Event)
    requires Enabled(s, e) && Owned(s) && OncePerDrop(s) && Whole(s)
    ensures OncePerDrop(Apply(s, e))
  {
    hide HeldCodec, HeldReader, HandedTo, Dropper, Whole, Apply;
    var u, added := Apply(s, e), NewDrops(s, e);
    DropsAfter(s, e);
    NewDropsDiffer(s, e);
    forall i, j | 0 <= i < j < |u.drops| ensures u.drops[i] != u.drops[j] {
      if |s.drops| <= j && i < |s.drops| {
        assert added[j - |s.drops|] in added && s.drops[i] in s.drops;
        DropperHeld(s, e, added[j - |s.drops|]);
      }
    }
  }

  lemma NewDropsDiffer(s: State, e: Event)
    requires Enabled(s, e)
    ensures |NewDrops(s, e)| <= 2
    ensures |NewDrops(s, e)| == 2 ==> NewDrops(s, e)[0].CodecDrop? && NewDrops(s, e)[1].ReaderDrop?
  {
    if e.DropStream? {
      assert NewDrops(s, e) == DropsOf(s.streams[e.id]);
    }
  }

  lemma ReadersOutliveStep(s: State, e: Event)
    requires Enabled(s, e) && Owned(s) && ReadersOutlive(s) && Numbered(s) && Whole(s)
    ensures ReadersOutlive(Apply(s, e))
  {
    hide HeldCodec, HeldReader, HandedTo, Origin, NewDrops, Dropper, Whole, Apply;
    var u := Apply(s, e);
    Grows(s, e);
    DropsAfter(s, e);
    FreshHeld(s, e);
    OpeningHolds(s, e);
    forall h, c | HeldReader(u, h).Some? && HeldCodec(u, h).None?
        && c in u.pairs && u.pairs[c] == HeldReader(u, h).value
      ensures CodecDrop(c) in u.drops
    {
      ReaderAfter(s, e, h);
      var k := Origin(s, e, h);
      if HeldCodec(s, k).Some? {
        CodecOnward(s, e, k);
      }
    }
  }

  /** A step that drops a held pair drops the codec stream first. */
  lemma PairDropsInOrder(s: State, e: Event, i: nat)
    requires Enabled(s, e) && Whole(s) && i < |NewDrops(s, e)| && NewDrops(s, e)[i].ReaderDrop?
    ensures HeldCodec(s, Dropper(e)).Some? ==> i == 1 && NewDrops(s, e)[0] == CodecDrop(HeldCodec(s, Dropper(e)).value)
  {
  }

  lemma InOrderStep(s: State, e: Event)
    requires Enabled(s, e) && Owned(s) && ReadersOutlive(s) && InOrder(s) && Numbered(s) && Whole(s)
    ensures InOrder(Apply(s, e))
  {
    hide HeldCodec, HeldReader, HandedTo, Origin, NewDrops, Dropper, Whole, Apply;
    var u, n, added := Apply(s, e), |s.drops|, NewDrops(s, e);
    Grows(s, e);
    DropsAfter(s, e);
    OpeningHolds(s, e);
    forall i, c | 0 <= i < |u.drops| && c in u.pairs && u.drops[i] == ReaderDrop(u.pairs[c])
      ensures CodecDrop(c) in u.drops[..i]
    {
      if i < n {
        assert u.drops[..i] == s.drops[..i] && s.drops[i] in s.drops;
      } else {
        assert added[i - n] in added;
        DropperHeld(s, e, added[i - n]);
        PairDropsInOrder(s, e, i - n);
        if HeldCodec(s, Dropper(e)).Some? {
          assert u.drops[..i][n] == CodecDrop(c);
        } else {
          var j :| 0 <= j < n && s.drops[j] == CodecDrop(c);
          assert u.drops[..i][j] == CodecDrop(c);
        }
      }
    }
  }

  lemma OpeningHolds(s: State, e: Event)
    requires Enabled(s, e)
    ensures e.OpenSucceeds? ==> HeldReader(s, Thread(e.t)) == Some(s.threads[e.t].reader) && |NewDrops(s, e)| == 0
                                && HandedTo(s, e, Thread(e.t)) == Thread(e.t)
  {
  }

  lemma NumberedStep(s: State, e: Event)
    requires Enabled(s, e) && Owned(s) && Numbered(s) && Whole(s)
    ensures Numbered(Apply(s, e))
  {
    hide HeldCodec, HeldReader, HandedTo, Origin, NewDrops, Dropper, Whole, Apply, Owned;
    var u := Apply(s, e);
    Grows(s, e);
    DropsAfter(s, e);
    NumbersAfter(s, e);
    forall d | d in u.drops
      ensures (d.CodecDrop? ==> d.handle in u.pairs) && (d.ReaderDrop? ==> d.handle in u.readers) {
      if d in NewDrops(s, e) {
        DropperHeld(s, e, d);
        HeldIsNumbered(s, Dropper(e));
      }
    }
    forall t, c | t in u.threads && u.threads[t].Opening? && c in u.pairs ensures u.pairs[c] != u.threads[t].reader {
      OpeningUnpaired(s, e, t, c);
    }
  }

  lemma HeldIsNumbered(s: State, h: Holder)
    requires Owned(s)
    ensures HeldCodec(s, h).Some? ==> HeldCodec(s, h).value in s.pairs
    ensures HeldReader(s, h).Some? ==> HeldReader(s, h).value in s.readers
  {
  }

  lemma NumbersAfter(s: State, e: Event)
    requires Enabled(s, e) && Numbered(s) && Owned(s)
    ensures s.nextHandle <= Apply(s, e).nextHandle && s.nextId <= Apply(s, e).nextId
    ensures e.OpenSucceeds? ==> s.threads[e.t].reader in s.readers && s.threads[e.t].Opening?
    ensures e.OpenSucceeds? || e.PrepareStart? ==> s.nextHandle < Apply(s, e).nextHandle
    ensures forall id | id in Apply(s, e).streams :: id < Apply(s, e).nextId
  {
    if e.OpenSucceeds? {
      assert HeldReader(s, Thread(e.t)) == Some(s.threads[e.t].reader);
    }
  }

  lemma OpeningUnpaired(s: State, e: Event, t: ThreadId, c: Handle)
    requires Enabled(s, e) && Owned(s) && Numbered(s)
    requires t in Apply(s, e).threads && Apply(s, e).threads[t].Opening? && c in Apply(s, e).pairs
    ensures Apply(s, e).pairs[c] != Apply(s, e).threads[t].reader
  {
    if e.OpenSucceeds? && c == s.nextHandle {
      assert HeldReader(s, Thread(t)) == Some(s.threads[t].reader)
        && HeldReader(s, Thread(e.t)) == Some(s.threads[e.t].reader);
    }
  }

  lemma WholeStep(s: State, e: Event)
    requires Enabled(s, e) && Owned(s) && Numbered(s) && Whole(s)
    ensures Whole(Apply(s, e))
  {
    hide HeldCodec, HeldReader, Owned, Apply, Enabled, AllOrNone;
    var u := Apply(s, e);
    forall id | id in u.streams ensures AllOrNone(u.streams[id]) {
      EntryWhole(s, e, id);
    }
    forall t | t in u.threads && Running(u.threads[t])
      ensures u.threads[t].id < u.nextId && (u.threads[t].id in u.streams ==> u.streams[u.threads[t].id] == Emptied)
    {
      RunnerEmptied(s, e, t);
    }
    QuietAfterEnd(s, e);
  }

  lemma EntryWhole(s: State, e: Event, id: StreamId)
    requires Enabled(s, e) && Whole(s) && id in Apply(s, e).streams
    ensures AllOrNone(Apply(s, e).streams[id])
  {
  }

  lemma RunnerEmptied(s: State, e: Event, t: ThreadId)
    requires Enabled(s, e) && Numbered(s) && Whole(s) && t in Apply(s, e).threads && Running(Apply(s, e).threads[t])
    ensures var u := Apply(s, e);
            u.threads[t].id < u.nextId && (u.threads[t].id in u.streams ==> u.streams[u.threads[t].id] == Emptied)
  {
    if e.Take? {
      RunnerAfterTake(s, e, t);
    } else {
      RunnerStays(s, e, t);
      assert s.threads[t].id < s.nextId;
      hide Apply, Enabled, Running, Whole, Numbered;
      EmptiedStays(s, e, s.threads[t].id);
    }
  }

  /** Only a take makes a runner. */
  lemma RunnerStays(s: State, e: Event, t: ThreadId)
    requires Enabled(s, e) && !e.Take? && t in Apply(s, e).threads && Running(Apply(s, e).threads[t])
    ensures t in s.threads && Running(s.threads[t]) && s.threads[t].id == Apply(s, e).threads[t].id
  {
  }

  /** Nobody fills an entry again. */
  lemma EmptiedStays(s: State, e: Event, id: StreamId)
    requires Enabled(s, e) && id < s.nextId && (id in s.streams ==> s.streams[id] == Emptied)
    ensures id < Apply(s, e).nextId && (id in Apply(s, e).streams ==> Apply(s, e).streams[id] == Emptied)
  {
  }

  lemma RunnerAfterTake(s: State, e: Event, t: ThreadId)
    requires e.Take? && Enabled(s, e) && Numbered(s) && Whole(s) && t in Apply(s, e).threads
             && Running(Apply(s, e).threads[t])
    ensures var u := Apply(s, e);
            u.threads[t].id < u.nextId && (u.threads[t].id in u.streams ==> u.streams[u.threads[t].id] == Emptied)
  {
  }

  lemma QuietAfterEnd(s: State, e: Event)
    requires Enabled(s, e) && Whole(s)
    ensures !Apply(s, e).alive ==> Quiet(Apply(s, e))
  {
  }

  // ------------------------------------------------------------------ counting

  lemma WaitingAfter(s: State, e: Event)
    requires Enabled(s, e) && Numbered(s) && Whole(s)
    ensures Waiting(Apply(s, e)) ==
      match e
      case Insert(t) => Waiting(s) + {s.nextId}
      case Take(t) => Waiting(s) - {s.threads[t].id}
      case DropStream(id) => Waiting(s) - {id}
      case _ => Waiting(s)
    ensures s.nextId !in Waiting(s)
  {
  }

  /** Whether a take succeeds. */
  predicate Takes(s: State, e: Event) {
    e.Take? && Enabled(s, e) && s.threads[e.t].id in Waiting(s)
  }

  lemma BusyAfter(s: State, e: Event)
    requires Enabled(s, e) && Whole(s)
    ensures Busy(Apply(s, e))
         == if Takes(s, e) then Busy(s) + {e.t} else if e.Uncount? then Busy(s) - {e.t} else Busy(s)
    ensures (Takes(s, e) ==> e.t !in Busy(s)) && (e.Uncount? ==> e.t in Busy(s))
  {
  }

  lemma UncountedAfter(s: State, e: Event)
    requires Enabled(s, e)
    ensures Uncounted(Apply(s, e))
         == if e.Insert? then Uncounted(s) + {e.t} else if e.Count? then Uncounted(s) - {e.t} else Uncounted(s)
    ensures (e.Insert? ==> e.t !in Uncounted(s)) && (e.Count? ==> e.t in Uncounted(s))
  {
  }

  lemma CounterAfter(s: State, e: Event)
    requires Enabled(s, e) && Whole(s)
    ensures Apply(s, e).counter ==
      if e.Count? then Up(s.counter)
      else if e.Uncount? || (e.DropStream? && e.id in Waiting(s)) then Down(s.counter)
      else s.counter
  {
  }

  /** How the agreement of counter and sets moves with each of them. */
  lemma SameCount(counter: U32, uncounted: nat, live: nat)
    requires (counter + uncounted) % 0x1_0000_0000 == live % 0x1_0000_0000
    ensures (counter + uncounted + 1) % 0x1_0000_0000 == (live + 1) % 0x1_0000_0000
    ensures uncounted > 0 ==> (Up(counter) + (uncounted - 1)) % 0x1_0000_0000 == live % 0x1_0000_0000
    ensures live > 0 ==> (Down(counter) + uncounted) % 0x1_0000_0000 == (live - 1) % 0x1_0000_0000
  {
    Shift(counter + uncounted, live, 1);
    if uncounted > 0 && counter == 0xFFFF_FFFF {
      Wrap(uncounted - 1);
    }
    if live > 0 {
      Shift(counter + uncounted, live, -1);
      if counter == 0 {
        Wrap(uncounted - 1);
      }
    }
  }

  lemma Shift(a: nat, b: nat, k: int)
    requires a % 0x1_0000_0000 == b % 0x1_0000_0000
    ensures (a + k) % 0x1_0000_0000 == (b + k) % 0x1_0000_0000
  {
  }

  lemma Wrap(a: int)
    ensures (a + 0x1_0000_0000) % 0x1_0000_0000 == a % 0x1_0000_0000
  {
  }

  lemma CounterStep(s: State, e: Event)
    requires Enabled(s, e) && Numbered(s) && Whole(s) && CounterExact(s)
    ensures CounterExact(Apply(s, e))
  {
    hide Apply, Enabled, Numbered, Whole, Waiting, Busy, Uncounted, Up, Down;
    var u := Apply(s, e);
    var pending, live := |Uncounted(u)|, |Waiting(u)| + |Busy(u)|;
    SizesAfter(s, e);
    SameCount(s.counter, |Uncounted(s)|, |Waiting(s)| + |Busy(s)|);
  }

  /** The sizes move together: one step of the counter per change of the balance. */
  lemma SizesAfter(s: State, e: Event)
    requires Enabled(s, e) && Numbered(s) && Whole(s)
    ensures var u := Apply(s, e);
            var pending, live := |Uncounted(s)|, |Waiting(s)| + |Busy(s)|;
            var pendingAfter, liveAfter := |Uncounted(u)|, |Waiting(u)| + |Busy(u)|;
            || (u.counter == s.counter && pendingAfter == pending && liveAfter == live)
            || (u.counter == s.counter && pendingAfter == pending + 1 && liveAfter == live + 1)
            || (u.counter == Up(s.counter) && pending > 0 && pendingAfter == pending - 1 && liveAfter == live)
            || (u.counter == Down(s.counter) && pendingAfter == pending && live > 0 && liveAfter == live - 1)
  {
    hide Apply, Numbered, Whole, Waiting, Busy, Uncounted, Up, Down;
    WaitingAfter(s, e);
    BusyAfter(s, e);
    UncountedAfter(s, e);
    CounterAfter(s, e);
  }

  // ------------------------------------------------------------- over every run

  lemma InvStep(s: State, e: Event)
    requires Inv(s) && Enabled(s, e)
    ensures Inv(Apply(s, e))
  {
    hide Owned, NothingLeaks, ReadersOutlive, OncePerDrop, InOrder, Numbered, Whole, CounterExact, Apply, Enabled;
    OwnedStep(s, e);
    NothingLeaksStep(s, e);
    ReadersOutliveStep(s, e);
    OncePerDropStep(s, e);
    InOrderStep(s, e);
    NumberedStep(s, e);
    WholeStep(s, e);
    CounterStep(s, e);
  }

  lemma FreshInv()
    ensures Inv(Fresh)
  {
    assert Waiting(Fresh) == {} && Busy(Fresh) == {} && Uncounted(Fresh) == {};
    assert forall h :: HeldCodec(Fresh, h).None? && HeldReader(Fresh, h).None?;
  }

  lemma {:induction false} RunInv(events: seq<Event>)
    requires Feasible(events)
    ensures Inv(After(events))
    decreases |events|
  {
    hide Inv, Apply, Enabled;
    if |events| == 0 {
      FreshInv();
    } else {
      var n := |events| - 1;
      RunInv(events[..n]);
      InvStep(After(events[..n]), events[n]);
    }
  }

  /** In every interleaving no codec stream is dropped twice, no reader is, and a
      reader is dropped only after the codec stream reading through it. */
  lemma DroppedOnceAndInOrder(events: seq<Event>, i: nat, j: nat)
    requires Feasible(events) && i < |After(events).drops| && j < |After(events).drops|
    ensures After(events).drops[i] == After(events).drops[j] ==> i == j
    ensures forall c | c in After(events).pairs && After(events).drops[i] == ReaderDrop(After(events).pairs[c]) ::
              exists k | 0 <= k < i :: After(events).drops[k] == CodecDrop(c)
  {
    RunInv(events);
    var s := After(events);
    forall c | c in s.pairs && s.drops[i] == ReaderDrop(s.pairs[c])
      ensures exists k | 0 <= k < i :: s.drops[k] == CodecDrop(c)
    {
      assert CodecDrop(c) in s.drops[..i];
    }
  }

  /** When the engine and all its streams are gone, every codec stream ever opened
      and every reader ever created has been dropped, and the counter is zero. */
  lemma NothingLeftAtTheEnd(events: seq<Event>)
    requires Feasible(events) && !After(events).alive && After(events).streams == map[]
    ensures forall c | c in After(events).pairs ::
              CodecDrop(c) in After(events).drops && ReaderDrop(After(events).pairs[c]) in After(events).drops
    ensures forall r | r in After(events).readers :: ReaderDrop(r) in After(events).drops
    ensures After(events).counter == 0
  {
    hide Inv, After, Feasible;
    RunInv(events);
    EndState(After(events));
  }

  lemma EndState(s: State)
    requires Inv(s) && !s.alive && s.streams == map[]
    ensures forall c | c in s.pairs :: CodecDrop(c) in s.drops && ReaderDrop(s.pairs[c]) in s.drops
    ensures forall r | r in s.readers :: ReaderDrop(r) in s.drops
    ensures s.counter == 0
  {
    NobodyHolds(s);
    hide Owned, NothingLeaks, ReadersOutlive, OncePerDrop, InOrder, HeldCodec, HeldReader, Whole;
    assert Waiting(s) == {} && Busy(s) == {} && Uncounted(s) == {} by {
      EndIsQuiet(s);
    }
  }

  lemma EndIsQuiet(s: State)
    requires Whole(s) && !s.alive
    ensures Quiet(s)
  {
  }

  lemma NobodyHolds(s: State)
    requires NothingLeaks(s) && Whole(s) && !s.alive && s.streams == map[]
    ensures forall c | c in s.pairs :: CodecDrop(c) in s.drops
    ensures forall r | r in s.readers :: ReaderDrop(r) in s.drops
  {
    assert forall h :: HeldCodec(s, h).None? && HeldReader(s, h).None?;
  }

  function OpenCodecs(s: State): set<Handle> {
    set c | c in s.pairs && CodecDrop(c) !in s.drops
  }

  /** Injective maps have as many values as keys. */
  lemma {:induction false} InjectiveSize(m: map<nat, nat>)
    requires forall a, b | a in m && b in m && m[a] == m[b] :: a == b
    ensures |m.Values| == |m.Keys|
    decreases |m|
  {
    if m != map[] {
      var k :| k in m;
      var rest := m - {k};
      InjectiveSize(rest);
      assert m.Keys == rest.Keys + {k};
      assert m.Values == rest.Values + {m[k]};
    }
  }

  /** The codec streams of the untaken entries. */
  function WaitingCodecs(s: State): map<StreamId, Handle> {
    map id | id in Waiting(s) :: s.streams[id].ptr.value
  }

  lemma WaitingCodecsOpen(s: State)
    requires Owned(s) && Whole(s)
    ensures forall id | id in WaitingCodecs(s) ::
              HeldCodec(s, Stream(id)) == Some(WaitingCodecs(s)[id]) && WaitingCodecs(s)[id] in OpenCodecs(s)
  {
    forall id | id in Waiting(s)
      ensures HeldCodec(s, Stream(id)) == Some(WaitingCodecs(s)[id]) && WaitingCodecs(s)[id] in OpenCodecs(s)
    {
      WaitingHolds(s, id);
    }
  }

  lemma OpenCodecsWait(s: State)
    requires NothingLeaks(s) && Whole(s) && Quiet(s)
    ensures OpenCodecs(s) <= WaitingCodecs(s).Values
  {
    forall c | c in OpenCodecs(s) ensures c in WaitingCodecs(s).Values {
      QuietHolder(s, c);
      var id :| id in s.streams && s.streams[id].ptr == Some(c);
      assert id in WaitingCodecs(s) && WaitingCodecs(s)[id] == c;
    }
  }

  /** With no thread in flight the open codec streams are the untaken ones. */
  lemma QuietHolders(s: State)
    requires Owned(s) && NothingLeaks(s) && Whole(s) && Quiet(s)
    ensures |OpenCodecs(s)| == |Waiting(s)|
  {
    WaitingCodecsOpen(s);
    OpenCodecsWait(s);
    var held := WaitingCodecs(s);
    hide Whole, NothingLeaks, HeldCodec, Quiet, Waiting, OpenCodecs;
    assert held.Values == OpenCodecs(s) && held.Keys == Waiting(s);
    InjectiveSize(held);
  }

  lemma WaitingHolds(s: State, id: StreamId)
    requires Owned(s) && Whole(s) && id in Waiting(s)
    ensures HeldCodec(s, Stream(id)) == s.streams[id].ptr && s.streams[id].ptr.value in OpenCodecs(s)
  {
    assert AllOrNone(s.streams[id]);
  }

  lemma QuietHolder(s: State, c: Handle)
    requires NothingLeaks(s) && Whole(s) && Quiet(s) && c in OpenCodecs(s)
    ensures exists id :: id in s.streams && s.streams[id].ptr == Some(c)
  {
    var h: Holder :| HeldCodec(s, h) == Some(c);
    assert AllOrNone(s.streams[h.id]);
  }

  /** At every quiet point the counter is the number of open codec streams. */
  lemma QuietCounter(events: seq<Event>)
    requires Feasible(events) && Quiet(After(events))
    ensures After(events).counter == |OpenCodecs(After(events))| % 0x1_0000_0000
  {
    hide Owned, NothingLeaks, ReadersOutlive, OncePerDrop, InOrder, Numbered, Whole, OpenCodecs, Waiting, Apply,
         Enabled;
    RunInv(events);
    var s := After(events);
    QuietHolders(s);
    assert Busy(s) == {} && Uncounted(s) == {};
  }

  /** A take never loses resources: it yields the pair or leaves the entry alone,
      and it fails only on an emptied entry. */
  lemma TakesAllOrNothing(events: seq<Event>, id: StreamId)
    requires Feasible(events) && id in After(events).streams
    ensures var a := After(events).streams[id];
            var (left, r) := TakeResources(a);
            && (r.Ok? ==> left == Emptied && a == Active(Some(r.value.0), Some(r.value.0), Some(r.value.1)))
            && (r.Err? ==> left == a == Emptied && r.error == ResourcesConsumed)
  {
    RunInv(events);
    assert AllOrNone(After(events).streams[id]);
  }

  lemma NextIdGrows(s: State, e: Event)
    requires Enabled(s, e)
    ensures s.nextId <= Apply(s, e).nextId
  {
  }

  lemma {:induction false} GoneStaysGone(events: seq<Event>, i: nat, id: StreamId)
    requires Feasible(events) && i <= |events| && Feasible(events[..i])
    requires id < After(events[..i]).nextId && id !in Waiting(After(events[..i]))
    ensures id < After(events).nextId && id !in Waiting(After(events))
    decreases |events|
  {
    hide Waiting, Inv, Enabled, Apply, Numbered, Whole;
    if i == |events| {
      assert events[..i] == events;
    } else {
      var n := |events| - 1;
      assert events[..n][..i] == events[..i];
      GoneStaysGone(events[..n], i, id);
      RunInv(events[..n]);
      InvNumbered(After(events[..n]));
      WaitingAfter(After(events[..n]), events[n]);
      NextIdGrows(After(events[..n]), events[n]);
    }
  }

  lemma InvNumbered(s: State)
    requires Inv(s)
    ensures Numbered(s) && Whole(s) && forall id | id in Waiting(s) :: id < s.nextId
  {
  }

  lemma {:induction false} FeasiblePrefix(events: seq<Event>, i: nat)
    requires Feasible(events) && i <= |events|
    ensures Feasible(events[..i])
    decreases |events|
  {
    if i < |events| {
      assert events[..|events| - 1][..i] == events[..i];
      FeasiblePrefix(events[..|events| - 1], i);
    } else {
      assert events[..i] == events;
    }
  }

  /** A stream runs at most once: of all takes of one stream only the first can
      succeed, whatever happens in between. */
  lemma RunsOnce(events: seq<Event>, i: nat, j: nat)
    requires Feasible(events) && i < j < |events|
    requires Feasible(events[..i]) && Feasible(events[..j])
    requires Takes(After(events[..i]), events[i])
    ensures Takes(After(events[..j]), events[j]) ==>
              After(events[..j]).threads[events[j].t].id != After(events[..i]).threads[events[i].t].id
  {
    hide Inv, Apply, Numbered, Whole, Waiting;
    var s, e := After(events[..i]), events[i];
    var id := s.threads[e.t].id;
    FeasiblePrefix(events, i + 1);
    assert events[..i + 1][..i] == events[..i] && events[..j][..i + 1] == events[..i + 1];
    RunInv(events[..i]);
    InvNumbered(s);
    WaitingAfter(s, e);
    NextIdGrows(s, e);
    GoneStaysGone(events[..j], i + 1, id);
  }

  /** Entries are added under the next id only. */
  lemma EntriesAfter(s: State, e: Event)
    requires Enabled(s, e)
    ensures forall id | id in Apply(s, e).streams && id !in s.streams :: e.Insert? && id == s.nextId
    ensures e.Remove? ==> s.threads[e.t].id !in Apply(s, e).streams && Apply(s, e).threads[e.t] == Finished
    ensures e.DropStream? ==> e.id !in Apply(s, e).streams
    ensures forall id | id in s.streams && id !in Apply(s, e).streams ::
              e == DropStream(id) || (e.Remove? && s.threads[e.t].id == id)
  {
  }

  lemma {:induction false} EntryStaysGone(events: seq<Event>, i: nat, id: StreamId)
    requires Feasible(events) && i <= |events| && Feasible(events[..i])
    requires id < After(events[..i]).nextId && id !in After(events[..i]).streams
    ensures id < After(events).nextId && id !in After(events).streams
    decreases |events|
  {
    hide Enabled, Apply;
    if i == |events| {
      assert events[..i] == events;
    } else {
      var n := |events| - 1;
      assert events[..n][..i] == events[..i];
      EntryStaysGone(events[..n], i, id);
      EntriesAfter(After(events[..n]), events[n]);
      NextIdGrows(After(events[..n]), events[n]);
    }
  }

  /** A run that has come to its end has taken its stream out of the engine for good. */
  lemma {:induction false} FinishedRunLeavesNoEntry(events: seq<Event>, i: nat)
    requires Feasible(events) && i < |events| && Feasible(events[..i]) && events[i].Remove?
    ensures Enabled(After(events[..i]), events[i])
    ensures After(events[..i]).threads[events[i].t].id !in After(events).streams
  {
    hide Enabled, Apply, Inv, Whole, Numbered;
    FeasiblePrefix(events, i + 1);
    assert events[..i + 1][..i] == events[..i];
    var s, e := After(events[..i]), events[i];
    RunInv(events[..i]);
    RemovingIsKnown(s, e);
    EntriesAfter(s, e);
    NextIdGrows(s, e);
    EntryStaysGone(events, i + 1, s.threads[e.t].id);
  }

  lemma RemovingIsKnown(s: State, e: Event)
    requires Inv(s) && Enabled(s, e) && e.Remove?
    ensures e.t in s.threads && s.threads[e.t].Removing? && s.threads[e.t].id < s.nextId
  {
  }

  // --------------------------------------------------------------- a whole life

  lemma Onward(events: seq<Event>, s: State, e: Event, u: State)
    requires Feasible(events) && After(events) == s && Enabled(s, e) && Apply(s, e) == u
    ensures Feasible(events + [e]) && After(events + [e]) == u
  {
    hide Enabled, Apply;
    assert (events + [e])[..|events|] == events;
  }

  /** A stream is prepared: its codec is open on its reader and it is counted. */
  lemma Prepared() returns (events: seq<Event>, s: State)
    ensures Feasible(events) && After(events) == s
    ensures s == State(map[0 := Finished], map[0 := Active(Some(1), Some(1), Some(0))], 1, [], map[1 := 0], {0}, 1, 2,
                       true)
  {
    var s0, s1 := Fresh, State(map[0 := Opening(0)], map[], 0, [], map[], {0}, 0, 1, true);
    var s2 := State(map[0 := Opened(1, 0)], map[], 0, [], map[1 := 0], {0}, 0, 2, true);
    var held := map[0 := Active(Some(1), Some(1), Some(0))];
    var s3 := State(map[0 := Counting], held, 0, [], map[1 := 0], {0}, 1, 2, true);
    s := State(map[0 := Finished], held, 1, [], map[1 := 0], {0}, 1, 2, true);
    assert Apply(s0, PrepareStart(0)) == s1;
    assert Apply(s1, OpenSucceeds(0)) == s2;
    assert Apply(s2, Insert(0)) == s3;
    assert Apply(s3, Count(0)) == s;
    assert Feasible([]) && After([]) == Fresh;
    hide Apply, Feasible, After;
    Onward([], s0, PrepareStart(0), s1);
    Onward([] + [PrepareStart(0)], s1, OpenSucceeds(0), s2);
    Onward([] + [PrepareStart(0)] + [OpenSucceeds(0)], s2, Insert(0), s3);
    Onward([] + [PrepareStart(0)] + [OpenSucceeds(0)] + [Insert(0)], s3, Count(0), s);
    events := [] + [PrepareStart(0)] + [OpenSucceeds(0)] + [Insert(0)] + [Count(0)];
  }

  const Held: map<Handle, Handle> := map[1 := 0]

  /** A run takes it over, ... */
  lemma Taken0() returns (events: seq<Event>)
    ensures Feasible(events)
    ensures After(events)
         == State(map[0 := Finished, 1 := Decoding(0, 1, 0)], map[0 := Emptied], 1, [], Held, {0}, 1, 2, true)
  {
    var s;
    events, s := Prepared();
    var pc: map<ThreadId, Pc> := map[0 := Finished, 1 := Starting(0)];
    var s1 := s.(threads := pc);
    var s2 := s1.(threads := pc[1 := Decoding(0, 1, 0)], streams := map[0 := Emptied]);
    hide Feasible, After;
    assert Apply(s, RunStart(1, 0)) == s1 && Enabled(s, RunStart(1, 0));
    assert Apply(s1, Take(1)) == s2 && Enabled(s1, Take(1));
    hide Apply, Enabled;
    Onward(events, s, RunStart(1, 0), s1);
    Onward(events + [RunStart(1, 0)], s1, Take(1), s2);
    events := events + [RunStart(1, 0)] + [Take(1)];
  }

  /** ... drops codec stream and reader, ... */
  lemma Closed0() returns (events: seq<Event>)
    ensures Feasible(events)
    ensures After(events) == State(map[0 := Finished, 1 := Uncounting(0)], map[0 := Emptied], 1,
                                   [CodecDrop(1), ReaderDrop(0)], Held, {0}, 1, 2, true)
  {
    events := Taken0();
    var s2 := After(events);
    var s3 := s2.(threads := map[0 := Finished, 1 := Closing(0, 0)], drops := [CodecDrop(1)]);
    var s4 := s3.(threads := map[0 := Finished, 1 := Uncounting(0)], drops := [CodecDrop(1), ReaderDrop(0)]);
    hide Feasible, After;
    assert Apply(s2, CloseCodec(1)) == s3 && Enabled(s2, CloseCodec(1));
    assert Apply(s3, CloseReader(1)) == s4 && Enabled(s3, CloseReader(1));
    hide Apply, Enabled;
    Onward(events, s2, CloseCodec(1), s3);
    Onward(events + [CloseCodec(1)], s3, CloseReader(1), s4);
    events := events + [CloseCodec(1)] + [CloseReader(1)];
  }

  /** ... is counted out ... */
  lemma Uncounted0() returns (events: seq<Event>)
    ensures Feasible(events)
    ensures After(events) == State(map[0 := Finished, 1 := Removing(0)], map[0 := Emptied], 0,
                                   [CodecDrop(1), ReaderDrop(0)], Held, {0}, 1, 2, true)
  {
    events := Closed0();
    var s4 := After(events);
    var s5 := s4.(threads := map[0 := Finished, 1 := Removing(0)], counter := 0);
    hide Feasible, After;
    assert Apply(s4, Uncount(1)) == s5 && Enabled(s4, Uncount(1));
    hide Apply, Enabled;
    Onward(events, s4, Uncount(1), s5);
    events := events + [Uncount(1)];
  }

  /** ... and taken out. */
  lemma Removed0() returns (events: seq<Event>)
    ensures Feasible(events)
    ensures After(events)
         == State(map[0 := Finished, 1 := Finished], map[], 0, [CodecDrop(1), ReaderDrop(0)], Held, {0}, 1, 2, true)
  {
    events := Uncounted0();
    var s5 := After(events);
    var s6 := s5.(threads := map[0 := Finished, 1 := Finished], streams := map[]);
    assert DropsOf(Emptied) == [];
    hide Feasible, After;
    assert Apply(s5, Remove(1)) == s6 && Enabled(s5, Remove(1));
    hide Apply, Enabled;
    Onward(events, s5, Remove(1), s6);
    events := events + [Remove(1)];
  }

  /** So the life of a stream can go all the way to the end of the engine, with its codec
      stream and then its reader dropped, no entry left and the count back at zero. */
  lemma WholeLife() returns (events: seq<Event>)
    ensures Feasible(events)
    ensures After(events)
         == State(map[0 := Finished, 1 := Finished], map[], 0, [CodecDrop(1), ReaderDrop(0)], Held, {0}, 1, 2, false)
  {
    events := Removed0();
    var s := After(events);
    hide Feasible, After;
    assert Quiet(s) && Enabled(s, DropEngine) && Apply(s, DropEngine) == s.(alive := false);
    hide Apply, Enabled;
    Onward(events, s, DropEngine, s.(alive := false));
    events := events + [DropEngine];
  }
}
