/**
 The persistent queue as a state machine: a RAM queue, the shadow vector that mirrors it and the
 snapshot file, stepped by the calls of PersistentQueueMirror and by reboots.

 Every call is one atomic step.  Each file rewrite ends in one of three ways, chosen by the
 environment.
 */
module QueueRuns {
  import opened Words
  import opened Prelude
  import opened RecordCodec
  import opened Snapshot

  /** How one rewrite of the snapshot file ends. */
  datatype WriteOutcome =
    | Complete
    | OpenFailed          // the old file is still there
    | Torn(bytes: nat)    // only a prefix of the new contents reached the file

  /** capacity bounds the shadow vector, queueLength the RAM queue; reservable items fit the heap. */
  datatype Config<!T> = Config(codec: Codec<T>, capacity: nat, queueLength: nat, reservable: nat)

  /** message_bus wires both bounds to the same constant; a full shadow fits the heap. */
  ghost predicate Wired<T(!new)>(cfg: Config<T>) {
    Lawful(cfg.codec) && cfg.queueLength == cfg.capacity < 0x1_0000_0000 && cfg.capacity <= cfg.reservable
  }

  /** The file can be loaded without an abort. */
  predicate Loads<T>(cfg: Config<T>, file: Option<seq<Octet>>) {
    Reservable(cfg.codec.size, cfg.reservable, file)
  }

  datatype State<T> = State(ram: seq<T>, shadow: seq<T>, file: Option<seq<Octet>>)

  /** The file after a rewrite with the given shadow. */
  function Written<T>(c: Codec<T>, shadow: seq<T>, before: Option<seq<Octet>>, w: WriteOutcome): Option<seq<Octet>> {
    match w
    case Complete => Some(Print(c, shadow))
    case OpenFailed => before
    case Torn(n) => Some(Print(c, shadow)[..Min(n, |Print(c, shadow)|)])
  }

  function Persist<T>(c: Codec<T>, s: State<T>, w: WriteOutcome): State<T> {
    s.(file := Written(c, s.shadow, s.file, w))
  }

  /** enqueue: xQueueSend first, then the shadow if it has room, then the file. */
  function Enqueue<T>(cfg: Config<T>, s: State<T>, item: T, w: WriteOutcome): State<T> {
    if |s.ram| >= cfg.queueLength then s
    else
      var shadow := if |s.shadow| < cfg.capacity then s.shadow + [item] else s.shadow;
      Persist(cfg.codec, State(s.ram + [item], shadow, s.file), w)
  }

  /** ack and pop: drop the head of both. */
  function Drop<T>(cfg: Config<T>, s: State<T>, w: WriteOutcome): State<T> {
    if s.ram == [] then s
    else
      var shadow := if s.shadow != [] then s.shadow[1..] else s.shadow;
      Persist(cfg.codec, State(s.ram[1..], shadow, s.file), w)
  }

  /** init on fresh RAM: a missing mount leaves the shadow empty, an absurd item count aborts. */
  function LoadShadow<T(!new)>(cfg: Config<T>, mounted: bool, s: State<T>): Option<(State<T>, bool)>
    requires Lawful(cfg.codec)
  {
    if !mounted then Some((State([], [], s.file), false))
    else if !Loads(cfg, s.file) then None
    else
      var loaded := Load(cfg.codec, cfg.capacity, s.file);
      Some((State([], loaded.items, s.file), loaded.ok))
  }

  /** restoreToRam into an empty queue. */
  function Restore<T>(cfg: Config<T>, s: State<T>, w: WriteOutcome): State<T> {
    var n := Min(|s.shadow|, cfg.queueLength);
    var filled := s.(ram := s.shadow[..n]);
    if n != |s.shadow| then Persist(cfg.codec, filled.(shadow := s.shadow[..n]), w) else filled
  }

  /** MessageBus::init for one queue after a reset: restore only if init succeeded.  None: it aborts. */
  function Boot<T(!new)>(cfg: Config<T>, mounted: bool, s: State<T>, w: WriteOutcome): Option<State<T>>
    requires Lawful(cfg.codec)
  {
    match LoadShadow(cfg, mounted, s)
    case None => None
    case Some((loaded, ok)) => Some(if ok then Restore(cfg, loaded, w) else loaded)
  }

  // ---------------------------------------------------------------------------------------------
  // Runs
  // ---------------------------------------------------------------------------------------------

  datatype Event<T> =
    | Publish(item: T, w: WriteOutcome)
    | Peek
    | Ack(w: WriteOutcome)
    | Pop(w: WriteOutcome)
    | Reboot(w: WriteOutcome)

  /**
   A state together with everything ever accepted and everything ever retired.  Halted: a boot has
   aborted; as the file stays as it is, so does every later one.
   */
  datatype Trace<T> = Trace(state: State<T>, accepted: seq<T>, retired: seq<T>, halted: bool)

  function Begin<T>(s: State<T>): Trace<T> {
    Trace(s, s.ram, [], false)
  }

  function Step<T(!new)>(cfg: Config<T>, t: Trace<T>, e: Event<T>): Trace<T>
    requires Lawful(cfg.codec)
  {
    var s := t.state;
    if t.halted then t
    else
      match e
      case Publish(item, w) =>
        var accepted := if |s.ram| < cfg.queueLength then t.accepted + [item] else t.accepted;
        t.(state := Enqueue(cfg, s, item, w), accepted := accepted)
      case Peek => t
      case Ack(w) => t.(state := Drop(cfg, s, w), retired := t.retired + s.ram[..Min(1, |s.ram|)])
      case Pop(w) => t.(state := Drop(cfg, s, w), retired := t.retired + s.ram[..Min(1, |s.ram|)])
      case Reboot(w) =>
        match Boot(cfg, true, s, w)
        case None => t.(halted := true)
        case Some(booted) => t.(state := booted)
  }

  function Run<T(!new)>(cfg: Config<T>, t: Trace<T>, events: seq<Event<T>>): Trace<T>
    requires Lawful(cfg.codec)
    decreases |events|
  {
    if events == [] then t else Run(cfg, Step(cfg, t, events[0]), events[1..])
  }

  predicate WritesSucceed<T>(e: Event<T>) {
    e.Peek? || e.w.Complete?
  }

  /** Queue, shadow and file describe the same items. */
  ghost predicate Agree<T(!new)>(cfg: Config<T>, s: State<T>)
    requires Lawful(cfg.codec)
  {
    && s.ram == s.shadow
    && |s.shadow| <= cfg.capacity
    && Load(cfg.codec, cfg.capacity, s.file).items == s.shadow
  }

  /** Nothing is lost, duplicated or reordered. */
  predicate Conserved<T(==)>(t: Trace<T>) {
    t.accepted == t.retired + t.state.ram
  }

  lemma {:induction false} PersistComplete<T(!new)>(cfg: Config<T>, s: State<T>)
    requires Wired(cfg) && |s.shadow| <= cfg.capacity
    ensures Load(cfg.codec, cfg.capacity, Persist(cfg.codec, s, Complete).file).items == s.shadow
  {
    SnapshotRoundTrip(cfg.codec, cfg.capacity, s.shadow);
  }

  lemma {:induction false} StepAgrees<T(!new)>(cfg: Config<T>, t: Trace<T>, e: Event<T>)
    requires Wired(cfg) && Agree(cfg, t.state) && Conserved(t) && WritesSucceed(e)
    ensures Agree(cfg, Step(cfg, t, e).state) && Conserved(Step(cfg, t, e))
  {
    var s := t.state;
    match e {
      case Publish(item, w) =>
        if |s.ram| < cfg.queueLength {
          PersistComplete(cfg, State(s.ram + [item], s.shadow + [item], s.file));
        }
      case Peek =>
      case Ack(w) => DropAgrees(cfg, t);
      case Pop(w) => DropAgrees(cfg, t);
      case Reboot(w) => BootAgrees(cfg, s, w);
    }
  }

  lemma {:induction false} DropAgrees<T(!new)>(cfg: Config<T>, t: Trace<T>)
    requires Wired(cfg) && Agree(cfg, t.state) && Conserved(t)
    ensures Agree(cfg, Drop(cfg, t.state, Complete))
    ensures t.accepted == t.retired + t.state.ram[..Min(1, |t.state.ram|)] + Drop(cfg, t.state, Complete).ram
  {
    var s := t.state;
    RetireHead(t.accepted, t.retired, s.ram);
    if s.ram != [] {
      PersistComplete(cfg, State(s.ram[1..], s.shadow[1..], s.file));
    }
  }

  lemma {:induction false} RetireHead<T>(accepted: seq<T>, retired: seq<T>, queue: seq<T>)
    requires accepted == retired + queue
    ensures accepted == retired + queue[..Min(1, |queue|)] + if queue == [] then [] else queue[1..]
  {
    if queue != [] {
      assert queue == queue[..1] + queue[1..];
    }
  }

  /**
   Over every run in which file writes succeed, reboots included, queue, shadow and file stay
   equal and the accepted items are the retired ones followed by the queue.
   */
  lemma {:induction false} RunAgrees<T(!new)>(cfg: Config<T>, t: Trace<T>, events: seq<Event<T>>)
    requires Wired(cfg) && Agree(cfg, t.state) && Conserved(t)
    requires forall i :: 0 <= i < |events| ==> WritesSucceed(events[i])
    ensures Agree(cfg, Run(cfg, t, events).state) && Conserved(Run(cfg, t, events))
    decreases |events|
  {
    if events != [] {
      StepAgrees(cfg, t, events[0]);
      RunAgrees(cfg, Step(cfg, t, events[0]), events[1..]);
    }
  }

  /**
   Whatever bytes the file holds, even a damaged header, boot starts in agreement, unless a good header
   announces more items than can be reserved: then, and only then, it aborts.
   */
  lemma {:induction false} BootAgrees<T(!new)>(cfg: Config<T>, s: State<T>, w: WriteOutcome)
    requires Wired(cfg)
    ensures match Boot(cfg, true, s, w)
            case None => !Loads(cfg, s.file)
            case Some(booted) =>
              && Loads(cfg, s.file) && Agree(cfg, booted) && booted.file == s.file
              && booted.ram == Load(cfg.codec, cfg.capacity, s.file).items
  {
    var loaded := Load(cfg.codec, cfg.capacity, s.file);
    assert loaded.items[..|loaded.items|] == loaded.items;
  }

  /** Sixteen bytes that abort every boot: a good header with the largest count there is. */
  lemma {:induction false} AbsurdCount<T(!new)>(cfg: Config<T>, mounted: bool, w: WriteOutcome)
    requires Wired(cfg) && cfg.codec.size < 0x1_0000_0000 && cfg.reservable < 0xFFFF_FFFF
    ensures var file := Some(Header(0xFFFF_FFFF, cfg.codec.size));
            && !Loads(cfg, file)
            && (Boot(cfg, mounted, State([], [], file), w).None? <==> mounted)
  {
    var h := Header(0xFFFF_FFFF, cfg.codec.size);
    HeaderFields(0xFFFF_FFFF, cfg.codec.size);
    assert h[..HEADER_SIZE] == h;
  }

  /** A rewrite that opened the file leaves the shadow's own count in it, or no whole header. */
  lemma {:induction false} WrittenCount<T(!new)>(
    cfg: Config<T>, shadow: seq<T>, before: Option<seq<Octet>>, w: WriteOutcome)
    requires Wired(cfg) && |shadow| <= cfg.capacity && !w.OpenFailed?
    ensures var file := Written(cfg.codec, shadow, before, w);
            && file.Some?
            && (|file.value| < HEADER_SIZE || Field(file.value[..HEADER_SIZE], 2) == |shadow| <= cfg.capacity)
            && Loads(cfg, file)
  {
    var file := Written(cfg.codec, shadow, before, w);
    var header := Header(|shadow|, cfg.codec.size);
    HeaderFields(|shadow|, cfg.codec.size);
    PrintShape(cfg.codec, shadow);
    if |file.value| >= HEADER_SIZE {
      assert file.value[..HEADER_SIZE] == header;
    }
  }

  lemma {:induction false} PersistLoads<T(!new)>(cfg: Config<T>, s: State<T>, w: WriteOutcome)
    requires Wired(cfg) && |s.shadow| <= cfg.capacity && Loads(cfg, s.file)
    ensures Loads(cfg, Persist(cfg.codec, s, w).file)
  {
    if !w.OpenFailed? {
      WrittenCount(cfg, s.shadow, s.file, w);
    }
  }

  lemma {:induction false} StepLoads<T(!new)>(cfg: Config<T>, t: Trace<T>, e: Event<T>)
    requires Wired(cfg) && Mirrored(cfg, t.state) && Loads(cfg, t.state.file) && !t.halted
    ensures Loads(cfg, Step(cfg, t, e).state.file) && !Step(cfg, t, e).halted
  {
    var s := t.state;
    match e {
      case Publish(item, w) =>
        if |s.ram| < cfg.queueLength {
          PersistLoads(cfg, State(s.ram + [item], s.shadow + [item], s.file), w);
        }
      case Peek =>
      case Ack(w) => if s.ram != [] { PersistLoads(cfg, State(s.ram[1..], s.shadow[1..], s.file), w); }
      case Pop(w) => if s.ram != [] { PersistLoads(cfg, State(s.ram[1..], s.shadow[1..], s.file), w); }
      case Reboot(w) => BootAgrees(cfg, s, w);
    }
  }

  /** Queue, shadow and file agree, and the file loads. */
  ghost predicate Sound<T(!new)>(cfg: Config<T>, s: State<T>)
    requires Lawful(cfg.codec)
  {
    Agree(cfg, s) && Loads(cfg, s.file)
  }

  /** A call whose write succeeds keeps that. */
  lemma {:induction false} StepSound<T(!new)>(cfg: Config<T>, s: State<T>, e: Event<T>)
    requires Wired(cfg) && Sound(cfg, s) && WritesSucceed(e)
    ensures Sound(cfg, Step(cfg, Trace(s, s.ram, [], false), e).state)
  {
    var t := Trace(s, s.ram, [], false);
    assert s.ram == [] + s.ram;
    StepAgrees(cfg, t, e);
    StepLoads(cfg, t, e);
  }

  lemma {:induction false} EnqueueSound<T(!new)>(cfg: Config<T>, s: State<T>, item: T)
    requires Wired(cfg) && Sound(cfg, s)
    ensures Sound(cfg, Enqueue(cfg, s, item, Complete))
  {
    StepSound(cfg, s, Publish(item, Complete));
  }

  lemma {:induction false} DropSound<T(!new)>(cfg: Config<T>, s: State<T>)
    requires Wired(cfg) && Sound(cfg, s)
    ensures Sound(cfg, Drop(cfg, s, Complete))
  {
    StepSound(cfg, s, Ack(Complete));
  }

  /** From a file that loads, no run reaches the abort, whatever becomes of its writes. */
  lemma {:induction false} NeverAborts<T(!new)>(cfg: Config<T>, t: Trace<T>, events: seq<Event<T>>)
    requires Wired(cfg) && Mirrored(cfg, t.state) && Loads(cfg, t.state.file) && !t.halted
    ensures Loads(cfg, Run(cfg, t, events).state.file) && !Run(cfg, t, events).halted
    decreases |events|
  {
    if events != [] {
      StepMirrored(cfg, t, events[0]);
      StepLoads(cfg, t, events[0]);
      NeverAborts(cfg, Step(cfg, t, events[0]), events[1..]);
    }
  }

  /**
   From any file contents, over every run with successful writes: either the very first boot aborts, for
   the one reason there is, or none ever does and queue, shadow and file agree and nothing is lost.
   */
  lemma {:induction false} DurableRun<T(!new)>(
    cfg: Config<T>, file: Option<seq<Octet>>, w: WriteOutcome, events: seq<Event<T>>)
    requires Wired(cfg)
    requires forall i :: 0 <= i < |events| ==> WritesSucceed(events[i])
    ensures match Boot(cfg, true, State([], [], file), w)
            case None => !Loads(cfg, file)
            case Some(start) =>
              var t := Run(cfg, Begin(start), events);
              && !t.halted
              && t.state.ram == t.state.shadow == Load(cfg.codec, cfg.capacity, t.state.file).items
              && t.accepted == t.retired + t.state.ram
  {
    BootAgrees(cfg, State([], [], file), w);
    match Boot(cfg, true, State([], [], file), w) {
      case None =>
      case Some(start) =>
        assert start.ram == [] + start.ram;
        RunAgrees(cfg, Begin(start), events);
        NeverAborts(cfg, Begin(start), events);
    }
  }

  // ---------------------------------------------------------------------------------------------
  // Failing writes
  // ---------------------------------------------------------------------------------------------

  /** RAM and shadow agree whatever happens to the file. */
  predicate Mirrored<T(==)>(cfg: Config<T>, s: State<T>) {
    s.ram == s.shadow && |s.shadow| <= cfg.capacity
  }

  lemma {:induction false} StepMirrored<T(!new)>(cfg: Config<T>, t: Trace<T>, e: Event<T>)
    requires Wired(cfg) && Mirrored(cfg, t.state)
    ensures Mirrored(cfg, Step(cfg, t, e).state)
    ensures !e.Reboot? && Conserved(t) ==> Conserved(Step(cfg, t, e))
  {
    match e {
      case Publish(item, w) => EnqueueMirrored(cfg, t.state, item, w);
      case Peek =>
      case Ack(w) => DropMirrored(cfg, t, w);
      case Pop(w) => DropMirrored(cfg, t, w);
      case Reboot(w) => BootAgrees(cfg, t.state, w);
    }
  }

  lemma {:induction false} EnqueueMirrored<T(!new)>(cfg: Config<T>, s: State<T>, item: T, w: WriteOutcome)
    requires Wired(cfg) && Mirrored(cfg, s)
    ensures Mirrored(cfg, Enqueue(cfg, s, item, w))
    ensures Enqueue(cfg, s, item, w).ram == if |s.ram| < cfg.queueLength then s.ram + [item] else s.ram
  {
  }

  lemma {:induction false} DropMirrored<T(!new)>(cfg: Config<T>, t: Trace<T>, w: WriteOutcome)
    requires Mirrored(cfg, t.state)
    ensures Mirrored(cfg, Drop(cfg, t.state, w))
    ensures Conserved(t) ==>
              t.accepted == t.retired + t.state.ram[..Min(1, |t.state.ram|)] + Drop(cfg, t.state, w).ram
  {
    if Conserved(t) {
      RetireHead(t.accepted, t.retired, t.state.ram);
    }
  }

  /**
   Whatever becomes of the file writes, RAM and shadow stay equal over every run; and between two
   reboots nothing accepted is lost, duplicated or reordered.
   */
  lemma {:induction false} RunMirrored<T(!new)>(cfg: Config<T>, t: Trace<T>, events: seq<Event<T>>)
    requires Wired(cfg) && Mirrored(cfg, t.state)
    ensures Mirrored(cfg, Run(cfg, t, events).state)
    ensures (forall i :: 0 <= i < |events| ==> !events[i].Reboot?) && Conserved(t)
            ==> Conserved(Run(cfg, t, events))
    decreases |events|
  {
    if events != [] {
      StepMirrored(cfg, t, events[0]);
      RunMirrored(cfg, Step(cfg, t, events[0]), events[1..]);
    }
  }

  /** With both bounds wired together the shadow has room whenever the RAM queue took the item. */
  lemma {:induction false} ShadowNeverFull<T(!new)>(cfg: Config<T>, t: Trace<T>, events: seq<Event<T>>)
    requires Wired(cfg) && Mirrored(cfg, t.state)
    ensures var s := Run(cfg, t, events).state; |s.ram| < cfg.queueLength ==> |s.shadow| < cfg.capacity
  {
    RunMirrored(cfg, t, events);
  }

  // ---------------------------------------------------------------------------------------------
  // Failing writes and reboots
  // ---------------------------------------------------------------------------------------------

  /** How many whole records n bytes of a snapshot hold. */
  function WholeItems<T>(c: Codec<T>, n: nat): nat
    requires c.size > 0
  {
    if n < HEADER_SIZE then 0 else WholeRecords(n - HEADER_SIZE, c.size)
  }

  /** The items on flash after a rewrite with the given shadow, if there were kept before. */
  function Rewritten<T>(c: Codec<T>, shadow: seq<T>, kept: seq<T>, w: WriteOutcome): seq<T>
    requires c.size > 0
  {
    match w
    case Complete => shadow
    case OpenFailed => kept
    case Torn(n) => shadow[..Min(WholeItems(c, n), |shadow|)]
  }

  /** The call changes the queue, so the file is rewritten. */
  predicate Rewrites<T>(cfg: Config<T>, s: State<T>, e: Event<T>) {
    match e
    case Publish(_, _) => |s.ram| < cfg.queueLength
    case Ack(_) => s.ram != []
    case Pop(_) => s.ram != []
    case Peek => false
    case Reboot(_) => false
  }

  function KeptStep<T(!new)>(cfg: Config<T>, t: Trace<T>, kept: seq<T>, e: Event<T>): seq<T>
    requires Lawful(cfg.codec)
  {
    if Rewrites(cfg, t.state, e) then Rewritten(cfg.codec, Step(cfg, t, e).state.shadow, kept, e.w) else kept
  }

  /**
   The shadow at the last rewrite of the run that opened the file, cut to the records that got there
   whole; kept if there was no such rewrite.
   */
  function KeptRun<T(!new)>(cfg: Config<T>, t: Trace<T>, kept: seq<T>, events: seq<Event<T>>): seq<T>
    requires Lawful(cfg.codec)
    decreases |events|
  {
    if events == [] then kept
    else KeptRun(cfg, Step(cfg, t, events[0]), KeptStep(cfg, t, kept, events[0]), events[1..])
  }

  /** RAM and shadow agree, and the file loads as kept. */
  ghost predicate OnFlash<T(!new)>(cfg: Config<T>, t: Trace<T>, kept: seq<T>)
    requires Lawful(cfg.codec)
  {
    && !t.halted && Mirrored(cfg, t.state) && Loads(cfg, t.state.file)
    && Load(cfg.codec, cfg.capacity, t.state.file).items == kept
  }

  lemma {:induction false} RewriteKeeps<T(!new)>(cfg: Config<T>, s: State<T>, kept: seq<T>, w: WriteOutcome)
    requires Wired(cfg) && |s.shadow| <= cfg.capacity && Load(cfg.codec, cfg.capacity, s.file).items == kept
    ensures Load(cfg.codec, cfg.capacity, Persist(cfg.codec, s, w).file).items
            == Rewritten(cfg.codec, s.shadow, kept, w)
  {
    match w {
      case Complete => PersistComplete(cfg, s);
      case OpenFailed =>
      case Torn(n) => TornKeeps(cfg, s, n);
    }
  }

  lemma {:induction false} TornKeeps<T(!new)>(cfg: Config<T>, s: State<T>, n: nat)
    requires Wired(cfg) && |s.shadow| <= cfg.capacity
    ensures Load(cfg.codec, cfg.capacity, Persist(cfg.codec, s, Torn(n)).file).items
            == s.shadow[..Min(WholeItems(cfg.codec, n), |s.shadow|)]
  {
    var printed := Print(cfg.codec, s.shadow);
    var cut := Min(n, |printed|);
    TornSnapshot(cfg.codec, cfg.capacity, s.shadow, cut);
    if n > |printed| {
      RecordsLength(cfg.codec, s.shadow);
      AtLeastRecords(n - HEADER_SIZE, cfg.codec.size, |s.shadow|);
      AtLeastRecords(|printed| - HEADER_SIZE, cfg.codec.size, |s.shadow|);
    }
  }

  lemma {:induction false} StepOnFlash<T(!new)>(cfg: Config<T>, t: Trace<T>, kept: seq<T>, e: Event<T>)
    requires Wired(cfg) && OnFlash(cfg, t, kept)
    ensures OnFlash(cfg, Step(cfg, t, e), KeptStep(cfg, t, kept, e))
  {
    var s := t.state;
    StepMirrored(cfg, t, e);
    StepLoads(cfg, t, e);
    match e {
      case Publish(item, w) =>
        if |s.ram| < cfg.queueLength {
          RewriteKeeps(cfg, State(s.ram + [item], s.shadow + [item], s.file), kept, w);
        }
      case Peek =>
      case Ack(w) => if s.ram != [] { DropOnFlash(cfg, t, kept, w); }
      case Pop(w) => if s.ram != [] { DropOnFlash(cfg, t, kept, w); }
      case Reboot(w) => BootAgrees(cfg, s, w);
    }
  }

  lemma {:induction false} DropOnFlash<T(!new)>(cfg: Config<T>, t: Trace<T>, kept: seq<T>, w: WriteOutcome)
    requires Wired(cfg) && OnFlash(cfg, t, kept) && t.state.ram != []
    ensures Load(cfg.codec, cfg.capacity, Drop(cfg, t.state, w).file).items
            == Rewritten(cfg.codec, t.state.shadow[1..], kept, w)
  {
    RewriteKeeps(cfg, State(t.state.ram[1..], t.state.shadow[1..], t.state.file), kept, w);
  }

  /** The queue after a reset in the given trace, which does not abort. */
  ghost predicate BootsTo<T(!new)>(cfg: Config<T>, t: Trace<T>, w: WriteOutcome, queue: seq<T>)
    requires Lawful(cfg.codec)
  {
    Boot(cfg, true, t.state, w).Some? && Boot(cfg, true, t.state, w).value.ram == queue
  }

  /**
   Over every run with any write outcomes and any reboots, a reboot brings back the shadow at the last
   rewrite that opened the file, cut to its whole records, or what the run started with.
   */
  lemma {:induction false} RebootAfterRun<T(!new)>(
    cfg: Config<T>, t: Trace<T>, kept: seq<T>, events: seq<Event<T>>, w: WriteOutcome)
    requires Wired(cfg) && OnFlash(cfg, t, kept)
    ensures OnFlash(cfg, Run(cfg, t, events), KeptRun(cfg, t, kept, events))
    ensures BootsTo(cfg, Run(cfg, t, events), w, KeptRun(cfg, t, kept, events))
    decreases |events|
  {
    if events == [] {
      BootAgrees(cfg, t.state, w);
    } else {
      StepOnFlash(cfg, t, kept, events[0]);
      RebootAfterRun(cfg, Step(cfg, t, events[0]), KeptStep(cfg, t, kept, events[0]), events[1..], w);
    }
  }

  /**
   A reboot right after a call that changed the queue, at the end of any run: a complete rewrite makes
   it harmless; one that could not open the file makes it bring back what was on flash before; a torn
   one keeps the prefix of whole records.  So the queue survives exactly as stated for each outcome.
   */
  lemma {:induction false} RebootAfterCall<T(!new)>(
    cfg: Config<T>, t: Trace<T>, kept: seq<T>, events: seq<Event<T>>, e: Event<T>, w: WriteOutcome)
    requires Wired(cfg) && OnFlash(cfg, t, kept)
    requires Rewrites(cfg, Run(cfg, t, events).state, e)
    ensures var before, called := Run(cfg, t, events), Step(cfg, Run(cfg, t, events), e);
            var boot := Boot(cfg, true, called.state, w);
            && boot.Some?
            && var back := boot.value.ram;
               match e.w
               case Complete => back == called.state.ram
               case OpenFailed =>
                 && back == KeptRun(cfg, t, kept, events)
                 && (back == called.state.ram <==> KeptRun(cfg, t, kept, events) == called.state.ram)
                 && (KeptRun(cfg, t, kept, events) == before.state.ram ==> back != called.state.ram)
               case Torn(n) =>
                 && back <= called.state.ram
                 && (back == called.state.ram <==> |called.state.ram| <= WholeItems(cfg.codec, n))
  {
    var before := Run(cfg, t, events);
    var onFlash := KeptRun(cfg, t, kept, events);
    RebootAfterRun(cfg, t, kept, events, w);
    StepOnFlash(cfg, before, onFlash, e);
    BootAgrees(cfg, Step(cfg, before, e).state, w);
    ChangedLength(cfg, before, e);
  }

  lemma {:induction false} ChangedLength<T(!new)>(cfg: Config<T>, t: Trace<T>, e: Event<T>)
    requires Wired(cfg) && Mirrored(cfg, t.state) && Rewrites(cfg, t.state, e) && !t.halted
    ensures |Step(cfg, t, e).state.ram| != |t.state.ram|
  {
  }

  // ---------------------------------------------------------------------------------------------
  // What any run keeps
  // ---------------------------------------------------------------------------------------------

  /** idx says where the items of part stand in whole. */
  ghost predicate Embeds<T(!new)>(part: seq<T>, whole: seq<T>, idx: seq<nat>) {
    && |idx| == |part|
    && (forall i :: 0 <= i < |idx| ==> idx[i] < |whole| && whole[idx[i]] == part[i])
    && (forall i, j :: 0 <= i < j < |idx| ==> idx[i] < idx[j])
  }

  /** part is whole with some items left out: none invented, doubled or out of order. */
  ghost predicate IsSubsequence<T(!new)>(part: seq<T>, whole: seq<T>) {
    exists idx: seq<nat> :: Embeds(part, whole, idx)
  }

  lemma {:induction false} SubsequenceOfItself<T(!new)>(s: seq<T>)
    ensures IsSubsequence(s, s)
  {
    var idx: seq<nat> := seq(|s|, i requires 0 <= i < |s| => i);
    assert Embeds(s, s, idx);
  }

  lemma {:induction false} SubsequenceSlice<T(!new)>(part: seq<T>, whole: seq<T>, from: nat, to: nat)
    requires IsSubsequence(part, whole) && from <= to <= |part|
    ensures IsSubsequence(part[from..to], whole)
  {
    var idx: seq<nat> :| Embeds(part, whole, idx);
    assert Embeds(part[from..to], whole, idx[from..to]);
  }

  lemma {:induction false} SubsequenceAppend<T(!new)>(part: seq<T>, whole: seq<T>, x: T)
    requires IsSubsequence(part, whole)
    ensures IsSubsequence(part, whole + [x]) && IsSubsequence(part + [x], whole + [x])
  {
    var idx: seq<nat> :| Embeds(part, whole, idx);
    assert Embeds(part, whole + [x], idx);
    assert Embeds(part + [x], whole + [x], idx + [|whole|]);
  }

  /** The queue, and what is on flash, hold accepted items in the order in which they were accepted. */
  ghost predicate Ordered<T(!new)>(t: Trace<T>, kept: seq<T>) {
    IsSubsequence(t.state.ram, t.accepted) && IsSubsequence(kept, t.accepted)
  }

  lemma {:induction false} RewriteOrdered<T(!new)>(
    c: Codec<T>, shadow: seq<T>, kept: seq<T>, accepted: seq<T>, w: WriteOutcome)
    requires c.size > 0 && IsSubsequence(shadow, accepted) && IsSubsequence(kept, accepted)
    ensures IsSubsequence(Rewritten(c, shadow, kept, w), accepted)
  {
    if w.Torn? {
      var m := Min(WholeItems(c, w.bytes), |shadow|);
      SubsequenceSlice(shadow, accepted, 0, m);
      assert shadow[0..m] == shadow[..m];
    }
  }

  lemma {:induction false} StepOrdered<T(!new)>(cfg: Config<T>, t: Trace<T>, kept: seq<T>, e: Event<T>)
    requires Wired(cfg) && OnFlash(cfg, t, kept) && Ordered(t, kept)
    ensures Ordered(Step(cfg, t, e), KeptStep(cfg, t, kept, e))
  {
    var s, next := t.state, Step(cfg, t, e);
    StepMirrored(cfg, t, e);
    if e.Reboot? {
      BootAgrees(cfg, s, e.w);
    } else if Rewrites(cfg, s, e) {
      if e.Publish? {
        SubsequenceAppend(s.ram, t.accepted, e.item);
        SubsequenceAppend(kept, t.accepted, e.item);
      } else {
        SubsequenceSlice(s.ram, t.accepted, 1, |s.ram|);
        assert s.ram[1..|s.ram|] == s.ram[1..];
      }
      RewriteOrdered(cfg.codec, next.state.shadow, kept, next.accepted, e.w);
    }
  }

  /**
   Over every run with any write outcomes and any reboots: an item may be lost or sent again, but the
   queue never holds one that was not accepted, nor one twice, nor two in the wrong order.
   */
  lemma {:induction false} RunOrdered<T(!new)>(cfg: Config<T>, t: Trace<T>, kept: seq<T>, events: seq<Event<T>>)
    requires Wired(cfg) && OnFlash(cfg, t, kept) && Ordered(t, kept)
    ensures Ordered(Run(cfg, t, events), KeptRun(cfg, t, kept, events))
    decreases |events|
  {
    if events != [] {
      StepOnFlash(cfg, t, kept, events[0]);
      StepOrdered(cfg, t, kept, events[0]);
      RunOrdered(cfg, Step(cfg, t, events[0]), KeptStep(cfg, t, kept, events[0]), events[1..]);
    }
  }

  /**
   From any file contents, over any run: either the first boot aborts, for the one reason there is, or no
   boot ever does, the next one brings back what is on flash, and the queue is in order.
   */
  lemma {:induction false} AnyRun<T(!new)>(
    cfg: Config<T>, file: Option<seq<Octet>>, w: WriteOutcome, events: seq<Event<T>>, w': WriteOutcome)
    requires Wired(cfg)
    ensures match Boot(cfg, true, State([], [], file), w)
            case None => !Loads(cfg, file)
            case Some(start) =>
              var t := Run(cfg, Begin(start), events);
              && !t.halted && t.state.ram == t.state.shadow
              && BootsTo(cfg, t, w', KeptRun(cfg, Begin(start), start.ram, events))
              && IsSubsequence(t.state.ram, t.accepted)
  {
    BootAgrees(cfg, State([], [], file), w);
    match Boot(cfg, true, State([], [], file), w) {
      case None =>
      case Some(start) =>
        RebootAfterRun(cfg, Begin(start), start.ram, events, w');
        SubsequenceOfItself(start.ram);
        RunOrdered(cfg, Begin(start), start.ram, events);
    }
  }
}
