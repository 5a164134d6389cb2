/**
 The queue drain of main/app/sync_task.cpp: peek, send with retries, acknowledge, while other tasks
 keep publishing.  The measurement and log loops differ only in which items they skip.
 */
module SyncDrain {
  import opened Prelude
  import opened RecordCodec
  import opened Snapshot
  import opened QueueRuns
  import opened QueueMirror
  import opened SimModule

  const SYNC_SEND_RETRIES: nat := 3

  /** One call of the send function and its outcome. */
  datatype Attempt<T> = Attempt(item: T, ok: bool)

  /** Why a drain ended. */
  datatype Stop<T> = WindowClosed | QueueEmpty | SendFailed(attempts: seq<Attempt<T>>)

  /** A send that took between one and three attempts and only succeeded on the last. */
  predicate Delivered<T(==)>(item: T, attempts: seq<Attempt<T>>) {
    && 1 <= |attempts| <= SYNC_SEND_RETRIES
    && (forall i :: 0 <= i < |attempts| ==> attempts[i] == Attempt(item, i == |attempts| - 1))
  }

  predicate GivenUp<T(==)>(item: T, attempts: seq<Attempt<T>>) {
    && |attempts| == SYNC_SEND_RETRIES
    && (forall i :: 0 <= i < |attempts| ==> attempts[i] == Attempt(item, false))
  }

  /** An item leaves the queue only after a successful send, or unsent because it is to be skipped. */
  predicate Justified<T(==)>(skip: T -> bool, item: T, attempts: seq<Attempt<T>>) {
    if skip(item) then attempts == [] else Delivered(item, attempts)
  }

  /** How many of the items were sent rather than skipped. */
  function SentCount<T>(skip: T -> bool, items: seq<T>): nat {
    if items == [] then 0
    else SentCount(skip, items[..|items| - 1]) + if skip(items[|items| - 1]) then 0 else 1
  }

  /** Measurements are skipped when invalid, except in the pressure build. */
  function SkipMeasurement(pressureBuild: bool): MeasurementMsg -> bool {
    (m: MeasurementMsg) => !m.valid && !pressureBuild
  }

  function SkipNone<T>(): T -> bool {
    (_: T) => false
  }

  /** The server as reached over Wi-Fi (ServerApi): true only if it took the payload. */
  class WebServer {
    ghost var delivered: seq<string>

    constructor ()
      ensures delivered == []
    {
      delivered := [];
    }

    method Post(json: string) returns (ok: bool)
      modifies this
      ensures ok ==> delivered == old(delivered) + [json]
      ensures old(delivered) <= delivered
    {
      var accepted: bool := *;
      if accepted {
        delivered := delivered + [json];
      }
      var replied: bool := *;
      ok := accepted && replied;
    }
  }

  /** The item's payload got to the server, whatever voltage it carries. */
  ghost predicate Reached<T(!new)>(pack: (T, int) -> string, arrived: set<string>, item: T) {
    exists voltage: int :: pack(item, voltage) in arrived
  }

  /**
   The two ways out and the payload format.  calls is every send attempted; pack stands for the JSON of
   an item with the supply voltage read for it.
   */
  class Uplink<T(!new)> {
    const sim: Sim4GModule
    const server: WebServer
    const url: string
    const pack: (T, int) -> string
    var viaSim: bool
    ghost var calls: seq<Attempt<T>>

    constructor (sim: Sim4GModule, server: WebServer, url: string, pack: (T, int) -> string)
      ensures this.sim == sim && this.server == server && this.url == url && this.pack == pack && calls == []
    {
      this.sim, this.server, this.url, this.pack := sim, server, url, pack;
      viaSim, calls := true, [];
    }

    ghost function Footprint(): set<object> {
      {this, server, sim, sim.modem, sim.modem.link, sim.modem.link.port}
    }

    ghost predicate Ready()
      reads sim, sim.modem
    {
      sim.Idle()
    }

    /** All payloads that got to the server. */
    ghost function Arrived(): set<string>
      reads server, sim.modem
    {
      set json | json in sim.modem.delivered + server.delivered
    }

    /** The send function of the sync task. */
    method Send(item: T, voltage: int) returns (ok: bool)
      requires Ready()
      modifies Footprint()
      ensures Ready() && calls == old(calls) + [Attempt(item, ok)] && old(Arrived()) <= Arrived()
      ensures ok && sim.modem.honest ==> Reached(pack, Arrived(), item)
    {
      var json := pack(item, voltage);
      if viaSim {
        ok := sim.SendPayload(url, json);
        assert ok && sim.modem.honest ==> sim.modem.delivered[|old(sim.modem.delivered)|] == json;
      } else {
        ok := server.Post(json);
        assert ok ==> server.delivered[|old(server.delivered)|] == json;
      }
      assert ok && sim.modem.honest ==> json in Arrived();
      calls := calls + [Attempt(item, ok)];
    }
  }

  /**
   sendWithRetries: the sends it makes are the attempts, at most three, of which only the last can have
   succeeded.
   */
  method SendWithRetries<T(!new)>(up: Uplink<T>, item: T, voltage: int)
    returns (ok: bool, ghost attempts: seq<Attempt<T>>)
    requires up.Ready()
    modifies up.Footprint()
    ensures up.Ready() && up.calls == old(up.calls) + attempts && old(up.Arrived()) <= up.Arrived()
    ensures ok ==> Delivered(item, attempts)
    ensures ok && up.sim.modem.honest ==> Reached(up.pack, up.Arrived(), item)
    ensures !ok ==> GivenUp(item, attempts)
  {
    attempts := [];
    assert up.calls + attempts == up.calls;
    var attempt := 1;
    while attempt <= SYNC_SEND_RETRIES
      invariant 1 <= attempt <= SYNC_SEND_RETRIES + 1 && |attempts| == attempt - 1
      invariant forall i :: 0 <= i < |attempts| ==> attempts[i] == Attempt(item, false)
      invariant up.Ready() && up.calls == old(up.calls) + attempts && old(up.Arrived()) <= up.Arrived()
    {
      var sent := up.Send(item, voltage);
      attempts := attempts + [Attempt(item, sent)];
      if sent {
        return true, attempts;
      }
      attempt := attempt + 1;
    }
    ok := false;
  }

  /** Other tasks publish any items they like, at most supply of them. */
  method OthersPublish<T(!new, 0)>(mirror: PersistentQueueMirror<T>, q: RamQueue<T>, supply: nat)
    returns (ghost arrivals: seq<T>, left: nat)
    requires mirror.Valid() && Wired(mirror.cfg) && q.length == mirror.cfg.queueLength
    requires Mirrored(mirror.cfg, mirror.StateWith(q))
    modifies mirror`shadow, mirror.file, q
    ensures q.items == old(q.items) + arrivals && left + |arrivals| <= supply
    ensures Mirrored(mirror.cfg, mirror.StateWith(q))
    ensures mirror.file.reliable && old(Sound(mirror.cfg, mirror.StateWith(q))) ==>
              Sound(mirror.cfg, mirror.StateWith(q))
  {
    arrivals, left := [], supply;
    var publishes: nat :| publishes <= supply;
    for i := 0 to publishes
      invariant q.items == old(q.items) + arrivals && left + |arrivals| <= supply && left == supply - i
      invariant Mirrored(mirror.cfg, mirror.StateWith(q))
      invariant mirror.file.reliable && old(Sound(mirror.cfg, mirror.StateWith(q))) ==>
                  Sound(mirror.cfg, mirror.StateWith(q))
    {
      var item: T := *;
      ghost var before := q.items;
      if mirror.file.reliable && old(Sound(mirror.cfg, mirror.StateWith(q))) {
        EnqueueSound(mirror.cfg, mirror.StateWith(q), item);
      }
      var ok;
      ghost var w;
      ok, w := mirror.Enqueue(q, item);
      arrivals := arrivals + q.items[|before|..];
      left := left - 1;
    }
  }

  /** Nothing lost, nothing reordered: what was queued and what arrived is retired or still queued. */
  predicate Accounted<T(==)>(start: seq<T>, arrivals: seq<T>, retired: seq<T>, items: seq<T>) {
    start + arrivals == retired + items
  }

  lemma {:induction false} AccountArrivals<T>(
    start: seq<T>, arrivals: seq<T>, retired: seq<T>, items: seq<T>, more: seq<T>)
    requires Accounted(start, arrivals, retired, items)
    ensures Accounted(start, arrivals + more, retired, items + more)
  {
    assert start + (arrivals + more) == start + arrivals + more;
    assert retired + (items + more) == retired + items + more;
  }

  lemma {:induction false} AccountHead<T>(start: seq<T>, arrivals: seq<T>, retired: seq<T>, items: seq<T>)
    requires items != [] && Accounted(start, arrivals, retired, items)
    ensures Accounted(start, arrivals, retired + [items[0]], items[1..])
  {
    assert items == [items[0]] + items[1..];
    assert retired + items == retired + [items[0]] + items[1..];
  }

  /** Every retired item has its attempts, and the sent ones were counted. */
  predicate AllJustified<T(==)>(skip: T -> bool, retired: seq<T>, attempts: seq<seq<Attempt<T>>>, sent: nat) {
    && |attempts| == |retired|
    && (forall i :: 0 <= i < |retired| ==> Justified(skip, retired[i], attempts[i]))
    && sent == SentCount(skip, retired)
  }

  lemma {:induction false} JustifyHead<T>(
    skip: T -> bool, retired: seq<T>, attempts: seq<seq<Attempt<T>>>, sent: nat, item: T, log: seq<Attempt<T>>)
    requires AllJustified(skip, retired, attempts, sent) && Justified(skip, item, log)
    ensures AllJustified(skip, retired + [item], attempts + [log], sent + if skip(item) then 0 else 1)
  {
    assert (retired + [item])[..|retired|] == retired;
  }

  /** Every item that was not skipped got to the server. */
  ghost predicate AllReached<T(!new)>(pack: (T, int) -> string, arrived: set<string>, skip: T -> bool, items: seq<T>) {
    forall i :: 0 <= i < |items| && !skip(items[i]) ==> Reached(pack, arrived, items[i])
  }

  lemma {:induction false} StillReached<T(!new)>(
    pack: (T, int) -> string, arrived: set<string>, skip: T -> bool, items: seq<T>, arrived': set<string>)
    requires AllReached(pack, arrived, skip, items) && arrived <= arrived'
    ensures AllReached(pack, arrived', skip, items)
  {
    forall i | 0 <= i < |items| && !skip(items[i]) ensures Reached(pack, arrived', items[i]) {
      assert Reached(pack, arrived, items[i]);
      var v: int :| pack(items[i], v) in arrived;
      assert pack(items[i], v) in arrived';
    }
  }

  /** The sends of a drain: those of the retired items, then those of the item it gave up. */
  ghost function SendsOf<T>(attempts: seq<seq<Attempt<T>>>, stop: Stop<T>): seq<Attempt<T>> {
    Joined(attempts) + if stop.SendFailed? then stop.attempts else []
  }

  /** The head is packed with the voltage just read, and sent. */
  method SendHead<T(!new)>(up: Uplink<T>, item: T, ghost skip: T -> bool, ghost retired: seq<T>)
    returns (ok: bool, ghost attempts: seq<Attempt<T>>)
    requires up.Ready() && (up.sim.modem.honest ==> AllReached(up.pack, up.Arrived(), skip, retired))
    modifies up.Footprint()
    ensures up.Ready() && up.calls == old(up.calls) + attempts && old(up.Arrived()) <= up.Arrived()
    ensures up.sim.modem.honest ==> AllReached(up.pack, up.Arrived(), skip, retired)
    ensures ok && up.sim.modem.honest ==> AllReached(up.pack, up.Arrived(), skip, retired + [item])
    ensures if ok then Delivered(item, attempts) else GivenUp(item, attempts)
  {
    ghost var before := up.Arrived();
    var voltage: int := *;
    ok, attempts := SendWithRetries(up, item, voltage);
    if up.sim.modem.honest {
      StillReached(up.pack, before, skip, retired, up.Arrived());
    }
  }

  /** What one drain loop did. */
  datatype Drained<T> = Drained(
    stop: Stop<T>, retired: seq<T>, attempts: seq<seq<Attempt<T>>>, arrivals: seq<T>)

  /** What a drain has done so far: sent of its retired items were sent, and its sends are the attempts. */
  ghost predicate Progress<T(!new)>(
    start: seq<T>, items: seq<T>, skip: T -> bool, sent: nat, done: Drained<T>, before: seq<Attempt<T>>,
    calls: seq<Attempt<T>>)
  {
    && Accounted(start, done.arrivals, done.retired, items)
    && AllJustified(skip, done.retired, done.attempts, sent)
    && calls == before + SendsOf(done.attempts, done.stop)
  }

  lemma {:induction false} NoProgress<T(!new)>(start: seq<T>, skip: T -> bool, before: seq<Attempt<T>>)
    ensures Progress(start, start, skip, 0, Drained(WindowClosed, [], [], []), before, before)
  {
    assert start + [] == [] + start;
    assert before + SendsOf([], Stop<T>.WindowClosed) == before;
  }

  lemma {:induction false} Arrive<T(!new)>(
    start: seq<T>, items: seq<T>, skip: T -> bool, sent: nat, done: Drained<T>, before: seq<Attempt<T>>,
    calls: seq<Attempt<T>>, more: seq<T>)
    requires Progress(start, items, skip, sent, done, before, calls)
    ensures Progress(start, items + more, skip, sent, done.(arrivals := done.arrivals + more), before, calls)
  {
    AccountArrivals(start, done.arrivals, done.retired, items, more);
  }

  lemma {:induction false} Retire<T(!new)>(
    start: seq<T>, items: seq<T>, skip: T -> bool, sent: nat, done: Drained<T>, before: seq<Attempt<T>>,
    calls: seq<Attempt<T>>, log: seq<Attempt<T>>)
    requires Progress(start, items, skip, sent, done, before, calls) && !done.stop.SendFailed?
    requires items != [] && Justified(skip, items[0], log)
    ensures Progress(start, items[1..], skip, sent + if skip(items[0]) then 0 else 1,
                     done.(retired := done.retired + [items[0]], attempts := done.attempts + [log]),
                     before, calls + log)
  {
    AccountHead(start, done.arrivals, done.retired, items);
    JustifyHead(skip, done.retired, done.attempts, sent, items[0], log);
    JoinedOne(done.attempts, log);
    assert before + (Joined(done.attempts) + []) + log == before + (Joined(done.attempts) + log + []);
  }

  lemma {:induction false} GiveUp<T(!new)>(
    start: seq<T>, items: seq<T>, skip: T -> bool, sent: nat, done: Drained<T>, before: seq<Attempt<T>>,
    calls: seq<Attempt<T>>, log: seq<Attempt<T>>)
    requires Progress(start, items, skip, sent, done, before, calls) && !done.stop.SendFailed?
    ensures Progress(start, items, skip, sent, done.(stop := SendFailed(log)), before, calls + log)
  {
    assert before + (Joined(done.attempts) + []) + log == before + (Joined(done.attempts) + log);
  }

  /** The head, which the acknowledgement will drop. */
  method Head<T(!new)>(mirror: PersistentQueueMirror<T>, q: RamQueue<T>) returns (item: Option<T>)
    requires mirror.Valid()
    ensures item.None? <==> q.items == []
    ensures item.Some? ==> item.value == q.items[0]
  {
    item := mirror.Peek(q);
    assert item.Some? ==> q.items == [item.value] + Drop(mirror.cfg, mirror.StateWith(q), Complete).ram;
  }

  /** The acknowledgement of a sent or skipped head. */
  method Acknowledge<T(!new)>(mirror: PersistentQueueMirror<T>, q: RamQueue<T>)
    requires mirror.Valid() && Wired(mirror.cfg) && Mirrored(mirror.cfg, mirror.StateWith(q)) && q.items != []
    modifies mirror`shadow, mirror.file, q
    ensures q.items == old(q.items)[1..] && Mirrored(mirror.cfg, mirror.StateWith(q))
    ensures mirror.file.reliable && old(Sound(mirror.cfg, mirror.StateWith(q))) ==>
              Sound(mirror.cfg, mirror.StateWith(q))
  {
    if Sound(mirror.cfg, mirror.StateWith(q)) {
      DropSound(mirror.cfg, mirror.StateWith(q));
    }
    var _, _ := mirror.Ack(q);
  }

  /** The rest of one round: a head to skip is acknowledged, another one is sent first. */
  method HandleHead<T(!new)>(
    mirror: PersistentQueueMirror<T>, q: RamQueue<T>, up: Uplink<T>, skip: T -> bool, ghost retired: seq<T>)
    returns (ok: bool, ghost log: seq<Attempt<T>>)
    requires mirror.Valid() && Wired(mirror.cfg) && Mirrored(mirror.cfg, mirror.StateWith(q)) && q.items != []
    requires up.Ready() && (up.sim.modem.honest ==> AllReached(up.pack, up.Arrived(), skip, retired))
    modifies mirror`shadow, mirror.file, q, up.Footprint()
    ensures up.Ready() && up.calls == old(up.calls) + log && old(up.Arrived()) <= up.Arrived()
    ensures q.items == if ok then old(q.items)[1..] else old(q.items)
    ensures if ok then Justified(skip, old(q.items)[0], log)
            else !skip(old(q.items)[0]) && GivenUp(old(q.items)[0], log)
    ensures up.sim.modem.honest ==>
              AllReached(up.pack, up.Arrived(), skip, if ok then retired + [old(q.items)[0]] else retired)
    ensures Mirrored(mirror.cfg, mirror.StateWith(q))
    ensures mirror.file.reliable && old(Sound(mirror.cfg, mirror.StateWith(q))) ==>
              Sound(mirror.cfg, mirror.StateWith(q))
  {
    var item := q.items[0];
    ghost var s := mirror.StateWith(q);
    ok, log := true, [];
    if !skip(item) {
      ok, log := SendHead(up, item, skip, retired);
      assert mirror.StateWith(q) == s;
    } else {
      assert up.calls + log == up.calls;
    }
    if ok {
      ghost var arrived := up.Arrived();
      Acknowledge(mirror, q);
      assert up.Arrived() == arrived;
    }
  }

  /** How one round of a drain went. */
  datatype Round = Empty | Failed | Handled(sent: bool)

  /** One round: peek, and while other tasks publish, send and acknowledge the head. */
  method DrainOne<T(!new, 0)>(
    mirror: PersistentQueueMirror<T>, q: RamQueue<T>, up: Uplink<T>, skip: T -> bool, supply: nat,
    ghost retired: seq<T>)
    returns (round: Round, left: nat, ghost more: seq<T>, ghost log: seq<Attempt<T>>)
    requires mirror.Valid() && Wired(mirror.cfg) && q.length == mirror.cfg.queueLength
    requires Mirrored(mirror.cfg, mirror.StateWith(q)) && up.Ready()
    requires up.sim.modem.honest ==> AllReached(up.pack, up.Arrived(), skip, retired)
    modifies mirror`shadow, mirror.file, q, up.Footprint()
    ensures up.Ready() && up.calls == old(up.calls) + log && old(up.Arrived()) <= up.Arrived()
    ensures left + |more| <= supply
    ensures round.Empty? <==> old(q.items) == []
    ensures round.Empty? ==> q.items == [] && more == [] && log == []
    ensures !round.Empty? ==> var head, queue := old(q.items)[0], old(q.items) + more;
              match round
              case Handled(sent) => q.items == queue[1..] && sent == !skip(head) && Justified(skip, head, log)
              case _ => q.items == queue && !skip(head) && GivenUp(head, log)
    ensures up.sim.modem.honest ==>
              AllReached(up.pack, up.Arrived(), skip, if round.Handled? then retired + [old(q.items)[0]] else retired)
    ensures Mirrored(mirror.cfg, mirror.StateWith(q))
    ensures mirror.file.reliable && old(Sound(mirror.cfg, mirror.StateWith(q))) ==>
              Sound(mirror.cfg, mirror.StateWith(q))
  {
    left, more, log := supply, [], [];
    var head := Head(mirror, q);
    if head.None? {
      assert up.calls + log == up.calls;
      return Empty, left, more, log;
    }
    ghost var arrived, calls := up.Arrived(), up.calls;
    more, left := OthersPublish(mirror, q, supply);
    assert up.Arrived() == arrived && up.calls == calls;
    var ok;
    ok, log := HandleHead(mirror, q, up, skip, retired);
    round := if ok then Handled(!skip(head.value)) else Failed;
  }

  /**
   One drain loop.  Whatever the sends return and whatever is published meanwhile: what leaves the
   queue is a prefix of it in FIFO order, every item that left was sent or is one to skip, and when a
   send is given up its item has had exactly the allowed attempts and is still the head.  The sends made
   are exactly these attempts, and over an honest modem every item that left after one got there.
   */
  method Drain<T(!new, 0, ==)>(
    mirror: PersistentQueueMirror<T>, q: RamQueue<T>, up: Uplink<T>, skip: T -> bool, supply: nat)
    returns (sent: nat, ghost done: Drained<T>)
    requires mirror.Valid() && Wired(mirror.cfg) && q.length == mirror.cfg.queueLength
    requires Mirrored(mirror.cfg, mirror.StateWith(q)) && up.Ready()
    modifies mirror`shadow, mirror.file, q, up.Footprint()
    ensures Progress(old(q.items), q.items, skip, sent, done, old(up.calls), up.calls)
    ensures up.Ready() && old(up.Arrived()) <= up.Arrived()
    ensures up.sim.modem.honest ==> AllReached(up.pack, up.Arrived(), skip, done.retired)
    ensures done.stop.QueueEmpty? ==> q.items == []
    ensures done.stop.SendFailed? ==>
              q.items != [] && !skip(q.items[0]) && GivenUp(q.items[0], done.stop.attempts)
    ensures Mirrored(mirror.cfg, mirror.StateWith(q))
    ensures mirror.file.reliable && old(Sound(mirror.cfg, mirror.StateWith(q))) ==>
              Sound(mirror.cfg, mirror.StateWith(q))
  {
    ghost var start, before := q.items, up.calls;
    ghost var sound := mirror.file.reliable && Sound(mirror.cfg, mirror.StateWith(q));
    sent, done := 0, Drained(WindowClosed, [], [], []);
    var left: nat := supply;
    NoProgress(start, skip, before);
    while true
      invariant Progress(start, q.items, skip, sent, done, before, up.calls) && done.stop.WindowClosed?
      invariant Mirrored(mirror.cfg, mirror.StateWith(q))
      invariant sound ==> mirror.file.reliable && Sound(mirror.cfg, mirror.StateWith(q))
      invariant up.Ready() && old(up.Arrived()) <= up.Arrived()
      invariant up.sim.modem.honest ==> AllReached(up.pack, up.Arrived(), skip, done.retired)
      decreases left + |q.items|
    {
      var withinSyncWindow: bool := *;
      if !withinSyncWindow {
        return;
      }
      ghost var items, calls := q.items, up.calls;
      ghost var more, log;
      var round;
      round, left, more, log := DrainOne(mirror, q, up, skip, left, done.retired);
      if round.Empty? {
        assert calls + log == calls;
        done := done.(stop := QueueEmpty);
        return;
      }
      Arrive(start, items, skip, sent, done, before, calls, more);
      done := done.(arrivals := done.arrivals + more);
      if round.Failed? {
        GiveUp(start, items + more, skip, sent, done, before, calls, log);
        done := done.(stop := SendFailed(log));
        return;
      }
      Retire(start, items + more, skip, sent, done, before, calls, log);
      done := done.(retired := done.retired + [items[0]], attempts := done.attempts + [log]);
      sent := sent + if round.sent then 1 else 0;
    }
  }

  /**
   The measurement drain.  Every measurement that left the queue was delivered, except that the other
   builds than the pressure one drop the invalid ones unsent.
   */
  method DrainMeasurements(
    mirror: PersistentQueueMirror<MeasurementMsg>, q: RamQueue<MeasurementMsg>, up: Uplink<MeasurementMsg>,
    pressureBuild: bool, supply: nat)
    returns (sent: nat, ghost done: Drained<MeasurementMsg>)
    requires mirror.cfg == MeasureConfig(mirror.cfg.reservable) && q.length == MEASURE_QUEUE_LEN
    requires MEASURE_QUEUE_LEN <= mirror.cfg.reservable
    requires Mirrored(mirror.cfg, mirror.StateWith(q)) && up.Ready()
    modifies mirror`shadow, mirror.file, q, up.Footprint()
    ensures Accounted(old(q.items), done.arrivals, done.retired, q.items)
    ensures |done.attempts| == |done.retired|
    ensures forall i :: 0 <= i < |done.retired| ==>
              if done.retired[i].valid || pressureBuild then Delivered(done.retired[i], done.attempts[i])
              else done.attempts[i] == []
    ensures up.Ready() && up.calls == old(up.calls) + SendsOf(done.attempts, done.stop)
    ensures done.stop.QueueEmpty? ==> q.items == []
    ensures done.stop.SendFailed? ==>
              && q.items != [] && (q.items[0].valid || pressureBuild)
              && GivenUp(q.items[0], done.stop.attempts)
    ensures Mirrored(mirror.cfg, mirror.StateWith(q))
  {
    CodecsLawful();
    sent, done := Drain(mirror, q, up, SkipMeasurement(pressureBuild), supply);
    assert forall i :: 0 <= i < |done.retired| ==>
      Justified(SkipMeasurement(pressureBuild), done.retired[i], done.attempts[i]);
  }

  /** The log drain: every log line that left the queue was delivered. */
  method DrainLogs(mirror: PersistentQueueMirror<LogMsg>, q: RamQueue<LogMsg>, up: Uplink<LogMsg>, supply: nat)
    returns (sent: nat, ghost done: Drained<LogMsg>)
    requires mirror.cfg == LogConfig(mirror.cfg.reservable) && q.length == LOG_QUEUE_LEN
    requires LOG_QUEUE_LEN <= mirror.cfg.reservable
    requires Mirrored(mirror.cfg, mirror.StateWith(q)) && up.Ready()
    modifies mirror`shadow, mirror.file, q, up.Footprint()
    ensures Accounted(old(q.items), done.arrivals, done.retired, q.items)
    ensures |done.attempts| == |done.retired| == sent
    ensures forall i :: 0 <= i < |done.retired| ==> Delivered(done.retired[i], done.attempts[i])
    ensures up.Ready() && up.calls == old(up.calls) + SendsOf(done.attempts, done.stop)
    ensures done.stop.QueueEmpty? ==> q.items == []
    ensures done.stop.SendFailed? ==> q.items != [] && GivenUp(q.items[0], done.stop.attempts)
    ensures Mirrored(mirror.cfg, mirror.StateWith(q))
  {
    CodecsLawful();
    sent, done := Drain(mirror, q, up, SkipNone(), supply);
    assert forall i :: 0 <= i < |done.retired| ==> Justified(SkipNone(), done.retired[i], done.attempts[i]);
    AllSent(done.retired);
  }

  lemma {:induction false} AllSent<T>(items: seq<T>)
    ensures SentCount(SkipNone(), items) == |items|
  {
    if items != [] {
      AllSent(items[..|items| - 1]);
    }
  }
}
