/**
 The life of one kind of message over any sequence of publishes, sync cycles and resets: the queue of
 QueueMirror, the drain of SyncDrain and the uplink of SimModule together.
 */
module Delivery {
  import opened Prelude
  import opened RecordCodec
  import opened Snapshot
  import opened QueueRuns
  import opened QueueMirror
  import opened SyncDrain

  /** supply bounds what other tasks publish while a sync drains; a reset loses all RAM. */
  datatype Act<T> =
    | Produce(item: T)
    | Sync(viaSim: bool, supply: nat)
    | Reset

  /** Boot on a file that loads: a new mirror and a new queue hold what the file holds. */
  method StartUp<T(!new)>(cfg: Config<T>, file: FlashFile)
    returns (mirror: PersistentQueueMirror<T>, q: RamQueue<T>)
    requires Wired(cfg) && Loads(cfg, file.content)
    modifies file
    ensures fresh(mirror) && fresh(q) && mirror.cfg == cfg && mirror.file == file
    ensures q.length == cfg.queueLength && Sound(cfg, mirror.StateWith(q))
    ensures q.items == old(Load(cfg.codec, cfg.capacity, file.content).items)
  {
    mirror := new PersistentQueueMirror(cfg, file);
    q := new RamQueue(cfg.queueLength);
    var _ := Restart(mirror, q, true);
  }

  /** One publish with a working file. */
  method ProduceOne<T(!new)>(mirror: PersistentQueueMirror<T>, q: RamQueue<T>, item: T) returns (ok: bool)
    requires mirror.Valid() && Wired(mirror.cfg) && q.length == mirror.cfg.queueLength && mirror.file.reliable
    requires Sound(mirror.cfg, mirror.StateWith(q))
    modifies mirror`shadow, mirror.file, q
    ensures Sound(mirror.cfg, mirror.StateWith(q))
    ensures q.items == if ok then old(q.items) + [item] else old(q.items)
  {
    EnqueueSound(mirror.cfg, mirror.StateWith(q), item);
    ghost var w;
    ok, w := mirror.Enqueue(q, item);
  }

  /** One sync cycle: the chosen module is on, the queue is drained, the module goes off. */
  method SyncOnce<T(!new, 0, ==)>(
    mirror: PersistentQueueMirror<T>, q: RamQueue<T>, up: Uplink<T>, skip: T -> bool, viaSim: bool, supply: nat)
    returns (ghost retired: seq<T>, ghost arrivals: seq<T>)
    requires mirror.Valid() && Wired(mirror.cfg) && q.length == mirror.cfg.queueLength && mirror.file.reliable
    requires Sound(mirror.cfg, mirror.StateWith(q)) && up.Ready()
    modifies mirror`shadow, mirror.file, q, up.Footprint()
    ensures Sound(mirror.cfg, mirror.StateWith(q)) && up.Ready()
    ensures old(q.items) + arrivals == retired + q.items
    ensures old(up.Arrived()) <= up.Arrived()
    ensures up.sim.modem.honest ==> AllReached(up.pack, up.Arrived(), skip, retired)
  {
    up.viaSim, up.sim.active := viaSim, viaSim;
    var sent;
    ghost var done;
    assert up.Arrived() == old(up.Arrived());
    sent, done := Drain(mirror, q, up, skip, supply);
    retired, arrivals := done.retired, done.arrivals;
    ghost var s, arrived := mirror.StateWith(q), up.Arrived();
    up.sim.PowerOff();
    assert mirror.StateWith(q) == s && up.Arrived() == arrived;
  }

  /** Nothing lost: what was accepted is what was retired followed by the queue, and the retired arrived. */
  ghost predicate Ledger<T(!new)>(
    accepted: seq<T>, retired: seq<T>, queue: seq<T>, pack: (T, int) -> string, arrived: set<string>, skip: T -> bool,
    honest: bool)
  {
    accepted == retired + queue && (honest ==> AllReached(pack, arrived, skip, retired))
  }

  lemma {:induction false} LedgerSync<T(!new)>(
    accepted: seq<T>, retired: seq<T>, queue: seq<T>, pack: (T, int) -> string, arrived: set<string>, skip: T -> bool,
    honest: bool, arrivals: seq<T>, more: seq<T>, queue': seq<T>, arrived': set<string>)
    requires Ledger(accepted, retired, queue, pack, arrived, skip, honest)
    requires queue + arrivals == more + queue' && arrived <= arrived'
    requires honest ==> AllReached(pack, arrived', skip, more)
    ensures Ledger(accepted + arrivals, retired + more, queue', pack, arrived', skip, honest)
  {
    assert accepted + arrivals == retired + (queue + arrivals);
    assert retired + (more + queue') == retired + more + queue';
    if honest {
      StillReached(pack, arrived, skip, retired, arrived');
    }
  }

  lemma {:induction false} LedgerAccept<T(!new)>(
    accepted: seq<T>, retired: seq<T>, queue: seq<T>, pack: (T, int) -> string, arrived: set<string>, skip: T -> bool,
    honest: bool, item: T)
    requires Ledger(accepted, retired, queue, pack, arrived, skip, honest)
    ensures Ledger(accepted + [item], retired, queue + [item], pack, arrived, skip, honest)
  {
    assert retired + queue + [item] == retired + (queue + [item]);
  }

  /** The act was a publish that reported success, so its item is among the accepted ones. */
  ghost predicate TookAll<T>(acts: seq<Act<T>>, taken: seq<bool>, accepted: seq<T>) {
    |taken| <= |acts| &&
    forall i :: 0 <= i < |taken| && acts[i].Produce? && taken[i] ==> acts[i].item in accepted
  }

  lemma {:induction false} TookNext<T>(
    acts: seq<Act<T>>, taken: seq<bool>, accepted: seq<T>, ok: bool, accepted': seq<T>)
    requires TookAll(acts, taken, accepted) && |taken| < |acts| && accepted <= accepted'
    requires acts[|taken|].Produce? && ok ==> acts[|taken|].item in accepted'
    ensures TookAll(acts, taken + [ok], accepted')
  {
    forall i | 0 <= i < |taken| && acts[i].Produce? && taken[i] ensures acts[i].item in accepted' {
      assert acts[i].item in accepted;
    }
  }

  /** Every accepted item is to be skipped, still queued, or at the server. */
  ghost predicate NothingLost<T(!new)>(
    accepted: seq<T>, queue: seq<T>, pack: (T, int) -> string, arrived: set<string>, skip: T -> bool)
  {
    forall x :: x in accepted ==> skip(x) || x in queue || Reached(pack, arrived, x)
  }

  lemma {:induction false} LedgerMeans<T(!new)>(
    accepted: seq<T>, retired: seq<T>, queue: seq<T>, pack: (T, int) -> string, arrived: set<string>, skip: T -> bool)
    requires Ledger(accepted, retired, queue, pack, arrived, skip, true)
    ensures NothingLost(accepted, queue, pack, arrived, skip)
  {
    forall x | x in accepted ensures skip(x) || x in queue || Reached(pack, arrived, x) {
      if x in retired {
        var i :| 0 <= i < |retired| && retired[i] == x;
        assert skip(retired[i]) || Reached(pack, arrived, retired[i]);
      }
    }
  }

  /** One act, with the ledger kept. */
  method Do<T(!new, 0, ==)>(
    mirror: PersistentQueueMirror<T>, q: RamQueue<T>, up: Uplink<T>, skip: T -> bool, act: Act<T>,
    ghost accepted: seq<T>, ghost retired: seq<T>)
    returns (mirror': PersistentQueueMirror<T>, q': RamQueue<T>, ok: bool, ghost accepted': seq<T>,
             ghost retired': seq<T>)
    requires mirror.Valid() && Wired(mirror.cfg) && q.length == mirror.cfg.queueLength && mirror.file.reliable
    requires Sound(mirror.cfg, mirror.StateWith(q)) && up.Ready()
    requires Ledger(accepted, retired, q.items, up.pack, up.Arrived(), skip, up.sim.modem.honest)
    modifies mirror`shadow, mirror.file, q, up.Footprint()
    ensures (mirror' == mirror && q' == q) || (fresh(mirror') && fresh(q'))
    ensures mirror'.cfg == mirror.cfg && mirror'.file == mirror.file && q'.length == q.length
    ensures Sound(mirror'.cfg, mirror'.StateWith(q')) && up.Ready()
    ensures Ledger(accepted', retired', q'.items, up.pack, up.Arrived(), skip, up.sim.modem.honest)
    ensures accepted <= accepted' && (act.Produce? && ok ==> act.item in accepted')
  {
    mirror', q', ok, accepted', retired' := mirror, q, false, accepted, retired;
    ghost var queue, arrived := q.items, up.Arrived();
    match act {
      case Produce(item) =>
        ok := ProduceOne(mirror, q, item);
        assert up.Arrived() == arrived;
        if ok {
          LedgerAccept(accepted, retired, queue, up.pack, arrived, skip, up.sim.modem.honest, item);
          accepted' := accepted + [item];
          assert accepted'[|accepted|] == item;
        }
      case Sync(viaSim, supply) =>
        ghost var more, arrivals;
        more, arrivals := SyncOnce(mirror, q, up, skip, viaSim, supply);
        LedgerSync(accepted, retired, queue, up.pack, arrived, skip, up.sim.modem.honest,
                   arrivals, more, q.items, up.Arrived());
        accepted', retired' := accepted + arrivals, retired + more;
      case Reset =>
        up.sim.PowerOff();
        mirror', q' := StartUp(mirror.cfg, mirror.file);
        assert up.Arrived() == arrived;
    }
  }

  /**
   Any sequence of publishes, sync cycles over either module and resets, with working file writes and an
   honest modem.  Every item that a publish reported as taken, every one that other tasks got in during a
   drain, and every one that the file held at first, is at the end to be skipped, still queued, or at
   the server; and the queue would survive another reset.
   */
  method Live<T(!new, 0, ==)>(
    cfg: Config<T>, file: FlashFile, up: Uplink<T>, skip: T -> bool, acts: seq<Act<T>>)
    returns (mirror: PersistentQueueMirror<T>, q: RamQueue<T>, taken: seq<bool>, ghost accepted: seq<T>)
    requires Wired(cfg) && file.reliable && Loads(cfg, file.content) && up.Ready()
    modifies file, up.Footprint()
    ensures fresh(mirror) && fresh(q) && mirror.cfg == cfg && mirror.file == file
    ensures Sound(cfg, mirror.StateWith(q)) && up.Ready()
    ensures old(Load(cfg.codec, cfg.capacity, file.content).items) <= accepted
    ensures |taken| == |acts| && TookAll(acts, taken, accepted)
    ensures up.sim.modem.honest ==> NothingLost(accepted, q.items, up.pack, up.Arrived(), skip)
  {
    mirror, q := StartUp(cfg, file);
    accepted := q.items;
    ghost var retired: seq<T> := [];
    ghost var first := q.items;
    taken := [];
    assert up.Arrived() == old(up.Arrived());
    for i := 0 to |acts|
      invariant fresh(mirror) && fresh(q) && mirror.cfg == cfg && mirror.file == file
      invariant q.length == cfg.queueLength && Sound(cfg, mirror.StateWith(q)) && up.Ready()
      invariant first <= accepted && |taken| == i && TookAll(acts, taken, accepted)
      invariant Ledger(accepted, retired, q.items, up.pack, up.Arrived(), skip, up.sim.modem.honest)
    {
      ghost var before := accepted;
      var ok;
      mirror, q, ok, accepted, retired := Do(mirror, q, up, skip, acts[i], accepted, retired);
      TookNext(acts, taken, before, ok, accepted);
      taken := taken + [ok];
    }
    if up.sim.modem.honest {
      LedgerMeans(accepted, retired, q.items, up.pack, up.Arrived(), skip);
    }
  }

  /** For measurements: no valid one is lost, and in the pressure build no other either. */
  method LiveMeasurements(
    room: nat, file: FlashFile, up: Uplink<MeasurementMsg>, pressureBuild: bool, acts: seq<Act<MeasurementMsg>>)
    returns (mirror: PersistentQueueMirror<MeasurementMsg>, q: RamQueue<MeasurementMsg>, taken: seq<bool>,
             ghost accepted: seq<MeasurementMsg>)
    requires MEASURE_QUEUE_LEN <= room && file.reliable && Loads(MeasureConfig(room), file.content) && up.Ready()
    modifies file, up.Footprint()
    ensures fresh(mirror) && fresh(q)
    ensures |taken| == |acts| && TookAll(acts, taken, accepted)
    ensures up.sim.modem.honest ==>
              forall m :: m in accepted && (m.valid || pressureBuild) ==>
                m in q.items || Reached(up.pack, up.Arrived(), m)
  {
    CodecsLawful();
    mirror, q, taken, accepted := Live(MeasureConfig(room), file, up, SkipMeasurement(pressureBuild), acts);
  }
}
