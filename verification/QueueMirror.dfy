/**
 PersistentQueueMirror (main/middleware/persistent_queue_mirror.hpp) and its wiring in
 main/middleware/message_bus.cpp, proved against the state machine of QueueRuns.

 Every call is atomic: the code takes no lock, and its callers never overlap in this model.
 */
module QueueMirror {
  import opened Words
  import opened Prelude
  import opened RecordCodec
  import opened Snapshot
  import opened QueueRuns

  /** A FreeRTOS queue used without blocking. */
  class RamQueue<T> {
    const length: nat
    var items: seq<T>

    constructor (length: nat)
      ensures this.length == length && items == []
    {
      this.length := length;
      items := [];
    }

    /** xQueueSend */
    method Send(item: T) returns (ok: bool)
      modifies this
      ensures ok == (|old(items)| < length)
      ensures items == if ok then old(items) + [item] else old(items)
    {
      ok := |items| < length;
      if ok {
        items := items + [item];
      }
    }

    /** xQueuePeek */
    method Peek() returns (item: Option<T>)
      ensures item.None? <==> items == []
      ensures item.Some? ==> item.value == items[0]
    {
      item := if items == [] then None else Some(items[0]);
    }

    /** xQueueReceive */
    method Receive() returns (item: Option<T>)
      modifies this
      ensures item == if old(items) == [] then None else Some(old(items)[0])
      ensures items == if old(items) == [] then [] else old(items)[1..]
    {
      if items == [] {
        return None;
      }
      item := Some(items[0]);
      items := items[1..];
    }
  }

  /**
   The snapshot file.  Unless it is reliable, opening and writing may fail; a failed write may leave part
   of its data.
   */
  class FlashFile {
    const reliable: bool
    var content: Option<seq<Octet>>

    constructor (content: Option<seq<Octet>>, reliable: bool)
      ensures this.content == content && this.reliable == reliable
    {
      this.content, this.reliable := content, reliable;
    }

    /** fopen(path, "wb") */
    method OpenTruncated() returns (ok: bool)
      modifies this
      ensures content == if ok then Some([]) else old(content)
      ensures reliable ==> ok
    {
      var opens: bool := *;
      ok := reliable || opens;
      if ok {
        content := Some([]);
      }
    }

    /** fwrite of one record */
    method Append(data: seq<Octet>) returns (ok: bool)
      requires content.Some?
      modifies this
      ensures ok ==> content == Some(old(content.value) + data)
      ensures !ok ==> exists k: nat :: k <= |data| && content == Some(old(content.value) + data[..k])
      ensures reliable ==> ok
    {
      var writes: bool := *;
      ok := reliable || writes;
      if ok {
        content := Some(content.value + data);
      } else {
        var k: nat :| k <= |data|;
        content := Some(content.value + data[..k]);
      }
    }
  }

  class PersistentQueueMirror<T(!new)> {
    const cfg: Config<T>
    const file: FlashFile
    var shadow: seq<T>

    ghost predicate Valid() {
      Lawful(cfg.codec)
    }

    constructor (cfg: Config<T>, file: FlashFile)
      requires Lawful(cfg.codec)
      ensures Valid() && this.cfg == cfg && this.file == file && shadow == []
    {
      this.cfg, this.file, shadow := cfg, file, [];
    }

    /** The queue, its shadow and its file as one value. */
    ghost function StateWith(q: RamQueue<T>): State<T>
      reads this, file, q
    {
      State(q.items, shadow, file.content)
    }

    /** persistSnapshot: rewrite the whole file, stopping at the first failed write. */
    method PersistSnapshot() returns (ok: bool, ghost w: WriteOutcome)
      requires Valid()
      modifies file
      ensures file.content == Written(cfg.codec, shadow, old(file.content), w)
      ensures ok == w.Complete?
      ensures file.reliable ==> ok
    {
      ok := file.OpenTruncated();
      if !ok {
        return false, OpenFailed;
      }
      var header := Header(ToU32(|shadow|), ToU32(cfg.codec.size));
      ghost var cut;
      HeaderFirst(header, Records(cfg.codec, shadow));
      ok, cut := AppendPart(header, [], Print(cfg.codec, shadow));
      if !ok {
        return false, Torn(cut);
      }
      HeaderFirst(header, Records(cfg.codec, shadow[..0]));
      ok, cut := AppendRecords(header);
      w := if ok then Complete else Torn(cut);
    }

    /** The record loop of persistSnapshot; cut is what a failed loop left in the file. */
    method AppendRecords(ghost header: seq<Octet>) returns (ok: bool, ghost cut: nat)
      requires Valid() && header == Header(ToU32(|shadow|), ToU32(cfg.codec.size))
      requires file.content == Some(header + Records(cfg.codec, shadow[..0]))
      modifies file
      ensures ok ==> file.content == Some(Print(cfg.codec, shadow))
      ensures !ok ==> cut <= |Print(cfg.codec, shadow)| && file.content == Some(Print(cfg.codec, shadow)[..cut])
      ensures file.reliable ==> ok
    {
      ghost var whole := Print(cfg.codec, shadow);
      ghost var written := header + Records(cfg.codec, shadow[..0]);
      ok, cut := true, 0;
      var n := 0;
      while ok && n < |shadow|
        invariant n <= |shadow| && written == header + Records(cfg.codec, shadow[..n])
        invariant ok ==> file.content == Some(written)
        invariant !ok ==> cut <= |whole| && file.content == Some(whole[..cut])
        invariant file.reliable ==> ok
      {
        var rec := cfg.codec.encode(shadow[n]);
        PrintSplit(cfg.codec, shadow, n);
        ok, cut := AppendPart(rec, written, whole);
        written := written + rec;
        n := n + 1;
      }
      assert n == |shadow| ==> shadow[..n] == shadow;
    }

    /** One fwrite of a part of the snapshot; cut is what a failed one left in the file. */
    method AppendPart(rec: seq<Octet>, ghost written: seq<Octet>, ghost whole: seq<Octet>)
      returns (ok: bool, ghost cut: nat)
      requires file.content == Some(written) && written + rec <= whole
      modifies file
      ensures ok ==> file.content == Some(written + rec)
      ensures !ok ==> cut <= |whole| && file.content == Some(whole[..cut])
      ensures file.reliable ==> ok
    {
      cut := 0;
      ok := file.Append(rec);
      if !ok {
        ghost var k: nat :| k <= |rec| && file.content == Some(written + rec[..k]);
        PrefixOfPrefix(written, rec, whole, k);
        cut := |written| + k;
      }
    }

    /** loadSnapshot; None if it never returns, because the header's count cannot be reserved. */
    method LoadSnapshot() returns (result: Option<bool>)
      requires Valid()
      modifies this`shadow
      ensures result.None? <==> !Loads(cfg, file.content)
      ensures result.Some? ==> Loaded(result.value, shadow) == Load(cfg.codec, cfg.capacity, file.content)
    {
      shadow := [];
      if file.content.None? {
        return Some(true);
      }
      var f := file.content.value;
      if |f| < HEADER_SIZE {
        return Some(false);
      }
      var header := f[..HEADER_SIZE];
      if Field(header, 0) != MAGIC || Field(header, 1) != VERSION || Field(header, 3) != cfg.codec.size {
        return Some(false);
      }
      var count := Field(header, 2);
      if count > cfg.reservable {
        return None;
      }
      ReadItems(count, f[HEADER_SIZE..]);
      result := Some(true);
    }

    /** The record loop of loadSnapshot. */
    method ReadItems(count: nat, bytes: seq<Octet>)
      requires Valid() && shadow == []
      modifies this`shadow
      ensures shadow == ReadRecords(cfg.codec, bytes, Min(count, cfg.capacity))
    {
      ghost var n := Min(count, cfg.capacity);
      var rest := bytes;
      var i := 0;
      while i < count && |shadow| < cfg.capacity
        invariant i == |shadow| <= n
        invariant ReadRecords(cfg.codec, bytes, n) == shadow + ReadRecords(cfg.codec, rest, n - i)
        decreases count - i
      {
        if |rest| < cfg.codec.size {
          break;
        }
        var rec := rest[..cfg.codec.size];
        var item := cfg.codec.decode(rec);
        ReadOne(cfg.codec, rest, n - i);
        rest := rest[cfg.codec.size..];
        Regroup(shadow, item, ReadRecords(cfg.codec, rest, n - i - 1));
        shadow := shadow + [item];
        i := i + 1;
      }
    }

    method Init(mounted: bool, ghost q: RamQueue<T>) returns (result: Option<bool>)
      requires Valid() && q.items == [] && shadow == []
      modifies this`shadow
      ensures result.None? ==> LoadShadow(cfg, mounted, old(StateWith(q))).None?
      ensures result.Some? ==>
                LoadShadow(cfg, mounted, old(StateWith(q))) == Some((StateWith(q), result.value))
    {
      if !mounted {
        return Some(false);
      }
      result := LoadSnapshot();
    }

    method RestoreToRam(q: RamQueue?<T>) returns (ok: bool, ghost w: WriteOutcome)
      requires Valid()
      requires q != null ==> q.items == [] && q.length == cfg.queueLength
      modifies this`shadow, file, q
      ensures q == null ==> !ok && shadow == old(shadow) && file.content == old(file.content)
      ensures q != null ==> StateWith(q) == Restore(cfg, old(StateWith(q)), w)
      ensures q != null ==> ok == (|old(shadow)| <= cfg.queueLength || w.Complete?)
      ensures file.reliable ==> w.Complete?
    {
      w := Complete;
      if q == null {
        return false, w;
      }
      var restored := 0;
      while restored < |shadow|
        invariant restored <= |shadow| && restored <= q.length
        invariant q.items == shadow[..restored]
        invariant shadow == old(shadow) && file.content == old(file.content)
      {
        var sent := q.Send(shadow[restored]);
        if !sent {
          break;
        }
        restored := restored + 1;
      }
      assert restored == Min(|shadow|, q.length) && shadow[..|shadow|] == shadow;
      if restored != |shadow| {
        shadow := shadow[..restored];
        ok, w := PersistSnapshot();
        return ok, w;
      }
      ok := true;
    }

    method Enqueue(q: RamQueue?<T>, item: T) returns (ok: bool, ghost w: WriteOutcome)
      requires Valid() && (q != null ==> q.length == cfg.queueLength)
      modifies this`shadow, file, q
      ensures q == null ==> !ok && shadow == old(shadow) && file.content == old(file.content)
      ensures q != null ==> StateWith(q) == QueueRuns.Enqueue(cfg, old(StateWith(q)), item, w)
      ensures q != null ==> ok == (|old(q.items)| < q.length && w.Complete?)
      ensures file.reliable ==> w.Complete?
    {
      w := Complete;
      if q == null {
        return false, w;
      }
      var sent := q.Send(item);
      if !sent {
        return false, w;
      }
      if |shadow| < cfg.capacity {
        shadow := shadow + [item];
      }
      ok, w := PersistSnapshot();
    }

    /** The item that the next acknowledgement, however its file write ends, will drop. */
    method Peek(q: RamQueue?<T>) returns (item: Option<T>)
      requires Valid()
      ensures q == null ==> item.None?
      ensures q != null ==> (item.None? <==> StateWith(q).ram == [])
      ensures q != null && item.Some? ==>
                forall w: WriteOutcome :: StateWith(q).ram == [item.value] + Drop(cfg, StateWith(q), w).ram
    {
      if q == null {
        return None;
      }
      item := q.Peek();
      assert q.items != [] ==> q.items == [q.items[0]] + q.items[1..];
    }

    method Pop(q: RamQueue?<T>) returns (item: Option<T>, ok: bool, ghost w: WriteOutcome)
      requires Valid()
      modifies this`shadow, file, q
      ensures q == null ==> !ok && item == None && shadow == old(shadow) && file.content == old(file.content)
      ensures q != null ==> StateWith(q) == Drop(cfg, old(StateWith(q)), w)
      ensures q != null ==> item == if old(q.items) == [] then None else Some(old(q.items)[0])
      ensures q != null ==> ok == (old(q.items) != [] && w.Complete?)
      ensures file.reliable ==> w.Complete?
    {
      w := Complete;
      if q == null {
        return None, false, w;
      }
      item := q.Receive();
      if item.None? {
        return None, false, w;
      }
      if shadow != [] {
        shadow := shadow[1..];
      }
      ok, w := PersistSnapshot();
    }

    method Ack(q: RamQueue?<T>) returns (ok: bool, ghost w: WriteOutcome)
      requires Valid()
      modifies this`shadow, file, q
      ensures q == null ==> !ok && shadow == old(shadow) && file.content == old(file.content)
      ensures q != null ==> StateWith(q) == Drop(cfg, old(StateWith(q)), w)
      ensures q != null ==> ok == (old(q.items) != [] && w.Complete?)
      ensures file.reliable ==> w.Complete?
    {
      w := Complete;
      if q == null {
        return false, w;
      }
      var dropped := q.Receive();
      if dropped.None? {
        return false, w;
      }
      if shadow != [] {
        shadow := shadow[1..];
      }
      ok, w := PersistSnapshot();
    }
  }

  lemma {:induction false} HeaderFirst(header: seq<Octet>, records: seq<Octet>)
    ensures [] + header == header <= header + records
    ensures records == [] ==> header + records == header
  {
  }

  lemma {:induction false} Regroup<T>(a: seq<T>, x: T, b: seq<T>)
    ensures a + ([x] + b) == a + [x] + b
  {
  }

  lemma {:induction false} PrintSplit<T>(c: Codec<T>, items: seq<T>, n: nat)
    requires n < |items|
    ensures var h := Header(ToU32(|items|), ToU32(c.size));
            && h + Records(c, items[..n]) + c.encode(items[n]) == h + Records(c, items[..n + 1])
            && h + Records(c, items[..n]) + c.encode(items[n]) <= Print(c, items)
  {
    assert items[..n + 1] == items[..n] + [items[n]];
    RecordsAppend(c, items[..n], [items[n]]);
    assert Records(c, [items[n]]) == c.encode(items[n]) + [];
    assert items == items[..n + 1] + items[n + 1..];
    RecordsAppend(c, items[..n + 1], items[n + 1..]);
  }

  lemma {:induction false} PrefixOfPrefix(a: seq<Octet>, b: seq<Octet>, whole: seq<Octet>, k: nat)
    requires k <= |b| && a + b <= whole
    ensures |a| + k <= |whole| && a + b[..k] == whole[..|a| + k]
  {
    assert whole[..|a| + |b|] == a + b;
  }

  // ---------------------------------------------------------------------------------------------
  // MessageBus
  // ---------------------------------------------------------------------------------------------

  const MEASURE_QUEUE_LEN: nat := 30
  const LOG_QUEUE_LEN: nat := 20

  function MeasureConfig(reservable: nat): Config<MeasurementMsg> {
    Config(MeasurementCodec(), MEASURE_QUEUE_LEN, MEASURE_QUEUE_LEN, reservable)
  }

  function LogConfig(reservable: nat): Config<LogMsg> {
    Config(LogCodec(), LOG_QUEUE_LEN, LOG_QUEUE_LEN, reservable)
  }

  /** The heap has room for the items of a full queue. */
  predicate RoomFor(measurements: nat, logs: nat) {
    MEASURE_QUEUE_LEN <= measurements && LOG_QUEUE_LEN <= logs
  }

  class MessageBus {
    const measureMirror: PersistentQueueMirror<MeasurementMsg>
    const logMirror: PersistentQueueMirror<LogMsg>
    var measureQueue: RamQueue?<MeasurementMsg>
    var logQueue: RamQueue?<LogMsg>

    const measureRoom: nat
    const logRoom: nat

    constructor (measureFile: FlashFile, logFile: FlashFile, measureRoom: nat, logRoom: nat)
      ensures fresh(measureMirror) && fresh(logMirror)
      ensures measureMirror.file == measureFile && logMirror.file == logFile
      ensures measureMirror.shadow == [] && logMirror.shadow == []
      ensures this.measureRoom == measureRoom && this.logRoom == logRoom
      ensures measureMirror.cfg == MeasureConfig(measureRoom) && logMirror.cfg == LogConfig(logRoom)
      ensures measureQueue == null && logQueue == null
    {
      CodecsLawful();
      this.measureRoom, this.logRoom := measureRoom, logRoom;
      measureMirror := new PersistentQueueMirror(MeasureConfig(measureRoom), measureFile);
      logMirror := new PersistentQueueMirror(LogConfig(logRoom), logFile);
      measureQueue, logQueue := null, null;
    }

    /**
     init: create both queues and restore each from its snapshot.  Whether the heap gives the queues and
     the storage mounts is up to the system.  A queue that cannot be created stops it with everything
     untouched.  An absurd item count in a good header aborts; the files stay as they are.  Otherwise, even
     when it reports a failure because of a damaged header, a mounted queue starts in agreement with its
     shadow and file, an unmounted one empty.
     */
    method Init(measureCreated: bool, logCreated: bool, mounted: bool) returns (result: Option<bool>)
      requires measureMirror.cfg == MeasureConfig(measureRoom) && logMirror.cfg == LogConfig(logRoom)
      requires RoomFor(measureRoom, logRoom)
      requires measureMirror.shadow == [] && logMirror.shadow == []
      requires measureMirror.file != logMirror.file
      modifies this`measureQueue, this`logQueue, measureMirror, logMirror, measureMirror.file, logMirror.file
      ensures measureQueue != null <==> measureCreated
      ensures logQueue != null <==> logCreated
      ensures measureQueue != null ==> fresh(measureQueue)
      ensures logQueue != null ==> fresh(logQueue)
      ensures measureMirror.file.content == old(measureMirror.file.content)
      ensures logMirror.file.content == old(logMirror.file.content)
      ensures !(measureCreated && logCreated)
              ==> result == Some(false) && measureMirror.shadow == [] && logMirror.shadow == []
      ensures result.None? <==>
                && measureCreated && logCreated && mounted
                && !(Loads(measureMirror.cfg, measureMirror.file.content)
                     && Loads(logMirror.cfg, logMirror.file.content))
      ensures measureQueue != null && logQueue != null && result.Some? ==>
                && Started(measureMirror, measureQueue, mounted)
                && Started(logMirror, logQueue, mounted)
                && result.value == (mounted
                                    && Load(MeasurementCodec(), MEASURE_QUEUE_LEN, measureMirror.file.content).ok
                                    && Load(LogCodec(), LOG_QUEUE_LEN, logMirror.file.content).ok)
    {
      CodecsLawful();
      measureQueue, logQueue := null, null;
      if measureCreated {
        measureQueue := new RamQueue(MEASURE_QUEUE_LEN);
      }
      if logCreated {
        logQueue := new RamQueue(LOG_QUEUE_LEN);
      }
      if measureQueue == null || logQueue == null {
        return Some(false);
      }
      var measureOk := Restart(measureMirror, measureQueue, mounted);
      if measureOk.None? {
        return None;
      }
      var logOk := Restart(logMirror, logQueue, mounted);
      if logOk.None? {
        return None;
      }
      result := Some(measureOk.value && logOk.value);
    }
  }

  /** The queue of one mirror after init. */
  ghost predicate Started<T(!new)>(mirror: PersistentQueueMirror<T>, q: RamQueue<T>, mounted: bool)
    reads mirror, mirror.file, q
  {
    && Wired(mirror.cfg) && Mirrored(mirror.cfg, mirror.StateWith(q))
    && if mounted then Agree(mirror.cfg, mirror.StateWith(q)) else q.items == []
  }

  /** mirror.init() && mirror.restoreToRam(q) */
  method Restart<T(!new)>(mirror: PersistentQueueMirror<T>, q: RamQueue<T>, mounted: bool)
    returns (result: Option<bool>)
    requires Wired(mirror.cfg) && mirror.shadow == [] && q.items == [] && q.length == mirror.cfg.queueLength
    modifies mirror, mirror.file, q
    ensures mirror.file.content == old(mirror.file.content)
    ensures result.None? <==> mounted && !Loads(mirror.cfg, mirror.file.content)
    ensures result.Some? ==>
              && Started(mirror, q, mounted)
              && result.value == (mounted && Load(mirror.cfg.codec, mirror.cfg.capacity, mirror.file.content).ok)
    ensures result.Some? && mounted ==>
              q.items == Load(mirror.cfg.codec, mirror.cfg.capacity, mirror.file.content).items
  {
    ghost var w;
    BootAgrees(mirror.cfg, mirror.StateWith(q), Complete);
    result := mirror.Init(mounted, q);
    if result == Some(true) {
      var restored;
      restored, w := mirror.RestoreToRam(q);
      result := Some(restored);
    }
  }
}
