/** The on-flash snapshot of a message queue: printing, loading, and torn files. */
module Snapshot {
  import opened Prelude
  import opened Words
  import opened RecordCodec

  const MAGIC: nat := 0x51554D52
  const VERSION: nat := 1
  const HEADER_SIZE: nat := 16

  function Header(count: nat, size: nat): (h: seq<Octet>)
    ensures |h| == HEADER_SIZE
  {
    LittleEndian(MAGIC, 4) + LittleEndian(VERSION, 4) + LittleEndian(count, 4) + LittleEndian(size, 4)
  }

  function Field(h: seq<Octet>, i: nat): nat
    requires |h| == HEADER_SIZE && i < 4
  {
    FromLittleEndian(h[4 * i..4 * i + 4])
  }

  predicate HeaderValid(h: seq<Octet>, size: nat)
    requires |h| == HEADER_SIZE
  {
    Field(h, 0) == MAGIC && Field(h, 1) == VERSION && Field(h, 3) == size
  }

  lemma {:induction false} HeaderFields(count: nat, size: nat)
    requires count < 0x1_0000_0000 && size < 0x1_0000_0000
    ensures HeaderValid(Header(count, size), size) && Field(Header(count, size), 2) == count
  {
    var h := Header(count, size);
    Pow256Words();
    assert h[0..4] == LittleEndian(MAGIC, 4) && h[4..8] == LittleEndian(VERSION, 4);
    assert h[8..12] == LittleEndian(count, 4);
    assert h[12..] == LittleEndian(size, 4) && h[12..16] == h[12..];
    LittleEndianRoundTrip(MAGIC, 4);
    LittleEndianRoundTrip(VERSION, 4);
    LittleEndianRoundTrip(count, 4);
    LittleEndianRoundTrip(size, 4);
  }

  function Records<T>(c: Codec<T>, items: seq<T>): seq<Octet> {
    if items == [] then [] else c.encode(items[0]) + Records(c, items[1..])
  }

  /** static_cast<uint32_t> */
  function ToU32(n: nat): (w: nat)
    ensures n < 0x1_0000_0000 ==> w == n
  {
    n % 0x1_0000_0000
  }

  /** The bytes a complete persistSnapshot leaves in the file. */
  function Print<T>(c: Codec<T>, items: seq<T>): seq<Octet> {
    Header(ToU32(|items|), ToU32(c.size)) + Records(c, items)
  }

  /** The first n records of a byte string, as long as they are complete. */
  function ReadRecords<T(!new)>(c: Codec<T>, bytes: seq<Octet>, n: nat): (items: seq<T>)
    requires Lawful(c)
    ensures |items| <= n
    decreases n
  {
    if n == 0 || |bytes| < c.size then []
    else [c.decode(bytes[..c.size])] + ReadRecords(c, bytes[c.size..], n - 1)
  }

  /**
   What reserve makes of the file's item count: with a good header a count above limit cannot be
   allocated, and without C++ exceptions that aborts.
   */
  predicate Reservable(size: nat, limit: nat, file: Option<seq<Octet>>) {
    file.Some? && |file.value| >= HEADER_SIZE && HeaderValid(file.value[..HEADER_SIZE], size)
    ==> Field(file.value[..HEADER_SIZE], 2) <= limit
  }

  datatype Loaded<T> = Loaded(ok: bool, items: seq<T>)

  /** What loadSnapshot makes of a file it can reserve for; None is a file that does not exist. */
  function Load<T(!new)>(c: Codec<T>, capacity: nat, file: Option<seq<Octet>>): (r: Loaded<T>)
    requires Lawful(c)
    ensures |r.items| <= capacity
  {
    if file.None? then Loaded(true, [])
    else
      var f := file.value;
      if |f| < HEADER_SIZE || !HeaderValid(f[..HEADER_SIZE], c.size) then Loaded(false, [])
      else Loaded(true, ReadRecords(c, f[HEADER_SIZE..], Min(Field(f[..HEADER_SIZE], 2), capacity)))
  }

  lemma {:induction false} RecordsAppend<T>(c: Codec<T>, a: seq<T>, b: seq<T>)
    ensures Records(c, a + b) == Records(c, a) + Records(c, b)
  {
    if a == [] {
      assert a + b == b;
    } else {
      assert (a + b)[1..] == a[1..] + b;
      RecordsAppend(c, a[1..], b);
    }
  }

  lemma {:induction false} RecordsLength<T(!new)>(c: Codec<T>, items: seq<T>)
    requires Lawful(c)
    ensures |Records(c, items)| == |items| * c.size
  {
    if items != [] {
      RecordsLength(c, items[1..]);
      assert |items| * c.size == (|items| - 1) * c.size + c.size;
    }
  }

  lemma {:induction false} MulStep(m: nat, d: nat)
    ensures (m + 1) * d == m * d + d
  {
  }

  lemma {:induction false} MulMonotone(a: nat, b: nat, d: nat)
    requires a <= b
    ensures a * d <= b * d
  {
  }

  lemma {:induction false} ReadOne<T(!new)>(c: Codec<T>, bytes: seq<Octet>, n: nat)
    requires Lawful(c) && n > 0 && |bytes| >= c.size
    ensures ReadRecords(c, bytes, n) == [c.decode(bytes[..c.size])] + ReadRecords(c, bytes[c.size..], n - 1)
  {
  }

  /** Cutting the records anywhere loses whole records from the end, never the order or a value. */
  lemma {:induction false} TornRecords<T(!new)>(c: Codec<T>, items: seq<T>, k: nat, m: nat, n: nat)
    requires Lawful(c)
    requires k <= |Records(c, items)| && |items| <= n
    requires m <= |items| && m * c.size <= k < (m + 1) * c.size
    ensures ReadRecords(c, Records(c, items)[..k], n) == items[..m]
    decreases items
  {
    if m > 0 {
      var bytes, head, tail := Records(c, items), c.encode(items[0]), Records(c, items[1..]);
      MulStep(m, c.size);
      MulStep(m - 1, c.size);
      TornRecords(c, items[1..], k - c.size, m - 1, n - 1);
      CutAfter(head, tail, k);
      ReadOne(c, bytes[..k], n);
      assert items[..m] == [items[0]] + items[1..][..m - 1];
    }
  }

  lemma {:induction false} CutAfter(head: seq<Octet>, tail: seq<Octet>, k: nat)
    requires |head| <= k <= |head| + |tail|
    ensures (head + tail)[..k][..|head|] == head
    ensures (head + tail)[..k][|head|..] == tail[..k - |head|]
  {
  }

  /** How many complete records of the given size fit in k bytes. */
  function WholeRecords(k: nat, size: nat): nat
    requires size > 0
  {
    k / size
  }

  /**
   Loading any byte prefix of a printed snapshot, as an interrupted rewrite leaves it, yields the
   first floor((n - 16) / recordSize) items; without a complete header it yields none and reports it.
   */
  lemma {:induction false} TornSnapshot<T(!new)>(c: Codec<T>, capacity: nat, items: seq<T>, n: nat)
    requires Lawful(c) && |items| <= capacity < 0x1_0000_0000
    requires n <= |Print(c, items)|
    ensures n < HEADER_SIZE ==> Load(c, capacity, Some(Print(c, items)[..n])) == Loaded(false, [])
    ensures n >= HEADER_SIZE ==>
              var m := WholeRecords(n - HEADER_SIZE, c.size);
              m <= |items| && Load(c, capacity, Some(Print(c, items)[..n])) == Loaded(true, items[..m])
  {
    if n >= HEADER_SIZE {
      var k := n - HEADER_SIZE;
      var body := Records(c, items)[..k];
      PrintShape(c, items);
      CutInside(Header(|items|, c.size), Records(c, items), n);
      LoadAfterHeader(c, capacity, |items|, body);
      RecordsLength(c, items);
      DivisionBounds(k, c.size, |items|);
      TornRecords(c, items, k, WholeRecords(k, c.size), |items|);
    }
  }

  lemma {:induction false} PrintShape<T(!new)>(c: Codec<T>, items: seq<T>)
    requires Lawful(c) && |items| < 0x1_0000_0000
    ensures Print(c, items) == Header(|items|, c.size) + Records(c, items)
  {
  }

  lemma {:induction false} CutInside(head: seq<Octet>, tail: seq<Octet>, n: nat)
    requires |head| <= n <= |head| + |tail|
    ensures (head + tail)[..n] == head + tail[..n - |head|]
  {
  }

  lemma {:induction false} LoadAfterHeader<T(!new)>(c: Codec<T>, capacity: nat, count: nat, body: seq<Octet>)
    requires Lawful(c) && count < 0x1_0000_0000
    ensures Load(c, capacity, Some(Header(count, c.size) + body))
            == Loaded(true, ReadRecords(c, body, Min(count, capacity)))
  {
    HeaderFields(count, c.size);
    var f := Header(count, c.size) + body;
    assert f[..HEADER_SIZE] == Header(count, c.size) && f[HEADER_SIZE..] == body;
  }

  lemma {:induction false} DivisionBounds(k: nat, d: nat, q: nat)
    requires d > 0 && k <= q * d
    ensures WholeRecords(k, d) <= q
    ensures WholeRecords(k, d) * d <= k < (WholeRecords(k, d) + 1) * d
  {
    assert k == k / d * d + k % d;
    MulStep(k / d, d);
    if k / d > q {
      MulMonotone(q + 1, k / d, d);
      MulStep(q, d);
    }
  }

  /** A complete snapshot loads back exactly. */
  lemma {:induction false} SnapshotRoundTrip<T(!new)>(c: Codec<T>, capacity: nat, items: seq<T>)
    requires Lawful(c) && |items| <= capacity < 0x1_0000_0000
    ensures Load(c, capacity, Some(Print(c, items))) == Loaded(true, items)
  {
    var all := Print(c, items);
    TornSnapshot(c, capacity, items, |all|);
    RecordsLength(c, items);
    AtLeastRecords(|all| - HEADER_SIZE, c.size, |items|);
    assert all[..|all|] == all && items[..|items|] == items;
  }

  lemma {:induction false} AtLeastRecords(k: nat, d: nat, q: nat)
    requires d > 0 && q * d <= k
    ensures WholeRecords(k, d) >= q
  {
    var r := WholeRecords(k, d);
    assert k == r * d + k % d;
    if r < q {
      MulStep(r, d);
      MulMonotone(r + 1, q, d);
    }
  }
}
