/**
 The RTOS tick clock and a serial port, as seen by one caller.

 A tick is 10 ms (CONFIG_FREERTOS_HZ = 100).  Time passes only in blocking calls.  What the peer
 sends is arbitrary: rx holds every byte not yet read that has arrived or will arrive unless the
 caller writes again, and each read returns any prefix of it that the driver could have returned.
 */
module Uart {

  const TICK_RATE_HZ: nat := 100

  /** pdMS_TO_TICKS */
  function MsToTicks(ms: nat): nat {
    ms * TICK_RATE_HZ / 1000
  }

  /** pdTICKS_TO_MS */
  function TicksToMs(ticks: nat): nat {
    ticks * 1000 / TICK_RATE_HZ
  }

  /** The ticks after which an elapsed time is no longer below ms. */
  function TicksCovering(ms: nat): nat {
    (ms + 9) / 10
  }

  /** A write: how much had been sent and received before it. */
  datatype Turn = Turn(sent: nat, received: nat)

  class Port<T(==)> {
    var now: nat
    var rx: seq<T>
    ghost var received: seq<T>  // every byte a read has returned
    ghost var sent: seq<T>      // every byte handed to a write
    ghost var turns: seq<Turn>  // every write

    constructor (start: nat, pending: seq<T>)
      ensures now == start && rx == pending && received == [] && sent == [] && turns == []
    {
      now, rx, received, sent, turns := start, pending, [], [], [];
    }

    /** vTaskDelay */
    method Delay(ticks: nat)
      modifies this`now
      ensures now == old(now) + ticks
    {
      now := now + ticks;
    }

    /** uart_flush_input: drops what has arrived so far. */
    method Flush()
      modifies this`rx
      ensures exists k: nat :: k <= |old(rx)| && rx == old(rx)[k..]
    {
      var k: nat :| k <= |rx|;
      rx := rx[k..];
    }

    /** uart_write_bytes: may fall short; the peer may then send anything. */
    method Write(data: seq<T>) returns (written: nat)
      modifies this`rx, this`sent, this`turns
      ensures written <= |data| && sent == old(sent) + data
      ensures turns == old(turns) + [Turn(|old(sent)|, |received|)]
    {
      written :| 0 <= written <= |data|;
      rx := *;
      turns := turns + [Turn(|sent|, |received|)];
      sent := sent + data;
    }

    /** uart_read_bytes: an empty result means that the whole timeout went by. */
    method Read(max: nat, timeoutTicks: nat) returns (data: seq<T>)
      modifies this`now, this`rx, this`received
      ensures |data| <= max && data + rx == old(rx) && received == old(received) + data
      ensures old(now) <= now <= old(now) + timeoutTicks
      ensures data == [] ==> now == old(now) + timeoutTicks
    {
      var n: nat :| n <= max && n <= |rx|;
      var waited: nat :| waited <= timeoutTicks;
      data := rx[..n];
      rx := rx[n..];
      received := received + data;
      now := now + if n == 0 then timeoutTicks else waited;
    }
  }

  /** UartDrv::readLineSim: despite its name it collects bytes until the timeout is over. */
  method ReadLineSim(port: Port<char>, timeoutMs: nat) returns (line: string)
    modifies port`now, port`rx, port`received
    ensures line + port.rx == old(port.rx) && port.received == old(port.received) + line
    ensures old(port.now) + TicksCovering(timeoutMs) <= port.now <= old(port.now) + TicksCovering(timeoutMs) + 4
  {
    line := "";
    assert line + port.rx == port.rx && port.received + line == port.received;
    var start := port.now;
    while TicksToMs(port.now - start) < timeoutMs
      invariant start == old(port.now) <= port.now
      invariant port.now <= start + TicksCovering(timeoutMs) + 4
      invariant line + port.rx == old(port.rx) && port.received == old(port.received) + line
      decreases |port.rx|, start + TicksCovering(timeoutMs) - port.now
    {
      ghost var rx := port.rx;
      var data := port.Read(1, MsToTicks(50));
      assert line + (data + port.rx) == line + data + port.rx;
      assert old(port.received) + line + data == old(port.received) + (line + data);
      if |data| == 1 {
        line := line + data;
      } else {
        assert data == [] && line + data == line;
        assert port.rx == rx;
      }
    }
  }
}
