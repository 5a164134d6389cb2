/**
 The wake cycle of main/app/scheduler_task.cpp with the schedule of main/common/time_utils.cpp:
 the bounded wait for the cycle's work, the next alarm, and whole runs of alarm-driven cycles.

 Minutes are counted absolutely; the minute of the hour is the remainder modulo 60.
 */
module WakeCycle {
  import opened Uart
  import ModbusFrame

  const SCHEDULE_MINUTES: seq<int> := [0, 10, 20, 30, 40, 50]

  predicate IsSyncMinute(minute: int) {
    minute == 0
  }

  // ---------------------------------------------------------------------------------------------
  // The schedule
  // ---------------------------------------------------------------------------------------------

  method IsScheduledMinute(minute: int) returns (scheduled: bool)
    requires 0 <= minute < 60
    ensures scheduled <==> minute % 10 == 0
  {
    for i := 0 to |SCHEDULE_MINUTES|
      invariant forall k :: 0 <= k < i ==> SCHEDULE_MINUTES[k] != minute
    {
      if SCHEDULE_MINUTES[i] == minute {
        return true;
      }
    }
    assert SCHEDULE_MINUTES[0] != minute && SCHEDULE_MINUTES[1] != minute && SCHEDULE_MINUTES[2] != minute;
    assert SCHEDULE_MINUTES[3] != minute && SCHEDULE_MINUTES[4] != minute && SCHEDULE_MINUTES[5] != minute;
    scheduled := false;
  }

  /** The first scheduled minute after a minute of the hour, wrapping to the next hour. */
  function NextMinute(minute: int): int
    requires 0 <= minute < 60
  {
    if minute / 10 == 5 then 0 else (minute / 10 + 1) * 10
  }

  /** nextScheduledMinute */
  method NextScheduledMinute(current: int) returns (next: int)
    requires 0 <= current < 60
    ensures next == NextMinute(current)
  {
    for i := 0 to |SCHEDULE_MINUTES|
      invariant forall k :: 0 <= k < i ==> SCHEDULE_MINUTES[k] <= current
    {
      if SCHEDULE_MINUTES[i] > current {
        assert i > 0 ==> SCHEDULE_MINUTES[i - 1] <= current;
        return SCHEDULE_MINUTES[i];
      }
    }
    assert SCHEDULE_MINUTES[5] <= current;
    next := SCHEDULE_MINUTES[0];
  }

  /** The first scheduled absolute minute after t. */
  function NextWake(t: nat): nat {
    (t / 10 + 1) * 10
  }

  /** The first absolute minute after t whose minute of the hour is m: when a minute alarm fires. */
  function FirstFire(t: nat, m: int): (fire: nat)
    requires 0 <= m < 60
    ensures t < fire <= t + 60 && fire % 60 == m
    ensures forall u: nat :: t < u < fire ==> u % 60 != m
  {
    var ahead := if m > t % 60 then m - t % 60 else m + 60 - t % 60;
    t + ahead
  }

  /** The programmed alarm fires 1 to 10 minutes later, at the first scheduled minute. */
  lemma {:induction false} NextAlarm(t: nat)
    ensures FirstFire(t, NextMinute(t % 60)) == NextWake(t)
    ensures 1 <= NextWake(t) - t <= 10 && NextWake(t) % 10 == 0
    ensures forall u: nat :: t < u < NextWake(t) ==> u % 10 != 0
  {
    var hour, ten, unit := t / 60, t % 60 / 10, t % 10;
    MinuteDigits(t);
    assert NextWake(t) == 60 * hour + 10 * (ten + 1);
    NoneBetween(t);
  }

  lemma {:induction false} MinuteDigits(t: nat)
    ensures t == 60 * (t / 60) + 10 * (t % 60 / 10) + t % 10
    ensures t / 10 == 6 * (t / 60) + t % 60 / 10
  {
    var hour, minute := t / 60, t % 60;
    assert minute == 10 * (minute / 10) + minute % 10;
    assert t == 10 * (6 * hour + minute / 10) + minute % 10;
  }

  lemma {:induction false} NoneBetween(t: nat)
    ensures forall u: nat :: t < u < NextWake(t) ==> u % 10 != 0
  {
    forall u: nat | t < u < NextWake(t) ensures u % 10 != 0 {
      assert t == 10 * (t / 10) + t % 10;
      assert u == 10 * (t / 10) + (u - 10 * (t / 10));
    }
  }

  /**
   If the minute rolls over between reading the clock at t and arming the alarm, the wake-up survives
   exactly as long as the alarm minute itself has not begun; after that it is an hour late.
   */
  lemma {:induction false} LateArming(t: nat, armed: nat)
    requires t <= armed < NextWake(t) + 60
    ensures FirstFire(armed, NextMinute(t % 60)) == NextWake(t) <==> armed < NextWake(t)
    ensures armed >= NextWake(t) ==> FirstFire(armed, NextMinute(t % 60)) == NextWake(t) + 60
  {
    NextAlarm(t);
    var m, wake := NextMinute(t % 60), NextWake(t);
    assert wake % 60 == m && (wake + 60) % 60 == m;
    var fire := FirstFire(armed, m);
    SameMinuteApart(fire, wake, m);
  }

  lemma {:induction false} SameMinuteApart(a: nat, b: nat, m: int)
    requires a % 60 == m && b % 60 == m
    ensures (a - b) % 60 == 0
  {
  }

  // ---------------------------------------------------------------------------------------------
  // Waiting for the cycle's work
  // ---------------------------------------------------------------------------------------------

  const AWAKE_BUDGET_MS: nat := 1080000
  const OTA_AWAKE_BUDGET_MS: nat := 1200000
  const POLL_TICKS: nat := 20
  const SETTLE_TICKS: nat := 10

  /** The busy bits of the event group. */
  datatype EventBits = EventBits(measure: bool, sync: bool, ota: bool)

  predicate Busy(b: EventBits) {
    b.measure || b.sync || b.ota
  }

  function Budget(b: EventBits): nat {
    if b.ota then OTA_AWAKE_BUDGET_MS else AWAKE_BUDGET_MS
  }

  ghost predicate QuietFrom(bitsAt: nat -> EventBits, t: nat) {
    forall u: nat :: u >= t ==> !Busy(bitsAt(u))
  }

  /**
   The polling loop, for bits that flip in any way over time: it ends within the OTA budget plus one
   poll, only for one of its two reasons, and within one poll of the work becoming quiet for good.
   */
  method WaitForWork(start: nat, bitsAt: nat -> EventBits) returns (end: nat)
    ensures start <= end < start + OTA_AWAKE_BUDGET_MS / 10 + POLL_TICKS
    ensures !Busy(bitsAt(end)) || TicksToMs(end - start) >= Budget(bitsAt(end))
    ensures forall quiet: nat :: QuietFrom(bitsAt, quiet) ==> end == start || end < quiet + POLL_TICKS
  {
    end := start;
    while true
      invariant start <= end < start + OTA_AWAKE_BUDGET_MS / 10 + POLL_TICKS
      invariant end == start || (end >= start + POLL_TICKS && Busy(bitsAt(end - POLL_TICKS)))
      decreases start + OTA_AWAKE_BUDGET_MS / 10 + POLL_TICKS - end
    {
      var bits := bitsAt(end);
      if !Busy(bits) {
        break;
      }
      if TicksToMs(end - start) >= Budget(bits) {
        break;
      }
      end := end + POLL_TICKS;
    }
  }

  // ---------------------------------------------------------------------------------------------
  // Runs of alarm-driven cycles
  // ---------------------------------------------------------------------------------------------

  const TICKS_PER_MINUTE: nat := 6000

  /** Booting into the cycle takes less than a minute, publishing what was measured at most one. */
  const ALLOWANCE_TICKS: nat := 6000

  /** The latest tick at which a cycle woken at minute wake can come to program its alarm. */
  function LatestEnd(wake: nat): nat {
    wake * TICKS_PER_MINUTE + ALLOWANCE_TICKS + SETTLE_TICKS + POLL_TICKS
    + if IsSyncMinute(wake % 60) then OTA_AWAKE_BUDGET_MS / 10
      else ModbusFrame.MEASURE_TICKS + ALLOWANCE_TICKS
  }

  /** The minute of the hour the clock shows at a tick. */
  function ClockMinute(tick: nat): nat {
    tick / TICKS_PER_MINUTE % 60
  }

  /** Booted within its minute, a cycle reads the minute it was woken for. */
  lemma {:induction false} ReadsWakeMinute(wake: nat, bootTicks: nat)
    requires bootTicks < TICKS_PER_MINUTE
    ensures ClockMinute(wake * TICKS_PER_MINUTE + bootTicks) == wake % 60
  {
    MinuteOfTick(wake * TICKS_PER_MINUTE + bootTicks, wake, wake + 1);
  }

  /** One cycle leads from a wake-up to the next; synced says whether it started the sync task. */
  ghost predicate Cycle(wake: nat, synced: bool, next: nat) {
    exists bootTicks: nat, end: nat :: CycleWith(wake, bootTicks, end, synced, next)
  }

  /** The clock is read within the minute of the wake-up, and again at the end of the work. */
  ghost predicate CycleWith(wake: nat, bootTicks: nat, end: nat, synced: bool, next: nat) {
    && bootTicks < ALLOWANCE_TICKS
    && synced == IsSyncMinute(ClockMinute(wake * TICKS_PER_MINUTE + bootTicks))
    && wake * TICKS_PER_MINUTE <= end <= LatestEnd(wake) && next == NextWake(end / TICKS_PER_MINUTE)
  }

  /**
   scheduler_task_entry from the alarm to deep sleep: read the clock, start the work, wait, read the
   clock again, arm the alarm.  Without a sync only the measurement can be busy, and it is over after the
   sensor's longest time.
   */
  method RunCycle(wake: nat, bootTicks: nat, bitsAt: nat -> EventBits) returns (next: nat, synced: bool)
    requires bootTicks < ALLOWANCE_TICKS
    requires !IsSyncMinute(ClockMinute(wake * TICKS_PER_MINUTE + bootTicks)) ==>
               QuietFrom(bitsAt, wake * TICKS_PER_MINUTE + bootTicks + ModbusFrame.MEASURE_TICKS + ALLOWANCE_TICKS)
    ensures Cycle(wake, synced, next)
    ensures synced <==> IsSyncMinute(wake % 60)
  {
    var boot := wake * TICKS_PER_MINUTE + bootTicks;
    ReadsWakeMinute(wake, bootTicks);
    synced := IsSyncMinute(ClockMinute(boot));
    var start := boot + SETTLE_TICKS;
    var end := WaitForWork(start, bitsAt);
    var now := end / TICKS_PER_MINUTE;
    var minute := NextScheduledMinute(now % 60);
    NextAlarm(now);
    next := FirstFire(now, minute);
    assert CycleWith(wake, bootTicks, end, synced, next);
  }

  lemma {:induction false} MinuteOfTick(end: nat, from: nat, before: nat)
    requires from * TICKS_PER_MINUTE <= end < before * TICKS_PER_MINUTE
    ensures from <= end / TICKS_PER_MINUTE < before
  {
  }

  lemma {:induction false} NextWakeWithin(wake: nat, t: nat)
    requires wake % 10 == 0 && wake <= t
    ensures t < wake + 10 ==> NextWake(t) == wake + 10
    ensures t < wake + 30 ==> wake < NextWake(t) <= wake + 30
    ensures NextWake(t) % 10 == 0
  {
  }

  /** From the sensor and budget constants: no cycle sleeps through the top of an hour. */
  lemma {:induction false} CycleKeepsHours(wake: nat, synced: bool, next: nat)
    requires wake % 10 == 0 && Cycle(wake, synced, next)
    ensures wake < next && next % 10 == 0
    ensures synced <==> IsSyncMinute(wake % 60)
    ensures !synced ==> next == wake + 10
    ensures synced ==> next <= wake + 30
    ensures forall h: nat :: wake < h < next ==> h % 60 != 0
  {
    var bootTicks: nat, end: nat :| CycleWith(wake, bootTicks, end, synced, next);
    ReadsWakeMinute(wake, bootTicks);
    LatestEndBound(wake);
    MinuteOfTick(end, wake, wake + LatestMinutes(wake));
    NextWakeWithin(wake, end / TICKS_PER_MINUTE);
    forall h: nat | wake < h < next ensures h % 60 != 0 {
      NoHourBetween(wake, h);
    }
  }

  /** How many minutes a cycle can reach into. */
  function LatestMinutes(wake: nat): nat {
    if IsSyncMinute(wake % 60) then 22 else 10
  }

  lemma {:induction false} LatestEndBound(wake: nat)
    ensures LatestEnd(wake) < (wake + LatestMinutes(wake)) * TICKS_PER_MINUTE
  {
  }

  lemma {:induction false} NoHourBetween(wake: nat, h: nat)
    requires wake % 10 == 0 && wake < h
    requires h < wake + if IsSyncMinute(wake % 60) then 30 else 10
    ensures h % 60 != 0
  {
    if IsSyncMinute(wake % 60) {
      Remainder(wake / 60, h - wake, 60);
    } else {
      Remainder(wake / 10, h - wake, 10);
      TenDividesHour(h);
    }
  }

  lemma {:induction false} Remainder(q: nat, d: nat, n: nat)
    requires d < n && (n == 10 || n == 60)
    ensures (n * q + d) % n == d
  {
  }

  lemma {:induction false} TenDividesHour(h: nat)
    ensures h % 60 == 0 ==> h % 10 == 0
  {
    Remainder(6 * (h / 60), 0, 10);
  }

  /** A wake-up and what its cycle did. */
  datatype WakeUp = WakeUp(minute: nat, synced: bool)

  ghost predicate IsRun(wakes: seq<WakeUp>) {
    && wakes != [] && wakes[0].minute % 10 == 0
    && forall i :: 0 <= i < |wakes| - 1 ==> Cycle(wakes[i].minute, wakes[i].synced, wakes[i + 1].minute)
  }

  /**
   In every run of alarm-driven cycles, every top of the hour passed is a wake-up whose cycle started
   the sync task.
   */
  lemma {:induction false} EveryHourSynced(wakes: seq<WakeUp>, h: nat)
    requires IsRun(wakes)
    requires h % 60 == 0 && wakes[0].minute <= h < wakes[|wakes| - 1].minute
    ensures WakeUp(h, true) in wakes
    decreases |wakes|
  {
    CycleKeepsHours(wakes[0].minute, wakes[0].synced, wakes[1].minute);
    if h > wakes[0].minute {
      EveryHourSynced(wakes[1..], h);
    }
  }

  /** A cycle that is over has synced exactly if it was woken at the top of an hour. */
  lemma {:induction false} SyncedAtHours(wakes: seq<WakeUp>, i: nat)
    requires IsRun(wakes) && i < |wakes| - 1
    ensures wakes[i].minute % 10 == 0 && (wakes[i].synced <==> wakes[i].minute % 60 == 0)
  {
    if i > 0 {
      SyncedAtHours(wakes, i - 1);
      CycleKeepsHours(wakes[i - 1].minute, wakes[i - 1].synced, wakes[i].minute);
    }
    CycleKeepsHours(wakes[i].minute, wakes[i].synced, wakes[i + 1].minute);
  }
}
