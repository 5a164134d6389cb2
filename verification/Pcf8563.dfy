/**
 The PCF8563 driver (main/modules/rtc/pcf8563.cpp) and its adapter (main/modules/rtc/rtc_pcf8563.cpp)
 against a chip that raises its alarm and timer flags by itself between any two bus transactions.

 Registers are bytes.  Bit tests, & and | on them are written with division and remainder.
 */
module Pcf8563 {

  type Byte = b: int | 0 <= b < 0x100

  const CENTURY_BASE: nat := 2000

  // ---------------------------------------------------------------------------------------------
  // Calendar and BCD
  // ---------------------------------------------------------------------------------------------

  datatype Time = Time(second: Byte, minute: Byte, hour: Byte)
  type Year = y: int | 0 <= y < 0x1_0000
  datatype Date = Date(day: Byte, weekday: Byte, month: Byte, year: Year)
  datatype DateTime = DateTime(time: Time, date: Date, voltageLow: bool, centuryBit: bool)

  /** (uint8_t)(((value / 10) << 4) | (value % 10)) */
  function DecToBcd(v: Byte): Byte {
    var wide := v / 10 * 16 + v % 10;
    if wide < 0x100 then wide else wide - 0x100
  }

  /** (uint8_t)((value >> 4) * 10 + (value & 0x0F)), which never exceeds 165 */
  function BcdToDec(v: Byte): Byte {
    v / 16 * 10 + v % 16
  }

  /** v & 0x7F */
  function Low7(v: Byte): Byte {
    if v < 0x80 then v else v - 0x80
  }

  lemma {:induction false} BcdRoundTrip(v: Byte)
    requires v < 100
    ensures BcdToDec(DecToBcd(v)) == v && DecToBcd(v) < 0xA0
    ensures v < 80 ==> DecToBcd(v) < 0x80
    ensures v < 40 ==> DecToBcd(v) < 0x40
    ensures v < 20 ==> DecToBcd(v) < 0x20
  {
    var tens, ones := v / 10, v % 10;
    assert v == 10 * tens + ones && tens < 10 && ones < 10;
    NibbleSplit(tens, ones);
  }

  lemma {:induction false} NibbleSplit(hi: Byte, lo: Byte)
    requires hi < 16 && lo < 16
    ensures (16 * hi + lo) / 16 == hi && (16 * hi + lo) % 16 == lo
  {
  }

  predicate IsLeapYear(year: Year) {
    year % 4 == 0
  }

  function DaysInMonth(year: Year, month: Byte): Byte {
    if month < 1 || month > 12 then 0
    else if month == 2 && IsLeapYear(year) then 29
    else [31, 28, 31, 30, 31, 30, 31, 31, 30, 31, 30, 31][month - 1]
  }

  predicate IsValidTime(t: Time) {
    t.second <= 59 && t.minute <= 59 && t.hour <= 23
  }

  predicate IsValidDate(d: Date) {
    && d.weekday <= 6
    && 1 <= d.month <= 12
    && CENTURY_BASE <= d.year <= CENTURY_BASE + 199
    && 1 <= d.day <= DaysInMonth(d.year, d.month)
  }

  /** The calendar's own leap-year rule. */
  predicate GregorianLeapYear(year: Year) {
    year % 4 == 0 && (year % 100 != 0 || year % 400 == 0)
  }

  /** A date that exists, with a weekday in range. */
  predicate GregorianDate(d: Date) {
    && d.weekday <= 6
    && 1 <= d.month <= 12
    && CENTURY_BASE <= d.year <= CENTURY_BASE + 199
    && 1 <= d.day <= if d.month == 2 && GregorianLeapYear(d.year) then 29
                     else [31, 28, 31, 30, 31, 30, 31, 31, 30, 31, 30, 31][d.month - 1]
  }

  /** The driver's shorter leap-year rule admits exactly one day that does not exist. */
  lemma {:induction false} ValidDateIff(d: Date)
    ensures IsValidDate(d) && !GregorianDate(d)
            <==> d.weekday <= 6 && d.day == 29 && d.month == 2 && d.year == 2100
    ensures GregorianDate(d) ==> IsValidDate(d)
  {
    if d.year % 4 == 0 && d.year % 100 == 0 && CENTURY_BASE <= d.year <= CENTURY_BASE + 199 {
      assert d.year == 2000 || d.year == 2100;
    }
  }

  // ---------------------------------------------------------------------------------------------
  // The time block, registers 02h to 08h
  // ---------------------------------------------------------------------------------------------

  type TimeBlock = r: seq<Byte> | |r| == 7 witness [0, 0, 0, 0, 0, 0, 0]

  /** The month register with the century bit above it. */
  function CenturyMonth(month: Byte, century: bool): Byte {
    var m := DecToBcd(month);
    if century && m < 0x80 then m + 0x80 else m
  }

  function YearReg(offset: nat): Byte {
    DecToBcd(offset % 100)
  }

  function YearOf(century: bool, reg: Byte): Year {
    (if century then CENTURY_BASE + 100 else CENTURY_BASE) + BcdToDec(reg)
  }

  function EncodeBlock(dt: DateTime): TimeBlock
    requires CENTURY_BASE <= dt.date.year
  {
    var offset := dt.date.year - CENTURY_BASE;
    [DecToBcd(dt.time.second), DecToBcd(dt.time.minute), DecToBcd(dt.time.hour), DecToBcd(dt.date.day),
     dt.date.weekday % 8, CenturyMonth(dt.date.month, offset >= 100), YearReg(offset)]
  }

  function DecodeBlock(r: TimeBlock): DateTime {
    var century := r[5] >= 0x80;
    DateTime(Time(BcdToDec(Low7(r[0])), BcdToDec(Low7(r[1])), BcdToDec(r[2] % 0x40)),
             Date(BcdToDec(r[3] % 0x40), r[4] % 8, BcdToDec(r[5] % 0x20), YearOf(century, r[6])),
             r[0] >= 0x80, century)
  }

  /** Every valid time and date comes back; the century bit marks 2100 and later and VL is cleared. */
  lemma {:induction false} TimeBlockRoundTrip(dt: DateTime)
    requires IsValidTime(dt.time) && IsValidDate(dt.date)
    ensures DecodeBlock(EncodeBlock(dt)) == DateTime(dt.time, dt.date, false, dt.date.year >= 2100)
  {
    assert dt.date.day <= 31;
    TimePart(dt);
    DatePart(dt);
  }

  lemma {:induction false} TimePart(dt: DateTime)
    requires IsValidTime(dt.time) && CENTURY_BASE <= dt.date.year
    ensures DecodeBlock(EncodeBlock(dt)).time == dt.time
    ensures !DecodeBlock(EncodeBlock(dt)).voltageLow
  {
    BcdRoundTrip(dt.time.second);
    BcdRoundTrip(dt.time.minute);
    BcdRoundTrip(dt.time.hour);
    BelowMask(DecToBcd(dt.time.hour));
  }

  predicate InCalendar(d: Date) {
    d.day <= 31 && d.weekday <= 6 && d.month <= 12 && CENTURY_BASE <= d.year <= CENTURY_BASE + 199
  }

  lemma {:induction false} DatePart(dt: DateTime)
    requires InCalendar(dt.date)
    ensures DecodeBlock(EncodeBlock(dt)).date == dt.date
    ensures DecodeBlock(EncodeBlock(dt)).centuryBit == (dt.date.year >= 2100)
  {
    DayPart(dt);
    MonthPart(dt);
    YearPart(dt);
  }

  lemma {:induction false} DayPart(dt: DateTime)
    requires InCalendar(dt.date)
    ensures DecodeBlock(EncodeBlock(dt)).date.day == dt.date.day
    ensures DecodeBlock(EncodeBlock(dt)).date.weekday == dt.date.weekday
  {
    BcdRoundTrip(dt.date.day);
    BelowMask(DecToBcd(dt.date.day));
    WeekdayRoundTrip(dt.date.weekday);
  }

  lemma {:induction false} MonthPart(dt: DateTime)
    requires InCalendar(dt.date)
    ensures DecodeBlock(EncodeBlock(dt)).date.month == dt.date.month
    ensures DecodeBlock(EncodeBlock(dt)).centuryBit == (dt.date.year >= 2100)
  {
    MonthRoundTrip(dt.date.month, dt.date.year >= 2100);
  }

  lemma {:induction false} YearPart(dt: DateTime)
    requires InCalendar(dt.date)
    ensures DecodeBlock(EncodeBlock(dt)).date.year == dt.date.year
  {
    MonthPart(dt);
    YearRoundTrip(dt.date.year);
  }

  lemma {:induction false} WeekdayRoundTrip(w: Byte)
    requires w <= 6
    ensures w % 8 % 8 == w
  {
  }

  lemma {:induction false} BelowMask(v: Byte)
    requires v < 0x40
    ensures v % 0x40 == v
  {
  }

  /** The month survives with and without the century bit above it. */
  lemma {:induction false} MonthRoundTrip(month: Byte, century: bool)
    requires month <= 12
    ensures CenturyMonth(month, century) >= 0x80 <==> century
    ensures BcdToDec(CenturyMonth(month, century) % 0x20) == month
  {
    BcdRoundTrip(month);
    AboveMask(DecToBcd(month));
  }

  lemma {:induction false} AboveMask(v: Byte)
    requires v < 0x20
    ensures v % 0x20 == v && (v + 0x80) % 0x20 == v
  {
  }

  lemma {:induction false} YearRoundTrip(year: Year)
    requires CENTURY_BASE <= year <= CENTURY_BASE + 199
    ensures YearOf(year >= 2100, YearReg(year - CENTURY_BASE)) == year
  {
    BcdRoundTrip((year - CENTURY_BASE) % 100);
  }

  // ---------------------------------------------------------------------------------------------
  // The chip
  // ---------------------------------------------------------------------------------------------

  /** Control_status_2: bit 4 TI_TP, bit 3 AF, bit 2 TF, bit 1 AIE, bit 0 TIE. */
  datatype Status2 = Status2(tiTp: bool, af: bool, tf: bool, aie: bool, tie: bool)

  function Bit(v: Byte, weight: nat): bool
    requires weight > 0
  {
    v / weight % 2 == 1
  }

  function Weighted(b: bool, weight: Byte): Byte {
    if b then weight else 0
  }

  function EncodeStatus2(s: Status2): Byte {
    Weighted(s.tiTp, 16) + Weighted(s.af, 8) + Weighted(s.tf, 4) + Weighted(s.aie, 2) + Weighted(s.tie, 1)
  }

  function DecodeStatus2(v: Byte): Status2 {
    Status2(Bit(v, 16), Bit(v, 8), Bit(v, 4), Bit(v, 2), Bit(v, 1))
  }

  lemma {:induction false} Status2RoundTrip(s: Status2)
    ensures DecodeStatus2(EncodeStatus2(s)) == s
  {
  }

  /** Writing a flag as 0 clears it, writing it as 1 leaves it alone; the other bits are stored. */
  function AfterWrite(s: Status2, v: Byte): Status2 {
    var w := DecodeStatus2(v);
    w.(af := s.af && w.af, tf := s.tf && w.tf)
  }

  datatype Status = Ok | InvalidArg | I2cError | TimeInvalid

  class Chip {
    var cs2: Status2
    var time: TimeBlock
    var alarm: seq<Byte>
    var timerControl: Byte
    var timerValue: Byte

    /** How often a write has cleared a raised flag. */
    ghost var afClears: nat
    ghost var tfClears: nat

    constructor (cs2: Status2, time: TimeBlock, alarm: seq<Byte>)
      ensures this.cs2 == cs2 && this.time == time && this.alarm == alarm
    {
      this.cs2, this.time, this.alarm := cs2, time, alarm;
      timerControl, timerValue := 3, 0;
      afClears, tfClears := 0, 0;
    }

    /** Before any transaction the chip may have raised either flag. */
    method Elapse()
      modifies this`cs2
      ensures cs2 == old(cs2).(af := cs2.af, tf := cs2.tf)
      ensures (old(cs2.af) ==> cs2.af) && (old(cs2.tf) ==> cs2.tf)
    {
      var alarmMatched: bool := *;
      var countdownOver: bool := *;
      cs2 := cs2.(af := cs2.af || alarmMatched, tf := cs2.tf || countdownOver);
    }

    /** Reading register 01h. */
    method ReadCs2() returns (st: Status, v: Byte)
      modifies this`cs2
      ensures cs2 == old(cs2).(af := cs2.af, tf := cs2.tf)
      ensures (old(cs2.af) ==> cs2.af) && (old(cs2.tf) ==> cs2.tf)
      ensures st == Ok || st == I2cError
      ensures st == Ok ==> v == EncodeStatus2(cs2)
    {
      Elapse();
      var acknowledged: bool := *;
      st, v := if acknowledged then Ok else I2cError, EncodeStatus2(cs2);
    }

    /** Writing register 01h; a transaction that reports an error may have taken effect or not. */
    method StoreCs2(v: Byte) returns (st: Status, ghost before: Status2)
      modifies this`cs2, this`afClears, this`tfClears
      ensures before == old(cs2).(af := before.af, tf := before.tf)
      ensures (old(cs2.af) ==> before.af) && (old(cs2.tf) ==> before.tf)
      ensures st == Ok || st == I2cError
      ensures st == Ok ==> cs2 == AfterWrite(before, v)
      ensures st != Ok ==> cs2 == before || cs2 == AfterWrite(before, v)
      ensures afClears == old(afClears) + (if before.af && !cs2.af then 1 else 0)
      ensures tfClears == old(tfClears) + (if before.tf && !cs2.tf then 1 else 0)
    {
      Elapse();
      before := cs2;
      var acknowledged: bool := *;
      var effective: bool := *;
      if acknowledged || effective {
        var after := AfterWrite(cs2, v);
        afClears := afClears + if cs2.af && !after.af then 1 else 0;
        tfClears := tfClears + if cs2.tf && !after.tf then 1 else 0;
        cs2 := after;
      }
      st := if acknowledged then Ok else I2cError;
    }

    /** Writing the four alarm registers. */
    method StoreAlarm(regs: seq<Byte>) returns (st: Status)
      modifies this`cs2, this`alarm
      ensures cs2 == old(cs2).(af := cs2.af, tf := cs2.tf)
      ensures (old(cs2.af) ==> cs2.af) && (old(cs2.tf) ==> cs2.tf)
      ensures st == Ok || st == I2cError
      ensures st == Ok ==> alarm == regs
    {
      Elapse();
      var acknowledged: bool := *;
      var written: seq<Byte> :| |written| >= 0;
      alarm := if acknowledged then regs else written;
      st := if acknowledged then Ok else I2cError;
    }

    /** Writing the timer control register. */
    method StoreTimerControl(v: Byte) returns (st: Status)
      modifies this`cs2, this`timerControl
      ensures cs2 == old(cs2).(af := cs2.af, tf := cs2.tf)
      ensures (old(cs2.af) ==> cs2.af) && (old(cs2.tf) ==> cs2.tf)
      ensures st == Ok || st == I2cError
      ensures st == Ok ==> timerControl == v
      ensures timerControl == v || timerControl == old(timerControl)
    {
      Elapse();
      var acknowledged: bool := *;
      var effective: bool := *;
      if acknowledged || effective {
        timerControl := v;
      }
      st := if acknowledged then Ok else I2cError;
    }

    /** Writing the timer value register. */
    method StoreTimerValue(v: Byte) returns (st: Status)
      modifies this`cs2, this`timerValue
      ensures cs2 == old(cs2).(af := cs2.af, tf := cs2.tf)
      ensures (old(cs2.af) ==> cs2.af) && (old(cs2.tf) ==> cs2.tf)
      ensures st == Ok || st == I2cError
      ensures st == Ok ==> timerValue == v
    {
      Elapse();
      var acknowledged: bool := *;
      if acknowledged {
        timerValue := v;
      }
      st := if acknowledged then Ok else I2cError;
    }

    /** Reading the time block in one transaction. */
    method ReadTimeBlock() returns (st: Status, regs: TimeBlock)
      ensures st == Ok || st == I2cError
      ensures st == Ok ==> regs == time
    {
      var acknowledged: bool := *;
      st, regs := if acknowledged then Ok else I2cError, time;
    }

    /** Writing the time block in one transaction. */
    method StoreTimeBlock(regs: TimeBlock) returns (st: Status)
      modifies this`time
      ensures st == Ok || st == I2cError
      ensures st == Ok ==> time == regs
    {
      var acknowledged: bool := *;
      var torn: TimeBlock :| |torn| == 7;
      time := if acknowledged then regs else torn;
      st := if acknowledged then Ok else I2cError;
    }
  }

  // ---------------------------------------------------------------------------------------------
  // The driver
  // ---------------------------------------------------------------------------------------------

  datatype Alarm = Alarm(enableMinute: bool, enableHour: bool, enableDay: bool, enableWeekday: bool,
                         minute: Byte, hour: Byte, day: Byte, weekday: Byte, interruptEnable: bool)

  datatype TimerConfig = TimerConfig(value: Byte, clock: Byte, interruptEnable: bool, pulseInterrupt: bool)

  predicate IsValidAlarm(a: Alarm) {
    && (a.enableMinute ==> a.minute <= 59)
    && (a.enableHour ==> a.hour <= 23)
    && (a.enableDay ==> 1 <= a.day <= 31)
    && (a.enableWeekday ==> a.weekday <= 6)
  }

  function AlarmRegs(a: Alarm): seq<Byte> {
    [if a.enableMinute then DecToBcd(a.minute) else 0x80,
     if a.enableHour then DecToBcd(a.hour) else 0x80,
     if a.enableDay then DecToBcd(a.day) else 0x80,
     if a.enableWeekday then a.weekday % 8 else 0x80]
  }

  /** Whether alarm registers match a moment: every enabled compare agrees, and one is enabled. */
  predicate AlarmMatches(regs: seq<Byte>, minute: Byte, hour: Byte, day: Byte, weekday: Byte)
    requires |regs| == 4
  {
    && (exists i :: 0 <= i < 4 && regs[i] < 0x80)
    && (regs[0] < 0x80 ==> regs[0] == DecToBcd(minute))
    && (regs[1] < 0x80 ==> regs[1] == DecToBcd(hour))
    && (regs[2] < 0x80 ==> regs[2] == DecToBcd(day))
    && (regs[3] < 0x80 ==> regs[3] == weekday % 8)
  }

  lemma {:induction false} BcdInjective(a: Byte, b: Byte)
    requires a < 100 && b < 100 && DecToBcd(a) == DecToBcd(b)
    ensures a == b
  {
    BcdRoundTrip(a);
    BcdRoundTrip(b);
  }

  /** The minute alarm's registers match exactly the moments with that minute, once in every hour. */
  lemma {:induction false} MinuteAlarmMatches(m: Byte, minute: Byte, hour: Byte, day: Byte, weekday: Byte)
    requires m <= 59 && minute <= 59
    ensures AlarmMatches(AlarmRegs(MinuteAlarm(m)), minute, hour, day, weekday) <==> minute == m
  {
    BcdRoundTrip(m);
    var regs := AlarmRegs(MinuteAlarm(m));
    assert regs[0] == DecToBcd(m) < 0x80;
    if DecToBcd(m) == DecToBcd(minute) {
      BcdInjective(m, minute);
    }
  }

  function MinuteAlarm(minute: Byte): Alarm {
    Alarm(true, false, false, false, minute, 0, 0, 0, true)
  }

  /** pcf8563_read_cs2 and the bit tests on its result. */
  method ReadStatus2(chip: Chip) returns (st: Status, s: Status2)
    modifies chip`cs2
    ensures st == Ok || st == I2cError
    ensures chip.cs2 == old(chip.cs2).(af := chip.cs2.af, tf := chip.cs2.tf)
    ensures (old(chip.cs2.af) ==> chip.cs2.af) && (old(chip.cs2.tf) ==> chip.cs2.tf)
    ensures st == Ok ==> s == chip.cs2
  {
    var v;
    st, v := chip.ReadCs2();
    Status2RoundTrip(chip.cs2);
    s := DecodeStatus2(v);
  }

  /** pcf8563_write_cs2: writes the flags to be kept as 1. */
  method WriteCs2(chip: Chip, preserveAf: bool, preserveTf: bool, aie: bool, tie: bool, tiTp: bool)
    returns (st: Status)
    modifies chip`cs2, chip`afClears, chip`tfClears
    ensures st == Ok || st == I2cError
    ensures preserveAf ==> chip.afClears == old(chip.afClears) && (old(chip.cs2.af) ==> chip.cs2.af)
    ensures preserveTf ==> chip.tfClears == old(chip.tfClears) && (old(chip.cs2.tf) ==> chip.cs2.tf)
    ensures st == Ok && !preserveAf ==> !chip.cs2.af
    ensures st == Ok && !preserveTf ==> !chip.cs2.tf
    ensures var w := chip.cs2.(aie := aie, tie := tie, tiTp := tiTp);
            var u := chip.cs2.(aie := old(chip.cs2.aie), tie := old(chip.cs2.tie), tiTp := old(chip.cs2.tiTp));
            chip.cs2 == w || (st != Ok && chip.cs2 == u)
  {
    var v := EncodeStatus2(Status2(tiTp, preserveAf, preserveTf, aie, tie));
    Status2RoundTrip(Status2(tiTp, preserveAf, preserveTf, aie, tie));
    ghost var before;
    st, before := chip.StoreCs2(v);
  }

  /**
   pcf8563_setAlarm.  However the chip raises flags meanwhile and whichever transaction fails, TF is
   never cleared and TIE and TI_TP never change; on success AF is down and AIE is as requested.
   */
  method SetAlarm(chip: Chip, a: Alarm) returns (st: Status)
    modifies chip`cs2, chip`alarm, chip`afClears, chip`tfClears
    ensures st == InvalidArg <==> !IsValidAlarm(a)
    ensures st == InvalidArg ==> chip.cs2 == old(chip.cs2) && chip.alarm == old(chip.alarm)
    ensures chip.tfClears == old(chip.tfClears) && (old(chip.cs2.tf) ==> chip.cs2.tf)
    ensures chip.cs2.tie == old(chip.cs2.tie) && chip.cs2.tiTp == old(chip.cs2.tiTp)
    ensures chip.cs2.aie == a.interruptEnable || (st != Ok && chip.cs2.aie == old(chip.cs2.aie))
    ensures st == Ok ==> !chip.cs2.af && chip.alarm == AlarmRegs(a)
  {
    if !IsValidAlarm(a) {
      return InvalidArg;
    }
    st := chip.StoreAlarm(AlarmRegs(a));
    if st != Ok {
      return st;
    }
    var s;
    st, s := ReadStatus2(chip);
    if st != Ok {
      return st;
    }
    st := WriteCs2(chip, false, true, a.interruptEnable, s.tie, s.tiTp);
  }

  /** pcf8563_disableAlarm: likewise, leaving AIE and every compare off. */
  method DisableAlarm(chip: Chip) returns (st: Status)
    modifies chip`cs2, chip`alarm, chip`afClears, chip`tfClears
    ensures st == Ok || st == I2cError
    ensures chip.tfClears == old(chip.tfClears) && (old(chip.cs2.tf) ==> chip.cs2.tf)
    ensures chip.cs2.tie == old(chip.cs2.tie) && chip.cs2.tiTp == old(chip.cs2.tiTp)
    ensures !chip.cs2.aie || (st != Ok && chip.cs2.aie == old(chip.cs2.aie))
    ensures st == Ok ==> !chip.cs2.af && chip.alarm == [0x80, 0x80, 0x80, 0x80]
  {
    st := chip.StoreAlarm([0x80, 0x80, 0x80, 0x80]);
    if st != Ok {
      return st;
    }
    var s;
    st, s := ReadStatus2(chip);
    if st != Ok {
      return st;
    }
    st := WriteCs2(chip, false, true, false, s.tie, s.tiTp);
  }

  /** pcf8563_clearAlarmFlag: clears AF and touches nothing else. */
  method ClearAlarmFlag(chip: Chip) returns (st: Status)
    modifies chip`cs2, chip`afClears, chip`tfClears
    ensures st == Ok || st == I2cError
    ensures chip.tfClears == old(chip.tfClears) && (old(chip.cs2.tf) ==> chip.cs2.tf)
    ensures chip.cs2 == old(chip.cs2).(af := chip.cs2.af, tf := chip.cs2.tf)
    ensures st == Ok ==> !chip.cs2.af
  {
    var s;
    st, s := ReadStatus2(chip);
    if st != Ok {
      return st;
    }
    st := WriteCs2(chip, false, true, s.aie, s.tie, s.tiTp);
  }

  /** pcf8563_setTimer: AF is never cleared and AIE never changes; on success TF is down. */
  method SetTimer(chip: Chip, cfg: TimerConfig) returns (st: Status)
    modifies chip`cs2, chip`timerControl, chip`timerValue, chip`afClears, chip`tfClears
    ensures st == InvalidArg <==> cfg.clock > 3
    ensures st == InvalidArg ==> chip.cs2 == old(chip.cs2) && chip.timerControl == old(chip.timerControl)
    ensures chip.afClears == old(chip.afClears) && (old(chip.cs2.af) ==> chip.cs2.af)
    ensures chip.cs2.aie == old(chip.cs2.aie)
    ensures (chip.cs2.tie == cfg.interruptEnable && chip.cs2.tiTp == cfg.pulseInterrupt)
            || (st != Ok && chip.cs2.tie == old(chip.cs2.tie) && chip.cs2.tiTp == old(chip.cs2.tiTp))
    ensures st == Ok ==> !chip.cs2.tf && chip.timerValue == cfg.value && chip.timerControl == cfg.clock + 0x80
  {
    if cfg.clock > 3 {
      return InvalidArg;
    }
    st := chip.StoreTimerControl(cfg.clock);
    if st != Ok {
      return st;
    }
    st := chip.StoreTimerValue(cfg.value);
    if st != Ok {
      return st;
    }
    st := chip.StoreTimerControl(cfg.clock + 0x80);
    if st != Ok {
      return st;
    }
    var s;
    st, s := ReadStatus2(chip);
    if st != Ok {
      return st;
    }
    st := WriteCs2(chip, true, false, s.aie, cfg.interruptEnable, cfg.pulseInterrupt);
  }

  /** pcf8563_disableTimer: AF is never cleared and AIE never changes; TIE and TI_TP end up off. */
  method DisableTimer(chip: Chip) returns (st: Status)
    modifies chip`cs2, chip`timerControl, chip`afClears, chip`tfClears
    ensures st == Ok || st == I2cError
    ensures chip.afClears == old(chip.afClears) && (old(chip.cs2.af) ==> chip.cs2.af)
    ensures chip.cs2.aie == old(chip.cs2.aie)
    ensures (!chip.cs2.tie && !chip.cs2.tiTp)
            || (st != Ok && chip.cs2.tie == old(chip.cs2.tie) && chip.cs2.tiTp == old(chip.cs2.tiTp))
    ensures st == Ok ==> !chip.cs2.tf && chip.timerControl == 3
  {
    st := chip.StoreTimerControl(3);
    if st != Ok {
      return st;
    }
    var s;
    st, s := ReadStatus2(chip);
    if st != Ok {
      return st;
    }
    st := WriteCs2(chip, true, false, s.aie, false, false);
  }

  /** pcf8563_getDateTime */
  method GetDateTime(chip: Chip) returns (st: Status, dt: DateTime)
    ensures st == Ok || st == I2cError
    ensures st == Ok ==> dt == DecodeBlock(chip.time)
  {
    var regs;
    st, regs := chip.ReadTimeBlock();
    dt := DecodeBlock(regs);
  }

  /** pcf8563_setDateTime: accepts exactly the valid ones, and then reading gives them back. */
  method SetDateTime(chip: Chip, dt: DateTime) returns (st: Status)
    modifies chip`time
    ensures st == InvalidArg <==> !(IsValidTime(dt.time) && IsValidDate(dt.date))
    ensures st == InvalidArg ==> chip.time == old(chip.time)
    ensures st == Ok ==> DecodeBlock(chip.time) == DateTime(dt.time, dt.date, false, dt.date.year >= 2100)
  {
    if !IsValidTime(dt.time) || !IsValidDate(dt.date) {
      return InvalidArg;
    }
    TimeBlockRoundTrip(dt);
    st := chip.StoreTimeBlock(EncodeBlock(dt));
  }

  /** pcf8563_setTime: over a valid stored date it changes the time of day only. */
  method SetTime(chip: Chip, time: Time) returns (st: Status)
    modifies chip`time
    ensures !IsValidTime(time) ==> st == InvalidArg
    ensures st == InvalidArg ==> chip.time == old(chip.time)
    ensures st == InvalidArg ==> !IsValidTime(time) || !IsValidDate(DecodeBlock(old(chip.time)).date)
    ensures st == Ok ==>
              var was := DecodeBlock(old(chip.time));
              && IsValidDate(was.date)
              && DecodeBlock(chip.time) == DateTime(time, was.date, false, was.date.year >= 2100)
  {
    if !IsValidTime(time) {
      return InvalidArg;
    }
    var dt;
    st, dt := GetDateTime(chip);
    if st != Ok && st != TimeInvalid {
      return st;
    }
    st := SetDateTime(chip, dt.(time := time));
  }

  // ---------------------------------------------------------------------------------------------
  // RtcBase and RtcPcf8563
  // ---------------------------------------------------------------------------------------------

  datatype CivilTime = CivilTime(year: int, month: int, day: int, hour: int, minute: int, second: int)

  /** Conversion of an int to uint8_t and uint16_t. */
  function ToByte(x: int): Byte { x % 0x100 }

  function ToYear(x: int): Year { x % 0x1_0000 }

  /** The driver fields RtcBase::setTime passes on. */
  function Narrowed(c: CivilTime): DateTime {
    DateTime(Time(ToByte(c.second), ToByte(c.minute), ToByte(c.hour)),
             Date(ToByte(c.day), 0, ToByte(c.month), ToYear(c.year)), false, false)
  }

  function Civil(dt: DateTime): CivilTime {
    CivilTime(dt.date.year, dt.date.month, dt.date.day, dt.time.hour, dt.time.minute, dt.time.second)
  }

  /** All fields fit the driver's integer types. */
  predicate InRange(c: CivilTime) {
    && 0 <= c.second < 0x100 && 0 <= c.minute < 0x100 && 0 <= c.hour < 0x100
    && 0 <= c.day < 0x100 && 0 <= c.month < 0x100 && 0 <= c.year < 0x1_0000
  }

  lemma {:induction false} NarrowedExact(c: CivilTime)
    ensures Civil(Narrowed(c)) == c <==> InRange(c)
  {
    ByteExact(c.second);
    ByteExact(c.minute);
    ByteExact(c.hour);
    ByteExact(c.day);
    ByteExact(c.month);
    YearExact(c.year);
  }

  lemma {:induction false} ByteExact(x: int)
    ensures ToByte(x) == x <==> 0 <= x < 0x100
  {
  }

  lemma {:induction false} YearExact(x: int)
    ensures ToYear(x) == x <==> 0 <= x < 0x1_0000
  {
  }

  /** RtcBase::setTime: what is stored reads back as given if and only if the fields fit. */
  method RtcSetTime(chip: Chip, c: CivilTime) returns (ok: bool)
    modifies chip`time
    ensures ok ==> IsValidTime(Narrowed(c).time) && IsValidDate(Narrowed(c).date)
    ensures ok ==> Civil(DecodeBlock(chip.time)) == Civil(Narrowed(c))
    ensures ok ==> (Civil(DecodeBlock(chip.time)) == c <==> InRange(c))
  {
    NarrowedExact(c);
    var st := SetDateTime(chip, Narrowed(c));
    ok := st == Ok;
  }

  /** Second 256 does not fit: it is accepted, stored as second 0 and reads back so. */
  lemma {:induction false} SecondWraps(c: CivilTime)
    requires c == CivilTime(2024, 1, 1, 0, 0, 256)
    ensures IsValidTime(Narrowed(c).time) && IsValidDate(Narrowed(c).date)
    ensures Civil(Narrowed(c)) == c.(second := 0) && !InRange(c)
  {
    assert ToByte(256) == 0 && ToByte(1) == 1 && ToByte(0) == 0 && ToYear(2024) == 2024;
  }

  /** RtcBase::getTime */
  method RtcGetTime(chip: Chip) returns (ok: bool, c: CivilTime)
    ensures ok ==> c == Civil(DecodeBlock(chip.time))
  {
    var st, dt := GetDateTime(chip);
    ok, c := st == Ok, Civil(dt);
  }

  /** RtcPcf8563::setMinuteAlarm: on success INT is released and re-asserts at that minute only. */
  method SetMinuteAlarm(chip: Chip, minute: Byte) returns (ok: bool)
    modifies chip`cs2, chip`alarm, chip`afClears, chip`tfClears
    ensures minute > 59 ==> !ok
    ensures ok ==> !chip.cs2.af && chip.cs2.aie && |chip.alarm| == 4
    ensures ok ==> forall m: Byte, h: Byte, d: Byte, w: Byte | m <= 59 ::
                     AlarmMatches(chip.alarm, m, h, d, w) <==> m == minute
    ensures chip.tfClears == old(chip.tfClears)
    ensures chip.cs2.tie == old(chip.cs2.tie) && chip.cs2.tiTp == old(chip.cs2.tiTp)
  {
    var st := SetAlarm(chip, MinuteAlarm(minute));
    ok := st == Ok;
    if ok {
      forall m: Byte, h: Byte, d: Byte, w: Byte | m <= 59
        ensures AlarmMatches(AlarmRegs(MinuteAlarm(minute)), m, h, d, w) <==> m == minute
      {
        MinuteAlarmMatches(minute, m, h, d, w);
      }
    }
  }
}
