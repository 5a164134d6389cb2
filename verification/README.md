# Hydro Logger 2: verified model

A Dafny model of the firmware of a battery-powered water-level logger (an ESP32 with a 4G modem, a
Wi-Fi uplink, a Modbus distance sensor and a PCF8563 real-time clock). `dafny verify dfyconfig.toml`
checks all of it. Each component is stated against a small environment that may behave in any way:
a flash file whose writes may fail or tear, a modem and a serial line that may send anything at any
time, a clock chip that raises its flags by itself, a second task that runs whenever it likes.

What is proved, hardest first:

- **Durable queue.** From any initial file contents, either the first boot aborts, for exactly one reason
  (below), or no boot ever does. Then, over every run of publish, peek, ack, pop and reboot with working
  file writes, the RAM queue, its shadow and the decoded file stay equal, and everything ever accepted is
  what was retired followed by the queue (`QueueRuns.DurableRun`). A torn file loads as exactly its whole
  records (`Snapshot.TornSnapshot`). Over every run with any write failures and any reboots, a reboot
  brings back exactly the shadow at the last rewrite that opened the file, cut to its whole records, and
  the queue never holds an item that was not accepted, one twice, or two in the wrong order
  (`QueueRuns.AnyRun`). The class methods are proved equal to the state machine's steps.
- **Delivery.** Over any sequence of publishes, sync cycles over either module and resets, with working file
  writes and an honest modem, every item that a publish took, that other tasks got in during a drain, or
  that the file held at first is to be skipped, still queued, or at the server (`Delivery.Live`). A drain
  retires a FIFO prefix, and the sends it makes are exactly the allowed attempts (`SyncDrain.Drain`).
- **CRC.** The bit-serial word loop computes the remainder of the initialised message modulo
  x^16 + x^15 + x^2 + 1 for messages of any length, and that remainder is unique (`CrcTheory.CrcMeaning`).
  A damaged frame slips through exactly if the generator divides the error polynomial
  (`CrcTheory.ErrorUndetectedIff`), hence never for odd errors or bursts of up to 16 bits. Two flipped bits
  slip through exactly if they are a multiple of 32767 bits apart (`CrcDistance.TwoBitErrorsExact`), so up
  to three never do in a frame of up to 4095 bytes. The driver accepts exactly the frames an honest slave
  builds, and every distance it measures is that of such a frame, received meanwhile.
- **Firmware download.** Over a modem that prints the action it got and whose 206 bodies carry the image,
  in whatever sub-blocks, slices and reads, `DownloadOtaImage` returning true means that the flash holds
  the first so many bytes of the image as the size probe parsed, and that this is the whole image if and
  only if the slice taken for the probe's answer held all of its line. Every update begun is ended or
  aborted once; the boot partition is switched exactly on success.
- **Sliced replies.** The modem's answers are read in slices of time. Whatever slice is taken for a
  `+HTTPACTION:` line, its method and status are those sent, its length is never larger, and it is the
  one sent exactly if the slice holds the whole line (`HttpAction.SlicedAction`). A body fetched by
  `httpGet` comes back as sent exactly if the slices collected keep it (`HttpReply.BodyExact`).
- **Modem bring-up.** `CheckInternet` returns within min(timeout, 40 s) + 9.02 s whatever the modem sends,
  and its success is backed by the replies it requires, each a slice of the bytes received after its
  command was sent (`AtLink.Follows`).
- **Interleavings.** In every boot, under every interleaving with the failover task, at most one network
  module is ever powered, and once the requested failover is carried out the stored preference is right.
  Deep sleep can end a boot at any step; over any chain of boots the next one starts with the module the
  last cycle called for if and only if nothing was left undone (`Failover.ChainExact`). The clock driver
  never clears a flag it does not own, whenever the chip raises it.
- **Schedule.** No run of alarm-driven cycles sleeps through the top of an hour; each is synced.

Places where the code does less than it seems, each with its exact condition:

- `Pcf8563.ValidDateIff`: the leap-year rule admits one day that does not exist, 29 February 2100.
- `HttpAction.SlicedAction`, `HttpAction.CutLengthAccepted`: an action line that a slice cuts inside its last
  number is accepted with a length too small, 12 for 1234567 say (`HttpAction.MegabyteCutToTwelve`). The
  download then writes that many bytes and switches to them unless the bootloader's own check of the image
  refuses.
- `HttpReply.BodyExact`: the body that `httpGet` returns is the one sent if and only if what was collected
  reaches the end of the body, only blanks follow it up to the last OK, and it ends in no blank itself.
  Hence an OK before the header line can cut a body anywhere (`HttpReply.EarlyOkCutsBody`), and a reply
  closed by `+HTTPREAD: 0`, as the download expects it (`sim4g_module.cpp`, lines 1006-1008), never comes back as
  sent (`HttpReply.ClosedReply`); a reply with no earlier OK does exactly if its closing text is blank
  (`HttpReply.QuietReplyExact`).
- `WakeCycle.LateArming`: a wake-up survives a minute rolling over between reading the clock and arming the
  alarm exactly while the alarm minute has not begun; after that it comes an hour late.
- `Failover.CutExact`: deep sleep can come before the failover task has run, on quiet as on the awake budget.
  The preference found by the next boot is the right one if and only if the sync task had acted on what it
  found out and the failover it requested, if any, had been stored; `Failover.LostRequest` is an execution
  that loses it.
- `QueueRuns.BootAgrees`: boot aborts exactly on a file with a good header that announces more items than the
  heap can reserve, and then at every boot, for it leaves the file as it is (`QueueRuns.AbsurdCount`). No
  rewrite, torn or not, leaves such a file (`QueueRuns.WrittenCount`), so the code alone never gets there
  (`QueueRuns.NeverAborts`).
- `QueueRuns.RebootAfterCall`: after any run, a reboot right after a publish, ack or pop whose rewrite was
  complete keeps the queue; one whose rewrite could not open the file keeps it only if the flash already
  held it, which is never so if the flash held the queue before the call (an accepted item is lost, a sent
  one is sent again); one whose rewrite was torn keeps it exactly if all its records got there.
- `Pcf8563.RtcSetTime`: a stored time reads back as given exactly if its fields fit the driver's integers;
  `Pcf8563.SecondWraps` shows one that does not.

The repository's README says that the scheduler reads the clock every 200 ms and that OTA runs over Wi-Fi
only; the code runs one cycle per wake-up and downloads over both links. The model follows the code.

Files: `Gf2Poly`, `Words`, `ModbusCrc`, `CrcTheory`, `CrcDistance`, `ModbusFrame` (sensor); `RecordCodec`, `Snapshot`,
`QueueRuns`, `QueueMirror`, `SyncDrain`, `Delivery` (queue); `AtText`, `Uart`, `AtLink`, `HttpAction`, `HttpRead`,
`HttpReply`, `SimModule`, `OtaService`, `ModemDeadline` (modem); `Pcf8563`, `WakeCycle`, `Failover`, `LogBuffer`; `Prelude`.

## Model

| member | source | states |
|---|---|---|
| QueueRuns.DurableRun | main/middleware/persistent_queue_mirror.hpp:135-182 | from any file contents the first boot aborts, only if the item count cannot be reserved, or over every run with successful writes and any reboots none does, RAM, shadow and decoded file are equal and accepted = retired + queue |
| QueueRuns.RunAgrees | main/middleware/persistent_queue_mirror.hpp:156-182 | the same as an invariant: agreement and conservation are kept by every sequence of events |
| QueueRuns.BootAgrees | main/middleware/message_bus.cpp:9-11 | boot aborts exactly if a good header's count cannot be reserved; otherwise both sides agree, also when init fails on a damaged header |
| QueueRuns.AbsurdCount | main/middleware/persistent_queue_mirror.hpp:201 | a good header with the largest count aborts every boot of a mounted file |
| QueueRuns.WrittenCount | main/middleware/persistent_queue_mirror.hpp:212-237 | every rewrite that opened the file leaves no whole header or the shadow's own count, at most the capacity |
| QueueRuns.NeverAborts | main/middleware/persistent_queue_mirror.hpp:185-237 | from a file that loads, no run with any write outcomes reaches the abort |
| QueueRuns.RunMirrored | main/middleware/persistent_queue_mirror.hpp:156-182 | with any write failures RAM and shadow stay equal, and between reboots nothing accepted is lost, duplicated or reordered |
| QueueRuns.ShadowNeverFull | main/middleware/persistent_queue_mirror.hpp:159-163 | the "shadow already full" branch is unreachable after any run |
| QueueRuns.RebootAfterRun | main/middleware/persistent_queue_mirror.hpp:185-237 | over every run with any write outcomes and reboots, a reboot brings back the shadow at the last rewrite that opened the file, cut to its whole records |
| QueueRuns.RebootAfterCall | main/middleware/persistent_queue_mirror.hpp:212-237 | per outcome of the last call's rewrite, after any run: exactly when a reboot keeps the queue, and what it brings back otherwise |
| QueueRuns.RunOrdered | main/middleware/persistent_queue_mirror.hpp:156-182 | over every run with any write outcomes and reboots, queue and flash hold accepted items only, none twice, in order |
| QueueRuns.AnyRun | main/middleware/persistent_queue_mirror.hpp:135-182 | the two previous results from any file contents on which the first boot does not abort, which is exactly if its count can be reserved |
| Snapshot.TornSnapshot | main/middleware/persistent_queue_mirror.hpp:185-237 | loading any byte prefix of a printed snapshot yields the first floor((n-16)/recordSize) items, or none and false without a whole header |
| Snapshot.SnapshotRoundTrip | main/middleware/persistent_queue_mirror.hpp:185-237 | a completely written snapshot loads back exactly |
| RecordCodec.CodecsLawful | main/middleware/persistent_queue_mirror.hpp:72-127 | both codecs print records of fixed size and decode(encode(m)) = m for every message |
| RecordCodec.MeasurementRoundTrip | main/middleware/persistent_queue_mirror.hpp:76-100 | measurement records of 92 bytes round-trip |
| RecordCodec.LogRoundTrip | main/middleware/persistent_queue_mirror.hpp:103-127 | log records of 1104 bytes round-trip |
| QueueMirror.PersistentQueueMirror.PersistSnapshot | main/middleware/persistent_queue_mirror.hpp:212-237 | leaves the printed shadow, or the old file if it could not be opened, or a prefix; true exactly when complete |
| QueueMirror.PersistentQueueMirror.LoadSnapshot | main/middleware/persistent_queue_mirror.hpp:185-210 | does not return exactly if the header's count cannot be reserved; otherwise shadow and result are those of loading the file, never above capacity |
| QueueMirror.PersistentQueueMirror.Init | main/middleware/persistent_queue_mirror.hpp:135-138 | loads the shadow, fails with an empty one, or aborts as loading does |
| QueueMirror.PersistentQueueMirror.RestoreToRam | main/middleware/persistent_queue_mirror.hpp:140-154 | fills the queue from the shadow; only if the queue is too short is the shadow cut and rewritten, and then the result is that of the rewrite |
| QueueMirror.PersistentQueueMirror.Enqueue | main/middleware/persistent_queue_mirror.hpp:156-165 | is the state machine's publish; false can mean that only the file write failed |
| QueueMirror.PersistentQueueMirror.Peek | main/middleware/persistent_queue_mirror.hpp:167-169 | an item exactly if the queue is not empty, and the one the next ack or pop drops, however its file write ends; nothing changes |
| QueueMirror.PersistentQueueMirror.Pop | main/middleware/persistent_queue_mirror.hpp:171-175 | returns the head and is the state machine's drop |
| QueueMirror.PersistentQueueMirror.Ack | main/middleware/persistent_queue_mirror.hpp:177-182 | is the state machine's drop; false can mean that only the file write failed |
| QueueMirror.MessageBus.Init | main/middleware/message_bus.cpp:4-12 | for every outcome of queue creation and mount: a missing queue leaves all untouched, an absurd count aborts, and otherwise both start in agreement with shadow and file, or empty if not mounted; true exactly if created, mounted and both headers good |
| SyncDrain.Uplink.Send | main/app/sync_task.cpp:266-271 | one send over the active module; over an honest modem success means that the item's payload is among those the server got |
| SyncDrain.SendWithRetries | main/app/sync_task.cpp:28-37 | the sends made are its attempts: success after at most three, only the last successful; failure after exactly three |
| SyncDrain.Drain | main/app/sync_task.cpp:240-313 | under any sends and interleaved publishes a FIFO prefix is retired, each item sent or to be skipped, a given-up item had exactly three attempts and is still the head, and the sends made are exactly these; over an honest modem every item retired after a send got to the server |
| SyncDrain.DrainMeasurements | main/app/sync_task.cpp:240-285 | every measurement that left was delivered, except that the non-pressure builds drop the invalid ones unsent |
| SyncDrain.DrainLogs | main/app/sync_task.cpp:287-313 | every log line that left was delivered and counted |
| Delivery.Live | main/app/sync_task.cpp:158-338 | over any publishes, sync cycles and resets with working writes and an honest modem, every accepted item is to be skipped, still queued, or at the server, and the queue would survive a further reset |
| Delivery.LiveMeasurements | main/app/sync_task.cpp:242-285 | the same for measurements: no valid one is lost, in the pressure build none at all |
| ModbusCrc.ModbusCrc16 | main/modules/sensor/ultrasonic_sensor.cpp:27-38 | the word loops compute the shift register over the message bits, least significant bit first |
| CrcTheory.CrcMeaning | main/modules/sensor/ultrasonic_sensor.cpp:27-38 | the CRC is the one remainder of the initialised message polynomial modulo the generator |
| CrcTheory.ResidueZero | main/modules/sensor/ultrasonic_sensor.cpp:214-225 | the check passes exactly if the register over the whole frame, CRC low byte first, is zero |
| CrcTheory.ErrorUndetectedIff | main/modules/sensor/ultrasonic_sensor.cpp:214-225 | a damaged frame passes exactly if the generator divides the error polynomial |
| CrcTheory.OddErrorsDetected | main/modules/sensor/ultrasonic_sensor.cpp:214-225 | every error of odd weight is rejected |
| CrcTheory.BurstErrorsDetected | main/modules/sensor/ultrasonic_sensor.cpp:214-225 | every non-zero burst within 16 bits is rejected |
| CrcDistance.TwoBitErrorsExact | main/modules/sensor/ultrasonic_sensor.cpp:214-225 | two flipped bits pass the check exactly if they are a multiple of 32767 bits apart |
| CrcDistance.FewErrorsDetected | main/modules/sensor/ultrasonic_sensor.cpp:214-225 | one, two or three flipped bits in a frame of up to 4095 bytes are rejected |
| CrcDistance.PeriodExact | main/modules/sensor/ultrasonic_sensor.cpp:32-34 | x^n leaves remainder 1 modulo x^15 + x + 1 exactly for the multiples of 32767 |
| CrcTheory.RegisterLinear | main/modules/sensor/ultrasonic_sensor.cpp:30-35 | the register is linear over exclusive or |
| CrcTheory.StepParity | main/modules/sensor/ultrasonic_sensor.cpp:32-34 | a bit step keeps the register's parity |
| Gf2Poly.DivisionUnique | main/modules/sensor/ultrasonic_sensor.cpp:24-26 | quotient and remainder by the generator are unique |
| ModbusFrame.BuildReadRequest | main/modules/sensor/ultrasonic_sensor.cpp:51-61 | the request reads five holding registers from address 1 of node 1 and carries a passing CRC |
| ModbusFrame.ExchangeSensorFrame | main/modules/sensor/ultrasonic_sensor.cpp:87-153 | success fills the buffer with exactly the bytes received since the request; it ends within 12 s, and a failed reception takes exactly that with fewer bytes |
| ModbusFrame.ParseReadResponse | main/modules/sensor/ultrasonic_sensor.cpp:165-245 | accepts exactly the frames an honest slave builds; each rejection names the first failing check |
| ModbusFrame.HonestFrameDecoded | main/modules/sensor/ultrasonic_sensor.cpp:227-238 | any five registers come back, with distance (range - reg0) mod 2^16 and a signed offset |
| ModbusFrame.AcceptedFrameIsHonest | main/modules/sensor/ultrasonic_sensor.cpp:173-225 | an accepted frame is the honest frame of the registers read from it |
| ModbusFrame.DamagedResponse | main/modules/sensor/ultrasonic_sensor.cpp:173-225 | a damaged response is accepted exactly if its header survived and the generator divides the error |
| ModbusFrame.DamagedResponseRejected | main/modules/sensor/ultrasonic_sensor.cpp:214-225 | up to three flipped bits, any odd number of them, and 16-bit bursts in a response are rejected |
| ModbusFrame.ReadRegisters | main/modules/sensor/ultrasonic_sensor.cpp:250-278 | the request goes out, and the result is the parse of the fifteen bytes received since, or a transport failure |
| ModbusFrame.Measure | main/modules/sensor/sensor_manager.cpp:62-85 | warm-up and three samples end within 202 s however the line behaves; every sample is 0 or plausible and the distance of an honest frame received meanwhile, and success means none is 0 |
| Uart.ReadLineSim | main/board/uart_drv.cpp:72-83 | returns exactly the bytes received during the timeout and at most four ticks more |
| AtText.ScanAtError | main/services/connectivity/sim4g_module.cpp:37-49 | finds a CME, CMS or standalone ERROR, and only those |
| AtText.DecimalRoundTrip | main/services/connectivity/sim4g_module.cpp:992 | scanning a printed length gives the length |
| HttpRead.ReadHttpReadLen | main/services/connectivity/sim4g_module.cpp:982-1004 | success consumes exactly the bytes up to the header's newline; failure is an AT error line or a full timeout |
| HttpRead.ScanFrameHead | main/services/connectivity/sim4g_module.cpp:985-1001 | quiet lines are passed over and reading stops at the first payload byte with the announced length |
| HttpRead.NextSubBlock | main/services/connectivity/sim4g_module.cpp:1195-1240 | on any framing of a body, the next sub-block read is the next piece of the body, whatever bytes it contains |
| HttpRead.DrainToOk | main/services/connectivity/sim4g_module.cpp:1009-1019 | absent a timeout it stops at exactly the byte that completes the first OK line ending of the whole stream |
| HttpRead.WindowSuffices | main/services/connectivity/sim4g_module.cpp:1015-1017 | the 64-byte window sees an OK line ending exactly when the whole stream has one |
| HttpAction.CutFields | main/services/connectivity/sim4g_module.cpp:103-107 | scanning any prefix of printed numbers gives nothing before the last number's first digit, and then all numbers with the last one cut |
| HttpAction.SlicedAction | main/services/connectivity/sim4g_module.cpp:97-110 | whatever slice holds the token: method and status are those sent, the length is at most the one sent, and equal exactly if the slice holds the whole line |
| HttpAction.PlainSliceExact | main/services/connectivity/sim4g_module.cpp:97-110 | a slice without NUL parses as the action sent if and only if it holds the whole line |
| HttpAction.CutLengthAccepted | main/services/connectivity/sim4g_module.cpp:97-110 | every line cut after some but not all digits of its length is accepted with a smaller length |
| HttpReply.BodyExact | main/services/connectivity/sim4g_module.cpp:926-947 | for every reply and every part of it collected: the body comes back as sent if and only if the part keeps it |
| HttpReply.WholeReply | main/services/connectivity/sim4g_module.cpp:926-947 | collected to its final OK, the body comes back exactly if the closing text is blank and the body ends in no blank, even if it contains OK |
| HttpReply.QuietReplyExact | main/services/connectivity/sim4g_module.cpp:908-947 | the same for a reply with no earlier OK, in whatever slices it was collected |
| HttpReply.EarlyOkCutsBody | main/services/connectivity/sim4g_module.cpp:908-924 | after an early OK line, a slice ending inside the body stops the collection and that part is taken for the body |
| HttpReply.PlainReply | main/services/connectivity/sim4g_module.cpp:926-947 | a body followed by a line break and OK comes back exactly if it ends in no blank |
| HttpReply.ClosedReply | main/services/connectivity/sim4g_module.cpp:926-947 | a closing zero-length header stays in the result, so the body never comes back as sent |
| HttpReply.CollectReply | main/services/connectivity/sim4g_module.cpp:908-924 | collects slices of what arrives up to the first one that brings header and OK or an error, or for 5 s; ends within 5.53 s |
| SimModule.Sim4GModule.SendHttpInit | main/services/connectivity/sim4g_module.cpp:690-695 | AT+HTTPINIT is only sent while the session flag is down, and the flag rises exactly on OK |
| SimModule.Sim4GModule.HttpTermSafe | main/services/connectivity/sim4g_module.cpp:624-637 | leaves the flag down |
| SimModule.Sim4GModule.HttpInitAndSetBearer | main/services/connectivity/sim4g_module.cpp:677-701 | the flag is up exactly on success |
| SimModule.Sim4GModule.HttpAction | main/services/connectivity/sim4g_module.cpp:771-791 | the parsed reply is a slice received after the command; over an honest modem its status is the server's and its length the announced one exactly if the slice held the whole line |
| SimModule.Sim4GModule.UploadBody | main/services/connectivity/sim4g_module.cpp:745-769 | success means prompted, written in full and confirmed, in this order |
| SimModule.Sim4GModule.SendPayload | main/services/connectivity/sim4g_module.cpp:706-830 | true only if the upload was prompted, made in full, confirmed, and then answered by a 2xx action line; over an honest modem the server then got exactly this payload once; every return leaves the flag down |
| SimModule.Sim4GModule.HttpGet | main/services/connectivity/sim4g_module.cpp:832-970 | the response is cut from the slices received since the read command up to the first stopping one, and is the reply's body exactly if they keep it; every return leaves the flag down |
| SimModule.Sim4GModule.CopyPayload | main/services/connectivity/sim4g_module.cpp:1211-1238 | success moves exactly the announced bytes from the line to flash, however reads split them |
| SimModule.Sim4GModule.ReadWindow | main/services/connectivity/sim4g_module.cpp:1195-1240 | a stream that carries a body, in any framing, puts exactly that body into flash |
| SimModule.Sim4GModule.FetchWindow | main/services/connectivity/sim4g_module.cpp:1117-1245 | a fetched window appends the image bytes from its offset on, also if its action line was cut |
| SimModule.Sim4GModule.DownloadOtaImage | main/services/connectivity/sim4g_module.cpp:1023-1282 | true exactly if the boot partition was switched; then the flash holds as many bytes as were parsed from the slice received for the probe's 2xx answer, over an honest modem the first of the image, and all of it exactly if that slice held the whole line with the image's size; a begun update is ended or aborted exactly once; it terminates |
| OtaService.PerformOta | main/services/ota/ota_service.cpp:110-191 | routes to the module; true exactly if the boot partition was switched; over SIM the flash then holds what the probe's received slice says, as for the download |
| OtaService.CheckAndUpdate | main/services/ota/ota_service.cpp:17-54 | at most three attempts, only for a different version; true exactly if the boot partition was switched, once; over an honest modem to the start of the image, all of it exactly if the slice received for the probe held its whole line |
| OtaService.RunCalls | main/services/connectivity/sim4g_module.cpp:624-970 | over any sequence of calls the flag is down between calls, and without lost replies HTTPINIT never meets an open session |
| AtLink.WaitForToken | main/services/connectivity/sim4g_module.cpp:248-270 | the answer is the first slice received that holds the token or an AT error, those before it are gone; the wait overruns its timeout by at most 230 ms |
| AtLink.Link.SendAtExpect | main/services/connectivity/sim4g_module.cpp:272-287 | an answered command has its token in a slice received after the command was sent |
| ModemDeadline.Sim4GModem.SendClamped | main/services/connectivity/sim4g_module.cpp:25-34 | a clamped command overruns the deadline by at most 230 ms and costs nothing after it |
| ModemDeadline.Sim4GModem.CheckSimReady | main/services/connectivity/sim4g_module.cpp:387-405 | success means a READY slice received since; bounded by the deadline and one overrun |
| ModemDeadline.Sim4GModem.WaitLteRegistration | main/services/connectivity/sim4g_module.cpp:408-449 | success means a received registration reply at home or roaming; at most 2.46 s past the deadline |
| ModemDeadline.Sim4GModem.DetectCarrier | main/services/connectivity/sim4g_module.cpp:180-243 | the profile known for the first numeric slice of everything received in answer to AT+CIMI; if none, AT+COPS? is asked and its answering line decides, else the saved profile; at most 6.56 s, ignoring the deadline |
| ModemDeadline.Sim4GModem.AttachAndActivateData | main/services/connectivity/sim4g_module.cpp:476-516 | success means attached and activated replies received; at most 2.23 s past the deadline |
| ModemDeadline.Sim4GModem.VerifyDataReady | main/services/connectivity/sim4g_module.cpp:519-551 | success means a reply with an active context and none with an unassigned address |
| ModemDeadline.Sim4GModem.TryApnConnect | main/services/connectivity/sim4g_module.cpp:554-563 | success means replies received to configure, attach, activate and verify this profile |
| ModemDeadline.Sim4GModem.CheckInternet | main/services/connectivity/sim4g_module.cpp:566-616 | returns within min(timeout, 40 s) + 9.02 s; success is backed by slices received during the call for the profile that is then in use and saved |
| Pcf8563.BcdRoundTrip | main/modules/rtc/pcf8563.cpp:54-62 | BCD encoding round-trips below 100 and stays below the register masks |
| Pcf8563.ValidDateIff | main/modules/rtc/pcf8563.cpp:64-127 | a date is valid to the driver and not to the calendar exactly for 29 February 2100 |
| Pcf8563.TimeBlockRoundTrip | main/modules/rtc/pcf8563.cpp:277-324 | every valid time and date comes back, century bit from 2100 on, voltage flag cleared |
| Pcf8563.SetDateTime | main/modules/rtc/pcf8563.cpp:297-325 | accepts exactly valid input, and reading then returns it |
| Pcf8563.SetTime | main/modules/rtc/pcf8563.cpp:347-369 | over a valid stored date changes only the time of day |
| Pcf8563.WriteCs2 | main/modules/rtc/pcf8563.cpp:183-203 | a flag to preserve is never cleared, one not preserved is down on success |
| Pcf8563.SetAlarm | main/modules/rtc/pcf8563.cpp:371-413 | under any flags raised meanwhile and any failure, never clears TF nor changes TIE and TI_TP; on success AF is down and AIE as asked |
| Pcf8563.DisableAlarm | main/modules/rtc/pcf8563.cpp:415-440 | the same with AIE and all compares off |
| Pcf8563.ClearAlarmFlag | main/modules/rtc/pcf8563.cpp:442-461 | clears AF and nothing else |
| Pcf8563.SetTimer | main/modules/rtc/pcf8563.cpp:483-535 | never clears AF nor changes AIE; on success TF is down and the timer runs as configured |
| Pcf8563.DisableTimer | main/modules/rtc/pcf8563.cpp:537-562 | never clears AF nor changes AIE; TIE and TI_TP end up off |
| Pcf8563.RtcSetTime | main/modules/rtc/rtc_pcf8563.cpp:42-52 | what is stored reads back as given exactly if the fields fit their integer types |
| Pcf8563.SecondWraps | main/modules/rtc/rtc_pcf8563.cpp:42-52 | second 256 is accepted and reads back as 0 |
| Pcf8563.RtcGetTime | main/modules/rtc/rtc_pcf8563.cpp:29-40 | the stored time in civil fields |
| Pcf8563.MinuteAlarmMatches | main/modules/rtc/rtc_pcf8563.cpp:132-136 | the minute alarm's registers match exactly the moments with that minute |
| Pcf8563.SetMinuteAlarm | main/modules/rtc/rtc_pcf8563.cpp:132-145 | on success the flag is down, the interrupt on, and the alarm matches that minute of every hour only |
| WakeCycle.IsScheduledMinute | main/common/time_utils.cpp:10-15 | true exactly at multiples of ten minutes |
| WakeCycle.NextScheduledMinute | main/common/time_utils.cpp:21-28 | the first scheduled minute after the current one, wrapping to the hour |
| WakeCycle.NextAlarm | main/app/scheduler_task.cpp:64-68 | the armed alarm fires at the first scheduled minute after the cycle's end, 1 to 10 minutes later |
| WakeCycle.LateArming | main/app/scheduler_task.cpp:64-68 | armed late, it still fires on time exactly while its minute has not begun, otherwise an hour later |
| WakeCycle.WaitForWork | main/app/scheduler_task.cpp:42-62 | ends within the OTA budget plus one poll however the bits flip, for one of its two reasons, and within a poll of lasting quiet |
| WakeCycle.RunCycle | main/app/scheduler_task.cpp:19-75 | one wake-up leads to the first scheduled minute after its bounded end, and syncs exactly if woken for a sync minute |
| WakeCycle.CycleKeepsHours | main/app/scheduler_task.cpp:31-74 | no cycle sleeps through the top of an hour; a cycle without sync is followed ten minutes later |
| WakeCycle.EveryHourSynced | main/common/config.hpp:12-25 | in every run each top of the hour passed is a wake-up whose cycle started the sync task |
| WakeCycle.SyncedAtHours | main/app/scheduler_task.cpp:31-36 | every finished cycle of a run synced exactly if woken at the top of an hour |
| Failover.InvRun | main/app/failover_task.cpp:52-72 | the invariant holds in every state of every interleaving of a boot |
| Failover.CycleCorrect | main/app/sync_task.cpp:165-175 | under every interleaving of a boot at most one module is powered, none after the cycle, and the settled preference is right |
| Failover.CutExact | main/app/scheduler_task.cpp:42-74 | cut off after any step, the stored preference is the one the cycle called for if and only if that was acted on and the requested failover stored |
| Failover.ChainExact | main/app/app_main.cpp:54-63 | over any chain of boots each starts with the module the one before called for exactly if that one lost nothing; never two modules powered |
| Failover.LostRequest | main/app/sync_task.cpp:165-174 | an execution in which neither module comes up and the request is still queued when the chip may sleep: the next boot starts with the module that failed |
| Failover.Device.TryModule | main/services/connectivity/connectivity_manager.cpp:21-29 | its steps are those of the transition system; a failed module is off again |
| Failover.Device.Warmup | main/services/connectivity/connectivity_manager.cpp:31-55 | preferred module first, then the other; ends draining or failed as the transition system does |
| Failover.Device.SyncCycle | main/app/sync_task.cpp:158-338 | the cycle with the failover task anywhere inside is an execution of a boot; the preference it leaves is right exactly if the requested failover has been stored |
| LogBuffer.LogBuffer.Vsnprintf | main/services/logging/log_buffer.cpp:22 | writes at most size - 1 characters and a NUL, nothing else, and returns the full length |
| LogBuffer.LogBuffer.Vappendf | main/services/logging/log_buffer.cpp:17-27 | the log represents the old text followed by the new |
| LogBuffer.LogBuffer.CStr | main/services/logging/log_buffer.hpp:14 | the C string is the text cut to 1022 characters |
| LogBuffer.AppendAll | main/services/logging/log_buffer.cpp:5-27 | after any appends the C string is the concatenation cut to 1022 and size() is its length cut to 1023 |

## Left out

- Statement-level overlap of two calls on one queue mirror: each call is one step, because the code takes no lock.
- Buffered file data that is lost after a successful `fwrite`: the results of `fflush` and `fclose` are ignored by the code, and a successful write is taken to reach the file.
- QueueRuns.Wired: takes for granted that the heap can reserve the items of a full queue; what else it can reserve is a parameter.
- QueueMirror.PersistentQueueMirror.Peek: does not model the blocking wait, which changes nothing in the queue.
- SyncDrain.Drain: does not model the 60 s window's clock; the window may close before any iteration, and the publishes of other tasks during one drain are finite.
- SyncDrain.OthersPublish: publishes are placed between peek and send, where they have the same effect as at any point before the acknowledgement.
- SyncDrain.Uplink.Send: does not model JSON; a payload is any function of the item and the voltage read for it.
- SyncDrain.WebServer: the HTTP client of the Wi-Fi path reports success only if the server took the payload.
- Delivery.Live: takes one kind of message at a time, and the modem's power as on exactly during a sync over it.
- Negative results of `uart_read_bytes` (a driver not installed): reads return zero or more bytes, and none only after the whole timeout.
- Time spent computing, writing to the UART or preempted by other tasks: only blocking waits take time, and the tick counter does not wrap, since every wake-up resets it.
- SimModule.Modem.OnInit: which HTTPINIT opened a session, and whether the module saw its reply, is chosen by the environment; `lossless` ties the two together.
- SimModule.Modem.OnData: the modem takes the bytes that went out after its prompt for the body; bytes lost on the line are not modelled.
- SimModule.Modem.OnAction: an honest modem prints one action line per action; other URCs may surround it but not repeat its token.
- SimModule.OtaFlash.End: the bootloader's check of a written image accepts or refuses arbitrarily.
- OtaService.PerformOta: does not model the ESP-IDF updater beyond switching the boot partition or failing.
- OtaService.FetchAndParseVersion: does not model JSON; the version is any string.
- ModemDeadline.Sim4GModem.CheckInternet: does not model power-on, the AT handshake or the LTE mode command, which precede it.
- Numbers above 2^31 - 1 in modem replies, where `sscanf` is undefined: they are unbounded here.
- Register writes of `pcf8563_init`, the clock output functions, `RtcPcf8563::clearTimerFlag`, which writes AF back as read, and the plain wrappers around the timer calls.
- The clock advancing between writing and reading the time, and the RTC being re-set by the time sync within a run of cycles.
- WakeCycle.RunCycle: does not model the clock's minute rolling over before the alarm is armed, which `WakeCycle.LateArming` covers, nor a failing clock read; booting takes less than a minute and publishing at most one, the result of `setMinuteAlarm`, which the code ignores, is success, and the sensor is the ultrasonic one.
- Failover.Device.SyncCycle: does not model the time sync and the OTA check, which touch neither preference nor power, nor the restart after an update; NVS writes succeed. The diagnostic of a cold boot, which precedes the tasks, is not part of it.
- LogBuffer.LogBuffer.Vsnprintf: does not model formatting or an encoding error; the text is given already formatted and without NUL.
- Mutual exclusion of measuring and OTA: the code checks and then sets its bits, so it does not hold.
- Laser and pressure sensors, JSON packing, the configuration console, the diagnostic, LED and speaker tasks, GPIO, ADC and Wi-Fi drivers: they would only add easy members or are foreign calls.
