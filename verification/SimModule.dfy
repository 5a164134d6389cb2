/**
 The HTTP side of Sim4GModule (main/services/connectivity/sim4g_module.cpp): the session flag across
 POST, GET and firmware download, and the download itself down to the flash writes.
 */
module SimModule {
  import opened AtLink
  import opened AtText
  import opened HttpAction
  import opened Prelude
  import opened Uart
  import opened HttpRead
  import opened HttpReply

  const OTA_WINDOW_SIZE: nat := 32768
  const OTA_READ_TIMEOUT_MS: nat := 8000
  const OTA_TOTAL_TIMEOUT_MS: nat := 900000
  const READ_BUFFER_SIZE: nat := 256
  const HTTP_DATA_TIMEOUT_MS: nat := 10000
  const HTTP_ACTION_TIMEOUT_MS: nat := 30000

  predicate Is2xx(status: int) {
    200 <= status < 300
  }

  /** snprintf into a buffer of size bytes */
  function Fit(text: string, size: nat): string
    requires size > 0
  {
    text[..Min(|text|, size - 1)]
  }

  function UrlCommand(url: string): string {
    Fit("AT+HTTPPARA=\"URL\",\"" + url + "\"", 320)
  }

  function RangeCommand(first: nat, last: nat): string {
    "AT+HTTPPARA=\"USERDATA\",\"Range: bytes=" + Decimal(first) + "-" + Decimal(last) + "\""
  }

  function DataCommand(size: nat): string {
    "AT+HTTPDATA=" + Decimal(size) + "," + Decimal(HTTP_DATA_TIMEOUT_MS)
  }

  function ActionCommand(verb: nat): string {
    "AT+HTTPACTION=" + Decimal(verb)
  }

  function ReadCommand(len: nat): string {
    "AT+HTTPREAD=0," + Decimal(len)
  }

  /** Exchange k asked for the action, and the slice that answered it parses as a. */
  predicate SaysAction(log: seq<Exchange>, k: nat, verb: nat, a: Action) {
    && k < |log|
    && IsAnswer(log[k], CommandLine(ActionCommand(verb)), TOKEN)
    && ParseAction(log[k].line) == Some(a)
  }

  /** Three exchanges in a row: the upload was asked for, made and confirmed, and the POST succeeded. */
  predicate PostedAt(log: seq<Exchange>, k: nat, json: string, a: Action) {
    && k + 2 < |log|
    && IsAnswer(log[k], CommandLine(DataCommand(|json|)), "DOWNLOAD")
    && IsAnswer(log[k + 1], json, "OK")
    && SaysAction(log, k + 2, 1, a) && Is2xx(a.status)
  }

  /** Since position from, the payload was posted. */
  ghost predicate Posted(log: seq<Exchange>, from: nat, json: string) {
    exists k: nat, a: Action :: from <= k && PostedAt(log, k, json, a)
  }

  /** Since position from, a GET found something to read. */
  ghost predicate Found2xx(log: seq<Exchange>, from: nat) {
    exists k: nat, a: Action :: from <= k && SaysAction(log, k, 0, a) && Is2xx(a.status) && a.bodyLen > 0
  }

  lemma {:induction false} PostedStays(log: seq<Exchange>, from: nat, json: string, log': seq<Exchange>, from': nat)
    requires Posted(log, from, json) && log <= log' && from' <= from
    ensures Posted(log', from', json)
  {
    var k: nat, a: Action :| from <= k && PostedAt(log, k, json, a);
    assert log'[k] == log[k] && log'[k + 1] == log[k + 1] && log'[k + 2] == log[k + 2];
    assert PostedAt(log', k, json, a);
  }

  lemma {:induction false} Found2xxStays(log: seq<Exchange>, from: nat, log': seq<Exchange>, from': nat)
    requires Found2xx(log, from) && log <= log' && from' <= from
    ensures Found2xx(log', from')
  {
    var k: nat, a: Action :|
      from <= k && SaysAction(log, k, 0, a) && Is2xx(a.status) && a.bodyLen > 0;
    assert log'[k] == log[k];
    assert SaysAction(log', k, 0, a);
  }

  /** Any stream that carries the body. */
  method AnyFraming(body: string) returns (rx: string)
    ensures Carries(rx, body)
  {
    var blocks: seq<SubBlock> :| |blocks| >= 0;
    var tail: string :| |tail| >= 0;
    if !(forall i :: 0 <= i < |blocks| ==> WellFormed(blocks[i])) || Payload(blocks) != body {
      blocks := if body == "" then [] else [SubBlock([], body)];
      assert body != "" ==> blocks[1..] == [] && Payload(blocks) == body + Payload([]);
      assert Payload(blocks) == body;
    }
    rx := Frame(blocks) + tail;
    assert CarriesAs(rx, body, blocks, tail);
  }

  /**
   The modem and the server behind it: how their state changes with what goes over the link.  Its
   bytes are arbitrary unless it is honest.  If lossless, the module sees the reply to AT+HTTPINIT
   exactly when the modem opened its session, and AT+HTTPTERM arrives.  If honest, it prints the action
   it got, once and in a line of its own, with anything before and after; the size it gets for the
   unranged image is that of image; and every 206 body carries the bytes of image from the requested
   offset on, in any framing.
   */
  class Modem {
    const link: Link
    const image: string
    const lossless: bool
    const honest: bool

    var sessionOpen: bool
    var initWhileOpen: bool
    var rangeFirst: nat
    var ranged: bool
    var served: Action         // the result of the last action
    var posted: string         // the request body it holds
    ghost var delivered: seq<string>
    ghost var stream: string   // all that answers the last AT+HTTPREAD

    constructor (link: Link, image: string, lossless: bool, honest: bool)
      ensures this.link == link && this.image == image && this.lossless == lossless && this.honest == honest
      ensures !sessionOpen && !initWhileOpen
    {
      this.link, this.image, this.lossless, this.honest := link, image, lossless, honest;
      sessionOpen, initWhileOpen, rangeFirst, ranged := false, false, 0, false;
      served, posted, delivered, stream := Action(0, 0, 0), "", [], "";
    }

    /** AT+HTTPINIT was sent; ok: the module saw its reply. */
    method OnInit(ok: bool)
      modifies this`sessionOpen, this`initWhileOpen, this`ranged
      ensures !ranged
      ensures initWhileOpen == (old(initWhileOpen) || old(sessionOpen))
      ensures old(sessionOpen) ==> sessionOpen
      ensures lossless && !old(sessionOpen) ==> ok == sessionOpen
    {
      ranged := false;
      if sessionOpen {
        initWhileOpen := true;
      } else {
        var accepted: bool := *;
        sessionOpen := if lossless then ok else accepted;
      }
    }

    /** AT+HTTPTERM was sent. */
    method OnTerm()
      modifies this`sessionOpen
      ensures lossless ==> !sessionOpen
      ensures !old(sessionOpen) ==> !sessionOpen
    {
      var arrived: bool := *;
      if lossless || arrived {
        sessionOpen := false;
      }
    }

    /** The Range header was sent; ok: it was confirmed. */
    method OnRange(ok: bool, first: nat)
      modifies this`rangeFirst, this`ranged
      ensures ok ==> ranged && rangeFirst == first
    {
      ranged, rangeFirst := ok, first;
    }

    /** The bytes of a request body were sent; taken of them went out. */
    method OnData(body: string, taken: nat)
      requires taken <= |body|
      modifies this`posted
      ensures posted == body[..taken]
    {
      posted := body[..taken];
    }

    /** AT+HTTPACTION was sent: the server does what is asked, and the answer starts to come in. */
    method OnAction(verb: nat)
      modifies link.port`rx, this`served, this`delivered
      ensures Printable(served) && served.verb == verb
      ensures honest ==> Announces(link.port.rx, served)
      ensures honest && verb == 0 && !ranged && Is2xx(served.status) ==> served.bodyLen == |image|
      ensures honest && verb == 0 && ranged && served.status == 206 && served.bodyLen > 0
              ==> rangeFirst + served.bodyLen <= |image|
      ensures delivered == if verb == 1 && Is2xx(served.status) then old(delivered) + [posted] else old(delivered)
    {
      var status: nat :| status >= 0;
      var bodyLen: nat :| bodyLen >= 0;
      if honest && verb == 0 && !ranged && Is2xx(status) {
        bodyLen := |image|;
      }
      if honest && verb == 0 && ranged && rangeFirst + bodyLen > |image| {
        status := 416;
      }
      served := Action(verb, status, bodyLen);
      if verb == 1 && Is2xx(status) {
        delivered := delivered + [posted];
      }
      if honest {
        link.port.rx := AnyAnnouncement(served);
      }
    }

    /** AT+HTTPREAD=0,len was sent: the first len bytes of the last body start to stream in. */
    method OnRead(len: nat)
      modifies link.port`rx, this`stream
      ensures stream == link.port.rx
      ensures honest && ranged && served.status == 206 && len <= served.bodyLen && rangeFirst + len <= |image|
              ==> Carries(link.port.rx, image[rangeFirst..rangeFirst + len])
    {
      if honest && ranged && served.status == 206 && len <= served.bodyLen && rangeFirst + len <= |image| {
        link.port.rx := AnyFraming(image[rangeFirst..rangeFirst + len]);
      }
      stream := link.port.rx;
    }
  }

  /** The OTA partition and its write handle. */
  class OtaFlash {
    var handleOpen: bool
    ghost var written: string
    ghost var begun: nat
    ghost var ended: nat
    ghost var aborted: nat
    ghost var bootSwitches: nat

    constructor ()
      ensures !handleOpen && begun == ended == aborted == bootSwitches == 0
    {
      handleOpen, written := false, "";
      begun, ended, aborted, bootSwitches := 0, 0, 0, 0;
    }

    /** esp_ota_get_next_update_partition: its size, if there is one. */
    method NextPartition() returns (size: Option<nat>)
    {
      var found: bool := *;
      var bytes: nat :| bytes >= 0;
      size := if found then Some(bytes) else None;
    }

    /** esp_ota_begin */
    method Begin() returns (ok: bool)
      requires !handleOpen
      modifies this
      ensures handleOpen == ok && begun == old(begun) + (if ok then 1 else 0)
      ensures ok ==> written == ""
      ensures ended == old(ended) && aborted == old(aborted) && bootSwitches == old(bootSwitches)
    {
      ok := *;
      if ok {
        handleOpen, written, begun := true, "", begun + 1;
      }
    }

    /** esp_ota_write */
    method Write(data: string) returns (ok: bool)
      requires handleOpen
      modifies this`written
      ensures ok ==> written == old(written) + data
    {
      ok := *;
      if ok {
        written := written + data;
      } else {
        written := *;
      }
    }

    /** esp_ota_end: closes the handle; the image may still be refused. */
    method End() returns (ok: bool)
      requires handleOpen
      modifies this`handleOpen, this`ended
      ensures !handleOpen && ended == old(ended) + 1
    {
      ok := *;
      handleOpen, ended := false, ended + 1;
    }

    /** esp_ota_abort */
    method Abort()
      requires handleOpen
      modifies this`handleOpen, this`aborted
      ensures !handleOpen && aborted == old(aborted) + 1
    {
      handleOpen, aborted := false, aborted + 1;
    }

    /** esp_ota_set_boot_partition */
    method SetBoot() returns (ok: bool)
      requires !handleOpen
      modifies this`bootSwitches
      ensures bootSwitches == old(bootSwitches) + if ok then 1 else 0
    {
      ok := *;
      if ok {
        bootSwitches := bootSwitches + 1;
      }
    }
  }

  /** For every way to read the stream as a reply: the response is its body exactly if that was kept. */
  ghost predicate ResponseExact(stream: string, raw: string, response: string) {
    forall lead: string, head: string, body: string, after: string ::
      HeaderLine(head) && body != "" && stream == lead + head + (body + after) && NoHeaderIn(lead, stream)
      ==> (response == body <==> KeepsBody(raw, lead, head, body))
  }

  lemma {:induction false} CollectedExact(stream: string, c: Collection)
    requires CollectedFrom(stream, c)
    ensures ResponseExact(stream, Joined(c.slices), GetBody(Joined(c.slices)))
  {
    var raw := Joined(c.slices);
    forall lead: string, head: string, body: string, after: string
      | HeaderLine(head) && body != "" && stream == lead + head + (body + after) && NoHeaderIn(lead, stream)
      ensures GetBody(raw) == body <==> KeepsBody(raw, lead, head, body)
    {
      BodyExact(lead, head, body, after, raw);
    }
  }

  /** Since position from, a GET was answered 2xx with line, and its parsed length is size. */
  ghost predicate Probed(log: seq<Exchange>, from: nat, line: string, size: nat) {
    exists k: nat, a: Action ::
      from <= k && SaysAction(log, k, 0, a) && log[k].line == line && Is2xx(a.status) && a.bodyLen == size
  }

  lemma {:induction false} ProbedStays(
    log: seq<Exchange>, from: nat, line: string, size: nat, log': seq<Exchange>, from': nat)
    requires Probed(log, from, line, size) && log <= log' && from' <= from
    ensures Probed(log', from', line, size)
  {
    var k: nat, a: Action :|
      from <= k && SaysAction(log, k, 0, a) && log[k].line == line && Is2xx(a.status) && a.bodyLen == size;
    assert log'[k] == log[k];
    assert SaysAction(log', k, 0, a);
  }

  /** The slice parses, and holds the whole text of its own action with the given length. */
  predicate HoldsWholeLine(line: string, length: nat) {
    && ParseAction(line).Some? && ParseAction(line).value.status >= 0
    && Contains(line, ActionText(Action(0, ParseAction(line).value.status, length)))
  }

  /** The size is the one the slice parses as, at most the image's, and equal exactly if it held the whole line. */
  predicate ProbeExact(image: string, line: string, size: nat) {
    && ParseAction(line).Some? && ParseAction(line).value.bodyLen == size
    && 0 < size <= |image|
    && (size == |image| <==> HoldsWholeLine(line, |image|))
  }

  class Sim4GModule {
    const modem: Modem
    const flash: OtaFlash
    var active: bool
    var httpInited: bool

    constructor (modem: Modem, flash: OtaFlash)
      ensures this.modem == modem && this.flash == flash && !active && !httpInited
    {
      this.modem, this.flash, active, httpInited := modem, flash, false, false;
    }

    /** With no lost replies the flag covers every session the modem has open. */
    ghost predicate SessionInv()
      reads this, modem
    {
      modem.lossless ==> !modem.initWhileOpen && (modem.sessionOpen ==> httpInited)
    }

    /** What holds between two calls: the module believes no session is open. */
    ghost predicate Idle()
      reads this, modem
    {
      SessionInv() && !httpInited
    }

    ghost function Story(): History
      reads modem.link, modem.link.port
    {
      modem.link.Story()
    }

    /** sendAtOk("AT+HTTPINIT"): only ever sent while the flag is down. */
    method SendHttpInit() returns (ok: bool)
      requires Idle()
      modifies this`httpInited, modem.link`log, modem.link.port, modem`sessionOpen, modem`initWhileOpen, modem`ranged
      ensures SessionInv() && httpInited == ok && !modem.ranged
      ensures Follows(old(Story()), Story()) && modem.link.port.now >= old(modem.link.port.now)
    {
      ok := modem.link.SendAtOk("AT+HTTPINIT", 2000);
      modem.OnInit(ok);
      httpInited := ok;
    }

    method HttpTermSafe()
      requires SessionInv()
      modifies this`httpInited, modem.link.port, modem`sessionOpen
      ensures Idle()
      ensures Follows(old(Story()), Story()) && modem.link.port.now >= old(modem.link.port.now)
    {
      if !httpInited {
        return;
      }
      modem.link.WriteLine("AT+HTTPTERM");
      modem.OnTerm();
      var _ := ReadLineSim(modem.link.port, 1000);
      httpInited := false;
    }

    method EnsurePdpActive() returns (ok: bool)
      modifies modem.link`log, modem.link.port
      ensures Follows(old(Story()), Story()) && modem.link.port.now >= old(modem.link.port.now)
    {
      ghost var start := Story();
      var line;
      ok, line := modem.link.SendAtExpect("AT+CGACT?", "+CGACT:", 3000);
      ghost var asked := Story();
      if ok && Find(line, "+CGACT: 1,1", 0).Some? {
        var _, _ := modem.link.SendAtExpect("AT+CGPADDR=1", "+CGPADDR:", 2000);
        FollowsTrans(start, asked, Story());
        return true;
      }
      ok := modem.link.SendAtOk("AT+CGACT=1,1", 5000);
      ghost var activated := Story();
      FollowsTrans(start, asked, activated);
      if !ok {
        return false;
      }
      var _, _ := modem.link.SendAtExpect("AT+CGPADDR=1", "+CGPADDR:", 2000);
      FollowsTrans(start, activated, Story());
    }

    method HttpInitAndSetBearer() returns (ok: bool)
      requires SessionInv()
      modifies this`httpInited, modem.link`log, modem.link.port, modem`sessionOpen, modem`initWhileOpen, modem`ranged
      ensures SessionInv() && httpInited == ok && (ok ==> !modem.ranged)
      ensures Follows(old(Story()), Story()) && modem.link.port.now >= old(modem.link.port.now)
    {
      ghost var start := Story();
      HttpTermSafe();
      ghost var closed := Story();
      ok := EnsurePdpActive();
      ghost var checked := Story();
      FollowsTrans(start, closed, checked);
      if !ok {
        return false;
      }
      ok := SendHttpInit();
      FollowsTrans(start, checked, Story());
      if ok {
        modem.link.port.Delay(MsToTicks(300));
      }
    }

    /** How every request starts: a new session and its URL; without the URL the session is closed again. */
    method OpenUrl(url: string) returns (ok: bool)
      requires SessionInv()
      modifies this`httpInited, modem.link`log, modem.link.port, modem`sessionOpen, modem`initWhileOpen, modem`ranged
      ensures SessionInv() && httpInited == ok && (ok ==> !modem.ranged)
      ensures Follows(old(Story()), Story()) && modem.link.port.now >= old(modem.link.port.now)
    {
      ghost var start := Story();
      ok := HttpInitAndSetBearer();
      if !ok {
        return false;
      }
      ghost var afterOpen := Story();
      ok := modem.link.SendAtOk(UrlCommand(url), 2000);
      ghost var afterUrl := Story();
      FollowsTrans(start, afterOpen, afterUrl);
      if !ok {
        HttpTermSafe();
        FollowsTrans(start, afterUrl, Story());
      }
    }

    /**
     AT+HTTPACTION and the line it answers with.  Over an honest modem the status that is parsed is the
     server's, and the length is never larger than announced; it is the announced one if and only if the
     slice that was taken for the line holds all of it.
     */
    method HttpAction(verb: nat) returns (reply: Option<Action>, ghost line: string)
      modifies modem.link`log, modem.link.port, modem`served, modem`delivered
      ensures |modem.link.log| == |old(modem.link.log)| + 1
      ensures Follows(old(Story()), Story()) && modem.link.port.now >= old(modem.link.port.now)
      ensures reply.Some? ==> SaysAction(modem.link.log, |old(modem.link.log)|, verb, reply.value)
      ensures line == modem.link.log[|old(modem.link.log)|].line
      ensures Printable(modem.served) && modem.served.verb == verb
      ensures modem.honest && reply.Some? ==>
                var r := reply.value;
                && r.status == modem.served.status && 0 <= r.bodyLen <= modem.served.bodyLen
                && (r.bodyLen == modem.served.bodyLen <==> Contains(line, ActionText(modem.served)))
      ensures modem.honest && verb == 0 && !modem.ranged && Is2xx(modem.served.status)
              ==> modem.served.bodyLen == |modem.image|
      ensures modem.honest && verb == 0 && modem.ranged && modem.served.status == 206 && modem.served.bodyLen > 0
              ==> modem.rangeFirst + modem.served.bodyLen <= |modem.image|
      ensures modem.delivered == if verb == 1 && Is2xx(modem.served.status)
                                 then old(modem.delivered) + [modem.posted] else old(modem.delivered)
    {
      var link := modem.link;
      var cmd := ActionCommand(verb);
      ghost var start := Story();
      link.WriteLine(cmd);
      modem.OnAction(verb);
      ghost var stream := link.port.rx;
      var ok, heard;
      ghost var passed;
      ok, heard, passed := link.Hear(CommandLine(cmd), |old(link.port.sent)|, TOKEN, HTTP_ACTION_TIMEOUT_MS);
      line := heard;
      OneExchange(start, Story(), link.log[|old(link.log)|]);
      if !ok {
        return None, line;
      }
      reply := ParseAction(heard);
      if modem.honest {
        SlicedAction(stream, modem.served, Joined(passed), heard, link.port.rx);
      }
    }

    /** Steps 5 of sendPayload: announce the body, send it once the modem prompts, wait for OK. */
    method UploadBody(json: string) returns (ok: bool)
      modifies modem.link`log, modem.link.port, modem`posted
      ensures Follows(old(Story()), Story()) && modem.link.port.now >= old(modem.link.port.now)
      ensures ok ==> modem.posted == json && |modem.link.log| == |old(modem.link.log)| + 2
      ensures ok ==> var k := |old(modem.link.log)|;
                && IsAnswer(modem.link.log[k], CommandLine(DataCommand(|json|)), "DOWNLOAD")
                && IsAnswer(modem.link.log[k + 1], json, "OK")
    {
      var link := modem.link;
      ghost var start := Story();
      var line;
      ok, line := link.SendAtExpect(DataCommand(|json|), "DOWNLOAD", HTTP_DATA_TIMEOUT_MS);
      if !ok {
        return false;
      }
      ghost var prompted := Story();
      var taken := link.Write(json);
      modem.OnData(json, taken);
      assert json[..|json|] == json;
      FollowsTrans(start, prompted, Story());
      if taken != |json| {
        return false;
      }
      ghost var passed;
      ok, line, passed := link.Hear(json, |prompted.sent|, "OK", HTTP_DATA_TIMEOUT_MS);
      OneExchange(prompted, Story(), link.log[|prompted.log|]);
      FollowsTrans(start, prompted, Story());
    }

    /** The server's answer to a POST is read for the log only. */
    method LogResponse(bodyLen: nat)
      modifies modem.link`log, modem.link.port
      ensures Follows(old(Story()), Story()) && modem.link.port.now >= old(modem.link.port.now)
    {
      ghost var start := Story();
      var ok, line := modem.link.SendAtExpect(ReadCommand(bodyLen), "+HTTPREAD:", 5000);
      if !ok {
        return;
      }
      ghost var asked := Story();
      var port := modem.link.port;
      var t0 := port.now;
      while TicksToMs(port.now - t0) < 5000
        invariant t0 <= port.now
        invariant modem.link.log == asked.log && port.sent == asked.sent && port.turns == asked.turns
        invariant asked.received <= port.received
        decreases t0 + 554 - port.now
      {
        line := ReadLineSim(port, 500);
        if line == "" {
          continue;
        }
        if Find(line, "OK", 0).Some? {
          break;
        }
        var error := ScanAtError(line);
        if error {
          break;
        }
      }
      assert Follows(asked, Story());
      FollowsTrans(start, asked, Story());
    }

    /**
     sendPayload: true only if the payload went out in full at the modem's prompt, was confirmed, and
     the action line then received says 2xx.  Over an honest modem the server has then accepted exactly
     this payload, once; false may still mean that it did.  Every return leaves the session flag down.
     */
    method SendPayload(url: string, json: string) returns (ok: bool)
      requires Idle()
      modifies this`httpInited, modem.link`log, modem.link.port, modem`sessionOpen, modem`initWhileOpen,
               modem`ranged, modem`posted, modem`served, modem`delivered
      ensures Idle() && Follows(old(Story()), Story())
      ensures ok ==> Posted(modem.link.log, |old(modem.link.log)|, json)
      ensures ok && modem.honest ==> modem.delivered == old(modem.delivered) + [json]
      ensures modem.delivered == old(modem.delivered) || modem.delivered == old(modem.delivered) + [json]
    {
      ghost var start := Story();
      if !active {
        return false;
      }
      ok := OpenUrl(url);
      if !ok {
        return false;
      }
      ghost var afterOpen := Story();
      ok := PostJson(json);
      ghost var sent := Story();
      FollowsTrans(start, afterOpen, sent);
      HttpTermSafe();
      FollowsTrans(start, sent, Story());
      if ok {
        PostedStays(sent.log, |afterOpen.log|, json, modem.link.log, |start.log|);
      }
    }

    /** Steps 4 to 7 of sendPayload. */
    method PostJson(json: string) returns (ok: bool)
      modifies modem.link`log, modem.link.port, modem`posted, modem`served, modem`delivered
      ensures Follows(old(Story()), Story())
      ensures ok ==> Posted(modem.link.log, |old(modem.link.log)|, json)
      ensures ok && modem.honest ==> modem.delivered == old(modem.delivered) + [json]
      ensures modem.delivered == old(modem.delivered) || modem.delivered == old(modem.delivered) + [json]
    {
      ghost var start := Story();
      ok := modem.link.SendAtOk("AT+HTTPPARA=\"CONTENT\",\"application/json\"", 1000);
      if !ok {
        return false;
      }
      ghost var typed := Story();
      ok := PostBody(json);
      FollowsTrans(start, typed, Story());
      if ok {
        PostedStays(modem.link.log, |typed.log|, json, modem.link.log, |start.log|);
      }
    }

    /** Steps 5 to 7 of sendPayload. */
    method PostBody(json: string) returns (ok: bool)
      modifies modem.link`log, modem.link.port, modem`posted, modem`served, modem`delivered
      ensures Follows(old(Story()), Story())
      ensures ok ==> Posted(modem.link.log, |old(modem.link.log)|, json)
      ensures ok && modem.honest ==> modem.delivered == old(modem.delivered) + [json]
      ensures modem.delivered == old(modem.delivered) || modem.delivered == old(modem.delivered) + [json]
    {
      ghost var start := Story();
      ok := UploadBody(json);
      if !ok {
        return false;
      }
      ghost var uploaded := Story();
      var bodyLen;
      ok, bodyLen := ExecutePost(json, |start.log|);
      ghost var acted := Story();
      FollowsTrans(start, uploaded, acted);
      if ok && bodyLen > 0 {
        LogResponse(bodyLen);
        FollowsTrans(start, acted, Story());
        PostedStays(acted.log, |start.log|, json, modem.link.log, |start.log|);
      }
    }

    /** AT+HTTPACTION=1 for the body uploaded with the exchanges from position k on. */
    method ExecutePost(json: string, ghost k: nat) returns (ok: bool, bodyLen: int)
      requires modem.posted == json && |modem.link.log| == k + 2
      requires IsAnswer(modem.link.log[k], CommandLine(DataCommand(|json|)), "DOWNLOAD")
      requires IsAnswer(modem.link.log[k + 1], json, "OK")
      modifies modem.link`log, modem.link.port, modem`served, modem`delivered
      ensures Follows(old(Story()), Story())
      ensures ok ==> Posted(modem.link.log, k, json)
      ensures ok && modem.honest ==> modem.delivered == old(modem.delivered) + [json]
      ensures modem.delivered == old(modem.delivered) || modem.delivered == old(modem.delivered) + [json]
    {
      ghost var before := modem.link.log;
      var reply;
      ghost var line;
      reply, line := HttpAction(1);
      if reply.None? {
        return false, 0;
      }
      ok, bodyLen := Is2xx(reply.value.status), reply.value.bodyLen;
      if ok {
        assert modem.link.log[k] == before[k] && modem.link.log[k + 1] == before[k + 1];
        assert PostedAt(modem.link.log, k, json, reply.value);
      }
    }

    /**
     httpGet: the body cut out of what was collected of the reply; an empty one is a failure.  It is the
     reply's body if and only if what was collected keeps it.
     */
    method HttpGet(url: string) returns (ok: bool, response: string, ghost reply: Collection)
      requires Idle()
      modifies this`httpInited, modem.link`log, modem.link.port, modem`sessionOpen, modem`initWhileOpen,
               modem`ranged, modem`served, modem`delivered, modem`stream
      ensures Idle() && Follows(old(Story()), Story())
      ensures ok ==> response != "" && Found2xx(modem.link.log, |old(modem.link.log)|)
      ensures ok ==> CollectedFrom(modem.stream, reply)
      ensures ok ==> response == GetBody(Joined(reply.slices))
      ensures ok ==> ResponseExact(modem.stream, Joined(reply.slices), response)
      ensures ok ==>
                ReceivedSince(modem.link.port.received, |old(modem.link.port.received)|, Joined(reply.slices))
    {
      var link := modem.link;
      ghost var start := Story();
      response, reply := "", Collection([], true);
      if !active {
        return false, response, reply;
      }
      ok := OpenUrl(url);
      if !ok {
        return false, response, reply;
      }
      ghost var h := Story();
      ok, response, reply := GetResponse();
      ghost var got := Story();
      FollowsTrans(start, h, got);
      HttpTermSafe();
      FollowsTrans(start, got, Story());
      if ok {
        Found2xxStays(got.log, |h.log|, link.log, |start.log|);
        ReceivedStays(got.received, |h.received|, Joined(reply.slices), link.port.received, |start.received|);
      }
    }

    /** Steps 4 and 5 of httpGet. */
    method GetResponse() returns (ok: bool, response: string, ghost reply: Collection)
      modifies modem.link`log, modem.link.port, modem`served, modem`delivered, modem`stream
      ensures Follows(old(Story()), Story())
      ensures ok ==> response != "" && Found2xx(modem.link.log, |old(modem.link.log)|)
      ensures ok ==> CollectedFrom(modem.stream, reply)
      ensures ok ==> response == GetBody(Joined(reply.slices))
      ensures ok ==> ResponseExact(modem.stream, Joined(reply.slices), response)
      ensures ok ==>
                ReceivedSince(modem.link.port.received, |old(modem.link.port.received)|, Joined(reply.slices))
    {
      ghost var start := Story();
      response, reply := "", Collection([], true);
      var action;
      ghost var line;
      action, line := HttpAction(0);
      if action.None? || !Is2xx(action.value.status) || action.value.bodyLen <= 0 {
        return false, response, reply;
      }
      ghost var acted := Story();
      assert SaysAction(acted.log, |start.log|, 0, action.value);
      response, reply := ReadResponse(action.value.bodyLen);
      FollowsTrans(start, acted, Story());
      Found2xxStays(acted.log, |start.log|, modem.link.log, |start.log|);
      ReceivedStays(Story().received, |acted.received|, Joined(reply.slices), Story().received, |start.received|);
      ok := response != "";
    }

    /** Step 5 of httpGet. */
    method ReadResponse(bodyLen: nat) returns (response: string, ghost reply: Collection)
      modifies modem.link.port, modem`stream
      ensures Follows(old(Story()), Story())
      ensures CollectedFrom(modem.stream, reply) && response == GetBody(Joined(reply.slices))
      ensures ResponseExact(modem.stream, Joined(reply.slices), response)
      ensures ReceivedSince(modem.link.port.received, |old(modem.link.port.received)|, Joined(reply.slices))
    {
      var port := modem.link.port;
      modem.link.WriteLine(ReadCommand(bodyLen));
      modem.OnRead(bodyLen);
      var raw;
      raw, reply := CollectReply(port);
      assert SliceAt(port.received, raw, |old(port.received)|);
      CollectedExact(modem.stream, reply);
      response := GetBody(raw);
    }

    method PowerOff()
      requires SessionInv()
      modifies this`active, this`httpInited, modem`sessionOpen
      ensures Idle() && !active && !modem.sessionOpen
    {
      modem.sessionOpen := false;
      active := false;
      httpInited := false;
    }

    // -------------------------------------------------------------------------------------------
    // Firmware download
    // -------------------------------------------------------------------------------------------

    /** The payload loop: exactly blk bytes go from the UART to flash, in chunks of any size. */
    method CopyPayload(blk: nat) returns (ok: bool)
      requires flash.handleOpen
      modifies modem.link.port`now, modem.link.port`rx, modem.link.port`received, flash`written
      ensures modem.link.port.now >= old(modem.link.port.now)
      ensures |modem.link.port.rx| <= |old(modem.link.port.rx)|
      ensures old(modem.link.port.received) <= modem.link.port.received
      ensures ok ==> blk <= |old(modem.link.port.rx)| && modem.link.port.rx == old(modem.link.port.rx)[blk..]
      ensures ok ==> flash.written == old(flash.written) + old(modem.link.port.rx)[..blk]
    {
      var port := modem.link.port;
      ghost var all := port.rx;
      var remaining := blk;
      var rdStart := port.now;
      while remaining > 0
        invariant 0 <= remaining <= blk && old(port.now) <= rdStart <= port.now
        invariant old(port.received) <= port.received
        invariant blk - remaining <= |all| && port.rx == all[blk - remaining..]
        invariant flash.written == old(flash.written) + all[..blk - remaining]
        decreases remaining, rdStart + OTA_READ_TIMEOUT_MS - port.now
      {
        var chunk := if remaining < READ_BUFFER_SIZE then remaining else READ_BUFFER_SIZE;
        ghost var before := port.rx;
        var data := port.Read(chunk, MsToTicks(1000));
        if |data| == 0 {
          assert port.rx == before;
          if TicksToMs(port.now - rdStart) > OTA_READ_TIMEOUT_MS {
            break;
          }
          continue;
        }
        assert before[..|data|] == data && before[|data|..] == port.rx;
        ok := flash.Write(data);
        if !ok {
          return false;
        }
        remaining := remaining - |data|;
        assert all[..blk - remaining] == all[..blk - remaining - |data|] + data;
        rdStart := port.now;
      }
      ok := remaining == 0;
    }

    /** One round of the sub-block loop: a header line, then as many bytes as it announces. */
    method ReadSubBlock() returns (ok: bool, blk: int, ghost rest: string)
      requires flash.handleOpen
      modifies modem.link.port`now, modem.link.port`rx, modem.link.port`received, flash`written
      ensures modem.link.port.now >= old(modem.link.port.now)
      ensures old(modem.link.port.received) <= modem.link.port.received
      ensures ok ==> ScanHeader("", old(modem.link.port.rx)) == Found(blk, rest) && 0 < blk <= |rest|
      ensures ok ==> modem.link.port.rx == rest[blk..] && flash.written == old(flash.written) + rest[..blk]
    {
      ghost var timedOut;
      ok, blk, timedOut := ReadHttpReadLen(modem.link.port, OTA_READ_TIMEOUT_MS);
      rest := modem.link.port.rx;
      if !ok {
        return false, blk, rest;
      }
      if blk <= 0 {
        return false, blk, rest;
      }
      ok := CopyPayload(blk);
    }

    /**
     The sub-block loop of one window.  However the body is framed and however the reads split it,
     a stream that carries the body puts exactly that body into flash.
     */
    method ReadWindow(len: nat, ghost body: string) returns (ok: bool, wgot: nat)
      requires flash.handleOpen && len > 0
      modifies modem.link.port`now, modem.link.port`rx, modem.link.port`received, flash`written
      ensures modem.link.port.now >= old(modem.link.port.now)
      ensures old(modem.link.port.received) <= modem.link.port.received
      ensures ok ==> wgot >= len && |flash.written| == |old(flash.written)| + wgot
      ensures ok && |body| == len && Carries(old(modem.link.port.rx), body)
              ==> wgot == len && flash.written == old(flash.written) + body
    {
      ghost var framed := |body| == len && Carries(modem.link.port.rx, body);
      ok, wgot := true, 0;
      while wgot < len
        invariant modem.link.port.now >= old(modem.link.port.now)
        invariant old(modem.link.port.received) <= modem.link.port.received
        invariant |flash.written| == |old(flash.written)| + wgot
        invariant framed ==> wgot <= len && Carries(modem.link.port.rx, body[wgot..])
        invariant framed ==> flash.written == old(flash.written) + body[..wgot]
        decreases len - wgot
      {
        ghost var rx := modem.link.port.rx;
        var blk;
        ghost var rest;
        ok, blk, rest := ReadSubBlock();
        if !ok {
          return false, wgot;
        }
        if framed {
          AdvanceInBody(old(flash.written), rx, body, wgot, blk, rest);
        }
        wgot := wgot + blk;
      }
      assert framed ==> body[..wgot] == body;
    }

    /** One ranged GET in a fresh session, read out into flash. */
    method FetchWindow(url: string, offset: nat, total: nat) returns (ok: bool, wgot: nat)
      requires SessionInv() && flash.handleOpen && offset < total
      modifies this`httpInited, modem.link`log, modem.link.port, modem`sessionOpen, modem`initWhileOpen, modem`ranged,
               modem`rangeFirst, modem`served, modem`delivered, modem`stream, flash`written
      ensures SessionInv() && Follows(old(Story()), Story()) && modem.link.port.now >= old(modem.link.port.now)
      ensures ok ==> wgot > 0 && |flash.written| == |old(flash.written)| + wgot
      ensures ok && modem.honest ==>
                && offset + wgot <= |modem.image|
                && flash.written == old(flash.written) + modem.image[offset..offset + wgot]
    {
      ghost var start := Story();
      wgot := 0;
      var win := total - offset;
      if win > OTA_WINDOW_SIZE {
        win := OTA_WINDOW_SIZE;
      }
      var len := RequestWindow(url, offset, offset + win - 1);
      ghost var requested := Story();
      if len.None? {
        return false, 0;
      }
      ok, wgot := ReadBody(offset, len.value);
      FollowsTrans(start, requested, Story());
    }

    /** The ranged GET; only 206 with a body will do.  A length cut short still lies within the image. */
    method RequestWindow(url: string, first: nat, last: nat) returns (len: Option<nat>)
      requires SessionInv()
      modifies this`httpInited, modem.link`log, modem.link.port, modem`sessionOpen, modem`initWhileOpen, modem`ranged,
               modem`rangeFirst, modem`served, modem`delivered
      ensures SessionInv() && Follows(old(Story()), Story()) && modem.link.port.now >= old(modem.link.port.now)
      ensures len.Some? ==> len.value > 0
      ensures len.Some? && modem.honest ==>
                && modem.ranged && modem.rangeFirst == first && modem.served.status == 206
                && len.value <= modem.served.bodyLen && first + len.value <= |modem.image|
    {
      ghost var start := Story();
      var ok := OpenWindow(url, first, last);
      if !ok {
        return None;
      }
      ghost var ranged := Story();
      var reply;
      ghost var line;
      reply, line := HttpAction(0);
      FollowsTrans(start, ranged, Story());
      if reply.None? {
        return None;
      }
      if reply.value.status == 200 {
        return None;
      }
      if reply.value.status != 206 || reply.value.bodyLen <= 0 {
        return None;
      }
      len := Some(reply.value.bodyLen);
    }

    /** A fresh session with URL and range, as every window needs it. */
    method OpenWindow(url: string, first: nat, last: nat) returns (ok: bool)
      requires SessionInv()
      modifies this`httpInited, modem.link`log, modem.link.port, modem`sessionOpen, modem`initWhileOpen, modem`ranged,
               modem`rangeFirst
      ensures SessionInv() && Follows(old(Story()), Story()) && modem.link.port.now >= old(modem.link.port.now)
      ensures ok ==> modem.ranged && modem.rangeFirst == first
    {
      ghost var start := Story();
      ok := FreshUrl(url);
      if !ok {
        return false;
      }
      ghost var afterUrl := Story();
      ok := modem.link.SendAtOk(RangeCommand(first, last), 2000);
      modem.OnRange(ok, first);
      FollowsTrans(start, afterUrl, Story());
    }

    method FreshUrl(url: string) returns (ok: bool)
      requires SessionInv()
      modifies this`httpInited, modem.link`log, modem.link.port, modem`sessionOpen, modem`initWhileOpen, modem`ranged
      ensures SessionInv() && Follows(old(Story()), Story()) && modem.link.port.now >= old(modem.link.port.now)
    {
      ghost var start := Story();
      ok := FreshSession();
      if !ok {
        return false;
      }
      ghost var afterInit := Story();
      ok := modem.link.SendAtOk(UrlCommand(url), 2000);
      FollowsTrans(start, afterInit, Story());
    }

    method FreshSession() returns (ok: bool)
      requires SessionInv()
      modifies this`httpInited, modem.link`log, modem.link.port, modem`sessionOpen, modem`initWhileOpen, modem`ranged
      ensures SessionInv() && Follows(old(Story()), Story()) && modem.link.port.now >= old(modem.link.port.now)
    {
      ghost var start := Story();
      HttpTermSafe();
      ghost var closed := Story();
      ok := SendHttpInit();
      FollowsTrans(start, closed, Story());
    }

    /** AT+HTTPREAD for the window's body, streamed into flash and drained to its OK. */
    method ReadBody(ghost offset: nat, len: nat) returns (ok: bool, wgot: nat)
      requires flash.handleOpen && len > 0
      modifies modem.link.port, modem`stream, flash`written
      ensures Follows(old(Story()), Story()) && modem.link.port.now >= old(modem.link.port.now)
      ensures ok ==> wgot > 0 && |flash.written| == |old(flash.written)| + wgot
      ensures ok && modem.honest && modem.ranged && modem.rangeFirst == offset && modem.served.status == 206
              && len <= modem.served.bodyLen && offset + len <= |modem.image|
              ==> wgot == len && flash.written == old(flash.written) + modem.image[offset..offset + len]
    {
      modem.link.WriteLine(ReadCommand(len));
      modem.OnRead(len);
      ghost var body := if offset + len <= |modem.image| then modem.image[offset..offset + len] else "";
      ok, wgot := ReadWindow(len, body);
      if !ok {
        return false, wgot;
      }
      ghost var _ := DrainToOk(modem.link.port, 1000);
    }

    /** The size probe: a session of its own, closed on every return. */
    method ProbeSize(url: string) returns (size: Option<nat>, ghost line: string)
      requires Idle()
      modifies this`httpInited, modem.link`log, modem.link.port, modem`sessionOpen, modem`initWhileOpen, modem`ranged,
               modem`served, modem`delivered
      ensures Idle() && Follows(old(Story()), Story())
      ensures size.Some? ==> Probed(modem.link.log, |old(modem.link.log)|, line, size.value)
      ensures size.Some? && modem.honest ==> ProbeExact(modem.image, line, size.value)
    {
      ghost var start := Story();
      line := "";
      var ok := OpenUrl(url);
      if !ok {
        return None, line;
      }
      ghost var h := Story();
      var reply;
      reply, line := HttpAction(0);
      ghost var acted := Story();
      FollowsTrans(start, h, acted);
      HttpTermSafe();
      FollowsTrans(start, acted, Story());
      if reply.None? || !Is2xx(reply.value.status) || reply.value.bodyLen <= 0 {
        return None, line;
      }
      assert SaysAction(modem.link.log, |h.log|, 0, reply.value);
      size := Some(reply.value.bodyLen);
    }

    /**
     downloadOtaImage.  True means that the boot partition was switched to an image of exactly the size
     parsed from the slice of the probe's answer.  Over an honest modem that image is the first so many
     bytes of the server's, and it is the whole if and only if that slice held the whole line.  Whatever
     happens, a begun update is ended or aborted exactly once and the session flag is down.
     */
    method DownloadOtaImage(url: string) returns (ok: bool, ghost line: string)
      requires Idle() && !flash.handleOpen
      modifies this`httpInited, modem.link`log, modem.link.port, modem`sessionOpen, modem`initWhileOpen, modem`ranged,
               modem`rangeFirst, modem`served, modem`delivered, modem`stream, flash
      ensures Idle() && !flash.handleOpen && Follows(old(Story()), Story())
      ensures flash.bootSwitches == old(flash.bootSwitches) + if ok then 1 else 0
      ensures old(flash.begun) <= flash.begun <= old(flash.begun) + 1
      ensures flash.begun - old(flash.begun)
              == (flash.ended - old(flash.ended)) + (flash.aborted - old(flash.aborted))
      ensures flash.ended >= old(flash.ended) && flash.aborted >= old(flash.aborted)
      ensures ok ==> flash.ended == old(flash.ended) + 1
      ensures ok ==> Probed(modem.link.log, |old(modem.link.log)|, line, |flash.written|)
      ensures ok && modem.honest ==> ProbeExact(modem.image, line, |flash.written|) && flash.written <= modem.image
      ensures ok && modem.honest ==> (flash.written == modem.image <==> HoldsWholeLine(line, |modem.image|))
    {
      ghost var start := Story();
      line := "";
      if !active {
        return false, line;
      }
      var size;
      size, line := ImageSize(url);
      ghost var probed := Story();
      if size.None? {
        return false, line;
      }
      ok := flash.Begin();
      if !ok {
        return false, line;
      }
      ok := FlashImage(url, size.value);
      FollowsTrans(start, probed, Story());
      ProbedStays(probed.log, |start.log|, line, size.value, modem.link.log, |start.log|);
    }

    /** The probed size, if there is a partition that it fits. */
    method ImageSize(url: string) returns (size: Option<nat>, ghost line: string)
      requires Idle()
      modifies this`httpInited, modem.link`log, modem.link.port, modem`sessionOpen, modem`initWhileOpen, modem`ranged,
               modem`served, modem`delivered
      ensures Idle() && Follows(old(Story()), Story())
      ensures size.Some? ==> Probed(modem.link.log, |old(modem.link.log)|, line, size.value)
      ensures size.Some? && modem.honest ==> ProbeExact(modem.image, line, size.value)
    {
      line := "";
      var partSize := flash.NextPartition();
      if partSize.None? {
        return None, line;
      }
      size, line := ProbeSize(url);
      if size.Some? && size.value > partSize.value {
        size := None;
      }
    }

    /** Steps 3 to 6 of downloadOtaImage: the update is begun. */
    method FlashImage(url: string, total: nat) returns (ok: bool)
      requires Idle() && flash.handleOpen && flash.written == ""
      modifies this`httpInited, modem.link`log, modem.link.port, modem`sessionOpen, modem`initWhileOpen, modem`ranged,
               modem`rangeFirst, modem`served, modem`delivered, modem`stream,
               flash`written, flash`handleOpen, flash`ended, flash`aborted, flash`bootSwitches
      ensures Idle() && !flash.handleOpen && Follows(old(Story()), Story())
      ensures flash.bootSwitches == old(flash.bootSwitches) + if ok then 1 else 0
      ensures (flash.ended - old(flash.ended)) + (flash.aborted - old(flash.aborted)) == 1
      ensures flash.ended >= old(flash.ended) && flash.aborted >= old(flash.aborted)
      ensures ok ==> flash.ended == old(flash.ended) + 1 && |flash.written| == total
      ensures ok && modem.honest ==> total <= |modem.image| && flash.written == modem.image[..total]
    {
      ghost var start := Story();
      var offset;
      ok, offset := DownloadWindows(url, total);
      ghost var fetched := Story();
      HttpTermSafe();
      FollowsTrans(start, fetched, Story());
      if !ok || offset != total {
        flash.Abort();
        return false;
      }
      ok := flash.End();
      if !ok {
        return false;
      }
      ok := flash.SetBoot();
    }

    /** The window loop under the total timeout. */
    method DownloadWindows(url: string, total: nat) returns (ok: bool, offset: nat)
      requires SessionInv() && flash.handleOpen && flash.written == ""
      modifies this`httpInited, modem.link`log, modem.link.port, modem`sessionOpen, modem`initWhileOpen, modem`ranged,
               modem`rangeFirst, modem`served, modem`delivered, modem`stream, flash`written
      ensures SessionInv() && Follows(old(Story()), Story())
      ensures ok ==> offset >= total && |flash.written| == offset
      ensures ok && modem.honest ==> offset <= |modem.image| && flash.written == modem.image[..offset]
    {
      ghost var start := Story();
      var deadline := modem.link.port.now + MsToTicks(OTA_TOTAL_TIMEOUT_MS);
      ok, offset := true, 0;
      while offset < total
        invariant SessionInv() && |flash.written| == offset && Follows(start, Story())
        invariant modem.honest ==> offset <= |modem.image| && flash.written == modem.image[..offset]
        decreases total - offset
      {
        if modem.link.port.now >= deadline {
          return false, offset;
        }
        ghost var h := Story();
        var wgot;
        ok, wgot := FetchWindow(url, offset, total);
        FollowsTrans(start, h, Story());
        if !ok {
          return false, offset;
        }
        assert modem.honest ==>
                 modem.image[..offset + wgot] == modem.image[..offset] + modem.image[offset..offset + wgot];
        offset := offset + wgot;
      }
    }
  }
}
