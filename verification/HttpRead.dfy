/**
 The AT+HTTPREAD stream of main/services/connectivity/sim4g_module.cpp: the modem sends a window as
 a run of "+HTTPREAD: <n>" header lines, each followed by n raw bytes.  Modem bytes are chars.
 */
module HttpRead {
  import opened AtText
  import opened Prelude
  import opened Uart

  const HEADER: string := "+HTTPREAD:"

  /** The length a complete line announces, if it is a header. */
  function HeaderLen(line: string): Option<int> {
    var text := CString(line);
    match Find(text, HEADER, 0)
    case Some(p) => ScanInt(text[p + 10..])
    case None => None
  }

  datatype HeaderScan =
    | Found(len: int, rest: string)
    | Failed(rest: string)
    | Starved

  /** What readHttpReadLen finds in the bytes rx, with line already collected, given enough time. */
  function ScanHeader(line: string, rx: string): HeaderScan
    decreases |rx|
  {
    if rx == [] then Starved
    else if rx[0] == '\n' then
      if HeaderLen(line).Some? then Found(HeaderLen(line).value, rx[1..])
      else if IsAtError(line) then Failed(rx[1..])
      else ScanHeader("", rx[1..])
    else ScanHeader(if rx[0] == '\r' then line else line + [rx[0]], rx[1..])
  }

  /**
   readHttpReadLen: on success exactly the bytes up to the header's newline are gone.  A failure is
   an AT error line or a full timeout.
   */
  method ReadHttpReadLen(port: Port<char>, timeoutMs: nat) returns (ok: bool, len: int, ghost timedOut: bool)
    modifies port`now, port`rx, port`received
    ensures ok ==> ScanHeader("", old(port.rx)) == Found(len, port.rx)
    ensures old(port.received) <= port.received
    ensures !ok && !timedOut ==> ScanHeader("", old(port.rx)) == Failed(port.rx)
    ensures old(port.now) <= port.now && |port.rx| <= |old(port.rx)|
    ensures timedOut ==> !ok && TicksToMs(port.now - old(port.now)) >= timeoutMs
  {
    var line := "";
    var start := port.now;
    len := 0;
    while TicksToMs(port.now - start) < timeoutMs
      invariant start == old(port.now) <= port.now && |port.rx| <= |old(port.rx)|
      invariant old(port.received) <= port.received
      invariant ScanHeader("", old(port.rx)) == ScanHeader(line, port.rx)
      decreases |port.rx|, start + timeoutMs - port.now
    {
      ghost var before := port.rx;
      var data := port.Read(1, MsToTicks(200));
      if |data| != 1 {
        assert data + port.rx == port.rx;
        continue;
      }
      assert before[0] == data[0] && before[1..] == port.rx;
      var c := data[0];
      if c == '\n' {
        var n := HeaderLen(line);
        if n.Some? {
          return true, n.value, false;
        }
        var error := ScanAtError(line);
        if error {
          return false, 0, false;
        }
        line := "";
      } else if c != '\r' {
        line := line + [c];
      }
    }
    ok, timedOut := false, true;
  }

  // ---------------------------------------------------------------------------------------------
  // What a modem may send
  // ---------------------------------------------------------------------------------------------

  /** The line without its carriage returns, as the reader collects it. */
  function Strip(text: string): string {
    if text == [] then [] else (if text[0] == '\r' then [] else [text[0]]) + Strip(text[1..])
  }

  /** A line that is neither a header nor an error: a blank line or an early "OK", say. */
  predicate Quiet(text: string) {
    '\n' !in text && HeaderLen(Strip(text)).None? && !IsAtError(Strip(text))
  }

  function Lines(texts: seq<string>): string {
    if texts == [] then [] else texts[0] + "\n" + Lines(texts[1..])
  }

  /** A non-empty payload of arbitrary bytes behind its header, with any quiet lines before it. */
  datatype SubBlock = SubBlock(noise: seq<string>, payload: string)

  predicate WellFormed(b: SubBlock) {
    b.payload != [] && forall i :: 0 <= i < |b.noise| ==> Quiet(b.noise[i])
  }

  function FrameHead(b: SubBlock): string {
    Lines(b.noise) + (HEADER + " " + Decimal(|b.payload|) + "\r\n")
  }

  function Frame(blocks: seq<SubBlock>): string {
    if blocks == [] then [] else FrameHead(blocks[0]) + blocks[0].payload + Frame(blocks[1..])
  }

  function Payload(blocks: seq<SubBlock>): string {
    if blocks == [] then [] else blocks[0].payload + Payload(blocks[1..])
  }

  ghost predicate CarriesAs(rx: string, body: string, blocks: seq<SubBlock>, tail: string) {
    && (forall i :: 0 <= i < |blocks| ==> WellFormed(blocks[i]))
    && rx == Frame(blocks) + tail
    && body == Payload(blocks)
  }

  /** rx starts with some framing of the body; what follows is the closing "+HTTPREAD: 0" and "OK". */
  ghost predicate Carries(rx: string, body: string) {
    exists blocks: seq<SubBlock>, tail: string :: CarriesAs(rx, body, blocks, tail)
  }

  /** A printed header line announces its length. */
  lemma {:induction false} HeaderLenPrinted(n: nat)
    ensures HeaderLen(HEADER + " " + Decimal(n)) == Some(n)
  {
    var line := HEADER + " " + Decimal(n);
    CStringPlain(line);
    assert OccursAt(line, HEADER, 0);
    assert line[10..] == " " + Decimal(n);
    DecimalRoundTrip(n);
  }

  lemma {:induction false} StripPlain(s: string)
    requires '\r' !in s
    ensures Strip(s) == s
  {
    if s != [] {
      StripPlain(s[1..]);
    }
  }

  lemma {:induction false} StripReturn(s: string)
    requires '\r' !in s
    ensures Strip(s + "\r") == s
  {
    if s == [] {
      assert Strip("\r") == [] + Strip([]);
      assert s + "\r" == "\r";
    } else {
      assert (s + "\r")[1..] == s[1..] + "\r";
      StripReturn(s[1..]);
    }
  }

  /** Reading a whole line collects it without carriage returns. */
  lemma {:induction false} ScanText(line: string, text: string, rest: string)
    requires '\n' !in text
    ensures ScanHeader(line, text + ("\n" + rest)) == ScanHeader(line + Strip(text), "\n" + rest)
    decreases |text|
  {
    var rx := text + ("\n" + rest);
    if text == [] {
      assert rx == "\n" + rest && line + Strip(text) == line;
    } else {
      var line' := if text[0] == '\r' then line else line + [text[0]];
      ScanChar(line, text, "\n" + rest);
      ScanText(line', text[1..], rest);
      assert line' + Strip(text[1..]) == line + Strip(text);
    }
  }

  lemma {:induction false} ScanChar(line: string, text: string, more: string)
    requires text != [] && text[0] != '\n'
    ensures ScanHeader(line, text + more)
            == ScanHeader(if text[0] == '\r' then line else line + [text[0]], text[1..] + more)
  {
    assert (text + more)[1..] == text[1..] + more;
  }

  lemma {:induction false} ScanNewline(line: string, rest: string)
    ensures HeaderLen(line).Some? ==> ScanHeader(line, "\n" + rest) == Found(HeaderLen(line).value, rest)
    ensures HeaderLen(line).None? && !IsAtError(line) ==> ScanHeader(line, "\n" + rest) == ScanHeader("", rest)
  {
    assert ("\n" + rest)[1..] == rest;
  }

  lemma {:induction false} ScanLines(texts: seq<string>, rest: string)
    requires forall i :: 0 <= i < |texts| ==> Quiet(texts[i])
    ensures ScanHeader("", Lines(texts) + rest) == ScanHeader("", rest)
  {
    if texts == [] {
      assert Lines(texts) + rest == rest;
    } else {
      var more := Lines(texts[1..]) + rest;
      assert Lines(texts) + rest == texts[0] + ("\n" + more);
      ScanText("", texts[0], more);
      assert "" + Strip(texts[0]) == Strip(texts[0]);
      ScanNewline(Strip(texts[0]), more);
      ScanLines(texts[1..], rest);
    }
  }

  /** The reader passes over the quiet lines and stops exactly at the first payload byte. */
  lemma {:induction false} ScanFrameHead(b: SubBlock, rest: string)
    requires WellFormed(b)
    ensures ScanHeader("", FrameHead(b) + rest) == Found(|b.payload|, rest)
  {
    var text := HEADER + " " + Decimal(|b.payload|);
    var line := text + "\r";
    assert FrameHead(b) + rest == Lines(b.noise) + (line + ("\n" + rest));
    ScanLines(b.noise, line + ("\n" + rest));
    ScanText("", line, rest);
    StripReturn(text);
    assert "" + Strip(line) == text;
    HeaderLenPrinted(|b.payload|);
    ScanNewline(text, rest);
  }

  /**
   One round of the reader on a stream that still carries a body: it finds a header, and the bytes
   it announces are the next bytes of the body, whatever they are.
   */
  lemma {:induction false} NextSubBlock(rx: string, body: string)
    requires Carries(rx, body) && body != []
    ensures ScanHeader("", rx).Found?
    ensures var Found(n, rest) := ScanHeader("", rx);
            && 0 < n <= |body| && n <= |rest|
            && rest[..n] == body[..n] && Carries(rest[n..], body[n..])
  {
    var blocks: seq<SubBlock>, tail: string :| CarriesAs(rx, body, blocks, tail);
    FirstBlock(rx, body, blocks, tail);
    var after := Frame(blocks[1..]) + tail;
    ScanFrameHead(blocks[0], blocks[0].payload + after);
  }

  lemma {:induction false} FirstBlock(rx: string, body: string, blocks: seq<SubBlock>, tail: string)
    requires CarriesAs(rx, body, blocks, tail) && body != []
    ensures blocks != [] && WellFormed(blocks[0])
    ensures var payload, after := blocks[0].payload, Frame(blocks[1..]) + tail;
            && rx == FrameHead(blocks[0]) + (payload + after) && payload + Payload(blocks[1..]) == body
            && (payload + after)[|payload|..] == after && (payload + after)[..|payload|] == payload
            && Carries(after, body[|payload|..])
  {
    var payload, after := blocks[0].payload, Frame(blocks[1..]) + tail;
    assert rx == FrameHead(blocks[0]) + (payload + after);
    assert body[|payload|..] == Payload(blocks[1..]);
    assert CarriesAs(after, body[|payload|..], blocks[1..], tail);
  }

  /** The same for a reader that has already taken wgot bytes of the body. */
  lemma {:induction false} AdvanceInBody(done: string, rx: string, body: string, wgot: nat, n: int, rest: string)
    requires wgot < |body| && Carries(rx, body[wgot..]) && ScanHeader("", rx) == Found(n, rest)
    ensures 0 < n && wgot + n <= |body| && n <= |rest|
    ensures done + body[..wgot] + rest[..n] == done + body[..wgot + n]
    ensures Carries(rest[n..], body[wgot + n..])
  {
    NextSubBlock(rx, body[wgot..]);
    SliceBody(done, body, wgot, n);
  }

  lemma {:induction false} SliceBody(done: string, body: string, i: nat, n: nat)
    requires i + n <= |body|
    ensures done + body[..i] + body[i..][..n] == done + body[..i + n]
    ensures body[i..][n..] == body[i + n..]
  {
  }

  // ---------------------------------------------------------------------------------------------
  // Draining to the final OK
  // ---------------------------------------------------------------------------------------------

  /** "OK" followed by the end of a line, completed at position i + 3. */
  predicate OkAt(s: string, i: nat) {
    i + 3 <= |s| && s[i] == 'O' && s[i + 1] == 'K' && (s[i + 2] == '\r' || s[i + 2] == '\n')
  }

  predicate HasOk(s: string) {
    exists i: nat :: i < |s| && OkAt(s, i)
  }

  lemma {:induction false} HasOkSearch(s: string)
    ensures HasOk(s) <==> Find(s, "OK\r", 0).Some? || Find(s, "OK\n", 0).Some?
  {
    forall i: nat ensures OccursAt(s, "OK\r", i) || OccursAt(s, "OK\n", i) <==> OkAt(s, i) {
      if i + 3 <= |s| {
        assert s[i..i + 3] == [s[i], s[i + 1], s[i + 2]];
      }
    }
  }

  method SeesOk(s: string) returns (seen: bool)
    ensures seen == HasOk(s)
  {
    HasOkSearch(s);
    seen := Find(s, "OK\r", 0).Some? || Find(s, "OK\n", 0).Some?;
  }

  /** The last up to 64 bytes of what was read. */
  function Window(s: string): string {
    if |s| <= 64 then s else s[|s| - 64..]
  }

  lemma {:induction false} WindowSuffices(s: string, c: char)
    requires !HasOk(s)
    ensures HasOk(Window(s + [c])) <==> HasOk(s + [c])
  {
    var t, w := s + [c], Window(s + [c]);
    var shift := |t| - |w|;
    assert forall i :: 0 <= i < |w| ==> w[i] == t[shift + i];
    if HasOk(t) {
      var i: nat :| i < |t| && OkAt(t, i);
      if i + 3 < |t| {
        assert OkAt(s, i);
      } else {
        assert OkAt(w, i - shift);
      }
    }
    if HasOk(w) {
      var i: nat :| i < |w| && OkAt(w, i);
      assert OkAt(t, shift + i);
    }
  }

  /** Dropping all but the last 64 bytes after every byte keeps the window. */
  function Slide(s: string): string {
    if |s| > 64 then s[|s| - 64..] else s
  }

  lemma {:induction false} WindowSlides(s: string, c: char)
    ensures Slide(Window(s) + [c]) == Window(s + [c])
  {
  }

  lemma {:induction false} OneMore(all: string, consumed: string, data: string, rest: string)
    requires |data| == 1 && all == consumed + (data + rest)
    ensures all == consumed + data + rest && consumed + data == consumed + [data[0]]
    ensures (consumed + data)[..|consumed + data| - 1] == consumed
  {
  }

  /**
   drainToOk: unless it times out, it stops at exactly the byte that completes the first "OK" line
   ending in the whole stream, although it only remembers 64 bytes.
   */
  method DrainToOk(port: Port<char>, timeoutMs: nat) returns (ghost consumed: string)
    modifies port`now, port`rx, port`received
    ensures old(port.rx) == consumed + port.rx && old(port.now) <= port.now
    ensures old(port.received) <= port.received
    ensures HasOk(consumed) ==> !HasOk(consumed[..|consumed| - 1])
    ensures !HasOk(consumed) ==> TicksToMs(port.now - old(port.now)) >= timeoutMs
  {
    var s := "";
    consumed := "";
    var start := port.now;
    while TicksToMs(port.now - start) < timeoutMs
      invariant start == old(port.now) <= port.now && old(port.received) <= port.received
      invariant old(port.rx) == consumed + port.rx && s == Window(consumed) && !HasOk(consumed)
      decreases |port.rx|, start + timeoutMs - port.now
    {
      var data := port.Read(1, MsToTicks(100));
      if |data| != 1 {
        assert data + port.rx == port.rx;
        continue;
      }
      OneMore(old(port.rx), consumed, data, port.rx);
      WindowSuffices(consumed, data[0]);
      WindowSlides(consumed, data[0]);
      s := s + [data[0]];
      if |s| > 64 {
        s := s[|s| - 64..];
      }
      consumed := consumed + data;
      var done := SeesOk(s);
      if done {
        return;
      }
    }
  }
}
