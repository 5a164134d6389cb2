/**
 Commands and replies of main/services/connectivity/sim4g_module.cpp: waiting for a token, and a
 history that ties every reply the module acts on to the bytes it sent and received.
 */
module AtLink {
  import opened AtText
  import opened Prelude
  import opened Uart

  /** A wait for a token reads in slices of 200 ms and each byte read may block 50 ms. */
  const TOKEN_OVERRUN: nat := 23

  /** A slice that does not end the wait for token. */
  predicate PassedOver(slice: string, token: string) {
    slice != "" && !Contains(slice, token) && !IsAtError(slice)
  }

  /**
   waitForToken: a match, an AT error or the timeout, whichever comes first.  The answer is one of
   the slices of 200 ms in which the bytes came in; those before it are gone.
   */
  method WaitForToken(port: Port<char>, token: string, timeoutMs: nat)
    returns (ok: bool, line: string, ghost passed: seq<string>)
    modifies port`now, port`rx, port`received
    ensures old(port.now) <= port.now
    ensures port.received == old(port.received) + Joined(passed) + line
    ensures Joined(passed) + line + port.rx == old(port.rx)
    ensures forall i :: 0 <= i < |passed| ==> PassedOver(passed[i], token)
    ensures ok ==> Contains(line, token)
    ensures !ok ==> (IsAtError(line) && !Contains(line, token))
                    || (line == "" && TicksToMs(port.now - old(port.now)) >= timeoutMs)
    ensures timeoutMs == 0 ==> port.now == old(port.now)
    ensures port.now <= old(port.now) + TicksCovering(timeoutMs) + TOKEN_OVERRUN
  {
    var start := port.now;
    passed := [];
    line := "";
    assert port.received + Joined(passed) == port.received && Joined(passed) + port.rx == port.rx;
    while TicksToMs(port.now - start) < timeoutMs
      invariant start == old(port.now) <= port.now
      invariant port.now > start ==> timeoutMs > 0
      invariant port.now <= start + TicksCovering(timeoutMs) + TOKEN_OVERRUN
      invariant port.received == old(port.received) + Joined(passed)
      invariant Joined(passed) + port.rx == old(port.rx)
      invariant forall i :: 0 <= i < |passed| ==> PassedOver(passed[i], token)
      decreases start + TicksCovering(timeoutMs) + TOKEN_OVERRUN - port.now
    {
      ghost var rx := port.rx;
      line := ReadLineSim(port, 200);
      TakeSlice(old(port.rx), Joined(passed), line, port.rx);
      if line == "" {
        assert port.rx == rx;
        continue;
      }
      if Find(line, token, 0).Some? {
        return true, line, passed;
      }
      var error := ScanAtError(line);
      if error {
        return false, line, passed;
      }
      PassSlice(old(port.received), passed, line);
      passed := passed + [line];
    }
    ok, line := false, "";
  }

  lemma {:induction false} TakeSlice(all: string, before: string, line: string, rest: string)
    requires all == before + (line + rest)
    ensures all == before + line + rest
  {
  }

  lemma {:induction false} PassSlice(history: string, passed: seq<string>, line: string)
    ensures history + Joined(passed) + line == history + Joined(passed + [line])
    ensures Joined(passed + [line]) == Joined(passed) + line
  {
    JoinedOne(passed, line);
    assert history + (Joined(passed) + line) == history + Joined(passed) + line;
  }

  // ---------------------------------------------------------------------------------------------
  // History
  // ---------------------------------------------------------------------------------------------

  /** Bytes sent, and the slice the module acted on; answered if it held what was waited for. */
  datatype Exchange = Exchange(text: string, answered: bool, line: string, sentAt: nat, heardAt: nat)

  /** All exchanges of a link, all bytes sent and received on it, and how its writes lie among them. */
  datatype History = History(log: seq<Exchange>, sent: string, received: string, turns: seq<Turn>)

  /** The text at sentAt was written before anything from heardAt on was received. */
  ghost predicate WrittenBefore(turns: seq<Turn>, sentAt: nat, heardAt: nat) {
    exists k :: 0 <= k < |turns| && turns[k].sent == sentAt && turns[k].received <= heardAt
  }

  lemma {:induction false} WrittenStays(turns: seq<Turn>, sentAt: nat, from: nat, heardAt: nat)
    requires WrittenBefore(turns, sentAt, from) && from <= heardAt
    ensures WrittenBefore(turns, sentAt, heardAt)
  {
  }

  /** The exchange is made of bytes that really went out, and of bytes that came in after that. */
  ghost predicate Happened(e: Exchange, h: History) {
    && SliceAt(h.sent, e.text, e.sentAt) && SliceAt(h.received, e.line, e.heardAt)
    && WrittenBefore(h.turns, e.sentAt, e.heardAt)
  }

  /** h continues h0, and its new exchanges are made of bytes sent and received since. */
  ghost predicate Follows(h0: History, h: History) {
    && h0.log <= h.log && h0.sent <= h.sent && h0.received <= h.received && h0.turns <= h.turns
    && forall i :: |h0.log| <= i < |h.log| ==>
         Happened(h.log[i], h) && |h0.sent| <= h.log[i].sentAt && |h0.received| <= h.log[i].heardAt
  }

  lemma {:induction false} SliceStays<T>(whole: seq<T>, part: seq<T>, at: nat, longer: seq<T>)
    requires SliceAt(whole, part, at) && whole <= longer
    ensures SliceAt(longer, part, at)
  {
    assert whole == longer[..|whole|];
  }

  lemma {:induction false} HappenedStays(e: Exchange, h: History, h': History)
    requires Happened(e, h) && h.sent <= h'.sent && h.received <= h'.received && h.turns <= h'.turns
    ensures Happened(e, h')
  {
    SliceStays(h.sent, e.text, e.sentAt, h'.sent);
    SliceStays(h.received, e.line, e.heardAt, h'.received);
    var k :| 0 <= k < |h.turns| && h.turns[k].sent == e.sentAt && h.turns[k].received <= e.heardAt;
    assert h'.turns[k] == h.turns[k];
  }

  lemma {:induction false} FollowsTrans(h0: History, h1: History, h2: History)
    requires Follows(h0, h1) && Follows(h1, h2)
    ensures Follows(h0, h2)
  {
    forall i | |h0.log| <= i < |h2.log|
      ensures Happened(h2.log[i], h2) && |h0.sent| <= h2.log[i].sentAt && |h0.received| <= h2.log[i].heardAt
    {
      if i < |h1.log| {
        var e := h1.log[i];
        assert h2.log[i] == e;
        HappenedStays(e, h1, h2);
      }
    }
  }

  /** The text was received, in one piece, since position from. */
  ghost predicate ReceivedSince(received: string, from: nat, text: string) {
    exists at: nat :: from <= at && SliceAt(received, text, at)
  }

  lemma {:induction false} ReceivedStays(received: string, from: nat, text: string, received': string, from': nat)
    requires ReceivedSince(received, from, text) && received <= received' && from' <= from
    ensures ReceivedSince(received', from', text)
  {
    var at: nat :| from <= at && SliceAt(received, text, at);
    SliceStays(received, text, at, received');
  }

  predicate IsAnswer(e: Exchange, text: string, token: string) {
    e.text == text && e.answered && Contains(e.line, token)
  }

  /** A command line as writeLineSim sends it. */
  function CommandLine(cmd: string): string {
    cmd + "\r"
  }

  /** Since position from, cmd was answered with token. */
  ghost predicate Answered(log: seq<Exchange>, from: nat, cmd: string, token: string) {
    exists i: nat :: from <= i < |log| && IsAnswer(log[i], CommandLine(cmd), token)
  }

  lemma {:induction false} AnsweredStays(
    log: seq<Exchange>, from: nat, log': seq<Exchange>, from': nat, cmd: string, token: string)
    requires Answered(log, from, cmd, token) && log <= log' && from' <= from
    ensures Answered(log', from', cmd, token)
  {
    var i: nat :| from <= i < |log| && IsAnswer(log[i], CommandLine(cmd), token);
    assert log'[i] == log[i];
  }

  lemma {:induction false} LastAnswered(log: seq<Exchange>, e: Exchange, cmd: string, token: string)
    requires e.text == CommandLine(cmd) && e.answered && Contains(e.line, token)
    ensures Answered(log + [e], |log|, cmd, token)
  {
    assert IsAnswer((log + [e])[|log|], CommandLine(cmd), token);
  }

  lemma {:induction false} OneExchange(h: History, h': History, e: Exchange)
    requires h'.log == h.log + [e] && h.sent <= h'.sent && h.received <= h'.received && h.turns <= h'.turns
    requires Happened(e, h') && |h.sent| <= e.sentAt && |h.received| <= e.heardAt
    ensures Follows(h, h')
  {
  }

  /** The module's end of the serial line, with its history. */
  class Link {
    const port: Port<char>
    ghost var log: seq<Exchange>

    constructor (port: Port<char>)
      ensures this.port == port && log == []
    {
      this.port, log := port, [];
    }

    ghost function Story(): History
      reads this, port
    {
      History(log, port.sent, port.received, port.turns)
    }

    /** writeSim: how many of the bytes were taken. */
    method Write(text: string) returns (written: nat)
      modifies port`rx, port`sent, port`turns
      ensures written <= |text| && port.sent == old(port.sent) + text
      ensures WrittenBefore(port.turns, |old(port.sent)|, |port.received|)
      ensures SliceAt(port.sent, text, |old(port.sent)|) && Follows(old(Story()), Story())
    {
      written := port.Write(text);
      assert port.turns[|old(port.turns)|] == Turn(|old(port.sent)|, |port.received|);
    }

    /** A command line on a flushed line; writeLineSim ignores how much of it was taken. */
    method WriteLine(cmd: string)
      modifies port`rx, port`sent, port`turns
      ensures port.sent == old(port.sent) + CommandLine(cmd)
      ensures WrittenBefore(port.turns, |old(port.sent)|, |port.received|)
      ensures SliceAt(port.sent, CommandLine(cmd), |old(port.sent)|) && Follows(old(Story()), Story())
    {
      port.Flush();
      var _ := Write(CommandLine(cmd));
    }

    /** waitForToken for the answer to text, which went out at sentAt. */
    method Hear(ghost text: string, ghost sentAt: nat, token: string, timeoutMs: nat)
      returns (ok: bool, line: string, ghost passed: seq<string>)
      requires SliceAt(port.sent, text, sentAt) && WrittenBefore(port.turns, sentAt, |port.received|)
      modifies this`log, port`now, port`rx, port`received
      ensures log == old(log) + [Exchange(text, ok, line, sentAt, |old(port.received) + Joined(passed)|)]
      ensures Happened(log[|old(log)|], Story())
      ensures Joined(passed) + line + port.rx == old(port.rx)
      ensures port.received == old(port.received) + Joined(passed) + line
      ensures ok ==> Contains(line, token)
      ensures old(port.now) <= port.now
      ensures timeoutMs == 0 ==> port.now == old(port.now)
      ensures port.now <= old(port.now) + TicksCovering(timeoutMs) + TOKEN_OVERRUN
    {
      ok, line, passed := WaitForToken(port, token, timeoutMs);
      ghost var heardAt := |old(port.received) + Joined(passed)|;
      WrittenStays(port.turns, sentAt, |old(port.received)|, heardAt);
      log := log + [Exchange(text, ok, line, sentAt, heardAt)];
    }

    /** sendAtExpect: an answered command has its token in bytes received after it was sent. */
    method SendAtExpect(cmd: string, token: string, timeoutMs: nat) returns (ok: bool, line: string)
      modifies this`log, port
      ensures |log| == |old(log)| + 1 && Follows(old(Story()), Story())
      ensures log[|old(log)|].text == CommandLine(cmd)
      ensures log[|old(log)|].answered == ok && log[|old(log)|].line == line
      ensures ok ==> Contains(line, token) && Answered(log, |old(log)|, cmd, token)
      ensures old(port.now) <= port.now
      ensures timeoutMs == 0 ==> port.now == old(port.now)
      ensures port.now <= old(port.now) + TicksCovering(timeoutMs) + TOKEN_OVERRUN
    {
      ghost var before := Story();
      WriteLine(cmd);
      ghost var passed;
      ok, line, passed := Hear(CommandLine(cmd), |old(port.sent)|, token, timeoutMs);
      ghost var e := log[|old(log)|];
      OneExchange(before, Story(), e);
      if ok {
        LastAnswered(before.log, e, cmd, token);
      }
    }

    /** sendAtOk */
    method SendAtOk(cmd: string, timeoutMs: nat) returns (ok: bool)
      modifies this`log, port
      ensures |log| == |old(log)| + 1 && Follows(old(Story()), Story())
      ensures log[|old(log)|].text == CommandLine(cmd)
      ensures ok ==> Answered(log, |old(log)|, cmd, "OK")
      ensures old(port.now) <= port.now <= old(port.now) + TicksCovering(timeoutMs) + TOKEN_OVERRUN
    {
      var line;
      ok, line := SendAtExpect(cmd, "OK", timeoutMs);
    }
  }
}
