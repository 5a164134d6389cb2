/**
 Modem bring-up under a deadline: Sim4GModule::checkInternet and everything it calls
 (main/services/connectivity/sim4g_module.cpp), with the time every step can take.

 Some steps are clamped to the deadline and some are not, and every wait can overrun by the
 granularity of its reads.  Times are in ticks of 10 ms.
 */
module ModemDeadline {
  import opened AtLink
  import opened AtText
  import opened Prelude
  import opened Uart

  datatype Apn = Viettel | Vinaphone

  const NETWORK_TIMEOUT_MS: nat := 40000
  const REG_POLL_TICKS: nat := 200

  /** The IMSI query reads in slices of 300 ms. */
  const IMSI_OVERRUN: nat := 33

  /** AT+CSQ, AT+CIMI and AT+COPS? ignore the deadline. */
  const CSQ_TICKS: nat := 200 + TOKEN_OVERRUN
  const CIMI_TICKS: nat := 300 + IMSI_OVERRUN
  const COPS_TICKS: nat := 300 + TOKEN_OVERRUN

  /** How far past its deadline checkInternet can return: 9.02 s. */
  const WORST_OVERRUN: nat := TOKEN_OVERRUN + CSQ_TICKS + CIMI_TICKS + COPS_TICKS

  // ---------------------------------------------------------------------------------------------
  // Parsing replies
  // ---------------------------------------------------------------------------------------------

  function TextAfter(s: string, pattern: string): Option<string> {
    match Find(s, pattern, 0)
    case Some(p) => Some(s[p + |pattern|..])
    case None => None
  }

  /** parseCeregStat: the second number after "+CEREG:" or else "+CREG:". */
  function CeregStat(line: string): Option<int> {
    var text := CString(line);
    var data := match TextAfter(text, "+CEREG:") case Some(t) => Some(t) case None => TextAfter(text, "+CREG:");
    if data.None? || ScanInt(data.value).None? then None
    else
      var rest := AfterInt(data.value);
      if rest == [] || rest[0] != ',' then None else ScanInt(rest[1..])
  }

  /** Carriers by the first five digits of the IMSI. */
  const VN_CARRIERS: seq<(string, Apn)> :=
    [("45204", Viettel), ("45206", Viettel), ("45202", Vinaphone), ("45201", Vinaphone)]

  function MatchFrom(digits: string, i: nat): Option<Apn>
    requires i <= |VN_CARRIERS|
    decreases |VN_CARRIERS| - i
  {
    if i == |VN_CARRIERS| then None
    else if VN_CARRIERS[i].0 <= digits then Some(VN_CARRIERS[i].1)
    else MatchFrom(digits, i + 1)
  }

  /** matchMccMnc */
  function MatchMccMnc(digits: string): Option<Apn> {
    MatchFrom(digits, 0)
  }

  /** parseCopsMccMnc: a quoted operator that starts with a digit and has five characters or more. */
  function CopsMccMnc(line: string): Option<string> {
    match Find(line, "\"", 0)
    case None => None
    case Some(q1) =>
      match Find(line, "\"", q1 + 1)
      case None => None
      case Some(q2) =>
        var oper := line[q1 + 1..q2];
        if |oper| >= 5 && IsDigit(oper[0]) then Some(oper) else None
  }

  function OtherApn(p: Apn): Apn {
    if p.Viettel? then Vinaphone else Viettel
  }

  function ApnString(p: Apn): string {
    if p.Viettel? then "v-internet" else "m3-world"
  }

  // ---------------------------------------------------------------------------------------------
  // What the replies established
  // ---------------------------------------------------------------------------------------------

  predicate IsRegistration(e: Exchange) {
    && e.text == CommandLine("AT+CEREG?") && e.answered
    && (CeregStat(e.line) == Some(1) || CeregStat(e.line) == Some(5))
  }

  /** Since position from, the modem reported itself registered, at home or roaming. */
  ghost predicate Registered(log: seq<Exchange>, from: nat) {
    exists i: nat :: from <= i < |log| && IsRegistration(log[i])
  }

  function DefineContext(apn: Apn): string {
    "AT+CGDCONT=1,\"IP\",\"" + ApnString(apn) + "\""
  }

  ghost predicate Attached(log: seq<Exchange>, from: nat) {
    Answered(log, from, "AT+CGATT?", "+CGATT: 1") && Answered(log, from, "AT+CGACT=1,1", "OK")
  }

  predicate IsUnassigned(e: Exchange) {
    IsAnswer(e, CommandLine("AT+CGPADDR=1"), "0.0.0.0")
  }

  /** The context is active, and asked for its address the modem did not show an unassigned one. */
  ghost predicate Verified(log: seq<Exchange>, from: nat) {
    && Answered(log, from, "AT+CGACT?", "+CGACT: 1,1")
    && log != [] && log[|log| - 1].text == CommandLine("AT+CGPADDR=1") && !IsUnassigned(log[|log| - 1])
  }

  /** Since position from, the profile was configured, attached, activated and verified. */
  ghost predicate Connected(log: seq<Exchange>, from: nat, apn: Apn) {
    && Answered(log, from, DefineContext(apn), "OK")
    && Answered(log, from, "AT+CGAUTH=1,0", "OK")
    && Attached(log, from)
    && Verified(log, from)
  }

  lemma {:induction false} RegisteredStays(log: seq<Exchange>, from: nat, log': seq<Exchange>, from': nat)
    requires Registered(log, from) && log <= log' && from' <= from
    ensures Registered(log', from')
  {
    var i: nat :| from <= i < |log| && IsRegistration(log[i]);
    assert log'[i] == log[i];
  }

  /** An active context, and then an address query that was not answered with an unassigned address. */
  lemma {:induction false} VerifiedBy(activated: seq<Exchange>, log: seq<Exchange>, from: nat)
    requires Answered(activated, from, "AT+CGACT?", "+CGACT: 1,1")
    requires activated <= log && |log| == |activated| + 1
    requires log[|activated|].text == CommandLine("AT+CGPADDR=1")
    requires log[|activated|].answered ==> !Contains(log[|activated|].line, "0.0.0.0")
    ensures Verified(log, from)
  {
    AnsweredStays(activated, from, log, from, "AT+CGACT?", "+CGACT: 1,1");
  }

  lemma {:induction false} CombineEvidence(
    from: nat, configured: seq<Exchange>, attached: seq<Exchange>, log: seq<Exchange>, apn: Apn)
    requires from <= |configured| && configured <= attached && attached <= log
    requires Answered(configured, from, DefineContext(apn), "OK")
    requires Answered(configured, from, "AT+CGAUTH=1,0", "OK")
    requires Attached(attached, |configured|) && Verified(log, |attached|)
    ensures Connected(log, from, apn)
  {
    AnsweredStays(configured, from, log, from, DefineContext(apn), "OK");
    AnsweredStays(configured, from, log, from, "AT+CGAUTH=1,0", "OK");
    AnsweredStays(attached, |configured|, log, from, "AT+CGATT?", "+CGATT: 1");
    AnsweredStays(attached, |configured|, log, from, "AT+CGACT=1,1", "OK");
    AnsweredStays(log, |attached|, log, from, "AT+CGACT?", "+CGACT: 1,1");
  }

  /** A slice detectCarrier takes for the IMSI. */
  predicate LooksLikeImsi(slice: string) {
    |slice| >= 5 && IsDigit(slice[0])
  }

  function FirstImsi(slices: seq<string>): Option<string> {
    if slices == [] then None
    else
      var earlier := FirstImsi(slices[..|slices| - 1]);
      var last := slices[|slices| - 1];
      if earlier.None? && LooksLikeImsi(last) then Some(last) else earlier
  }

  lemma {:induction false} FirstImsiNext(slices: seq<string>, slice: string)
    ensures FirstImsi(slices + [slice])
            == if FirstImsi(slices).None? && LooksLikeImsi(slice) then Some(slice) else FirstImsi(slices)
  {
    assert (slices + [slice])[..|slices|] == slices;
  }

  /** The answer to AT+CIMI is over. */
  predicate EndsAnswer(slice: string) {
    Contains(slice, "OK") || IsAtError(slice)
  }

  /** No slice but the last ended the answer; the last one did, or the 3 s were over. */
  predicate WholeAnswer(slices: seq<string>, waited: nat) {
    && (forall i :: 0 <= i < |slices| - 1 ==> !EndsAnswer(slices[i]))
    && ((slices != [] && EndsAnswer(slices[|slices| - 1])) || TicksToMs(waited) >= 3000)
  }

  /** The exchange asked cmd, and answer is its line if one came with the token. */
  predicate AnswerOf(e: Exchange, cmd: string, token: string, answer: Option<string>) {
    && e.text == CommandLine(cmd)
    && (answer.Some? <==> e.answered)
    && (answer.Some? ==> e.line == answer.value && Contains(e.line, token))
  }

  /** What was known of an earlier write stays known. */
  lemma {:induction false} KeptAnswer(h: History, h': History, sentAt: nat, heardAt: nat)
    requires Follows(h, h') && WrittenBefore(h.turns, sentAt, heardAt)
    ensures WrittenBefore(h'.turns, sentAt, heardAt)
  {
    var k :| 0 <= k < |h.turns| && h.turns[k].sent == sentAt && h.turns[k].received <= heardAt;
    assert h'.turns[k] == h.turns[k];
  }

  method EndsHere(slice: string) returns (over: bool)
    ensures over == EndsAnswer(slice)
  {
    if Find(slice, "OK", 0).Some? {
      return true;
    }
    over := ScanAtError(slice);
  }

  /** The profile of the carrier with these leading digits, if there is a number and it is known. */
  function KnownCarrier(digits: Option<string>): Option<Apn> {
    if digits.Some? then MatchMccMnc(digits.value) else None
  }

  function OperatorDigits(cops: Option<string>): Option<string> {
    if cops.Some? then CopsMccMnc(cops.value) else None
  }

  class Sim4GModem {
    const link: Link
    var active: bool
    var activeApn: Apn
    var savedApn: Apn   // NVS

    constructor (link: Link, savedApn: Apn)
      ensures this.link == link && this.savedApn == savedApn && !active
    {
      this.link, this.savedApn, active, activeApn := link, savedApn, false, Vinaphone;
    }

    function MsRemaining(deadline: nat): nat
      reads link.port
    {
      if link.port.now < deadline then TicksToMs(deadline - link.port.now) else 0
    }

    function ClampTimeout(deadline: nat, defaultMs: nat): nat
      reads link.port
    {
      Min(MsRemaining(deadline), defaultMs)
    }

    /** A command whose timeout is clamped: past the deadline it costs no time at all. */
    method SendClamped(cmd: string, token: string, deadline: nat, defaultMs: nat) returns (ok: bool, line: string)
      modifies link`log, link.port
      ensures |link.log| == |old(link.log)| + 1 && Follows(old(link.Story()), link.Story())
      ensures link.log[|old(link.log)|].text == CommandLine(cmd)
      ensures link.log[|old(link.log)|].answered == ok && link.log[|old(link.log)|].line == line
      ensures ok ==> Contains(line, token) && Answered(link.log, |old(link.log)|, cmd, token)
      ensures old(link.port.now) <= link.port.now <= Max(old(link.port.now), deadline + TOKEN_OVERRUN)
    {
      ok, line := link.SendAtExpect(cmd, token, ClampTimeout(deadline, defaultMs));
    }

    method CheckSimReady(deadline: nat) returns (ok: bool)
      modifies link`log, link.port
      ensures Follows(old(link.Story()), link.Story())
      ensures ok ==> Answered(link.log, |old(link.log)|, "AT+CPIN?", "READY")
      ensures old(link.port.now) <= link.port.now <= Max(old(link.port.now), deadline + TOKEN_OVERRUN)
    {
      var tmo := ClampTimeout(deadline, 5000);
      if tmo == 0 {
        return false;
      }
      var line;
      ok, line := link.SendAtExpect("AT+CPIN?", "READY", tmo);
    }

    /** waitLteRegistration: polls until registered, denied or out of time. */
    method WaitLteRegistration(deadline: nat) returns (ok: bool)
      modifies link`log, link.port
      ensures Follows(old(link.Story()), link.Story())
      ensures ok ==> Registered(link.log, |old(link.log)|)
      ensures old(link.port.now) <= link.port.now
              <= Max(old(link.port.now), deadline + TOKEN_OVERRUN + CSQ_TICKS)
    {
      ghost var start := link.Story();
      while MsRemaining(deadline) > 0
        invariant old(link.port.now) <= link.port.now
                  <= Max(old(link.port.now), deadline + TOKEN_OVERRUN + REG_POLL_TICKS)
        invariant Follows(start, link.Story())
        decreases deadline - link.port.now
      {
        var tmo := ClampTimeout(deadline, 3000);
        if tmo == 0 {
          break;
        }
        ghost var before := link.Story();
        var replied, line := link.SendAtExpect("AT+CEREG?", "+CEREG:", tmo);
        FollowsTrans(start, before, link.Story());
        if replied {
          var stat := CeregStat(line);
          if stat == Some(1) || stat == Some(5) {
            ghost var reported := link.Story();
            assert IsRegistration(link.log[|before.log|]);
            assert Registered(link.log, |start.log|);
            var _, _ := link.SendAtExpect("AT+CSQ", "+CSQ:", 2000);
            FollowsTrans(start, reported, link.Story());
            RegisteredStays(reported.log, |start.log|, link.log, |start.log|);
            return true;
          }
          if stat == Some(3) {
            return false;
          }
        }
        link.port.Delay(REG_POLL_TICKS);
      }
      ok := false;
    }

    /**
     The IMSI query of detectCarrier.  slices is everything received since AT+CIMI went out, up to the
     first slice that ends the answer or for the whole 3 s.
     */
    method ReadImsi() returns (imsi: Option<string>, ghost slices: seq<string>)
      modifies link.port
      ensures link.port.received == old(link.port.received) + Joined(slices)
      ensures link.port.sent == old(link.port.sent) + CommandLine("AT+CIMI")
      ensures old(link.port.turns) <= link.port.turns
      ensures WrittenBefore(link.port.turns, |old(link.port.sent)|, |old(link.port.received)|)
      ensures imsi == FirstImsi(slices)
      ensures old(link.port.now) <= link.port.now <= old(link.port.now) + CIMI_TICKS
      ensures WholeAnswer(slices, link.port.now - old(link.port.now))
    {
      var port := link.port;
      link.WriteLine("AT+CIMI");
      imsi, slices := None, [];
      var start := port.now;
      while TicksToMs(port.now - start) < 3000
        invariant start == old(port.now) <= port.now <= start + CIMI_TICKS
        invariant port.received == old(port.received) + Joined(slices)
        invariant port.sent == old(port.sent) + CommandLine("AT+CIMI") && old(port.turns) <= port.turns
        invariant WrittenBefore(port.turns, |old(port.sent)|, |old(port.received)|)
        invariant imsi == FirstImsi(slices)
        invariant forall i :: 0 <= i < |slices| ==> !EndsAnswer(slices[i])
        decreases start + CIMI_TICKS - port.now
      {
        var line := ReadLineSim(port, 300);
        if line == "" {
          continue;
        }
        PassSlice(old(port.received), slices, line);
        FirstImsiNext(slices, line);
        slices := slices + [line];
        if imsi.None? && |line| >= 5 && IsDigit(line[0]) {
          imsi := Some(line);
        }
        var over := EndsHere(line);
        if over {
          break;
        }
      }
    }

    /**
     detectCarrier: by IMSI, else by operator, else the saved profile.  The IMSI comes from everything
     that answered AT+CIMI; if it names no known carrier AT+COPS? is asked, and the line that answers it,
     if one does, is used.  It ignores the deadline.
     */
    method DetectCarrier() returns (apn: Apn, ghost slices: seq<string>, ghost cops: Option<string>)
      modifies link`log, link.port
      ensures Follows(old(link.Story()), link.Story())
      ensures old(link.port.received) + Joined(slices) <= link.port.received
      ensures old(link.port.sent) + CommandLine("AT+CIMI") <= link.port.sent
      ensures WrittenBefore(link.port.turns, |old(link.port.sent)|, |old(link.port.received)|)
      ensures old(link.port.now) <= link.port.now <= old(link.port.now) + CIMI_TICKS + COPS_TICKS
      ensures WholeAnswer(slices, link.port.now - old(link.port.now))
      ensures KnownCarrier(FirstImsi(slices)).Some? ==>
                apn == KnownCarrier(FirstImsi(slices)).value && link.log == old(link.log)
      ensures KnownCarrier(FirstImsi(slices)).None? ==>
                && |link.log| == |old(link.log)| + 1
                && AnswerOf(link.log[|old(link.log)|], "AT+COPS?", "+COPS:", cops)
                && apn == match KnownCarrier(OperatorDigits(cops)) case Some(known) => known case None => savedApn
    {
      ghost var start := link.Story();
      var imsi;
      imsi, slices := ReadImsi();
      cops := None;
      ghost var asked := link.Story();
      assert Follows(start, asked);
      if imsi.Some? && MatchMccMnc(imsi.value).Some? {
        return MatchMccMnc(imsi.value).value, slices, cops;
      }
      var replied, line := link.SendAtExpect("AT+COPS?", "+COPS:", 3000);
      FollowsTrans(start, asked, link.Story());
      KeptAnswer(asked, link.Story(), |start.sent|, |start.received|);
      if replied {
        cops := Some(line);
        var mccmnc := CopsMccMnc(line);
        if mccmnc.Some? && MatchMccMnc(mccmnc.value).Some? {
          return MatchMccMnc(mccmnc.value).value, slices, cops;
        }
      }
      apn := savedApn;
    }

    method ConfigureApnPhase(profile: Apn, deadline: nat) returns (ok: bool)
      modifies link`log, link.port
      ensures Follows(old(link.Story()), link.Story())
      ensures ok ==> Answered(link.log, |old(link.log)|, DefineContext(profile), "OK")
      ensures ok ==> Answered(link.log, |old(link.log)|, "AT+CGAUTH=1,0", "OK")
      ensures old(link.port.now) <= link.port.now <= Max(old(link.port.now), deadline + TOKEN_OVERRUN)
    {
      ghost var start := link.Story();
      var line;
      ok, line := SendClamped(DefineContext(profile), "OK", deadline, 3000);
      if !ok {
        return false;
      }
      ghost var defined := link.Story();
      ok, line := SendClamped("AT+CGAUTH=1,0", "OK", deadline, 2000);
      FollowsTrans(start, defined, link.Story());
      AnsweredStays(defined.log, |start.log|, link.log, |start.log|, DefineContext(profile), "OK");
      if ok {
        AnsweredStays(link.log, |defined.log|, link.log, |start.log|, "AT+CGAUTH=1,0", "OK");
      }
    }

    /** The polling loop of attachAndActivateData. */
    method PollAttached(deadline: nat) returns (attached: bool)
      modifies link`log, link.port
      ensures Follows(old(link.Story()), link.Story())
      ensures attached ==> Answered(link.log, |old(link.log)|, "AT+CGATT?", "+CGATT: 1")
      ensures old(link.port.now) <= link.port.now
              <= Max(old(link.port.now), deadline + TOKEN_OVERRUN + REG_POLL_TICKS)
    {
      ghost var start := link.Story();
      while MsRemaining(deadline) > 0
        invariant old(link.port.now) <= link.port.now
                  <= Max(old(link.port.now), deadline + TOKEN_OVERRUN + REG_POLL_TICKS)
        invariant Follows(start, link.Story())
        decreases deadline - link.port.now
      {
        var tmo := ClampTimeout(deadline, 2000);
        if tmo == 0 {
          break;
        }
        ghost var before := link.Story();
        var replied, line := link.SendAtExpect("AT+CGATT?", "+CGATT:", tmo);
        FollowsTrans(start, before, link.Story());
        if replied && Find(line, "+CGATT: 1", 0).Some? {
          assert IsAnswer(link.log[|before.log|], CommandLine("AT+CGATT?"), "+CGATT: 1");
          return true;
        }
        link.port.Delay(REG_POLL_TICKS);
      }
      attached := false;
    }

    method AttachAndActivateData(deadline: nat) returns (ok: bool)
      modifies link`log, link.port
      ensures Follows(old(link.Story()), link.Story())
      ensures ok ==> Attached(link.log, |old(link.log)|)
      ensures old(link.port.now) <= link.port.now
              <= Max(old(link.port.now), deadline + TOKEN_OVERRUN + REG_POLL_TICKS)
    {
      ghost var start := link.Story();
      var line;
      ok, line := SendClamped("AT+CGATT=1", "OK", deadline, 5000);
      ghost var asked := link.Story();
      ok := PollAttached(deadline);
      ghost var polled := link.Story();
      FollowsTrans(start, asked, polled);
      if !ok {
        return false;
      }
      ok, line := SendClamped("AT+CGACT=1,1", "OK", deadline, 5000);
      FollowsTrans(start, polled, link.Story());
      AnsweredStays(polled.log, |asked.log|, link.log, |start.log|, "AT+CGATT?", "+CGATT: 1");
      if ok {
        AnsweredStays(link.log, |polled.log|, link.log, |start.log|, "AT+CGACT=1,1", "OK");
      }
    }

    method VerifyDataReady(deadline: nat) returns (ok: bool)
      modifies link`log, link.port
      ensures Follows(old(link.Story()), link.Story())
      ensures ok ==> Verified(link.log, |old(link.log)|)
      ensures old(link.port.now) <= link.port.now <= Max(old(link.port.now), deadline + TOKEN_OVERRUN)
    {
      ghost var start := link.Story();
      var tmo := ClampTimeout(deadline, 3000);
      if tmo == 0 {
        return false;
      }
      var line;
      ok, line := link.SendAtExpect("AT+CGACT?", "+CGACT: 1,1", tmo);
      if !ok {
        return false;
      }
      ghost var activated := link.Story();
      var replied;
      replied, line := SendClamped("AT+CGPADDR=1", "+CGPADDR:", deadline, 3000);
      FollowsTrans(start, activated, link.Story());
      if replied && Find(line, "0.0.0.0", 0).Some? {
        return false;
      }
      VerifiedBy(activated.log, link.log, |start.log|);
      ok := true;
    }

    method TryApnConnect(profile: Apn, deadline: nat) returns (ok: bool)
      modifies link`log, link.port
      ensures Follows(old(link.Story()), link.Story())
      ensures ok ==> Connected(link.log, |old(link.log)|, profile)
      ensures old(link.port.now) <= link.port.now
              <= Max(old(link.port.now), deadline + TOKEN_OVERRUN + REG_POLL_TICKS)
      ensures ok ==> old(link.port.now) < deadline
    {
      ghost var start := link.Story();
      if MsRemaining(deadline) == 0 {
        return false;
      }
      ok := ConfigureApnPhase(profile, deadline);
      if !ok {
        return false;
      }
      ghost var configured := link.Story();
      ok := AttachAndActivateData(deadline);
      ghost var attached := link.Story();
      FollowsTrans(start, configured, attached);
      if !ok {
        return false;
      }
      ok := VerifyDataReady(deadline);
      FollowsTrans(start, attached, link.Story());
      if ok {
        CombineEvidence(|start.log|, configured.log, attached.log, link.log, profile);
      }
    }

    /** One attempt of the connecting loop: a profile that connects is in use and saved. */
    method Adopt(profile: Apn, deadline: nat) returns (ok: bool)
      modifies this`activeApn, this`savedApn, link`log, link.port
      ensures Follows(old(link.Story()), link.Story())
      ensures old(link.port.now) <= link.port.now
              <= Max(old(link.port.now), deadline + TOKEN_OVERRUN + REG_POLL_TICKS)
      ensures ok ==> activeApn == savedApn == profile && Connected(link.log, |old(link.log)|, activeApn)
      ensures !ok ==> activeApn == old(activeApn) && savedApn == old(savedApn)
    {
      ok := TryApnConnect(profile, deadline);
      if ok {
        activeApn := profile;
        savedApn := activeApn;
      }
    }

    /** The other profile, after the first has failed, if time is left. */
    method Fallback(profile: Apn, deadline: nat) returns (ok: bool)
      modifies this`activeApn, this`savedApn, link`log, link.port
      ensures Follows(old(link.Story()), link.Story())
      ensures old(link.port.now) <= link.port.now
              <= Max(old(link.port.now), deadline + TOKEN_OVERRUN + REG_POLL_TICKS)
      ensures ok ==> activeApn == savedApn
      ensures ok ==> exists from: nat :: |old(link.log)| <= from && Connected(link.log, from, activeApn)
      ensures !ok ==> activeApn == old(activeApn) && savedApn == old(savedApn)
    {
      ghost var start := link.Story();
      var _, _ := SendClamped("AT+CGACT=0,1", "OK", deadline, 2000);
      ghost var dropped := link.Story();
      ok := false;
      if MsRemaining(deadline) > 0 {
        ok := Adopt(profile, deadline);
        FollowsTrans(start, dropped, link.Story());
      }
    }

    /** The carrier's profile, and the other one if it fails. */
    method ConnectWith(first: Apn, deadline: nat) returns (ok: bool)
      modifies this`activeApn, this`savedApn, link`log, link.port
      ensures Follows(old(link.Story()), link.Story())
      ensures old(link.port.now) <= link.port.now
              <= Max(old(link.port.now), deadline + TOKEN_OVERRUN + REG_POLL_TICKS)
      ensures ok ==> activeApn == savedApn
      ensures ok ==> exists from: nat :: |old(link.log)| <= from && Connected(link.log, from, activeApn)
      ensures !ok ==> activeApn == old(activeApn) && savedApn == old(savedApn)
    {
      ghost var start := link.Story();
      ok := Adopt(first, deadline);
      if !ok {
        ghost var tried := link.Story();
        ok := Fallback(OtherApn(first), deadline);
        FollowsTrans(start, tried, link.Story());
      }
    }

    /** Detect the carrier, then connect. */
    method ConnectEitherApn(deadline: nat) returns (ok: bool)
      modifies this`activeApn, this`savedApn, link`log, link.port
      ensures Follows(old(link.Story()), link.Story())
      ensures old(link.port.now) <= link.port.now
              <= Max(old(link.port.now) + CIMI_TICKS + COPS_TICKS, deadline + TOKEN_OVERRUN + REG_POLL_TICKS)
      ensures ok ==> activeApn == savedApn
      ensures ok ==> exists from: nat :: |old(link.log)| <= from && Connected(link.log, from, activeApn)
      ensures !ok ==> activeApn == old(activeApn) && savedApn == old(savedApn)
    {
      ghost var start := link.Story();
      var first, _, _ := DetectCarrier();
      ghost var detected := link.Story();
      ok := ConnectWith(first, deadline);
      FollowsTrans(start, detected, link.Story());
    }

    /** A ready SIM and a registered modem. */
    method ReachNetwork(deadline: nat) returns (ok: bool)
      modifies link`log, link.port
      ensures Follows(old(link.Story()), link.Story())
      ensures ok ==> Answered(link.log, |old(link.log)|, "AT+CPIN?", "READY") && Registered(link.log, |old(link.log)|)
      ensures old(link.port.now) <= link.port.now
              <= Max(old(link.port.now), deadline + TOKEN_OVERRUN + CSQ_TICKS)
    {
      ghost var start := link.Story();
      ok := CheckSimReady(deadline);
      if !ok {
        return false;
      }
      ghost var simReady := link.Story();
      ok := WaitLteRegistration(deadline);
      FollowsTrans(start, simReady, link.Story());
      if ok {
        AnsweredStays(simReady.log, |start.log|, link.log, |start.log|, "AT+CPIN?", "READY");
        RegisteredStays(link.log, |simReady.log|, link.log, |start.log|);
      }
    }

    /**
     checkInternet: whatever the modem replies, and however its bytes are spaced, it returns within
     min(timeout, 40 s) plus 9.02 s.  Success means that bytes received during the call, in answer to
     commands sent during the call, showed a ready SIM, a registered modem and a verified connection
     with the profile in use, which is also the saved one.
     */
    method CheckInternet(timeoutMs: nat) returns (ok: bool)
      modifies this`activeApn, this`savedApn, link`log, link.port
      ensures old(link.port.now) <= link.port.now
              <= old(link.port.now) + MsToTicks(Min(timeoutMs, NETWORK_TIMEOUT_MS)) + WORST_OVERRUN
      ensures Follows(old(link.Story()), link.Story())
      ensures ok ==> old(active) && activeApn == savedApn
      ensures ok ==> Answered(link.log, |old(link.log)|, "AT+CPIN?", "READY") && Registered(link.log, |old(link.log)|)
      ensures ok ==> exists from: nat :: |old(link.log)| <= from && Connected(link.log, from, activeApn)
      ensures !ok ==> activeApn == old(activeApn) && savedApn == old(savedApn)
    {
      ghost var start := link.Story();
      var budget := Min(timeoutMs, NETWORK_TIMEOUT_MS);
      var deadline := link.port.now + MsToTicks(budget);
      if !active {
        return false;
      }
      ok := ReachNetwork(deadline);
      if !ok {
        return false;
      }
      ghost var registered := link.Story();
      ok := ConnectEitherApn(deadline);
      FollowsTrans(start, registered, link.Story());
      AnsweredStays(registered.log, |start.log|, link.log, |start.log|, "AT+CPIN?", "READY");
      RegisteredStays(registered.log, |start.log|, link.log, |start.log|);
    }
  }
}
