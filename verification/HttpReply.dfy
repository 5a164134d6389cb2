/**
 How httpGet (main/services/connectivity/sim4g_module.cpp) collects the reply to AT+HTTPREAD and
 cuts the body out of it.  Unlike the firmware download it searches the whole reply as text.
 */
module HttpReply {
  import opened AtText
  import opened HttpRead
  import opened Prelude
  import opened Uart

  /** raw.rfind(pattern), looking at positions up to last. */
  function FindLast(s: string, pattern: string, last: nat): (r: Option<nat>)
    ensures r.Some? ==> r.value <= last && OccursAt(s, pattern, r.value)
    ensures r.Some? ==> forall i: nat :: r.value < i <= last ==> !OccursAt(s, pattern, i)
    ensures r.None? ==> forall i: nat :: i <= last ==> !OccursAt(s, pattern, i)
  {
    if OccursAt(s, pattern, last) then Some(last)
    else if last == 0 then None
    else FindLast(s, pattern, last - 1)
  }

  predicate IsTrailing(c: char) {
    c == '\r' || c == '\n' || c == ' '
  }

  predicate Blank(s: string) {
    forall i :: 0 <= i < |s| ==> IsTrailing(s[i])
  }

  predicate EndsBlank(s: string) {
    s != "" && IsTrailing(s[|s| - 1])
  }

  function TrimRight(s: string): string {
    if s != [] && IsTrailing(s[|s| - 1]) then TrimRight(s[..|s| - 1]) else s
  }

  /** From the line after the first header to the last "OK", trailing blanks removed. */
  function GetBody(raw: string): string {
    match Find(raw, HEADER, 0)
    case None => ""
    case Some(header) =>
      match Find(raw, "\n", header)
      case None => ""
      case Some(newline) =>
        match FindLast(raw, "OK", |raw|)
        case Some(end) => if end > newline + 1 then TrimRight(raw[newline + 1..end]) else TrimRight(raw[newline + 1..])
        case None => TrimRight(raw[newline + 1..])
  }

  // ---------------------------------------------------------------------------------------------
  // Cutting out the body
  // ---------------------------------------------------------------------------------------------

  /** A header line with whatever stands behind the header. */
  predicate HeaderLine(head: string) {
    |head| > 10 && head[..10] == HEADER && head[|head| - 1] == '\n' && '\n' !in head[..|head| - 1]
  }

  /** The first header of a reply is the one after lead. */
  predicate NoHeaderIn(lead: string, raw: string) {
    forall i: nat :: i < |lead| ==> !OccursAt(raw, HEADER, i)
  }

  /** How much of what follows the header line is kept: up to the last OK that does not start it. */
  function Kept(content: string): (k: nat)
    ensures k <= |content|
  {
    match FindLast(content, "OK", |content|)
    case Some(end) => if end > 0 then end else |content|
    case None => |content|
  }

  lemma {:induction false} PrefixOccurrence(raw: string, stream: string, pattern: string, i: nat)
    requires raw <= stream && OccursAt(raw, pattern, i)
    ensures OccursAt(stream, pattern, i)
  {
    assert stream[i..i + |pattern|] == raw[i..i + |pattern|];
  }

  lemma {:induction false} HeaderPosition(lead: string, head: string, content: string)
    requires HeaderLine(head) && NoHeaderIn(lead, lead + head + content)
    ensures Find(lead + head + content, HEADER, 0) == Some(|lead|)
  {
    var raw := lead + head + content;
    assert raw[|lead|..|lead| + 10] == head[..10];
    assert OccursAt(raw, HEADER, |lead|);
  }

  lemma {:induction false} NoNewlineInside(lead: string, head: string, raw: string, i: nat)
    requires HeaderLine(head) && (raw <= lead + head || lead + head <= raw)
    requires |lead| <= i < |lead| + |head| - 1
    ensures !OccursAt(raw, "\n", i)
  {
    if i < |raw| {
      assert raw[i] == (lead + head)[i] == head[i - |lead|];
      assert head[i - |lead|] == head[..|head| - 1][i - |lead|];
      assert raw[i..i + 1] == [raw[i]];
    }
  }

  lemma {:induction false} NewlinePosition(lead: string, head: string, content: string)
    requires HeaderLine(head)
    ensures Find(lead + head + content, "\n", |lead|) == Some(|lead| + |head| - 1)
  {
    var raw := lead + head + content;
    var at := |lead| + |head| - 1;
    assert raw[at..at + 1] == [head[|head| - 1]];
    assert OccursAt(raw, "\n", at);
    forall i: nat | |lead| <= i < at ensures !OccursAt(raw, "\n", i) {
      NoNewlineInside(lead, head, raw, i);
    }
  }

  /** The last OK of the whole reply, if it lies past the start of the content, is the content's. */
  lemma {:induction false} LastOkInContent(before: string, content: string)
    requires before != "" && before[|before| - 1] == '\n'
    ensures var last := FindLast(before + content, "OK", |before + content|);
            Kept(content) == if last.Some? && last.value > |before| then last.value - |before| else |content|
  {
    var raw := before + content;
    forall i: nat ensures OccursAt(raw, "OK", |before| + i) <==> OccursAt(content, "OK", i) {
      if i + 2 <= |content| {
        assert raw[|before| + i..|before| + i + 2] == content[i..i + 2];
      }
    }
    var last := FindLast(raw, "OK", |raw|);
    var end := FindLast(content, "OK", |content|);
    if end.Some? {
      assert OccursAt(raw, "OK", |before| + end.value);
    }
    if last.Some? && last.value > |before| {
      var i: nat := last.value - |before|;
      assert OccursAt(raw, "OK", |before| + i);
      assert OccursAt(content, "OK", i);
    }
  }

  /** With its header line complete, what comes out is the kept part without trailing blanks. */
  lemma {:induction false} GetBodyKept(lead: string, head: string, content: string)
    requires HeaderLine(head) && NoHeaderIn(lead, lead + head + content)
    ensures GetBody(lead + head + content) == TrimRight(content[..Kept(content)])
  {
    var before := lead + head;
    HeaderPosition(lead, head, content);
    NewlinePosition(lead, head, content);
    GetBodyFrom(before + content, |lead|, |before|);
    LastOkInContent(before, content);
    KeptSlice(before, content, Kept(content));
  }

  lemma {:induction false} GetBodyFrom(raw: string, header: nat, from: nat)
    requires Find(raw, HEADER, 0) == Some(header) && 0 < from <= |raw|
    requires header <= |raw| && Find(raw, "\n", header) == Some(from - 1)
    ensures var last := FindLast(raw, "OK", |raw|);
            GetBody(raw) == TrimRight(if last.Some? && last.value > from then raw[from..last.value] else raw[from..])
  {
  }

  lemma {:induction false} KeptSlice(before: string, content: string, k: nat)
    requires k <= |content|
    ensures (before + content)[|before|..|before| + k] == content[..k]
    ensures k == |content| ==> (before + content)[|before|..] == content[..k]
  {
  }

  /** With its header line cut short, nothing comes out. */
  lemma {:induction false} GetBodyUnfinished(lead: string, head: string, raw: string)
    requires HeaderLine(head) && NoHeaderIn(lead, raw)
    requires raw <= lead + head && raw != lead + head
    ensures GetBody(raw) == ""
  {
    match Find(raw, HEADER, 0) {
      case None =>
      case Some(header) =>
        forall i: nat | header <= i <= |raw| ensures !OccursAt(raw, "\n", i) {
          if i < |raw| {
            NoNewlineInside(lead, head, raw, i);
          }
        }
    }
  }

  lemma {:induction false} TrimExact(s: string, body: string)
    ensures TrimRight(s) == body <==> body <= s && Blank(s[|body|..]) && !EndsBlank(body)
    decreases |s|
  {
    if s != "" && IsTrailing(s[|s| - 1]) {
      var t := s[..|s| - 1];
      TrimExact(t, body);
      if body <= t {
        assert s[|body|..] == t[|body|..] + [s[|s| - 1]];
        assert Blank(t[|body|..]) ==> Blank(s[|body|..]);
        assert Blank(s[|body|..]) ==> forall i :: 0 <= i < |t[|body|..]| ==> s[|body|..][i] == t[|body|..][i];
      }
    } else if body <= s && body != s {
      assert s[|body|..][|s| - 1 - |body|] == s[|s| - 1];
    }
  }

  /** What was collected keeps the body: it reaches the body's end, and only blanks follow that are kept. */
  predicate KeepsBody(raw: string, lead: string, head: string, body: string) {
    && |lead| + |head| <= |raw|
    && var content := raw[|lead| + |head|..];
       && |body| <= Kept(content)
       && Blank(content[|body|..Kept(content)])
       && !EndsBlank(body)
  }

  /**
   For every reply and every part of it that was collected: the body comes back as it was sent if and
   only if what was collected keeps it.
   */
  lemma {:induction false} BodyExact(lead: string, head: string, body: string, after: string, raw: string)
    requires HeaderLine(head) && NoHeaderIn(lead, lead + head + (body + after)) && body != ""
    requires raw <= lead + head + (body + after)
    ensures GetBody(raw) == body <==> KeepsBody(raw, lead, head, body)
  {
    var before, stream := lead + head, lead + head + (body + after);
    assert NoHeaderIn(lead, raw) by {
      forall i: nat | i < |lead| ensures !OccursAt(raw, HEADER, i) {
        if OccursAt(raw, HEADER, i) {
          PrefixOccurrence(raw, stream, HEADER, i);
        }
      }
    }
    if |raw| < |before| {
      assert before == stream[..|before|];
      GetBodyUnfinished(lead, head, raw);
    } else {
      var content := raw[|before|..];
      SplitPrefix(before, body + after, raw);
      GetBodyKept(lead, head, content);
      var kept := content[..Kept(content)];
      TrimExact(kept, body);
      KeptPrefix(body, after, content, Kept(content));
    }
  }

  lemma {:induction false} SplitPrefix(before: string, after: string, raw: string)
    requires raw <= before + after && |before| <= |raw|
    ensures raw == before + raw[|before|..] && raw[|before|..] <= after
  {
    assert raw == (before + after)[..|raw|];
  }

  lemma {:induction false} KeptPrefix(body: string, after: string, content: string, k: nat)
    requires content <= body + after && k <= |content|
    ensures body <= content[..k] <==> |body| <= k
    ensures |body| <= k ==> content[..k][|body|..] == content[|body|..k]
  {
    if |body| <= k {
      assert content[..|body|] == (body + after)[..|body|] == body;
    }
  }

  // ---------------------------------------------------------------------------------------------
  // Replies collected to their end
  // ---------------------------------------------------------------------------------------------

  lemma {:induction false} LastOk(content: string, end: string)
    requires content != "" && 'O' !in end
    ensures Kept(content + "OK" + end) == |content|
  {
    var all := content + "OK" + end;
    assert all[|content|..|content| + 2] == "OK";
    assert OccursAt(all, "OK", |content|);
    forall i: nat | |content| < i <= |all| ensures !OccursAt(all, "OK", i) {
      if i + 2 <= |all| {
        assert all[i..i + 2][0] == (if i == |content| + 1 then 'K' else end[i - |content| - 2]);
      }
    }
  }

  /**
   A reply collected up to its final OK: the body comes back if and only if the text that closes it is
   all blanks and it does not itself end in one, even if it contains "OK".
   */
  lemma {:induction false} WholeReply(lead: string, head: string, body: string, closing: string, end: string)
    requires HeaderLine(head) && body != "" && 'O' !in end
    requires NoHeaderIn(lead, lead + head + (body + closing + "OK" + end))
    ensures GetBody(lead + head + (body + closing + "OK" + end)) == TrimRight(body + closing)
    ensures GetBody(lead + head + (body + closing + "OK" + end)) == body <==> Blank(closing) && !EndsBlank(body)
  {
    var content := body + closing + "OK" + end;
    GetBodyKept(lead, head, content);
    LastOk(body + closing, end);
    assert content[..|body + closing|] == body + closing;
    TrimExact(body + closing, body);
    assert (body + closing)[|body|..] == closing;
  }

  /** A reply that ends the body with a line break and OK gives back a body without trailing blanks. */
  lemma {:induction false} PlainReply(lead: string, head: string, body: string)
    requires HeaderLine(head) && body != ""
    requires NoHeaderIn(lead, lead + head + (body + "\r\n" + "OK" + "\r\n"))
    ensures GetBody(lead + head + (body + "\r\n" + "OK" + "\r\n")) == body <==> !EndsBlank(body)
  {
    WholeReply(lead, head, body, "\r\n", "\r\n");
  }

  /**
   A reply closed by "+HTTPREAD: 0", as the download expects it, leaves that line in the result: the
   body never comes back as it was.
   */
  lemma {:induction false} ClosedReply(lead: string, head: string, body: string)
    requires HeaderLine(head) && body != ""
    requires NoHeaderIn(lead, lead + head + (body + "\r\n+HTTPREAD: 0\r\n" + "OK" + "\r\n"))
    ensures GetBody(lead + head + (body + "\r\n+HTTPREAD: 0\r\n" + "OK" + "\r\n")) == body + "\r\n+HTTPREAD: 0" != body
  {
    var kept := body + "\r\n+HTTPREAD: 0";
    WholeReply(lead, head, body, "\r\n+HTTPREAD: 0\r\n", "\r\n");
    assert body + "\r\n+HTTPREAD: 0\r\n" == kept + "\r\n";
    TrimExact(kept + "\r\n", kept);
    assert (kept + "\r\n")[|kept|..] == "\r\n";
    assert kept[|kept| - 1] == '0';
  }

  // ---------------------------------------------------------------------------------------------
  // Collecting in slices
  // ---------------------------------------------------------------------------------------------

  /** The reply so far has a header and an OK somewhere. */
  predicate LooksComplete(raw: string) {
    Contains(raw, HEADER) && Contains(raw, "OK")
  }

  predicate Stops(raw: string) {
    LooksComplete(raw) || IsAtError(raw)
  }

  /** The slices of 500 ms in which a reply was collected. */
  datatype Collection = Collection(slices: seq<string>, timedOut: bool)

  /** Collecting went on while the slices so far did not stop it, and then stopped or ran out of time. */
  ghost predicate CollectedFrom(stream: string, c: Collection) {
    && Joined(c.slices) <= stream
    && (forall i :: 0 <= i < |c.slices| ==> c.slices[i] != "")
    && (forall k :: 0 <= k < |c.slices| ==> c.slices[..k] == [] || !Stops(Joined(c.slices[..k])))
    && (c.timedOut || (c.slices != [] && Stops(Joined(c.slices))))
  }

  method StopsHere(raw: string) returns (stop: bool)
    ensures stop == Stops(raw)
  {
    if Find(raw, HEADER, 0).Some? && Find(raw, "OK", 0).Some? {
      return true;
    }
    stop := ScanAtError(raw);
  }

  /** Still collecting: the slices so far call for more. */
  ghost predicate Collecting(stream: string, raw: string, slices: seq<string>) {
    && raw == Joined(slices) && CollectedFrom(stream, Collection(slices, true))
    && (slices == [] || !Stops(raw))
  }

  lemma {:induction false} Lengthened(start: string, before: string, raw: string)
    requires before <= raw
    ensures start + before + raw[|before|..] == start + raw
  {
  }

  /** One slice of the collecting loop. */
  method CollectSlice(port: Port<char>, raw: string, ghost stream: string, ghost slices: seq<string>)
    returns (raw': string, stop: bool, ghost slices': seq<string>)
    requires Collecting(stream, raw, slices) && stream == raw + port.rx
    modifies port`now, port`rx, port`received
    ensures raw <= raw' && port.received == old(port.received) + raw'[|raw|..]
    ensures stream == raw' + port.rx
    ensures old(port.now) + 50 <= port.now <= old(port.now) + 54
    ensures !stop ==> Collecting(stream, raw', slices')
    ensures stop ==> raw' == Joined(slices') && CollectedFrom(stream, Collection(slices', false))
  {
    ghost var before := port.rx;
    var chunk := ReadLineSim(port, 500);
    assert raw + (chunk + port.rx) == raw + chunk + port.rx;
    raw', stop, slices' := raw + chunk, false, slices;
    if chunk == "" {
      return;
    }
    JoinedOne(slices, chunk);
    slices' := slices + [chunk];
    OneMoreSlice(stream, Collection(slices, true), chunk);
    stop := StopsHere(raw');
  }

  /** The collecting loop of httpGet: until header and OK were seen, an error shows, or 5 s are over. */
  method CollectReply(port: Port<char>) returns (raw: string, ghost c: Collection)
    modifies port`now, port`rx, port`received
    ensures raw == Joined(c.slices) && CollectedFrom(old(port.rx), c)
    ensures port.received == old(port.received) + raw && raw + port.rx == old(port.rx)
    ensures old(port.now) <= port.now <= old(port.now) + 553
    ensures c.timedOut ==> port.now >= old(port.now) + 500
  {
    raw := "";
    ghost var stream, slices: seq<string>, start := port.rx, [], port.received;
    assert stream == raw + port.rx && start + raw == port.received;
    var t0 := port.now;
    while TicksToMs(port.now - t0) < 5000
      invariant t0 == old(port.now) <= port.now <= t0 + 553
      invariant stream == raw + port.rx && port.received == start + raw
      invariant Collecting(stream, raw, slices)
      decreases t0 + 553 - port.now
    {
      ghost var before := raw;
      var stop;
      raw, stop, slices := CollectSlice(port, raw, stream, slices);
      Lengthened(start, before, raw);
      if stop {
        return raw, Collection(slices, false);
      }
    }
    c := Collection(slices, true);
  }

  lemma {:induction false} OneMoreSlice(stream: string, c: Collection, chunk: string)
    requires CollectedFrom(stream, c) && chunk != "" && Joined(c.slices) + chunk <= stream
    requires c.slices == [] || !Stops(Joined(c.slices))
    ensures CollectedFrom(stream, Collection(c.slices + [chunk], true))
    ensures Stops(Joined(c.slices + [chunk])) ==> CollectedFrom(stream, Collection(c.slices + [chunk], false))
  {
    var slices := c.slices + [chunk];
    JoinedOne(c.slices, chunk);
    forall k | 0 <= k < |slices| ensures slices[..k] == [] || !Stops(Joined(slices[..k])) {
      assert slices[..k] == c.slices[..k];
      assert c.slices[..|c.slices|] == c.slices;
    }
  }

  /**
   A reply with no OK before its final one, collected until it looked complete: whatever the slices
   were, the body comes back if and only if the closing text is all blanks and the body ends in none.
   */
  lemma {:induction false} QuietReplyExact(
    lead: string, head: string, body: string, closing: string, end: string, c: Collection)
    requires HeaderLine(head) && body != "" && 'O' !in end
    requires var stream := lead + head + (body + closing + "OK" + end);
             && NoHeaderIn(lead, stream) && CollectedFrom(stream, c) && LooksComplete(Joined(c.slices))
             && forall i: nat :: i < |lead + head + body + closing| ==> !OccursAt(stream, "OK", i)
    ensures GetBody(Joined(c.slices)) == body <==> Blank(closing) && !EndsBlank(body)
  {
    var stream := lead + head + (body + closing + "OK" + end);
    var raw := Joined(c.slices);
    var i: nat :| i <= |raw| && OccursAt(raw, "OK", i);
    PrefixOccurrence(raw, stream, "OK", i);
    var end' := raw[|lead + head + body + closing| + 2..];
    EndOfPrefix(lead + head, body + closing, end, raw);
    assert raw == lead + head + (body + closing + "OK" + end');
    forall j: nat | j < |lead| ensures !OccursAt(raw, HEADER, j) {
      if OccursAt(raw, HEADER, j) {
        PrefixOccurrence(raw, stream, HEADER, j);
      }
    }
    WholeReply(lead, head, body, closing, end');
  }

  lemma {:induction false} EndOfPrefix(before: string, content: string, end: string, raw: string)
    requires raw <= before + (content + "OK" + end) && |before| + |content| + 2 <= |raw|
    ensures var end' := raw[|before| + |content| + 2..];
            && end' <= end && raw == before + (content + "OK" + end')
  {
    var stream := before + (content + "OK" + end);
    assert stream == (before + content + "OK") + end;
    assert raw == stream[..|raw|];
  }

  /**
   An early OK line: a slice that ends k characters into the body stops the collection there, and the
   first k characters are taken for the body.
   */
  lemma {:induction false} EarlyOkCutsBody(head: string, body: string, after: string, k: nat)
    requires HeaderLine(head) && 0 < k < |body| && !EndsBlank(body[..k]) && !Contains(body[..k], "OK")
    requires NoHeaderIn("OK\r\n", "OK\r\n" + head + (body + after))
    ensures var stream := "OK\r\n" + head + (body + after);
            var cut := "OK\r\n" + head + body[..k];
            && CollectedFrom(stream, Collection([cut], false)) && GetBody(cut) == body[..k] != body
  {
    var lead := "OK\r\n";
    var stream := lead + head + (body + after);
    var cut := lead + head + body[..k];
    assert stream[..|cut|] == cut;
    EarlyStop(head, body[..k], stream);
    forall j: nat | j < |lead| ensures !OccursAt(cut, HEADER, j) {
      if OccursAt(cut, HEADER, j) {
        PrefixOccurrence(cut, stream, HEADER, j);
      }
    }
    GetBodyKept(lead, head, body[..k]);
    assert Kept(body[..k]) == k && body[..k][..k] == body[..k];
  }

  lemma {:induction false} EarlyStop(head: string, part: string, stream: string)
    requires HeaderLine(head) && "OK\r\n" + head + part <= stream
    ensures CollectedFrom(stream, Collection(["OK\r\n" + head + part], false))
  {
    var cut := "OK\r\n" + head + part;
    EarlyLooksComplete(head, part);
    OneSlice(cut);
  }

  lemma {:induction false} OneSlice(slice: string)
    ensures Joined([slice]) == slice
  {
    var none: seq<string> := [];
    JoinedOne(none, slice);
    assert none + [slice] == [slice];
  }

  lemma {:induction false} EarlyLooksComplete(head: string, part: string)
    requires HeaderLine(head)
    ensures LooksComplete("OK\r\n" + head + part)
  {
    var cut := "OK\r\n" + head + part;
    assert cut[0..2] == "OK" && OccursAt(cut, "OK", 0);
    assert cut[4..4 + 10] == head[..10];
    assert OccursAt(cut, HEADER, 4);
  }
}
