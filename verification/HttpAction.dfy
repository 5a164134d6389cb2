/**
 The "+HTTPACTION: m,status,len" line of main/services/connectivity/sim4g_module.cpp: what
 parseHttpActionLine makes of a slice of the stream, wherever the slice was cut.
 */
module HttpAction {
  import opened AtText
  import opened Prelude

  const TOKEN: string := "+HTTPACTION:"

  datatype Action = Action(verb: int, status: int, bodyLen: int)

  /** sscanf "%d,%d,...": all count numbers, or nothing. */
  function ParseFields(t: string, count: nat): (r: Option<seq<int>>)
    requires count > 0
    ensures r.Some? ==> |r.value| == count
    decreases count
  {
    match ScanInt(t)
    case None => None
    case Some(v) =>
      if count == 1 then Some([v])
      else
        var rest := AfterInt(t);
        if rest == [] || rest[0] != ',' then None
        else
          match ParseFields(rest[1..], count - 1)
          case None => None
          case Some(vs) => Some([v] + vs)
  }

  function ActionOf(numbers: Option<seq<int>>): Option<Action>
    requires numbers.Some? ==> |numbers.value| == 3
  {
    match numbers
    case None => None
    case Some(vs) => Some(Action(vs[0], vs[1], vs[2]))
  }

  function ParseText(text: string): Option<Action> {
    match Find(text, TOKEN, 0)
    case None => None
    case Some(p) => ActionOf(ParseFields(text[p + 12..], 3))
  }

  /** parseHttpActionLine; its two formats read the same lines, since %d skips blanks. */
  function ParseAction(line: string): Option<Action> {
    ParseText(CString(line))
  }

  // ---------------------------------------------------------------------------------------------
  // Printed numbers, cut anywhere
  // ---------------------------------------------------------------------------------------------

  function Fields(ns: seq<nat>): string
    requires ns != []
  {
    if |ns| == 1 then Decimal(ns[0]) else Decimal(ns[0]) + "," + Fields(ns[1..])
  }

  /** The same without the digits of the last number. */
  function FieldsHead(ns: seq<nat>): string
    requires ns != []
  {
    if |ns| == 1 then "" else Decimal(ns[0]) + "," + FieldsHead(ns[1..])
  }

  /** The number its first k digits make. */
  function CutValue(n: nat, k: nat): nat {
    LeadingDigits(Decimal(n)[..Min(k, |Decimal(n)|)], 0)
  }

  /** A number cut before its last digit is smaller. */
  lemma {:induction false} CutValueSmaller(n: nat, k: nat)
    requires k > 0
    ensures CutValue(n, k) <= n
    ensures CutValue(n, k) == n <==> k >= |Decimal(n)|
    decreases n
  {
    var d := Decimal(n);
    if k >= |d| {
      assert d[..|d|] == d;
      DecimalValue(n);
    } else {
      assert d == Decimal(n / 10) + [DigitChar(n % 10)];
      assert d[..k] == Decimal(n / 10)[..k];
      CutValueSmaller(n / 10, k);
    }
  }

  lemma {:induction false} Group(a: string, b: string, c: string)
    ensures a + (b + c) == a + b + c
  {
  }

  lemma {:induction false} FieldsSplit(ns: seq<nat>)
    requires ns != []
    ensures Fields(ns) == FieldsHead(ns) + Decimal(ns[|ns| - 1])
  {
    if |ns| > 1 {
      FieldsSplit(ns[1..]);
      Group(Decimal(ns[0]) + ",", FieldsHead(ns[1..]), Decimal(ns[|ns| - 1]));
    } else {
      assert FieldsHead(ns) + Decimal(ns[0]) == Decimal(ns[0]);
    }
  }

  /** The numbers with the last one cut to j digits; nothing if none is left. */
  function CutNumbers(ns: seq<nat>, j: int): Option<seq<int>>
    requires ns != []
  {
    if j <= 0 then None else Some(ns[..|ns| - 1] + [CutValue(ns[|ns| - 1], j)])
  }

  /** What the scanner makes of the first k characters: nothing before the last number's first digit. */
  lemma {:induction false} CutFields(ns: seq<nat>, rest: string, k: nat)
    requires ns != [] && (rest == "" || !IsDigit(rest[0])) && k <= |Fields(ns) + rest|
    ensures ParseFields((Fields(ns) + rest)[..k], |ns|) == CutNumbers(ns, k - |FieldsHead(ns)|)
    decreases |ns|
  {
    if |ns| == 1 {
      CutOnly(ns, rest, k);
    } else if k <= |Decimal(ns[0])| {
      CutAfterFirst(ns[0], Fields(ns[1..]), rest, k, |ns|);
      CutNumbersTail(ns, k);
    } else {
      CutFields(ns[1..], rest, k - |Decimal(ns[0])| - 1);
      CutInTail(ns, rest, k);
    }
  }

  lemma {:induction false} CutInTail(ns: seq<nat>, rest: string, k: nat)
    requires |ns| > 1 && |Decimal(ns[0])| < k <= |Fields(ns) + rest|
    requires ParseFields((Fields(ns[1..]) + rest)[..k - |Decimal(ns[0])| - 1], |ns| - 1)
             == CutNumbers(ns[1..], k - |Decimal(ns[0])| - 1 - |FieldsHead(ns[1..])|)
    ensures ParseFields((Fields(ns) + rest)[..k], |ns|) == CutNumbers(ns, k - |FieldsHead(ns)|)
  {
    CutAfterFirst(ns[0], Fields(ns[1..]), rest, k, |ns|);
    CutNumbersTail(ns, k);
  }

  lemma {:induction false} CutOnly(ns: seq<nat>, rest: string, k: nat)
    requires |ns| == 1 && (rest == "" || !IsDigit(rest[0])) && k <= |Fields(ns) + rest|
    ensures ParseFields((Fields(ns) + rest)[..k], 1) == CutNumbers(ns, k - |FieldsHead(ns)|)
  {
    LastField(ns[0], rest, k);
    assert ns[..0] + [CutValue(ns[0], k)] == [CutValue(ns[0], k)];
  }

  lemma {:induction false} CutAfterFirst(n: nat, more: string, rest: string, k: nat, count: nat)
    requires count > 1 && k <= |Decimal(n) + "," + more + rest|
    ensures var parsed := ParseFields((Decimal(n) + "," + more + rest)[..k], count);
            if k <= |Decimal(n)| then parsed == None
            else parsed == Prepend(n, ParseFields((more + rest)[..k - |Decimal(n)| - 1], count - 1))
  {
    var d := Decimal(n);
    Regroup(d, more, rest, k);
    if k <= |d| {
      CutField(d, k, count);
    } else {
      FirstField(n, (more + rest)[..k - |d| - 1], count);
    }
  }

  function Prepend(n: int, numbers: Option<seq<int>>): Option<seq<int>> {
    match numbers
    case None => None
    case Some(vs) => Some([n] + vs)
  }

  lemma {:induction false} Regroup(d: string, more: string, rest: string, k: nat)
    requires k <= |d + "," + more + rest|
    ensures k <= |d| ==> (d + "," + more + rest)[..k] == d[..k]
    ensures k > |d| ==> (d + "," + more + rest)[..k] == d + ("," + (more + rest)[..k - |d| - 1])
  {
  }

  lemma {:induction false} LastField(n: nat, rest: string, k: nat)
    requires (rest == "" || !IsDigit(rest[0])) && k <= |Decimal(n) + rest|
    ensures ParseFields((Decimal(n) + rest)[..k], 1) == if k == 0 then None else Some([CutValue(n, k)])
  {
    var d := Decimal(n);
    if k == 0 {
      CutField(d, 0, 1);
    } else {
      var m := Min(k, |d|);
      assert (d + rest)[..k] == d[..m] + rest[..k - m];
      ScanDigits(d[..m], rest[..k - m]);
    }
  }

  /** Digits and nothing after them: no further number. */
  lemma {:induction false} CutField(d: string, k: nat, count: nat)
    requires k <= |d| && forall i :: 0 <= i < |d| ==> IsDigit(d[i])
    requires count > 1 || (count == 1 && k == 0)
    ensures ParseFields(d[..k], count) == None
  {
    if k == 0 {
      assert d[..0] == "" && SkipSpace("") == "";
    } else {
      assert d[..k] + "" == d[..k];
      ScanDigits(d[..k], "");
    }
  }

  lemma {:induction false} FirstField(n: nat, seen: string, count: nat)
    requires count > 1
    ensures ParseFields(Decimal(n) + ("," + seen), count) == Prepend(n, ParseFields(seen, count - 1))
  {
    ScanDigits(Decimal(n), "," + seen);
    DecimalValue(n);
    assert ("," + seen)[1..] == seen;
  }

  lemma {:induction false} CutNumbersTail(ns: seq<nat>, k: nat)
    requires |ns| > 1
    ensures CutNumbers(ns, k - |FieldsHead(ns)|)
            == if k <= |Decimal(ns[0])| then None
               else Prepend(ns[0], CutNumbers(ns[1..], k - |Decimal(ns[0])| - 1 - |FieldsHead(ns[1..])|))
  {
    var j := k - |FieldsHead(ns)|;
    assert |FieldsHead(ns)| == |Decimal(ns[0])| + 1 + |FieldsHead(ns[1..])|;
    if j > 0 {
      assert ns[..|ns| - 1] == [ns[0]] + ns[1..][..|ns| - 2];
      var last: seq<int> := [CutValue(ns[|ns| - 1], j)];
      assert [ns[0]] + (ns[1..][..|ns| - 2] + last) == ns[..|ns| - 1] + last;
    }
  }

  lemma {:induction false} SkipOneBlank(t: string)
    ensures ParseFields(" " + t, 3) == ParseFields(t, 3)
  {
    assert (" " + t)[1..] == t;
    assert SkipSpace(" " + t) == SkipSpace(t);
  }

  // ---------------------------------------------------------------------------------------------
  // The line in a stream
  // ---------------------------------------------------------------------------------------------

  /** An action as a modem prints it. */
  predicate Printable(a: Action) {
    a.verb >= 0 && a.status >= 0 && a.bodyLen >= 0
  }

  function Numbers(a: Action): seq<nat>
    requires Printable(a)
  {
    [a.verb, a.status, a.bodyLen]
  }

  function ActionText(a: Action): string
    requires Printable(a)
  {
    TOKEN + " " + Fields(Numbers(a))
  }

  /** The stream says the action in a line of its own, once, after lead. */
  predicate AnnouncesAs(stream: string, a: Action, lead: string, tail: string) {
    && Printable(a) && stream == lead + ActionText(a) + ("\r\n" + tail)
    && forall i: nat :: i <= |stream| && OccursAt(stream, TOKEN, i) ==> i == |lead|
  }

  ghost predicate Announces(stream: string, a: Action) {
    exists lead: string, tail: string :: AnnouncesAs(stream, a, lead, tail)
  }

  lemma {:induction false} OccursShift(
    stream: string, before: string, text: string, rest: string, pattern: string, i: nat)
    requires stream == before + text + rest && OccursAt(text, pattern, i)
    ensures OccursAt(stream, pattern, |before| + i)
  {
    assert stream[|before| + i..|before| + i + |pattern|] == text[i..i + |pattern|];
  }

  /** How many characters of the line's numbers the slice holds. */
  function NumberChars(lead: string, before: string, text: string): int {
    |before| + |text| - |lead| - |TOKEN| - 1
  }

  /** The only place of the token in a slice that has it. */
  lemma {:induction false} TokenPlace(stream: string, a: Action, lead: string, tail: string,
                                      before: string, text: string, rest: string)
    requires AnnouncesAs(stream, a, lead, tail) && stream == before + text + rest && Contains(text, TOKEN)
    ensures |before| <= |lead| && |lead| + |TOKEN| <= |before| + |text|
    ensures Find(text, TOKEN, 0) == Some(|lead| - |before|)
  {
    forall i: nat | OccursAt(text, TOKEN, i) ensures |before| + i == |lead| {
      OccursShift(stream, before, text, rest, TOKEN, i);
    }
  }

  /** The digits of the length that the slice holds; none if it ends earlier. */
  function LengthDigits(a: Action, lead: string, before: string, text: string): int
    requires Printable(a)
  {
    NumberChars(lead, before, text) - |FieldsHead(Numbers(a))|
  }

  function CutAction(a: Action, j: int): Option<Action> {
    if j <= 0 || a.bodyLen < 0 then None else Some(a.(bodyLen := CutValue(a.bodyLen, j)))
  }

  /** A slice with the token: the scanner sees the numbers up to where the slice ends. */
  lemma {:induction false} CutText(stream: string, a: Action, lead: string, tail: string,
                                   before: string, text: string, rest: string)
    requires AnnouncesAs(stream, a, lead, tail) && stream == before + text + rest && Contains(text, TOKEN)
    ensures ParseText(text) == CutAction(a, LengthDigits(a, lead, before, text))
  {
    TokenPlace(stream, a, lead, tail, before, text, rest);
    var numbers := Fields(Numbers(a)) + ("\r\n" + tail);
    assert stream == lead + (TOKEN + " ") + numbers;
    SeenNumbers(stream, lead, numbers, before, text, rest);
    CutLine(a, tail, text[|lead| - |before| + 12..], NumberChars(lead, before, text));
    CutActionNumbers(a, LengthDigits(a, lead, before, text));
  }

  lemma {:induction false} CutActionNumbers(a: Action, j: int)
    requires Printable(a)
    ensures ActionOf(CutNumbers(Numbers(a), j)) == CutAction(a, j)
  {
  }

  /** The text after the token, k characters of numbers long; k is -1 if even the blank is cut off. */
  lemma {:induction false} CutLine(a: Action, tail: string, seen: string, k: int)
    requires Printable(a) && -1 <= k <= |Fields(Numbers(a)) + ("\r\n" + tail)|
    requires seen == if k < 0 then "" else " " + (Fields(Numbers(a)) + ("\r\n" + tail))[..k]
    ensures ParseFields(seen, 3) == CutNumbers(Numbers(a), k - |FieldsHead(Numbers(a))|)
  {
    if k < 0 {
      assert SkipSpace("") == "";
    } else {
      SkipOneBlank((Fields(Numbers(a)) + ("\r\n" + tail))[..k]);
      CutFields(Numbers(a), "\r\n" + tail, k);
    }
  }

  lemma {:induction false} SeenNumbers(
    stream: string, lead: string, numbers: string, before: string, text: string, rest: string)
    requires |before| <= |lead| && |lead| + |TOKEN| <= |before| + |text|
    requires stream == before + text + rest && stream == lead + (TOKEN + " ") + numbers
    ensures var k := NumberChars(lead, before, text);
            && -1 <= k <= |numbers|
            && text[|lead| - |before| + 12..] == if k < 0 then "" else " " + numbers[..k]
  {
    var k := NumberChars(lead, before, text);
    if k >= 0 {
      var p := |lead| - |before|;
      assert text == stream[|before|..|before| + |text|];
      assert stream[|lead| + 12] == ' ';
      assert stream[|lead| + 13..] == numbers;
    }
  }

  lemma {:induction false} DecimalPlain(n: nat)
    ensures '\0' !in Decimal(n)
  {
    assert forall i :: 0 <= i < |Decimal(n)| ==> IsDigit(Decimal(n)[i]);
  }

  lemma {:induction false} FieldsPlain(ns: seq<nat>)
    requires ns != []
    ensures '\0' !in Fields(ns)
  {
    DecimalPlain(ns[0]);
    if |ns| > 1 {
      FieldsPlain(ns[1..]);
    }
  }

  lemma {:induction false} ActionTextPlain(a: Action)
    requires Printable(a)
    ensures '\0' !in ActionText(a)
    ensures |ActionText(a)| == |TOKEN| + 1 + |FieldsHead(Numbers(a))| + |Decimal(a.bodyLen)|
    ensures SliceAt(ActionText(a), TOKEN, 0)
  {
    FieldsPlain(Numbers(a));
    FieldsSplit(Numbers(a));
    assert ActionText(a) == TOKEN + (" " + Fields(Numbers(a)));
    assert '\0' !in TOKEN && '\0' !in " ";
  }

  /** The slice holds the whole action text exactly if it reaches its end. */
  lemma {:induction false} WholeText(stream: string, a: Action, lead: string, tail: string,
                                     before: string, line: string, rest: string)
    requires AnnouncesAs(stream, a, lead, tail) && stream == before + line + rest
    requires |before| <= |lead|
    ensures Contains(line, ActionText(a)) <==> |lead| + |ActionText(a)| <= |before| + |line|
  {
    var text := ActionText(a);
    if |lead| + |text| <= |before| + |line| {
      TextInSlice(lead, text, "\r\n" + tail, before, line, rest);
    }
    if Contains(line, text) {
      var q: nat :| q <= |line| && OccursAt(line, text, q);
      TextPlace(stream, a, lead, tail, before, line, rest, q);
    }
  }

  lemma {:induction false} TextPlace(stream: string, a: Action, lead: string, tail: string,
                                     before: string, line: string, rest: string, q: nat)
    requires AnnouncesAs(stream, a, lead, tail) && stream == before + line + rest
    requires OccursAt(line, ActionText(a), q)
    ensures |before| + q == |lead|
  {
    OccursShift(stream, before, line, rest, ActionText(a), q);
    ActionTextPlain(a);
    PrefixOccurs(stream, ActionText(a), TOKEN, |before| + q);
  }

  lemma {:induction false} TextInSlice(
    lead: string, text: string, after: string, before: string, line: string, rest: string)
    requires lead + text + after == before + line + rest
    requires |before| <= |lead| && |lead| + |text| <= |before| + |line|
    ensures Contains(line, text)
  {
    var stream := lead + text + after;
    assert stream[|lead|..|lead| + |text|] == text;
    assert stream[|before|..|before| + |line|] == line;
    assert line[|lead| - |before|..|lead| - |before| + |text|] == text;
    assert OccursAt(line, text, |lead| - |before|);
  }

  lemma {:induction false} PrefixOccurs(s: string, text: string, pattern: string, i: nat)
    requires OccursAt(s, text, i) && SliceAt(text, pattern, 0)
    ensures OccursAt(s, pattern, i)
  {
    assert s[i..i + |pattern|] == s[i..i + |text|][..|pattern|];
  }

  /** A C string that ends inside the slice does not end inside the action text. */
  lemma {:induction false} CutByNul(stream: string, a: Action, lead: string, tail: string,
                                    before: string, line: string, rest: string)
    requires AnnouncesAs(stream, a, lead, tail) && stream == before + line + rest
    requires |lead| <= |before| + |CString(line)|
    ensures |lead| + |ActionText(a)| <= |before| + |line|
            <==> |lead| + |ActionText(a)| <= |before| + |CString(line)|
  {
    CStringPrefix(line);
    ActionTextPlain(a);
    CharInside(lead, ActionText(a), "\r\n" + tail, |before| + |CString(line)|);
    CharInside(before, line, rest, |before| + |CString(line)|);
  }

  lemma {:induction false} CharInside(before: string, part: string, after: string, i: nat)
    ensures |before| <= i < |before| + |part| ==>
              (before + part + after)[i] == part[i - |before|] && part[i - |before|] in part
  {
  }

  /**
   Whatever slice of an announcing stream holds the token, wherever it was cut: what the module
   parses has the method and status that were sent; its length is never larger, and it is the one
   that was sent if and only if the slice holds the whole text.
   */
  lemma {:induction false} SlicedAction(stream: string, a: Action, before: string, line: string, rest: string)
    requires Announces(stream, a) && stream == before + line + rest && Contains(line, TOKEN)
    ensures ParseAction(line).Some? ==>
              var r := ParseAction(line).value;
              && r.verb == a.verb && r.status == a.status && 0 <= r.bodyLen <= a.bodyLen
              && (r == a <==> Contains(line, ActionText(a)))
  {
    var lead: string, tail: string :| AnnouncesAs(stream, a, lead, tail);
    var text := CString(line);
    CStringPrefix(line);
    var after := line[|text|..] + rest;
    assert stream == before + text + after;
    if Contains(text, TOKEN) {
      CutText(stream, a, lead, tail, before, text, after);
      TokenPlace(stream, a, lead, tail, before, text, after);
      WholeText(stream, a, lead, tail, before, line, rest);
      CutByNul(stream, a, lead, tail, before, line, rest);
      ActionTextPlain(a);
      var j := LengthDigits(a, lead, before, text);
      if j > 0 {
        CutValueSmaller(a.bodyLen, j);
      }
    }
  }

  /** Without a NUL in it, the slice parses as what was sent if and only if it holds the whole text. */
  lemma {:induction false} PlainSliceExact(stream: string, a: Action, before: string, line: string, rest: string)
    requires Announces(stream, a) && stream == before + line + rest && Contains(line, TOKEN) && '\0' !in line
    ensures ParseAction(line) == Some(a) <==> Contains(line, ActionText(a))
  {
    SlicedAction(stream, a, before, line, rest);
    CStringPlain(line);
    if Contains(line, ActionText(a)) {
      var lead: string, tail: string :| AnnouncesAs(stream, a, lead, tail);
      CutText(stream, a, lead, tail, before, line, rest);
      TokenPlace(stream, a, lead, tail, before, line, rest);
      WholeText(stream, a, lead, tail, before, line, rest);
      ActionTextPlain(a);
    }
  }

  /** Any stream that announces the action. */
  method AnyAnnouncement(a: Action) returns (stream: string)
    requires Printable(a)
    ensures Announces(stream, a)
  {
    var lead: string :| |lead| >= 0;
    var tail: string :| |tail| >= 0;
    stream := lead + ActionText(a) + ("\r\n" + tail);
    if !AnnouncesAs(stream, a, lead, tail) {
      stream := "" + ActionText(a) + ("\r\n" + "");
      BareAnnouncement(a);
    }
  }

  lemma {:induction false} NoSignInFields(ns: seq<nat>)
    requires ns != []
    ensures '+' !in Fields(ns)
  {
    assert forall i :: 0 <= i < |Decimal(ns[0])| ==> IsDigit(Decimal(ns[0])[i]);
    if |ns| > 1 {
      NoSignInFields(ns[1..]);
    }
  }

  lemma {:induction false} BareAnnouncement(a: Action)
    requires Printable(a)
    ensures AnnouncesAs("" + ActionText(a) + ("\r\n" + ""), a, "", "")
  {
    var stream := "" + ActionText(a) + ("\r\n" + "");
    NoSignInFields(Numbers(a));
    assert stream == "+" + ("HTTPACTION:" + " " + Fields(Numbers(a)) + "\r\n");
    assert '+' !in "HTTPACTION:" && '+' !in " " && '+' !in "\r\n";
    forall i: nat | OccursAt(stream, TOKEN, i) ensures i == 0 {
      assert stream[i] == stream[i..i + 12][0] == TOKEN[0] == '+';
    }
  }

  /** A slice that ends after j digits of the length is taken all the same, with a length too small. */
  lemma {:induction false} CutLengthAccepted(a: Action, j: nat)
    requires Printable(a) && 0 < j < |Decimal(a.bodyLen)|
    ensures var line := TOKEN + " " + FieldsHead(Numbers(a)) + Decimal(a.bodyLen)[..j];
            && line <= ActionText(a) && Contains(line, TOKEN)
            && ParseAction(line) == Some(a.(bodyLen := CutValue(a.bodyLen, j)))
    ensures CutValue(a.bodyLen, j) < a.bodyLen
  {
    var line := TOKEN + " " + FieldsHead(Numbers(a)) + Decimal(a.bodyLen)[..j];
    var after := Decimal(a.bodyLen)[j..] + "\r\n";
    var stream := "" + ActionText(a) + ("\r\n" + "");
    FieldsSplit(Numbers(a));
    ActionTextPlain(a);
    assert Decimal(a.bodyLen) == Decimal(a.bodyLen)[..j] + Decimal(a.bodyLen)[j..];
    assert ActionText(a) == line + Decimal(a.bodyLen)[j..];
    assert stream == "" + line + after;
    assert OccursAt(line, TOKEN, 0);
    BareAnnouncement(a);
    CutText(stream, a, "", "", "", line, after);
    CStringPlain(line);
    CutValueSmaller(a.bodyLen, j);
  }

  lemma {:induction false} CutValueTenth(n: nat)
    requires n >= 100
    ensures |Decimal(n)| > 2 && CutValue(n, 2) == CutValue(n / 10, 2)
  {
    var m := n / 10;
    assert m >= 10 && |Decimal(m / 10)| >= 1;
    assert Decimal(m) == Decimal(m / 10) + [DigitChar(m % 10)];
    assert Decimal(n) == Decimal(m) + [DigitChar(n % 10)];
    assert Decimal(n)[..2] == Decimal(m)[..2];
  }

  /** For instance 12 instead of 1234567 bytes. */
  lemma {:induction false} MegabyteCutToTwelve()
    ensures |Decimal(1234567)| > 2 && CutValue(1234567, 2) == 12
  {
    CutValueTenth(1234567);
    CutValueTenth(123456);
    CutValueTenth(12345);
    CutValueTenth(1234);
    CutValueTenth(123);
    assert Decimal(12) == [DigitChar(1)] + [DigitChar(2)];
    CutValueSmaller(12, 2);
  }
}
