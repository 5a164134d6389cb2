/** Text handling of main/services/connectivity/sim4g_module.cpp: searching replies, printing and scanning numbers. */
module AtText {
  import opened Prelude

  /** pattern occurs in s at position i. */
  predicate OccursAt(s: string, pattern: string, i: nat) {
    i + |pattern| <= |s| && s[i..i + |pattern|] == pattern
  }

  /** s.find(pattern) != npos */
  predicate Contains(s: string, pattern: string) {
    exists i: nat {:trigger OccursAt(s, pattern, i)} :: i <= |s| && OccursAt(s, pattern, i)
  }

  /** Position of the first occurrence at or after from. */
  function Find(s: string, pattern: string, from: nat): (r: Option<nat>)
    requires from <= |s|
    ensures r.Some? ==> from <= r.value && OccursAt(s, pattern, r.value)
    ensures r.Some? ==> forall i: nat :: from <= i < r.value ==> !OccursAt(s, pattern, i)
    ensures r.None? ==> forall i: nat :: from <= i <= |s| ==> !OccursAt(s, pattern, i)
    decreases |s| - from
  {
    if OccursAt(s, pattern, from) then Some(from)
    else if from == |s| then None
    else Find(s, pattern, from + 1)
  }

  /** What a C function sees of a std::string handed over with c_str(). */
  function CString(s: string): string {
    if s == [] || s[0] == '\0' then [] else [s[0]] + CString(s[1..])
  }

  lemma {:induction false} CStringPlain(s: string)
    requires '\0' !in s
    ensures CString(s) == s
  {
    if s != [] {
      CStringPlain(s[1..]);
    }
  }

  lemma {:induction false} CStringPrefix(s: string)
    ensures CString(s) <= s
    ensures |CString(s)| < |s| ==> s[|CString(s)|] == '\0'
  {
    if s != [] && s[0] != '\0' {
      CStringPrefix(s[1..]);
    }
  }

  predicate IsAlpha(c: char) {
    'a' <= c <= 'z' || 'A' <= c <= 'Z'
  }

  /** "ERROR" at position i that is not part of a longer word. */
  predicate StandaloneError(s: string, i: nat) {
    && OccursAt(s, "ERROR", i)
    && (i == 0 || !IsAlpha(s[i - 1]))
    && (i + 5 >= |s| || !IsAlpha(s[i + 5]))
  }

  predicate IsAtError(s: string) {
    || Contains(s, "+CME ERROR")
    || Contains(s, "+CMS ERROR")
    || exists i: nat :: i <= |s| && StandaloneError(s, i)
  }

  /** isAtError: the search loop. */
  method ScanAtError(s: string) returns (found: bool)
    ensures found == IsAtError(s)
  {
    if Find(s, "+CME ERROR", 0).Some? {
      return true;
    }
    if Find(s, "+CMS ERROR", 0).Some? {
      return true;
    }
    var pos := 0;
    while pos <= |s|
      invariant pos <= |s| + 1
      invariant forall i: nat :: i < pos ==> !StandaloneError(s, i)
    {
      var next := Find(s, "ERROR", pos);
      if next.None? {
        return false;
      }
      pos := next.value;
      if (pos == 0 || !IsAlpha(s[pos - 1])) && (pos + 5 >= |s| || !IsAlpha(s[pos + 5])) {
        assert StandaloneError(s, pos);
        return true;
      }
      pos := pos + 1;
    }
    found := false;
  }

  // ---------------------------------------------------------------------------------------------
  // Numbers
  // ---------------------------------------------------------------------------------------------

  predicate IsDigit(c: char) {
    '0' <= c <= '9'
  }

  function DigitValue(c: char): nat
    requires IsDigit(c)
  {
    c as int - '0' as int
  }

  predicate IsSpace(c: char) {
    c == ' ' || '\t' <= c <= '\r'
  }

  function SkipSpace(s: string): string {
    if s != [] && IsSpace(s[0]) then SkipSpace(s[1..]) else s
  }

  /** The value of the leading digits of s, appended to acc. */
  function LeadingDigits(s: string, acc: nat): nat {
    if s == [] || !IsDigit(s[0]) then acc else LeadingDigits(s[1..], 10 * acc + DigitValue(s[0]))
  }

  function ScanUnsigned(s: string): Option<nat> {
    if s == [] || !IsDigit(s[0]) then None else Some(LeadingDigits(s, 0))
  }

  /** sscanf(s, " %d", &n) == 1 */
  function ScanInt(s: string): Option<int> {
    var t := SkipSpace(s);
    if t != [] && (t[0] == '-' || t[0] == '+') then
      match ScanUnsigned(t[1..])
      case Some(n) => var value: int := n; Some(if t[0] == '-' then -value else value)
      case None => None
    else
      ScanUnsigned(t)
  }

  /** What is left of s after the number ScanInt read. */
  function AfterInt(s: string): string {
    var t := SkipSpace(s);
    SkipDigits(if t != [] && (t[0] == '-' || t[0] == '+') then t[1..] else t)
  }

  function SkipDigits(s: string): string {
    if s != [] && IsDigit(s[0]) then SkipDigits(s[1..]) else s
  }

  function DigitChar(d: nat): (c: char)
    requires d < 10
    ensures IsDigit(c) && DigitValue(c) == d
  {
    '0' + d as char
  }

  /** printf %d of a natural number */
  function Decimal(n: nat): (s: string)
    ensures s != [] && forall i :: 0 <= i < |s| ==> IsDigit(s[i])
  {
    if n < 10 then [DigitChar(n)] else Decimal(n / 10) + [DigitChar(n % 10)]
  }

  lemma {:induction false} LeadingDigitsAppend(s: string, t: string, acc: nat)
    requires forall i :: 0 <= i < |s| ==> IsDigit(s[i])
    ensures LeadingDigits(s + t, acc) == LeadingDigits(t, LeadingDigits(s, acc))
    decreases |s|
  {
    if s == [] {
      assert s + t == t;
    } else {
      assert (s + t)[1..] == s[1..] + t;
      LeadingDigitsAppend(s[1..], t, 10 * acc + DigitValue(s[0]));
    }
  }

  lemma {:induction false} DecimalValue(n: nat)
    ensures LeadingDigits(Decimal(n), 0) == n
  {
    if n >= 10 {
      var last := [DigitChar(n % 10)];
      DecimalValue(n / 10);
      LeadingDigitsAppend(Decimal(n / 10), last, 0);
      assert LeadingDigits(last, n / 10) == LeadingDigits([], 10 * (n / 10) + n % 10);
    } else {
      assert LeadingDigits(Decimal(n), 0) == LeadingDigits([], n);
    }
  }

  lemma {:induction false} SkipDigitsAll(digits: string, rest: string)
    requires forall i :: 0 <= i < |digits| ==> IsDigit(digits[i])
    requires rest == [] || !IsDigit(rest[0])
    ensures SkipDigits(digits + rest) == rest
    decreases |digits|
  {
    if digits == [] {
      assert digits + rest == rest;
    } else {
      assert (digits + rest)[1..] == digits[1..] + rest;
      SkipDigitsAll(digits[1..], rest);
    }
  }

  /** Scanning takes all digits and stops before what follows them. */
  lemma {:induction false} ScanDigits(digits: string, rest: string)
    requires digits != [] && forall i :: 0 <= i < |digits| ==> IsDigit(digits[i])
    requires rest == [] || !IsDigit(rest[0])
    ensures ScanInt(digits + rest) == Some(LeadingDigits(digits, 0)) && AfterInt(digits + rest) == rest
  {
    var t := digits + rest;
    assert t[0] == digits[0] && SkipSpace(t) == t;
    LeadingDigitsAppend(digits, rest, 0);
    SkipDigitsAll(digits, rest);
  }

  /** Printing a number after any blanks and scanning it back gives the number. */
  lemma {:induction false} DecimalRoundTrip(n: nat)
    ensures ScanInt(" " + Decimal(n)) == Some(n)
  {
    var d := Decimal(n);
    assert (" " + d)[1..] == d;
    assert SkipSpace(d) == d;
    assert SkipSpace(" " + d) == d;
    DecimalValue(n);
  }
}
