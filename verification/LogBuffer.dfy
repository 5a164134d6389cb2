/** LogBuffer (main/services/logging/log_buffer.cpp): bounded in-place appending with C strings. */
module LogBuffer {
  import opened Prelude

  const SESSION_LOG_SIZE: nat := 1024
  const TEXT_LIMIT: nat := SESSION_LOG_SIZE - 2

  class LogBuffer {
    const buf: array<char>
    var len: nat

    /** Everything appended since the last clear, as if nothing had been cut. */
    ghost var total: string

    /** The C string is the text cut to 1022 characters; size() can be one more than its length. */
    ghost predicate Valid()
      reads this, buf
    {
      && buf.Length == SESSION_LOG_SIZE
      && '\0' !in total
      && len == Min(|total|, SESSION_LOG_SIZE - 1)
      && var shown := Min(|total|, TEXT_LIMIT);
         buf[..shown] == total[..shown] && buf[shown] == '\0' && buf[len] == '\0'
    }

    constructor ()
      ensures Valid() && total == "" && fresh(buf)
    {
      buf := new char[SESSION_LOG_SIZE](_ => '\0');
      len, total := 0, "";
    }

    method Clear()
      requires buf.Length == SESSION_LOG_SIZE
      modifies this, buf
      ensures Valid() && total == ""
    {
      len := 0;
      buf[0] := '\0';
      total := "";
    }

    /** vsnprintf(buf + at, size, ...): at most size - 1 characters and a NUL; returns the full length. */
    method Vsnprintf(at: nat, size: nat, text: string) returns (n: nat)
      requires at + size <= buf.Length
      modifies buf
      ensures n == |text|
      ensures size == 0 ==> buf[..] == old(buf[..])
      ensures size > 0 ==>
                var copied := Min(|text|, size - 1);
                && (forall k :: 0 <= k < at ==> buf[k] == old(buf[k]))
                && (forall k :: 0 <= k < copied ==> buf[at + k] == text[k])
                && buf[at + copied] == '\0'
                && (forall k :: at + copied < k < buf.Length ==> buf[k] == old(buf[k]))
    {
      n := |text|;
      if size == 0 {
        return;
      }
      var copied := Min(|text|, size - 1);
      for i := 0 to copied
        invariant forall k :: 0 <= k < at ==> buf[k] == old(buf[k])
        invariant forall k :: 0 <= k < i ==> buf[at + k] == text[k]
        invariant forall k :: at + i <= k < buf.Length ==> buf[k] == old(buf[k])
      {
        buf[at + i] := text[i];
      }
      buf[at + copied] := '\0';
    }

    /** vappendf, given the formatted text. */
    method Vappendf(text: string)
      requires Valid() && '\0' !in text
      modifies this, buf
      ensures Valid() && total == old(total) + text
    {
      ghost var before := total;
      total := total + text;
      if len >= SESSION_LOG_SIZE - 1 {
        assert total[..TEXT_LIMIT] == before[..TEXT_LIMIT];
        return;
      }
      var remain := SESSION_LOG_SIZE - 1 - len;
      assert buf[..len] == before;
      var n := Vsnprintf(len, remain, text);
      if n > remain {
        n := remain;
      }
      ghost var copied := Min(|text|, remain - 1);
      assert buf[..|before| + copied] == before + text[..copied] == total[..|before| + copied];
      len := len + n;
      buf[len] := '\0';
    }

    /** c_str(), as a C function reads it. */
    method CStr() returns (s: string)
      requires Valid()
      ensures s == total[..Min(|total|, TEXT_LIMIT)]
    {
      var i := 0;
      while buf[i] != '\0'
        invariant i <= Min(|total|, TEXT_LIMIT)
        decreases Min(|total|, TEXT_LIMIT) - i
      {
        i := i + 1;
      }
      s := buf[..i];
      assert forall k :: 0 <= k < Min(|total|, TEXT_LIMIT) ==> buf[k] == total[k];
    }

    function Size(): (n: nat)
      requires Valid()
      reads this, buf
      ensures n == Min(|total|, SESSION_LOG_SIZE - 1)
    {
      len
    }
  }

  function Concat(pieces: seq<string>): string {
    if pieces == [] then "" else Concat(pieces[..|pieces| - 1]) + pieces[|pieces| - 1]
  }

  /** Any sequence of appends to a fresh log, seen through c_str() and size(). */
  method AppendAll(pieces: seq<string>) returns (s: string, size: nat)
    requires forall i :: 0 <= i < |pieces| ==> '\0' !in pieces[i]
    ensures s == Concat(pieces)[..Min(|Concat(pieces)|, TEXT_LIMIT)]
    ensures size == Min(|Concat(pieces)|, SESSION_LOG_SIZE - 1)
  {
    var log := new LogBuffer();
    assert Concat(pieces[..0]) == "";
    for i := 0 to |pieces|
      invariant fresh(log) && fresh(log.buf) && log.Valid() && log.total == Concat(pieces[..i])
    {
      log.Vappendf(pieces[i]);
      assert pieces[..i + 1][..i] == pieces[..i];
    }
    assert pieces[..|pieces|] == pieces;
    s := log.CStr();
    size := log.Size();
  }
}
