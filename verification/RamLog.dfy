/** The RAM log device (nuttx/drivers/ramlog.c): a ring of characters that writers fill and
    readers drain. ramlog_addchar is atomic; a reader moves the tail by two stores, between which
    writers may run; and between any two of its steps a call may be interrupted by others. */
module RamLogs {
  import opened Rings

  datatype Status = OK | EAGAIN | Errno(e: int)

  /** What a character becomes with CONFIG_RAMLOG_CRLF. */
  function Expanded(crlf: bool, c: char): (r: string) {
    if crlf && c == '\r' then "" else if crlf && c == '\n' then "\r\n" else [c]
  }

  function Expand(crlf: bool, s: string): (r: string) {
    if s == [] then [] else Expand(crlf, s[..|s| - 1]) + Expanded(crlf, s[|s| - 1])
  }

  lemma ExpandNext(crlf: bool, s: string, k: nat)
    requires k < |s|
    ensures Expand(crlf, s[..k + 1]) == Expand(crlf, s[..k]) + Expanded(crlf, s[k])
  {
    assert s[..k + 1][..k] == s[..k];
  }

  lemma {:induction false} ExpandPrefix(crlf: bool, s: string, k: nat)
    requires k <= |s|
    ensures Expand(crlf, s[..k]) <= Expand(crlf, s)
  {
    if k == |s| {
      assert s[..k] == s;
    } else {
      ExpandPrefix(crlf, s[..|s| - 1], k);
      assert s[..|s| - 1][..k] == s[..k];
    }
  }

  /** Every line feed directly follows a carriage return. */
  ghost predicate Lines(s: string) {
    forall i | 0 <= i < |s| && s[i] == '\n' :: i > 0 && s[i - 1] == '\r'
  }

  /** A character that may come next in such a text. */
  predicate Follows(s: string, c: char) {
    c == '\n' ==> s != [] && s[|s| - 1] == '\r'
  }

  lemma LinesNext(s: string, c: char)
    requires Lines(s) && Follows(s, c)
    ensures Lines(s + [c])
  {
  }

  /** What a write that stopped after nwritten characters of its input has stored. */
  ghost predicate Stored(crlf: bool, input: string, nwritten: nat, p: string) {
    && nwritten <= |input| && p <= Expand(crlf, input)
    && Expand(crlf, input[..nwritten]) <= p
    && if nwritten == |input| then p == Expand(crlf, input)
       else |p| < |Expand(crlf, input[..nwritten + 1])|
  }

  lemma StoredHere(crlf: bool, input: string, k: nat, p: string)
    requires k < |input| && Expanded(crlf, input[k]) != ""
    requires p == Expand(crlf, input[..k]) || (crlf && input[k] == '\n' && p == Expand(crlf, input[..k]) + "\r")
    ensures Stored(crlf, input, k, p)
  {
    ExpandNext(crlf, input, k);
    ExpandPrefix(crlf, input, k + 1);
  }

  lemma StoredAll(crlf: bool, input: string)
    ensures input[..|input|] == input && Stored(crlf, input, |input|, Expand(crlf, input))
  {
  }

  lemma ExpandNothing(crlf: bool, input: string)
    ensures Expand(crlf, input[..0]) == ""
  {
  }

  /** The characters p are found in the text s, in this order, at these places from place from on. */
  ghost predicate Spread(at: seq<nat>, p: string, from: nat, s: string) {
    && |at| == |p| && (forall i | 0 <= i < |p| :: from <= at[i] < |s| && s[at[i]] == p[i])
    && (forall i, j | 0 <= i < j < |p| :: at[i] < at[j])
  }

  lemma SpreadNone(from: nat, s: string)
    ensures Spread([], "", from, s)
  {
  }

  lemma SpreadLater(at: seq<nat>, p: string, from: nat, s: string, s': string)
    requires Spread(at, p, from, s) && s <= s'
    ensures Spread(at, p, from, s')
  {
  }

  lemma SpreadNext(at: seq<nat>, p: string, from: nat, s: string, c: char)
    requires Spread(at, p, from, s) && from <= |s|
    ensures Spread(at + [|s|], p + [c], from, s + [c])
  {
  }

  class RamLog {
    const crlf: bool
    const buffer: array<char>
    var head: nat
    var tail: nat
    /** Every character that was stored, and every character that was read. */
    ghost var stored: string
    ghost var taken: string
    /** No character was stored over one that had not been read. */
    ghost var kept: bool

    /** The place of the next character to read: between the two stores of a reader the tail may
        be one past the end of the ring. */
    ghost function Front(): nat
      reads this
    {
      if tail >= buffer.Length then 0 else tail
    }

    ghost predicate Ordered()
      requires head < buffer.Length
      reads this, buffer
    {
      stored == taken + Run(buffer[..], Front(), head)
    }

    /** What was read so far followed by what the ring holds is what was stored. The indices fit
        16 bits. */
    ghost predicate Between()
      reads this, buffer
    {
      buffer.Length <= 0x1_0000 && head < buffer.Length && tail <= buffer.Length && (kept ==> Ordered())
    }

    /** The same while no reader is between its two stores. */
    ghost predicate Valid()
      reads this, buffer
    {
      Between() && tail < buffer.Length
    }

    constructor (size: nat, crlf: bool)
      requires 0 < size <= 0x1_0000
      ensures Valid() && kept && fresh(buffer) && buffer.Length == size && this.crlf == crlf
      ensures stored == taken == "" && head == tail == 0
    {
      buffer, this.crlf := new char[size], crlf;
      head, tail, stored, taken, kept := 0, 0, "", "", true;
    }

    lemma RingSize()
      requires Between() && kept
      ensures |stored| - |taken| == Count(Front(), head, buffer.Length) < buffer.Length
    {
    }

    /** ramlog_addchar. A full ring refuses, unless a reader stands between its two stores with
        the tail past the end: then nothing is ever refused, and the order is kept if and only if
        there was room. */
    method AddChar(c: char) returns (ok: bool)
      requires Between()
      modifies this`head, this`stored, this`kept, buffer
      ensures Between() && (ok <==> Next(old(head), buffer.Length) != tail)
      ensures stored == if ok then old(stored) + [c] else old(stored)
      ensures head == if ok then Next(old(head), buffer.Length) else old(head)
      ensures kept <==> old(kept) && !(tail == buffer.Length && Next(old(head), buffer.Length) == 0)
      ensures old(kept) ==> (Ordered() <==> !(tail == buffer.Length && Next(old(head), buffer.Length) == 0))
      ensures old(kept) && tail < buffer.Length ==> (ok <==> |old(stored)| - |taken| < buffer.Length - 1)
      ensures old(kept) && tail == buffer.Length ==> (kept <==> |old(stored)| - |taken| < buffer.Length - 1)
    {
      hide Run;
      FullMeans(Front(), head, buffer.Length);
      ghost var s := buffer[..];
      var nexthead := Next(head, buffer.Length);
      if nexthead == tail {
        return false;
      }
      if kept && nexthead != Front() {
        Append(s, Front(), head, c);
      }
      if nexthead == Front() {
        RunEmpty(s[head := c], nexthead);
      }
      kept := kept && nexthead != Front();
      stored := stored + [c];
      buffer[head] := c;
      assert buffer[..] == s[old(head) := c];
      head := nexthead;
      ok := true;
    }

    /** The first store of a reader: take a character and move the tail, a 16-bit number, on. */
    method TakeFirst() returns (c: char)
      requires Valid() && head != tail
      modifies this`tail, this`taken
      ensures Between() && taken == old(taken) + [c]
      ensures tail == if old(tail) == buffer.Length - 1 && buffer.Length == 0x1_0000 then 0 else old(tail) + 1
    {
      hide Run;
      Remove(buffer[..], tail, head);
      c := buffer[tail];
      taken := taken + [c];
      tail := (tail + 1) % 0x1_0000;
    }

    /** The second store. */
    method TakeReset()
      requires Between()
      modifies this`tail
      ensures Valid() && Front() == old(Front()) && tail == if old(tail) >= buffer.Length then 0 else old(tail)
    {
      if tail >= buffer.Length {
        tail := 0;
      }
    }

    /** Writers run. */
    method Writers()
      requires Between()
      modifies this`head, this`stored, this`kept, buffer
      ensures Between() && old(stored) <= stored && (kept ==> old(kept))
      ensures tail < buffer.Length ==> kept == old(kept)
      ensures old(kept) && tail == buffer.Length ==> (kept <==> |stored| - |taken| <= buffer.Length - 1)
    {
      hide Run, Ordered;
      if kept {
        RingSize();
      }
      var events: nat := *;
      while events > 0
        invariant Between() && old(stored) <= stored && (kept ==> old(kept))
        invariant tail < buffer.Length ==> kept == old(kept)
        invariant old(kept) && tail == buffer.Length ==> (kept <==> |stored| - |taken| <= buffer.Length - 1)
      {
        var c: char := *;
        var ok := AddChar(c);
        events := events - 1;
      }
    }

    /** ramlog_read takes one character; writers may run between its two stores, unless it is
        quiet. The order is kept
        if and only if the tail does not then stand past the end, or no more was added meanwhile
        than there was room for. */
    method TakeChar(quiet: bool) returns (c: char)
      requires Valid() && head != tail
      modifies this, buffer
      ensures Valid() && taken == old(taken) + [c] && old(stored) <= stored && (kept ==> old(kept))
      ensures old(kept) ==>
                (kept <==> !(old(tail) == buffer.Length - 1 < 0xffff) || |stored| - |taken| <= buffer.Length - 1)
      ensures quiet ==> kept == old(kept)
    {
      hide Run, Ordered;
      c := TakeFirst();
      if quiet {
        if kept {
          RingSize();
        }
      } else {
        Writers();
      }
      TakeReset();
    }

    /** What may come between two steps of a call: steps of a reader, and other writers, unless
        the caller is the only one. When it is quiet, the two stores of a reader come together. */
    method Others(alone: bool, quiet: bool)
      requires Between() && (quiet ==> Valid())
      modifies this, buffer
      ensures Between() && old(stored) <= stored && old(taken) <= taken && (kept ==> old(kept))
      ensures alone ==> stored == old(stored)
      ensures alone || quiet ==> kept == old(kept)
      ensures quiet ==> Valid()
    {
      hide Run, Ordered;
      var events: nat := *;
      while events > 0
        invariant Between() && old(stored) <= stored && old(taken) <= taken && (kept ==> old(kept))
        invariant alone ==> stored == old(stored)
        invariant alone || quiet ==> kept == old(kept)
        invariant quiet ==> Valid()
      {
        var reset: bool, take: bool := *, *;
        if reset {
          TakeReset();
        } else if take && tail < buffer.Length && head != tail {
          var c := TakeFirst();
          if quiet {
            TakeReset();
          }
        } else if !alone {
          Writers();
        }
        events := events - 1;
      }
    }

    /** A step of a writer. */
    method Store(alone: bool, quiet: bool, c: char, ghost at: seq<nat>, ghost p: string, ghost from: nat) returns (ok: bool, ghost at': seq<nat>)
      requires Between() && (quiet ==> Valid()) && Spread(at, p, from, stored) && from <= |stored|
      modifies this, buffer
      ensures Between() && old(stored) <= stored && old(taken) <= taken && (kept ==> old(kept))
      ensures Spread(at', if ok then p + [c] else p, from, stored)
      ensures !ok ==> Next(head, buffer.Length) == tail
      ensures quiet ==> Valid() && kept == old(kept)
      ensures alone ==> stored == if ok then old(stored) + [c] else old(stored)
      ensures alone && Lines(old(stored)) && Follows(old(stored), c) ==> Lines(stored)
    {
      hide Run, Lines, Next, Ordered, Spread;
      Others(alone, quiet);
      SpreadLater(at, p, from, old(stored), stored);
      SpreadNext(at, p, from, stored, c);
      at' := at + [|stored|];
      ok := AddChar(c);
      if !ok {
        at' := at;
      }
      if alone && Lines(old(stored)) && Follows(old(stored), c) {
        LinesNext(old(stored), c);
      }
    }

    /** ramlog_write: a prefix p of the expanded input is stored, all of it unless the ring fills
        up; the characters come in order, among those of other writers. A writer that is alone
        stores them in one piece, and line feeds then keep their carriage returns. Where no reader
        stands between its two stores meanwhile, the order of the ring is kept. */
    method Write(input: string, alone: bool, quiet: bool) returns (nwritten: nat, ghost p: string, ghost at: seq<nat>)
      requires Between() && (quiet ==> Valid())
      modifies this, buffer
      ensures Between() && old(stored) <= stored && old(taken) <= taken && (kept ==> old(kept))
      ensures quiet ==> Valid() && kept == old(kept)
      ensures Stored(crlf, input, nwritten, p) && Spread(at, p, |old(stored)|, stored)
      ensures nwritten < |input| ==> Next(head, buffer.Length) == tail
      ensures alone ==> stored == old(stored) + p && (crlf && Lines(old(stored)) ==> Lines(stored))
    {
      hide Run, Lines, Between, Valid, Stored, Expand, Spread, Next;
      ghost var before := stored;
      nwritten, p, at := 0, "", [];
      ExpandNothing(crlf, input);
      SpreadNone(|before|, stored);
      while nwritten < |input|
        invariant Between() && before <= stored && old(taken) <= taken && (kept ==> old(kept))
        invariant nwritten <= |input| && p == Expand(crlf, input[..nwritten]) && Spread(at, p, |before|, stored)
        invariant quiet ==> Valid() && kept == old(kept)
        invariant alone ==> stored == before + p && (crlf && Lines(before) ==> Lines(stored))
      {
        var c := input[nwritten];
        ExpandNext(crlf, input, nwritten);
        if crlf && c == '\r' {
          nwritten := nwritten + 1;
          continue;
        }
        var ok;
        if crlf && c == '\n' {
          ok, at := Store(alone, quiet, '\r', at, p, |before|);
          if !ok {
            StoredHere(crlf, input, nwritten, p);
            return;
          }
          p := p + ['\r'];
        }
        StoredHere(crlf, input, nwritten, p);
        ok, at := Store(alone, quiet, c, at, p, |before|);
        if !ok {
          return;
        }
        p := p + [c];
        nwritten := nwritten + 1;
      }
      StoredAll(crlf, input);
    }

    /** ramlog_read, with or without CONFIG_RAMLOG_NONBLOCKING, waiting at most patience times.
        Writers run at any time, but when it is quiet not between the two stores of a reader; other
        readers run only while this one waits. While the order is kept, what is read is what was
        stored there. */
    method Read(len: nat, config: bool, nonblock: bool, quiet: bool, patience: nat) returns (err: Status, out: string, ghost from: nat)
      requires Valid()
      modifies this, buffer
      ensures Valid() && old(stored) <= stored && |old(taken)| <= from <= |taken| && (kept ==> old(kept))
      ensures taken == taken[..from] + out && |out| <= len
      ensures quiet ==> kept == old(kept)
      ensures kept ==> |taken| <= |stored| && out == stored[from..from + |out|]
      ensures err != OK ==> out == "" && !config && len > 0 && if nonblock then err == EAGAIN else err.Errno?
      ensures err == OK && |out| < len ==> head == tail && (config || out != "")
      ensures config || nonblock || old(head) != old(tail) ==> from == |old(taken)|
    {
      hide Run, Ordered, Between, Next;
      out, err, from := "", OK, |taken|;
      var left := patience;
      while |out| < len
        invariant Valid() && old(stored) <= stored && |old(taken)| <= from && |out| <= len && (kept ==> old(kept))
        invariant from <= |taken| && taken == taken[..from] + out && (quiet ==> kept == old(kept))
        invariant config || nonblock || old(head) != old(tail) ==> from == |old(taken)|
        invariant out == "" && old(head) != old(tail) ==> unchanged(this)
        decreases len - |out|, left
      {
        if head == tail {
          if config || out != "" {
            break;
          }
          if nonblock {
            err := EAGAIN;
            break;
          }
          Others(false, quiet);
          TakeReset();
          from := |taken|;
          if left == 0 {
            var e: int := *;
            err := Errno(e);
            break;
          }
          left := left - 1;
        } else {
          var c := TakeChar(quiet);
          out := out + [c];
          if |out| < len {
            Writers();
          }
        }
      }
      if kept {
        TakenWasStored();
      }
    }

    lemma TakenWasStored()
      requires Between() && kept
      ensures taken <= stored
    {
    }
  }

  /** A ring of two: while a reader is between its two stores, two characters are stored where
      there is room for one, and the ring then shows neither. */
  method LostInBetween(a: char, b: char, c: char, d: char) returns (log: RamLog)
    ensures log.Valid() && log.stored == [a, b, c, d] && log.taken == [a, b] && log.head == log.tail && !log.Ordered()
  {
    hide Run;
    log := HalfTaken(a, b);
    var ok := log.AddChar(c);
    assert log.stored == [a, b, c];
    ok := log.AddChar(d);
    assert log.stored == [a, b, c, d];
    log.TakeReset();
    RunEmpty(log.buffer[..], 0);
  }

  /** Store and take a, store b, and make the first store of taking it. */
  method HalfTaken(a: char, b: char) returns (log: RamLog)
    ensures fresh(log) && fresh(log.buffer) && log.buffer.Length == 2 && log.Between() && log.kept
    ensures log.stored == log.taken == [a, b] && log.head == 0 && log.tail == 2
  {
    hide Run;
    log := new RamLog(2, false);
    var ok := log.AddChar(a);
    assert log.stored == [a];
    var r := log.TakeFirst();
    log.TakeReset();
    ok := log.AddChar(b);
    assert log.stored == [a, b];
    r := log.TakeFirst();
    log.RingSize();
    RunEmpty(log.buffer[..], 0);
  }
}
