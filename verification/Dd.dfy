/**
 The transfer loop of the shell's dd command between character devices
 (apps/nshlib/nsh_ddcmd.c). A read or write call moves any number of bytes up to the number
 asked for, as long as it moves one, or fails, as the given results say; a read at the end of the
 input moves none.
 */
module DdCommand {
  import opened Common

  newtype byte = x: int | 0 <= x < 256

  /** Sector numbers are 32 bits wide. */
  const Wrap: nat := 0x1_0000_0000

  /** The input as sectors, the last one padded with zeros. */
  function Sectors(data: seq<byte>, size: nat): (r: seq<seq<byte>>)
    ensures forall i | 0 <= i < |r| :: |r[i]| == size
    decreases |data|
  {
    if data == [] || size == 0 then [] else
      var n := Min(size, |data|);
      [data[..n] + Repeat<byte>(0, size - n)] + Sectors(data[n..], size)
  }

  function Concat(sectors: seq<seq<byte>>): (r: seq<byte>) {
    if sectors == [] then [] else sectors[0] + Concat(sectors[1..])
  }

  /** The sectors are the input, zero-padded to whole sectors. */
  lemma {:induction false} SectorsAreTheInput(data: seq<byte>, size: nat) returns (pad: nat)
    requires size > 0
    ensures pad < size && Concat(Sectors(data, size)) == data + Repeat<byte>(0, pad)
    decreases |data|
  {
    hide Sectors, Concat, Repeat;
    SectorsNext(data, size);
    NoOutput([]);
    if data == [] {
      pad := 0;
      assert Repeat<byte>(0, 0) == [];
    } else {
      var n := Min(size, |data|);
      pad := SectorsAreTheInput(data[n..], size);
      ConcatFirst(data[..n] + Repeat<byte>(0, size - n), Sectors(data[n..], size));
      if n == |data| {
        SectorsNext([], size);
        assert data[n..] == [] && data[..n] == data;
        pad := size - n;
      } else {
        assert Repeat<byte>(0, size - n) == [] && data == data[..n] + data[n..];
        Joined(data[..n], data[n..], Repeat<byte>(0, pad));
      }
    }
  }

  lemma ConcatFirst(first: seq<byte>, rest: seq<seq<byte>>)
    ensures Concat([first] + rest) == first + Concat(rest)
  {
  }

  /** The number that the loop gives to sector s. */
  function Number(s: nat): (r: nat)
    ensures r < Wrap
    ensures s < Wrap ==> r == s
  {
    s % Wrap
  }

  lemma NextNumber(s: nat)
    ensures Number(s + 1) == (Number(s) + 1) % Wrap
  {
  }

  /** Which of the first s sectors are copied: those whose 32-bit number is not below skip. */
  function Picks(skip: nat, s: nat): (r: seq<nat>)
    ensures forall i | 0 <= i < |r| :: r[i] < s && Number(r[i]) >= skip
  {
    if s == 0 then [] else Picks(skip, s - 1) + if Number(s - 1) >= skip then [s - 1] else []
  }

  function Range(a: nat, b: nat): (r: seq<nat>)
    ensures |r| == if a <= b then b - a else 0
    ensures forall i | 0 <= i < |r| :: r[i] == a + i
  {
    if b <= a then [] else Range(a, b - 1) + [b - 1]
  }

  lemma {:induction false} PicksBelowWrap(skip: nat, s: nat)
    requires s <= Wrap
    ensures Picks(skip, s) == Range(skip, s)
  {
    if s > 0 {
      PicksBelowWrap(skip, s - 1);
    }
  }

  /** The loop stops after s of n sectors: at the end of the input, or once it has copied as
      many as it was asked for. */
  ghost predicate StopsAt(skip: nat, count: nat, n: nat, s: nat) {
    && s <= n && |Picks(skip, s)| <= count
    && (s == n || |Picks(skip, s)| == count)
    && (s > 0 ==> |Picks(skip, s - 1)| < count)
  }

  lemma {:induction false} PicksGrow(skip: nat, s: nat, t: nat)
    requires s <= t
    ensures Picks(skip, s) <= Picks(skip, t)
  {
    if s < t {
      PicksGrow(skip, s, t - 1);
    }
  }

  lemma NoWrap(skip: nat, count: nat, n: nat, s: nat)
    requires skip <= count < Wrap && StopsAt(skip, count, n, s) && (skip + count <= Wrap || n <= Wrap)
    ensures Picks(skip, s) == Range(skip, Min(skip + count, n))
  {
    hide Picks, Range;
    if s > Wrap {
      PicksBelowWrap(skip, Wrap);
      PicksGrow(skip, Wrap, s - 1);
    } else {
      PicksBelowWrap(skip, s);
      if s > 0 {
        PicksBelowWrap(skip, s - 1);
      }
    }
  }

  lemma WrapSkipsAgain(skip: nat, count: nat, n: nat, s: nat)
    requires skip <= count < Wrap && skip + count > Wrap && n > Wrap
    ensures Picks(skip, s) != Range(skip, Min(skip + count, n))
  {
    hide Picks, Range;
    var range := Range(skip, Min(skip + count, n));
    assert range[Wrap - skip] == Wrap;
  }

  /** The sectors skip .. skip + count are copied if and only if the 32-bit sector number does
      not wrap on the way. */
  lemma CopiesTheRange(skip: nat, count: nat, n: nat, s: nat)
    requires skip <= count < Wrap && StopsAt(skip, count, n, s)
    ensures Picks(skip, s) == Range(skip, Min(skip + count, n)) <==> skip + count <= Wrap || n <= Wrap
  {
    if skip + count <= Wrap || n <= Wrap {
      NoWrap(skip, count, n, s);
    } else {
      WrapSkipsAgain(skip, count, n, s);
    }
  }

  /** The picked sectors, one after the other. */
  function Output(sectors: seq<seq<byte>>, picks: seq<nat>): (r: seq<byte>)
    requires forall i | 0 <= i < |picks| :: picks[i] < |sectors|
  {
    if picks == [] then [] else Output(sectors, picks[..|picks| - 1]) + sectors[picks[|picks| - 1]]
  }

  lemma OutputPush(sectors: seq<seq<byte>>, picks: seq<nat>, p: nat)
    requires p < |sectors| && forall i | 0 <= i < |picks| :: picks[i] < |sectors|
    ensures Output(sectors, picks + [p]) == Output(sectors, picks) + sectors[p]
  {
  }

  /** A range of picks writes that stretch of the padded input. */
  lemma {:induction false} OutputOfRange(sectors: seq<seq<byte>>, a: nat, b: nat)
    requires a <= b <= |sectors|
    ensures Output(sectors, Range(a, b)) == Concat(sectors[a..b])
  {
    hide Range, Output, Concat;
    if a == b {
      NoOutput(sectors);
      assert sectors[a..b] == [] && Range(a, b) == [];
    } else {
      OutputOfRange(sectors, a, b - 1);
      RangeNext(a, b - 1);
      OutputPush(sectors, Range(a, b - 1), b - 1);
      assert sectors[a..b] == sectors[a..b - 1] + [sectors[b - 1]];
      ConcatPush(sectors[a..b - 1], sectors[b - 1]);
    }
  }

  lemma NoOutput(sectors: seq<seq<byte>>)
    ensures Output(sectors, []) == [] && Concat([]) == []
  {
  }

  lemma RangeNext(a: nat, b: nat)
    requires a <= b
    ensures Range(a, b + 1) == Range(a, b) + [b]
  {
  }

  lemma {:induction false} ConcatPush(sectors: seq<seq<byte>>, last: seq<byte>)
    ensures Concat(sectors + [last]) == Concat(sectors) + last
  {
    if sectors != [] {
      assert (sectors + [last])[1..] == sectors[1..] + [last];
      ConcatPush(sectors[1..], last);
    }
  }

  /** One more sector is written if it is picked. */
  lemma OutputNext(sectors: seq<seq<byte>>, skip: nat, s: nat)
    requires s < |sectors|
    ensures Picks(skip, s + 1) == Picks(skip, s) + if Number(s) >= skip then [s] else []
    ensures Output(sectors, Picks(skip, s + 1)) == Output(sectors, Picks(skip, s)) + if Number(s) >= skip then sectors[s] else []
  {
    hide Output;
    if Number(s) >= skip {
      OutputPush(sectors, Picks(skip, s), s);
    } else {
      assert Picks(skip, s + 1) == Picks(skip, s);
    }
  }

  lemma {:induction false} OutputGrows(sectors: seq<seq<byte>>, skip: nat, s: nat, t: nat)
    requires s <= t <= |sectors|
    ensures Output(sectors, Picks(skip, s)) <= Output(sectors, Picks(skip, t))
  {
    hide Output, Picks;
    if s < t {
      OutputGrows(sectors, skip, s, t - 1);
      OutputNext(sectors, skip, t - 1);
    }
  }

  lemma NoPicks(skip: nat, sectors: seq<seq<byte>>)
    ensures Picks(skip, 0) == [] && Output(sectors, Picks(skip, 0)) == []
  {
  }

  lemma SectorsNext(data: seq<byte>, size: nat)
    ensures var n := Min(size, |data|);
      if n == 0 then Sectors(data, size) == []
      else Sectors(data, size) == [data[..n] + Repeat<byte>(0, size - n)] + Sectors(data[n..], size)
  {
  }

  lemma Joined(a: seq<byte>, b: seq<byte>, c: seq<byte>)
    ensures a + (b + c) == (a + b) + c
  {
  }

  lemma RestOf(sectors: seq<seq<byte>>, s: nat, first: seq<byte>, rest: seq<seq<byte>>)
    requires s <= |sectors| && sectors[s..] == [first] + rest
    ensures s < |sectors| && first == sectors[s] && rest == sectors[s + 1..]
  {
  }

  lemma Parts(a: seq<byte>, b: seq<byte>)
    ensures (a + b)[..|a|] == a && (a + b)[|a|..] == b
  {
  }

  // ---------------------------------------------------------------------------------------
  // Calls
  // ---------------------------------------------------------------------------------------

  /** What a call to read() or write() does: it fails, or moves more than k bytes, as far as that
      many are asked for and there. The calls that no result is given for move all they can. */
  datatype Io = Fails | Moves(k: nat)

  function Rest(io: seq<Io>): (r: seq<Io>)
    ensures |r| <= |io|
  {
    if io == [] then [] else io[1..]
  }

  predicate Fail(io: seq<Io>) {
    io != [] && io[0] == Fails
  }

  /** How many bytes the next call moves of those that it can. */
  function Moved(io: seq<Io>, most: nat): (n: nat)
    ensures n <= most && (most > 0 ==> n > 0)
  {
    if io == [] || io[0] == Fails then most else Min(io[0].k + 1, most)
  }

  /** Whether a series of calls succeeds, and the results that are left. */
  datatype Calls = Calls(ok: bool, rest: seq<Io>)

  /** The reads for up to room bytes with so many available. */
  function ReadCalls(room: nat, available: nat, io: seq<Io>): (c: Calls)
    decreases room
  {
    var n := Moved(io, Min(room, available));
    if Fail(io) then Calls(false, Rest(io))
    else if n == 0 || n == room then Calls(true, Rest(io))
    else ReadCalls(room - n, available - n, Rest(io))
  }

  /** The writes for so many bytes. */
  function WriteCalls(room: nat, io: seq<Io>): (c: Calls)
    decreases room
  {
    var n := Moved(io, room);
    if Fail(io) then Calls(false, Rest(io))
    else if n == room then Calls(true, Rest(io))
    else WriteCalls(room - n, Rest(io))
  }

  /** Whether the transfer succeeds from sector s on. */
  function TransferCalls(s: nat, size: nat, skip: nat, count: nat, available: nat, ins: seq<Io>, outs: seq<Io>): (ok: bool)
    decreases available
  {
    if count == 0 then true
    else
      var r, n := ReadCalls(size, available, ins), Min(size, available);
      if !r.ok then false
      else if n == 0 then true
      else if Number(s) < skip then TransferCalls(s + 1, size, skip, count, available - n, r.rest, outs)
      else
        var w := WriteCalls(size, outs);
        w.ok && TransferCalls(s + 1, size, skip, count - 1, available - n, r.rest, w.rest)
  }

  predicate NoneFails(io: seq<Io>) {
    forall i | 0 <= i < |io| :: io[i] != Fails
  }

  lemma {:induction false} ReadsSucceed(room: nat, available: nat, io: seq<Io>)
    requires NoneFails(io)
    ensures ReadCalls(room, available, io).ok && NoneFails(ReadCalls(room, available, io).rest)
    decreases room
  {
    var n := Moved(io, Min(room, available));
    if n != 0 && n != room {
      ReadsSucceed(room - n, available - n, Rest(io));
    }
  }

  lemma {:induction false} WritesSucceed(room: nat, io: seq<Io>)
    requires NoneFails(io)
    ensures WriteCalls(room, io).ok && NoneFails(WriteCalls(room, io).rest)
    decreases room
  {
    var n := Moved(io, room);
    if n != room {
      WritesSucceed(room - n, Rest(io));
    }
  }

  /** A transfer fails only where a call does. */
  lemma {:induction false} TransferSucceeds(s: nat, size: nat, skip: nat, count: nat, available: nat, ins: seq<Io>, outs: seq<Io>)
    requires NoneFails(ins) && NoneFails(outs)
    ensures TransferCalls(s, size, skip, count, available, ins, outs)
    decreases available
  {
    ReadsSucceed(size, available, ins);
    WritesSucceed(size, outs);
    var r, n := ReadCalls(size, available, ins), Min(size, available);
    if count > 0 && n > 0 {
      TransferSucceeds(s + 1, size, skip, count, available - n, r.rest, outs);
      TransferSucceeds(s + 1, size, skip, count - 1, available - n, r.rest, WriteCalls(size, outs).rest);
    }
  }

  class Dd {
    const size: nat
    const skip: nat
    const buffer: array<byte>
    var nbytes: nat
    var nsectors: nat
    var sector: nat
    var eof: bool
    /** The results of the calls to come. */
    var ins: seq<Io>
    var outs: seq<Io>
    /** What is left of the input, and what was written so far. */
    var input: seq<byte>
    var output: seq<byte>

    ghost predicate Valid()
      reads this
    {
      buffer.Length == size < 0x1_0000 && skip < Wrap && nsectors < Wrap
    }

    constructor (input: seq<byte>, size: nat, skip: nat, count: nat, ins: seq<Io>, outs: seq<Io>)
      requires size < 0x1_0000 && skip < Wrap && count < Wrap
      ensures Valid() && this.input == input && this.size == size && this.skip == skip && nsectors == count
      ensures sector == 0 && !eof && output == [] && fresh(buffer) && this.ins == ins && this.outs == outs
    {
      this.size, this.skip, this.input, nsectors, this.ins, this.outs := size, skip, input, count, ins, outs;
      buffer := new byte[size];
      nbytes, sector, eof, output := 0, 0, false, [];
    }

    /** read(): at least one of the bytes asked for, none at the end of the input, or failure. */
    method SysRead(n: nat) returns (ok: bool, chunk: seq<byte>)
      modifies this`input, this`ins
      ensures ok <==> !Fail(old(ins))
      ensures ins == Rest(old(ins)) && chunk + input == old(input)
      ensures |chunk| == if ok then Moved(old(ins), Min(n, |old(input)|)) else 0
    {
      ok := !Fail(ins);
      var k := if ok then Moved(ins, Min(n, |input|)) else 0;
      chunk, input, ins := input[..k], input[k..], Rest(ins);
    }

    /** write(): at least one of the bytes, or failure. */
    method SysWrite(data: seq<byte>) returns (ok: bool, n: nat)
      modifies this`output, this`outs
      ensures ok <==> !Fail(old(outs))
      ensures outs == Rest(old(outs)) && n <= |data| && output == old(output) + data[..n]
      ensures n == if ok then Moved(old(outs), |data|) else 0
    {
      ok := !Fail(outs);
      n := if ok then Moved(outs, |data|) else 0;
      output, outs := output + data[..n], Rest(outs);
    }

    method Fill(chunk: seq<byte>)
      requires nbytes + |chunk| <= buffer.Length
      modifies buffer
      ensures buffer[..nbytes + |chunk|] == old(buffer[..nbytes]) + chunk
    {
      forall i | 0 <= i < |chunk| {
        buffer[nbytes + i] := chunk[i];
      }
    }

    /** dd_readch: a whole sector, or what is left, however the reads split it. */
    method ReadCh() returns (ok: bool)
      requires Valid()
      modifies this`nbytes, this`eof, this`input, this`ins, buffer
      ensures Valid() && Calls(ok, ins) == ReadCalls(size, |old(input)|, old(ins))
      ensures ok ==> nbytes == Min(size, |old(input)|) && buffer[..nbytes] == old(input)[..nbytes]
      ensures ok ==> input == old(input)[nbytes..] && (eof <==> old(eof) || nbytes == 0)
    {
      nbytes := 0;
      var more := true;
      while more
        invariant nbytes <= size && buffer[..nbytes] + input == old(input) && eof == old(eof)
        invariant !more ==> nbytes == size || input == []
        invariant ReadCalls(size, |old(input)|, old(ins)) ==
                  if more then ReadCalls(size - nbytes, |input|, ins) else Calls(true, ins)
        decreases size - nbytes, more
      {
        var chunk;
        ok, chunk := SysRead(size - nbytes);
        if !ok {
          return;
        }
        Joined(buffer[..nbytes], chunk, input);
        Fill(chunk);
        nbytes := nbytes + |chunk|;
        more := nbytes < size && chunk != [];
      }
      Parts(buffer[..nbytes], input);
      eof := eof || nbytes == 0;
      ok := true;
    }

    /** The zero padding at the end of the file. */
    method Pad()
      requires Valid() && nbytes <= size
      modifies buffer
      ensures buffer[..] == old(buffer[..nbytes]) + Repeat<byte>(0, size - nbytes)
    {
      for i := nbytes to size
        invariant buffer[..i] == old(buffer[..nbytes]) + Repeat<byte>(0, i - nbytes)
      {
        buffer[i] := 0;
      }
    }

    /** dd_writech: the whole sector, however the writes split it. */
    method WriteCh() returns (ok: bool)
      requires Valid()
      modifies this`output, this`outs
      ensures Calls(ok, outs) == WriteCalls(size, old(outs))
      ensures if ok then output == old(output) + buffer[..] else output <= old(output) + buffer[..]
    {
      ok := true;
      var written := 0;
      var more := true;
      while more
        invariant written <= size && output == old(output) + buffer[..written]
        invariant ok && (!more ==> written == size)
        invariant WriteCalls(size, old(outs)) == if more then WriteCalls(size - written, outs) else Calls(true, outs)
        decreases size - written, more
      {
        var n;
        ok, n := SysWrite(buffer[written..]);
        if !ok {
          return;
        }
        written := written + n;
        more := written < size;
      }
      assert buffer[..written] == buffer[..];
    }

    /** Read one sector and pad it. */
    method ReadSector() returns (ok: bool)
      requires Valid() && !eof
      modifies this`nbytes, this`eof, this`input, this`ins, buffer
      ensures Valid() && Calls(ok, ins) == ReadCalls(size, |old(input)|, old(ins))
      ensures ok ==> |input| == |old(input)| - Min(size, |old(input)|) && (eof <==> Min(size, |old(input)|) == 0)
      ensures ok ==> var sectors := Sectors(old(input), size);
        if eof then sectors == [] && input == old(input) else sectors == [buffer[..]] + Sectors(input, size) && |input| < |old(input)|
    {
      hide Sectors, ReadCalls;
      SectorsNext(input, size);
      ok := ReadCh();
      if ok && !eof {
        Pad();
      }
    }

    /** Write the sector unless it is to be skipped, and count. */
    method WriteSector() returns (ok: bool)
      requires Valid() && nsectors > 0 && sector < Wrap
      modifies this`nsectors, this`sector, this`output, this`outs
      ensures Valid() && Calls(ok, outs) == if old(sector) >= skip then WriteCalls(size, old(outs)) else Calls(true, old(outs))
      ensures ok ==> output == old(output) + (if old(sector) >= skip then buffer[..] else [])
      ensures ok ==> nsectors == old(nsectors) - (if old(sector) >= skip then 1 else 0) && sector == (old(sector) + 1) % Wrap
      ensures !ok ==> old(sector) >= skip && output <= old(output) + buffer[..]
    {
      ok := true;
      if sector >= skip {
        ok := WriteCh();
        if !ok {
          return;
        }
        nsectors := nsectors - 1;
      }
      sector := (sector + 1) % Wrap;
    }

    /** The transfer loop of cmd_dd: it ends, and if no call fails it has written the picked
        sectors up to where it stops; otherwise a part of those. */
    method Transfer() returns (ok: bool, ghost s: nat)
      requires Valid() && sector == 0 && !eof && output == []
      modifies this, buffer
      ensures var sectors := Sectors(old(input), size);
        if ok then StopsAt(skip, old(nsectors), |sectors|, s) && output == Output(sectors, Picks(skip, s))
        else output <= Output(sectors, Picks(skip, |sectors|))
      ensures ok <==> TransferCalls(0, size, skip, old(nsectors), |old(input)|, old(ins), old(outs))
    {
      hide Picks, Output, Sectors, Number, ReadCalls, WriteCalls;
      ghost var sectors, count := Sectors(input, size), nsectors;
      s, ok := 0, true;
      NoPicks(skip, sectors);
      while !eof && nsectors > 0
        invariant Valid() && s <= |sectors| && Sectors(input, size) == sectors[s..] && sector == Number(s)
        invariant |Picks(skip, s)| + nsectors == count && (s > 0 ==> |Picks(skip, s - 1)| < count)
        invariant output == Output(sectors, Picks(skip, s))
        invariant eof ==> s == |sectors|
        invariant ok && TransferCalls(0, size, skip, count, |old(input)|, old(ins), old(outs)) ==
                        (eof || TransferCalls(s, size, skip, nsectors, |input|, ins, outs))
        decreases |input|, !eof
      {
        OutputGrows(sectors, skip, s, |sectors|);
        ok := ReadSector();
        if !ok {
          return;
        }
        if !eof {
          RestOf(sectors, s, buffer[..], Sectors(input, size));
          NextNumber(s);
          OutputNext(sectors, skip, s);
          OutputGrows(sectors, skip, s + 1, |sectors|);
          ok := WriteSector();
          if !ok {
            return;
          }
          s := s + 1;
        }
      }
    }
  }

  /** cmd_dd for character devices: it refuses a skip beyond the count, and fails where a call
      fails; otherwise, if the sector number does not wrap, the output is sectors skip .. skip +
      count of the padded input. */
  method Copy(input: seq<byte>, size: nat, skip: nat, count: nat, ins: seq<Io>, outs: seq<Io>) returns (ok: bool, output: seq<byte>)
    requires size < 0x1_0000 && skip < Wrap && count < Wrap
    ensures ok <==> skip <= count && TransferCalls(0, size, skip, count, |input|, ins, outs)
    ensures skip > count ==> output == []
    ensures var sectors := Sectors(input, size);
      if ok then
        skip + count <= Wrap || |sectors| <= Wrap ==>
          output == Concat(sectors[Min(skip, |sectors|)..Min(skip + count, |sectors|)])
      else output <= Output(sectors, Picks(skip, |sectors|))
  {
    if skip > count {
      return false, [];
    }
    hide TransferCalls;
    var dd := new Dd(input, size, skip, count, ins, outs);
    ghost var s;
    ok, s := dd.Transfer();
    output := dd.output;
    ghost var sectors := Sectors(input, size);
    if ok && (skip + count <= Wrap || |sectors| <= Wrap) {
      CopiesTheRange(skip, count, |sectors|, s);
      OutputOfRange(sectors, Min(skip, |sectors|), Min(skip + count, |sectors|));
    }
  }
}
