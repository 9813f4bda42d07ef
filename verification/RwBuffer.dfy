/**
 The block read/write buffer (nuttx/drivers/rwbuffer.c): a write-back buffer and a read-ahead
 buffer in front of a block device. The functions here take the steps that the source sets out
 to take; the README lists where its text slips.
 */
module RwBuffers {
  import opened Common

  /** A device with the run d written over the blocks from s on. */
  function Overlay<B>(m: seq<B>, s: int, d: seq<B>): (r: seq<B>)
    requires d != [] ==> 0 <= s && s + |d| <= |m|
    ensures |r| == |m|
  {
    if d == [] then m else m[..s] + d + m[s + |d|..]
  }

  lemma OverlayAt<B>(m: seq<B>, s: int, d: seq<B>)
    requires d != [] ==> 0 <= s && s + |d| <= |m|
    ensures forall i | 0 <= i < |m| :: Overlay(m, s, d)[i] == if s <= i < s + |d| then d[i - s] else m[i]
  {
  }

  /** Writing on where a run ends is writing one longer run. */
  lemma AppendOverlay<B>(m: seq<B>, s: int, d: seq<B>, data: seq<B>)
    requires 0 <= s && s + |d| + |data| <= |m|
    ensures Overlay(m, s, d + data) == Overlay(Overlay(m, s, d), s + |d|, data)
  {
    hide Overlay;
    OverlayAt(m, s, d);
    OverlayAt(Overlay(m, s, d), s + |d|, data);
    OverlayAt(m, s, d + data);
  }

  lemma OverlayNothing<B>(m: seq<B>, s: int)
    ensures Overlay(m, s, []) == m
  {
  }

  /** rwb_overlap: two runs of blocks meet or touch. */
  predicate Overlap(start1: int, n1: nat, start2: int, n2: nat) {
    !(start1 + n1 < start2 || start1 > start2 + n2)
  }

  /** The test never misses a common block. */
  lemma OverlapIsSafe(start1: int, n1: nat, start2: int, n2: nat)
    ensures Overlap(start1, n1, start2, n2) || start1 + n1 <= start2 || start2 + n2 <= start1
  {
  }

  /** How many of the blocks from cur on, up to the remaining ones, are in a run. */
  function Buffered(cur: int, remaining: nat, rhstart: int, rhn: nat): (k: nat)
    ensures k <= remaining
  {
    if rhstart <= cur < rhstart + rhn then Min(rhstart + rhn - cur, remaining) else 0
  }

  /** Where the last reload of a read starts, -1 if there is none: the first block that is not
      in the read-ahead run is fetched with a full window, and so on. */
  function LastReload(start: int, n: nat, rhstart: int, rhn: nat, rhmax: nat): (w: int)
    requires rhmax > 0
  {
    var k := Buffered(start, n, rhstart, rhn);
    if k == n then -1 else LastWindow(start + k, start + n, rhmax)
  }

  function LastWindow(first: int, end: int, rhmax: nat): int
    requires rhmax > 0
    decreases end - first
  {
    if first + rhmax >= end then first else LastWindow(first + rhmax, end, rhmax)
  }

  /** A window that does not reach the end is used up, and the next one follows it. */
  lemma NextWindow(w: int, end: int, size: nat, rhmax: nat)
    requires 0 <= w < end <= size && rhmax > 0
    ensures var k := Buffered(w, end - w, w, Min(w + rhmax, size) - w);
            if w + k == end then LastWindow(w, end, rhmax) == w
            else LastWindow(w, end, rhmax) == LastWindow(w + k, end, rhmax) && k > 0
  {
  }

  /** Which blocks the two buffers hold; wrmax, rhmax and size are their capacities and the
      number of blocks of the device. */
  datatype Shape = Shape(wstart: int, wn: nat, rhstart: int, rhn: nat) {
    function Flushed(): Shape {
      if wn > 0 then this.(wstart := -1, wn := 0) else this
    }

    function Dropped(): Shape {
      this.(rhstart := -1, rhn := 0)
    }

    function Extended(start: int, n: nat, wrmax: nat): Shape {
      var p := if (start != wstart + wn && wn > 0) || wn + n > wrmax then Flushed() else this;
      p.(wstart := if p.wn == 0 then start else p.wstart, wn := p.wn + n)
    }

    function Written(start: int, n: nat, wrmax: nat, readAhead: bool): Shape {
      var p := if readAhead && Overlap(rhstart, rhn, start, n) then Dropped() else this;
      if n > wrmax then p.Flushed() else p.Extended(start, n, wrmax)
    }

    function BeforeRead(start: int, n: nat, wrmax: nat): Shape {
      if wrmax > 0 && Overlap(wstart, wn, start, n) then Flushed() else this
    }

    /** After a read whose last reload, if w is not -1, fetched rn blocks from w on. */
    function AfterRead(start: int, n: nat, wrmax: nat, w: int, rn: int): Shape {
      var p := BeforeRead(start, n, wrmax);
      if w == -1 || rn < 0 then p else p.(rhstart := w, rhn := rn)
    }
  }

  /** A call on the buffer. */
  datatype Op<B> = Write(start: int, data: seq<B>) | Read(start: int, n: nat) | Timeout {
    /** The call stays on a device of the given size. */
    predicate Fits(size: nat) {
      match this
      case Write(start, data) => 0 <= start && start + |data| <= size
      case Read(start, n) => 0 <= start && start + n <= size
      case Timeout => true
    }
  }

  /** A plain block array: what it holds after a call, and what the call returns. */
  function PlainStep<B>(device: seq<B>, op: Op<B>): (r: (seq<B>, seq<seq<B>>))
    requires op.Fits(|device|)
    ensures |r.0| == |device|
  {
    match op
    case Write(start, data) => (Overlay(device, start, data), [])
    case Read(start, n) => (device, [device[start..start + n]])
    case Timeout => (device, [])
  }

  function Plain<B>(device: seq<B>, ops: seq<Op<B>>): (r: (seq<B>, seq<seq<B>>))
    requires forall i | 0 <= i < |ops| :: ops[i].Fits(|device|)
    ensures |r.0| == |device|
  {
    if ops == [] then (device, []) else
      var before := Plain(device, ops[..|ops| - 1]);
      assert ops[|ops| - 1].Fits(|device|);
      var r := PlainStep(before.0, ops[|ops| - 1]);
      (r.0, before.1 + r.1)
  }

  lemma Appended<B>(data: seq<B>, chunk: seq<B>, rest: seq<B>)
    ensures (data + chunk) + rest == data + (chunk + rest)
  {
  }

  class RwBuffer<B(0)> {
    const readAhead: bool
    const wrbuffer: array<B>
    const rhbuffer: array<B>
    var media: seq<B>
    var wrnblocks: nat
    var wrblockstart: int
    var wrexpectedblock: int
    var rhnblocks: nat
    var rhblockstart: int

    ghost predicate Valid()
      reads this, wrbuffer, rhbuffer
    {
      && wrbuffer != rhbuffer && (readAhead ==> rhbuffer.Length > 0)
      && wrnblocks <= wrbuffer.Length
      && (wrnblocks > 0 ==>
            && 0 <= wrblockstart && wrblockstart + wrnblocks <= |media|
            && wrexpectedblock == wrblockstart + wrnblocks)
      && rhnblocks <= rhbuffer.Length && (!readAhead ==> rhnblocks == 0)
      && (rhnblocks > 0 ==> 0 <= rhblockstart && rhblockstart + rhnblocks <= |media|)
    }

    /** What the device holds as far as its user can tell: the media under the pending run. */
    ghost function Contents(): (c: seq<B>)
      requires Valid()
      reads this, wrbuffer, rhbuffer
      ensures |c| == |media|
    {
      Overlay(media, wrblockstart, wrbuffer[..wrnblocks])
    }

    /** The read-ahead run shows the contents. */
    ghost predicate Coherent()
      requires Valid()
      reads this, wrbuffer, rhbuffer
    {
      forall i | 0 <= i < rhnblocks :: rhbuffer[i] == Contents()[rhblockstart + i]
    }

    /** Which blocks the buffers hold. */
    function Held(): Shape
      reads this
    {
      Shape(wrblockstart, wrnblocks, rhblockstart, rhnblocks)
    }

    function Cfg(): Config
      reads this
    {
      Config(wrbuffer.Length, rhbuffer.Length, readAhead, |media|)
    }

    /** rwb_initialize, over a device with the given blocks. */
    constructor (media: seq<B>, wrmaxblocks: nat, rhmaxblocks: nat, readAhead: bool)
      requires readAhead ==> rhmaxblocks > 0
      ensures Valid() && Coherent() && Contents() == media && fresh(wrbuffer) && fresh(rhbuffer)
      ensures wrbuffer.Length == wrmaxblocks && rhbuffer.Length == rhmaxblocks && this.readAhead == readAhead
      ensures Held() == Shape(-1, 0, -1, 0) && this.media == media
    {
      this.media, this.readAhead := media, readAhead;
      wrbuffer := new B[wrmaxblocks];
      rhbuffer := new B[rhmaxblocks];
      wrnblocks, wrblockstart, wrexpectedblock := 0, -1, -1;
      rhnblocks, rhblockstart := 0, -1;
    }

    /** rwb_resetwrbuffer. */
    method ResetWrBuffer()
      modifies this`wrnblocks, this`wrblockstart, this`wrexpectedblock
      ensures wrnblocks == 0 && wrblockstart == -1 && wrexpectedblock == -1
    {
      wrnblocks, wrblockstart, wrexpectedblock := 0, -1, -1;
    }

    /** rwb_wrflush, on a timeout, before an oversized write or before a read: the pending run
        goes to the media and the contents stay the same. */
    method WrFlush()
      requires Valid()
      modifies this`media, this`wrnblocks, this`wrblockstart, this`wrexpectedblock
      ensures Valid() && wrnblocks == 0 && Held() == old(Held()).Flushed()
      ensures media == old(Contents()) && Contents() == old(Contents())
      ensures old(wrnblocks) == 0 ==> media == old(media)
      ensures old(Coherent()) ==> Coherent()
    {
      if wrnblocks > 0 {
        media := Overlay(media, wrblockstart, wrbuffer[..wrnblocks]);
        ResetWrBuffer();
      }
    }

    /** rwb_writebuffer: extend the pending run, or flush it and start a new one. */
    method WriteBuffer(start: int, data: seq<B>)
      requires Valid() && |data| <= wrbuffer.Length && 0 <= start && start + |data| <= |media|
      modifies this`media, this`wrnblocks, this`wrblockstart, this`wrexpectedblock, wrbuffer
      ensures Valid() && |media| == old(|media|)
      ensures Contents() == Overlay(old(Contents()), start, data)
      ensures Held() == old(Held()).Extended(start, |data|, wrbuffer.Length)
      ensures wrnblocks == old(wrnblocks) + |data| ==> media == old(media)
      ensures media == old(media) || (media == old(Contents()) && wrnblocks == |data|)
    {
      hide Overlay;
      if (start != wrexpectedblock && wrnblocks > 0) || wrnblocks + |data| > wrbuffer.Length {
        WrFlush();
      }
      if wrnblocks == 0 {
        OverlayNothing(media, wrblockstart);
        OverlayNothing(media, start);
        wrblockstart := start;
      }
      AppendOverlay(media, wrblockstart, wrbuffer[..wrnblocks], data);
      CopyIn(data);
      wrnblocks := wrnblocks + |data|;
      wrexpectedblock := wrblockstart + wrnblocks;
    }

    /** The memcpy of rwb_writebuffer. */
    method CopyIn(data: seq<B>)
      requires wrnblocks + |data| <= wrbuffer.Length
      modifies wrbuffer
      ensures wrbuffer[..wrnblocks + |data|] == old(wrbuffer[..wrnblocks]) + data
    {
      forall i | 0 <= i < |data| {
        wrbuffer[wrnblocks + i] := data[i];
      }
    }

    /** rwb_write: drop the read-ahead run if the write meets it; buffer the data, or, when it
        is larger than the buffer, flush and write through. */
    method Write(start: int, data: seq<B>)
      requires Valid() && 0 <= start && start + |data| <= |media|
      modifies this`media, this`wrnblocks, this`wrblockstart, this`wrexpectedblock, this`rhnblocks, this`rhblockstart, wrbuffer
      ensures Valid() && |media| == old(|media|)
      ensures Contents() == Overlay(old(Contents()), start, data)
      ensures old(Coherent()) ==> Coherent()
      ensures Held() == old(Held()).Written(start, |data|, wrbuffer.Length, readAhead)
      ensures wrnblocks == old(wrnblocks) + |data| <= wrbuffer.Length ==> media == old(media)
      ensures media == old(media) || (media == old(Contents()) && wrnblocks == |data|) || (media == Contents() && wrnblocks == 0)
    {
      hide Overlay;
      OverlayAt(Contents(), start, data);
      if readAhead && Overlap(rhblockstart, rhnblocks, start, |data|) {
        rhnblocks, rhblockstart := 0, -1;
      }
      if |data| > wrbuffer.Length {
        WrFlush();
        media := Overlay(media, start, data);
        OverlayNothing(media, wrblockstart);
      } else {
        WriteBuffer(start, data);
      }
    }

    /** The blocks of a run that the media shows as they are. */
    ghost predicate Clean(from: int, to: int)
      requires Valid() && 0 <= from <= to <= |media|
      reads this, wrbuffer, rhbuffer
    {
      forall b | from <= b < to :: media[b] == Contents()[b]
    }

    /** rwb_rhreload: as many blocks as fit, but not past the end of the device. */
    method RhReload(start: int)
      requires Valid() && readAhead && 0 <= start < |media|
      modifies this`rhnblocks, this`rhblockstart, rhbuffer
      ensures Valid() && Contents() == old(Contents())
      ensures rhblockstart == start && rhnblocks == Min(start + rhbuffer.Length, |media|) - start > 0
      ensures rhbuffer[..rhnblocks] == media[start..start + rhnblocks] && Loaded(start)
    {
      hide Overlay;
      var end := Min(start + rhbuffer.Length, |media|);
      rhnblocks, rhblockstart := 0, -1;
      forall i | 0 <= i < end - start {
        rhbuffer[i] := media[start + i];
      }
      rhnblocks, rhblockstart := end - start, start;
      assert wrbuffer[..wrnblocks] == old(wrbuffer[..wrnblocks]);
    }

    /** The inner loop of rwb_read: how many of the blocks from cur on are in the buffer. */
    method CountBuffered(cur: int, remaining: nat) returns (nbuf: nat)
      ensures nbuf == Buffered(cur, remaining, rhblockstart, rhnblocks)
    {
      nbuf := 0;
      while rhblockstart <= cur + nbuf < rhblockstart + rhnblocks && nbuf < remaining
        invariant nbuf <= remaining && (nbuf > 0 ==> rhblockstart <= cur && cur + nbuf <= rhblockstart + rhnblocks)
        decreases remaining - nbuf
      {
        nbuf := nbuf + 1;
      }
    }

    /** What a read of the blocks from cur to end sees: first the blocks that the read-ahead run
        has, and the media from there on. */
    ghost function Seen(cur: int, end: int): (r: seq<B>)
      requires Valid() && 0 <= cur <= end <= |media|
      reads this, wrbuffer, rhbuffer
      ensures |r| == end - cur
    {
      var k := Buffered(cur, end - cur, rhblockstart, rhnblocks);
      Run(cur, k) + media[cur + k..end]
    }

    /** The next k blocks from cur on in the read-ahead run. */
    ghost function Run(cur: int, k: nat): (r: seq<B>)
      requires k > 0 ==> rhblockstart <= cur && cur + k <= rhblockstart + rhnblocks && rhnblocks <= rhbuffer.Length
      reads this, rhbuffer
      ensures |r| == k
    {
      if k == 0 then [] else rhbuffer[cur - rhblockstart..cur - rhblockstart + k]
    }

    /** The read-ahead run is what the media holds from w on. */
    ghost predicate Loaded(w: int)
      requires Valid()
      reads this, wrbuffer, rhbuffer
    {
      && 0 <= w < |media| && rhblockstart == w && rhnblocks == Min(w + rhbuffer.Length, |media|) - w > 0
      && rhbuffer[..rhnblocks] == media[w..w + rhnblocks]
    }

    lemma LoadedSeen(w: int, end: int)
      requires Valid() && Loaded(w) && w <= end <= |media|
      ensures Seen(w, end) == media[w..end]
    {
      hide Contents;
      var k := Buffered(w, end - w, rhblockstart, rhnblocks);
      assert Run(w, k) == rhbuffer[..rhnblocks][..k] == media[w..w + rhnblocks][..k];
    }

    /** rwb_bufferread, for the blocks from cur on that the buffer has. */
    method BufferRead(cur: int, remaining: nat) returns (chunk: seq<B>)
      requires Valid()
      ensures |chunk| == Buffered(cur, remaining, rhblockstart, rhnblocks)
      ensures chunk == Run(cur, |chunk|)
    {
      chunk := [];
      if rhnblocks > 0 {
        var nbuf := CountBuffered(cur, remaining);
        if nbuf > 0 {
          chunk := rhbuffer[cur - rhblockstart..cur - rhblockstart + nbuf];
        }
      }
    }

    lemma SeenSplits(cur: int, end: int)
      requires Valid() && 0 <= cur <= end <= |media|
      ensures var k := Buffered(cur, end - cur, rhblockstart, rhnblocks);
              Seen(cur, end) == Run(cur, k) + media[cur + k..end]
      ensures Seen(end, end) == []
    {
    }

    /** One turn of the outer loop of rwb_read: copy what the buffer has, and reload from the
        first block that it lacks. */
    method ReadTurn(cur: int, end: int) returns (chunk: seq<B>)
      requires Valid() && readAhead && 0 <= cur < end <= |media|
      modifies this`rhnblocks, this`rhblockstart, rhbuffer
      ensures Valid() && Contents() == old(Contents())
      ensures |chunk| == Buffered(cur, end - cur, old(rhblockstart), old(rhnblocks))
      ensures chunk + Seen(cur + |chunk|, end) == old(Seen(cur, end))
      ensures if cur + |chunk| == end then unchanged(this) && unchanged(rhbuffer) else Loaded(cur + |chunk|)
    {
      hide Contents, Seen, Run, Loaded;
      SeenSplits(cur, end);
      chunk := BufferRead(cur, end - cur);
      var next := cur + |chunk|;
      if next < end {
        RhReload(next);
        LoadedSeen(next, end);
      }
    }

    /** The outer loop of rwb_read, however many reloads it takes; w is where the last one
        started, -1 if there was none. */
    method ReadLoop(start: int, n: nat) returns (data: seq<B>, ghost w: int)
      requires Valid() && readAhead && 0 <= start && start + n <= |media|
      modifies this`rhnblocks, this`rhblockstart, rhbuffer
      ensures Valid() && Contents() == old(Contents())
      ensures data == old(Seen(start, start + n))
      ensures w == LastReload(start, n, old(rhblockstart), old(rhnblocks), rhbuffer.Length)
      ensures if w == -1 then unchanged(this) && unchanged(rhbuffer) else Loaded(w)
    {
      hide Contents, Seen, Loaded, LastWindow, Buffered, Min;
      ghost var end := start + n;
      ghost var last := LastReload(start, n, rhblockstart, rhnblocks, rhbuffer.Length);
      data, w := [], -1;
      while |data| < n
        invariant |data| <= n && Valid() && Contents() == old(Contents())
        invariant data + Seen(start + |data|, end) == old(Seen(start, start + n))
        invariant if w == -1 then unchanged(this) && unchanged(rhbuffer) else Loaded(w)
        invariant w == -1 ==> if |data| == n then last == -1 else data == []
        invariant w != -1 ==> w < end && if |data| == n then last == w else w == start + |data| && last == LastWindow(w, end, rhbuffer.Length)
        decreases n - |data|, w == -1
      {
        var cur := start + |data|;
        if w != -1 {
          NextWindow(w, end, |media|, rhbuffer.Length);
          LoadedRange(w);
        }
        var chunk := ReadTurn(cur, start + n);
        Appended(data, chunk, Seen(cur + |chunk|, end));
        data := data + chunk;
        if cur + |chunk| < end {
          w := cur + |chunk|;
        }
      }
    }

    lemma LoadedRange(w: int)
      requires Valid() && Loaded(w)
      ensures 0 <= w < |media| && rhblockstart == w && rhnblocks == Min(w + rhbuffer.Length, |media|) - w > 0
    {
    }

    /** The read-ahead run shows the contents on the blocks from..to that it has. */
    ghost predicate Agrees(from: int, to: int)
      requires Valid()
      reads this, wrbuffer, rhbuffer
    {
      forall i | 0 <= i < rhnblocks && from <= rhblockstart + i < to :: rhbuffer[i] == Contents()[rhblockstart + i]
    }

    /** Where the media shows the contents, a read sees the contents if and only if the blocks
        that it takes from the read-ahead run do. */
    lemma SeenMeans(start: int, n: nat)
      requires Valid() && 0 <= start && start + n <= |media| && Clean(start, start + n)
      ensures Seen(start, start + n) == Contents()[start..start + n]
         <==> Agrees(start, start + Buffered(start, n, rhblockstart, rhnblocks))
    {
      hide Contents;
      var k, c := Buffered(start, n, rhblockstart, rhnblocks), Contents();
      var seen := Seen(start, start + n);
      assert forall j | 0 <= j < n :: seen[j] == if j < k then rhbuffer[start - rhblockstart + j] else media[start + j];
      if Agrees(start, start + k) {
        forall j | 0 <= j < n ensures seen[j] == c[start..start + n][j] {
          if j < k {
            assert rhbuffer[start - rhblockstart + j] == c[rhblockstart + (start - rhblockstart + j)];
          }
        }
      }
      if seen == c[start..start + n] {
        forall i | 0 <= i < rhnblocks && start <= rhblockstart + i < start + k
          ensures rhbuffer[i] == c[rhblockstart + i]
        {
          assert seen[rhblockstart + i - start] == c[start..start + n][rhblockstart + i - start];
        }
      }
    }

    /** Away from the pending run the media shows the contents. */
    lemma ApartIsClean(start: int, n: nat)
      requires Valid() && 0 <= start && start + n <= |media|
      requires wrnblocks == 0 || start + n <= wrblockstart || wrblockstart + wrnblocks <= start
      ensures Clean(start, start + n)
    {
    }

    /** A fresh read-ahead run has what the media has, be it right or wrong. */
    lemma LoadedAt(w: int, b: int)
      requires Valid() && Loaded(w) && w <= b < w + rhnblocks
      ensures Buffered(b, 1, rhblockstart, rhnblocks) == 1
      ensures media[b] != Contents()[b] ==> !Agrees(b, b + 1)
    {
      hide Contents;
      assert rhbuffer[b - w] == rhbuffer[..rhnblocks][b - w] == media[w..w + rhnblocks][b - w];
      assert Contents()[rhblockstart + (b - w)] == Contents()[b];
    }

    lemma CoherentAgrees(from: int, to: int)
      requires Valid() && Coherent()
      ensures forall end | end <= to :: Agrees(from, end)
    {
      hide Contents;
    }

    lemma NothingPending()
      requires Valid()
      ensures wrnblocks == 0 ==> Contents() == media
    {
    }

    /** A freshly loaded run shows the contents if and only if the media does there. */
    lemma LoadedCoherent(w: int)
      requires Valid() && Loaded(w)
      ensures Coherent() <==> Clean(w, w + rhnblocks)
    {
      hide Contents;
      assert forall i | 0 <= i < rhnblocks :: rhbuffer[i] == rhbuffer[..rhnblocks][i] == media[w..w + rhnblocks][i] == media[w + i];
      if Coherent() {
        forall b | w <= b < w + rhnblocks ensures media[b] == Contents()[b] {
          assert rhbuffer[b - w] == Contents()[rhblockstart + (b - w)];
        }
      }
    }

    /** The first part of rwb_read: whatever is pending for the requested blocks goes to the
        media. */
    method FlushForRead(start: int, n: nat)
      requires Valid() && 0 <= start && start + n <= |media|
      modifies this`media, this`wrnblocks, this`wrblockstart, this`wrexpectedblock
      ensures Valid() && |media| == old(|media|) && Contents() == old(Contents()) && Clean(start, start + n)
      ensures Held() == old(Held()).BeforeRead(start, n, wrbuffer.Length)
      ensures wrnblocks == old(wrnblocks) ==> media == old(media)
      ensures Coherent() <==> old(Coherent())
      ensures Agrees(start, start + Buffered(start, n, rhblockstart, rhnblocks))
         <==> old(Agrees(start, start + Buffered(start, n, rhblockstart, rhnblocks)))
    {
      hide Contents, Overlap;
      OverlapIsSafe(wrblockstart, wrnblocks, start, n);
      if wrbuffer.Length > 0 && Overlap(wrblockstart, wrnblocks, start, n) {
        WrFlush();
      }
      ApartIsClean(start, n);
    }

    /** rwb_read: flush the pending run if the requested blocks meet it, then read. The result
        is the contents if and only if the read-ahead run was right where it was used. The run
        that is left is right if and only if it was and is kept, or the last reload fetched a
        range on which the media shows the contents. */
    method Read(start: int, n: nat) returns (data: seq<B>, ghost w: int)
      requires Valid() && 0 <= start && start + n <= |media|
      modifies this, rhbuffer
      ensures Valid() && |media| == old(|media|) && Contents() == old(Contents())
      ensures wrnblocks == old(wrnblocks) ==> media == old(media)
      ensures Held() == old(Held()).AfterRead(start, n, wrbuffer.Length, w, Min(w + rhbuffer.Length, |media|) - w)
      ensures data == Contents()[start..start + n]
         <==> old(Agrees(start, start + Buffered(start, n, rhblockstart, rhnblocks)))
      ensures w == if readAhead then LastReload(start, n, old(rhblockstart), old(rhnblocks), rhbuffer.Length) else -1
      ensures w == -1 ==> (Coherent() <==> old(Coherent()))
      ensures w != -1 ==> Loaded(w) && (Coherent() <==> Clean(w, w + rhnblocks))
    {
      hide Contents, Seen, LastReload, Buffered, Clean, Overlap, Agrees, Coherent, Loaded;
      FlushForRead(start, n);
      SeenMeans(start, n);
      data, w := Transfer(start, n);
      if w != -1 {
        LoadedRange(w);
        LoadedCoherent(w);
      }
    }

    /** The second part of rwb_read, with or without read-ahead. */
    method Transfer(start: int, n: nat) returns (data: seq<B>, ghost w: int)
      requires Valid() && 0 <= start && start + n <= |media|
      modifies this`rhnblocks, this`rhblockstart, rhbuffer
      ensures Valid() && Contents() == old(Contents())
      ensures data == old(Seen(start, start + n))
      ensures w == if readAhead then LastReload(start, n, old(rhblockstart), old(rhnblocks), rhbuffer.Length) else -1
      ensures if w == -1 then unchanged(this) && unchanged(rhbuffer) else Loaded(w)
    {
      hide Contents, Loaded, LastReload;
      if readAhead {
        data, w := ReadLoop(start, n);
      } else {
        data, w := media[start..start + n], -1;
      }
    }
  }

  /** The capacities of the buffers and the size of the device. */
  datatype Config = Config(wrmax: nat, rhmax: nat, readAhead: bool, size: nat) {
    /** The window that the last reload of a call fetches; empty if it fetches none. */
    function Window<B>(held: Shape, op: Op<B>): (w: (int, int))
      requires readAhead ==> rhmax > 0
    {
      if op.Read? && readAhead then
        var w := LastReload(op.start, op.n, held.rhstart, held.rhn, rhmax);
        (w, if w == -1 then -1 else Min(w + rhmax, size))
      else (-1, -1)
    }

    /** Which blocks the buffers hold after a call. */
    function After<B>(held: Shape, op: Op<B>): Shape
      requires readAhead ==> rhmax > 0
    {
      match op
      case Write(start, data) => held.Written(start, |data|, wrmax, readAhead)
      case Timeout => held.Flushed()
      case Read(start, n) => held.AfterRead(start, n, wrmax, Window(held, op).0, Window(held, op).1 - Window(held, op).0)
    }

    /** The call leaves no window that meets the blocks still pending. */
    predicate Apart<B>(held: Shape, op: Op<B>)
      requires readAhead ==> rhmax > 0
    {
      var w, next := Window(held, op), After(held, op);
      w.0 == -1 || next.wn == 0 || w.1 <= next.wstart || next.wstart + next.wn <= w.0
    }

    /** Every call of a run does so: a matter of block numbers and capacities only. */
    predicate KeptApart<B>(held: Shape, ops: seq<Op<B>>)
      requires readAhead ==> rhmax > 0
      decreases ops
    {
      ops == [] || (Apart(held, ops[0]) && KeptApart(After(held, ops[0]), ops[1..]))
    }
  }

  predicate Pending(held: Shape, b: int) {
    held.wstart <= b < held.wstart + held.wn
  }

  /** What a call that takes media m and contents c to m' and c' does to the media: a block keeps
      its data or gets what the contents had or have there; and a block that is pending afterwards
      was just written, or was pending and keeps its data on the media. */
  ghost predicate Carried<B(!new)>(op: Op<B>, m: seq<B>, c: seq<B>, held: Shape, m': seq<B>, c': seq<B>, held': Shape) {
    && |m| == |c| == |m'| == |c'|
    && (forall b | 0 <= b < |m| :: m'[b] == m[b] || m'[b] == c[b] || m'[b] == c'[b])
    && (forall b | Pending(held', b) ::
          && 0 <= b < |m|
          && if op.Write? && op.start <= b < op.start + |op.data| then m'[b] == m[b] || m'[b] == c[b]
             else Pending(held, b) && m'[b] == m[b])
  }

  lemma CarriedByWrite<B(!new)>(start: int, data: seq<B>, wrmax: nat, readAhead: bool,
                              m: seq<B>, c: seq<B>, held: Shape, m': seq<B>, c': seq<B>, held': Shape)
    requires 0 <= start && start + |data| <= |m| && |m| == |c| == |m'| == |c'|
    requires held.wn > 0 ==> 0 <= held.wstart && held.wstart + held.wn <= |m|
    requires held' == held.Written(start, |data|, wrmax, readAhead)
    requires held'.wn == held.wn + |data| <= wrmax ==> m' == m
    requires m' == m || (m' == c && held'.wn == |data|) || (m' == c' && held'.wn == 0)
    ensures Carried(Op.Write(start, data), m, c, held, m', c', held')
  {
  }

  /** One call; Timeout is rwb_wrtimeout. */
  method Call<B(0,!new)>(rw: RwBuffer<B>, op: Op<B>) returns (outs: seq<seq<B>>)
    requires rw.Valid() && rw.Coherent() && op.Fits(|rw.media|) && rw.Cfg().Apart(rw.Held(), op)
    modifies rw, rw.wrbuffer, rw.rhbuffer
    ensures rw.Valid() && rw.Coherent() && |rw.media| == old(|rw.media|)
    ensures rw.Held() == rw.Cfg().After(old(rw.Held()), op)
    ensures (rw.Contents(), outs) == PlainStep(old(rw.Contents()), op)
    ensures Carried(op, old(rw.media), old(rw.Contents()), old(rw.Held()), rw.media, rw.Contents(), rw.Held())
  {
    hide RwBuffer.Contents, Overlay, LastReload, Buffered, Overlap, Shape.Written;
    ghost var m, c, held := rw.media, rw.Contents(), rw.Held();
    outs := [];
    match op
    case Write(start, data) =>
      rw.Write(start, data);
      CarriedByWrite(start, data, rw.wrbuffer.Length, rw.readAhead, m, c, held, rw.media, rw.Contents(), rw.Held());
    case Timeout =>
      rw.WrFlush();
    case Read(start, n) =>
      var data, w := rw.Read(start, n);
      rw.NothingPending();
      outs := [data];
      if w != -1 {
        rw.ApartIsClean(w, rw.rhnblocks);
      }
  }

  /** Any run of writes, reads and timeouts whose reloads stay clear of what is pending is a
      run of a plain block array. */
  method Session<B(0,!new)>(rw: RwBuffer<B>, ops: seq<Op<B>>) returns (outs: seq<seq<B>>)
    requires rw.Valid() && rw.Coherent() && forall i | 0 <= i < |ops| :: ops[i].Fits(|rw.media|)
    requires rw.Cfg().KeptApart(rw.Held(), ops)
    modifies rw, rw.wrbuffer, rw.rhbuffer
    ensures rw.Valid() && rw.Coherent() && |rw.media| == old(|rw.media|)
    ensures (rw.Contents(), outs) == Plain(old(rw.Contents()), ops)
  {
    hide RwBuffer.Contents, RwBuffer.Coherent, PlainStep, Config.Apart, Config.After;
    outs := [];
    var i := 0;
    assert ops[..0] == [];
    while i < |ops|
      invariant 0 <= i <= |ops| && rw.Valid() && rw.Coherent() && |rw.media| == old(|rw.media|)
      invariant (rw.Contents(), outs) == Plain(old(rw.Contents()), ops[..i])
      invariant rw.Cfg().KeptApart(rw.Held(), ops[i..])
    {
      assert ops[..i + 1][..i] == ops[..i];
      var out := Call(rw, ops[i]);
      outs := outs + out;
      i := i + 1;
    }
    assert ops[..|ops|] == ops;
  }

  /** With only one of the two buffers nothing has to be kept apart. */
  lemma {:induction false} OneBufferKeepsApart<B>(cfg: Config, held: Shape, ops: seq<Op<B>>)
    requires cfg.readAhead ==> cfg.rhmax > 0
    requires !cfg.readAhead || (cfg.wrmax == 0 && held.wn == 0)
    ensures cfg.KeptApart(held, ops)
    decreases ops
  {
    if ops != [] {
      OneBufferKeepsApart(cfg, cfg.After(held, ops[0]), ops[1..]);
    }
  }

  /** From any coherent state, a read whose window meets the pending blocks leaves a block b that
      is pending and in the read-ahead run; if the data for b are new, the next read of b returns
      the old ones. */
  method ReadAcross<B(0,!new)>(rw: RwBuffer<B>, start: int, n: nat) returns (first: seq<B>, b: int, second: seq<B>)
    requires rw.Valid() && rw.Coherent() && 0 <= start && start + n <= |rw.media|
    requires !rw.Cfg().Apart(rw.Held(), Op<B>.Read(start, n))
    modifies rw, rw.rhbuffer
    ensures rw.Valid() && |rw.media| == old(|rw.media|) && rw.Contents() == old(rw.Contents())
    ensures 0 <= b < |rw.media| && Pending(old(rw.Held()), b)
    ensures first == rw.Contents()[start..start + n]
    ensures old(rw.media[b] != rw.Contents()[b]) ==> second != rw.Contents()[b..b + 1]
  {
    hide RwBuffer.Contents, RwBuffer.Agrees, RwBuffer.Clean, LastReload, Overlap;
    rw.CoherentAgrees(start, start + n);
    ghost var w;
    first, w := rw.Read(start, n);
    var p := rw.Held();
    b := if p.rhstart <= p.wstart then p.wstart else p.rhstart;
    assert Pending(p, b);
    rw.LoadedAt(w, b);
    second, w := rw.Read(b, 1);
  }

  /** The same call with the number k for its data. */
  function Numbered(op: Op<int>, k: int): (r: Op<int>)
    ensures forall size: nat :: op.Fits(size) <==> r.Fits(size)
  {
    if op.Write? then Op.Write(op.start, seq(|op.data|, _ => k)) else op
  }

  function AllNumbered(ops: seq<Op<int>>): (r: seq<Op<int>>)
    ensures |r| == |ops| && forall i | 0 <= i < |ops| :: r[i] == Numbered(ops[i], i + 1)
  {
    seq(|ops|, i requires 0 <= i < |ops| => Numbered(ops[i], i + 1))
  }

  /** No data is numbered above k, and what is pending for a block is newer than what the media
      has for it. */
  ghost predicate Newer(m: seq<int>, c: seq<int>, held: Shape, k: int) {
    && |m| == |c| && (forall b | 0 <= b < |m| :: m[b] <= k && c[b] <= k)
    && (forall b | Pending(held, b) :: 0 <= b < |m| && m[b] < c[b])
  }

  lemma StaysNewer(op: Op<int>, m: seq<int>, c: seq<int>, held: Shape, m': seq<int>, c': seq<int>, held': Shape, k: int)
    requires Newer(m, c, held, k) && Numbered(op, k + 1).Fits(|c|)
    requires Carried(Numbered(op, k + 1), m, c, held, m', c', held') && c' == PlainStep(c, Numbered(op, k + 1)).0
    ensures Newer(m', c', held', k + 1)
  {
    hide Overlay;
    if op.Write? {
      OverlayAt(c, op.start, Numbered(op, k + 1).data);
    }
    forall b | Pending(held', b) ensures 0 <= b < |m'| && m'[b] < c'[b] {
      if op.Write? && op.start <= b < op.start + |op.data| {
        assert c'[b] == k + 1 && m[b] <= k && c[b] <= k;
      } else {
        assert Pending(held, b);
        assert c'[b] == c[b] && m[b] < c[b];
      }
    }
  }

  /** Keeping apart is necessary: for any calls that do not, on a device of any size, there are
      data for which the calls up to the first that does not, and one more read, are no run of a
      plain block array: the last read returns something else. */
  method Diverge(ops: seq<Op<int>>, wrmax: nat, rhmax: nat, size: nat)
    returns (rw: RwBuffer<int>, done: seq<Op<int>>, outs: seq<seq<int>>, k: nat, b: int)
    requires rhmax > 0 && forall i | 0 <= i < |ops| :: ops[i].Fits(size)
    requires !Config(wrmax, rhmax, true, size).KeptApart(Shape(-1, 0, -1, 0), ops)
    ensures k < |ops| && 0 <= b < size && done == AllNumbered(ops)[..k + 1] + [Op.Read(b, 1)]
    ensures forall i | 0 <= i < |done| :: done[i].Fits(size)
    ensures var plain := Plain(Repeat(0, size), done);
      && rw.Valid() && rw.Contents() == plain.0 && |outs| == |plain.1| > 0
      && outs[..|outs| - 1] == plain.1[..|outs| - 1] && outs[|outs| - 1] != plain.1[|outs| - 1]
  {
    hide RwBuffer.Contents, RwBuffer.Coherent, Plain, Config.Apart, Numbered;
    var all := AllNumbered(ops);
    rw, outs, k := UntilMet(ops, wrmax, rhmax, size);
    OnlyReadsMeet(rw.Cfg(), rw.Held(), all[k]);
    var first, second;
    first, b, second := ReadAcross(rw, all[k].start, all[k].n);
    assert all[..k + 1] == all[..k] + [all[k]];
    PlainReads(Repeat(0, size), all[..k], all[k].start, all[k].n);
    PlainReads(Repeat(0, size), all[..k + 1], b, 1);
    done := all[..k + 1] + [Op.Read(b, 1)];
    outs := outs + [first] + [second];
  }

  /** Make the calls, with numbers for their data, up to the first whose window meets the pending
      blocks. */
  method UntilMet(ops: seq<Op<int>>, wrmax: nat, rhmax: nat, size: nat)
    returns (rw: RwBuffer<int>, outs: seq<seq<int>>, k: nat)
    requires rhmax > 0 && forall i | 0 <= i < |ops| :: ops[i].Fits(size)
    requires !Config(wrmax, rhmax, true, size).KeptApart(Shape(-1, 0, -1, 0), ops)
    ensures k < |ops| && fresh(rw) && fresh(rw.wrbuffer) && fresh(rw.rhbuffer)
    ensures rw.Valid() && rw.Coherent() && |rw.media| == size && rw.Cfg() == Config(wrmax, rhmax, true, size)
    ensures (rw.Contents(), outs) == Plain(Repeat(0, size), AllNumbered(ops)[..k])
    ensures Newer(rw.media, rw.Contents(), rw.Held(), k) && !rw.Cfg().Apart(rw.Held(), AllNumbered(ops)[k])
  {
    hide RwBuffer.Contents, RwBuffer.Coherent, PlainStep, Config.Apart, Config.After, Numbered, Carried;
    rw := new RwBuffer(Repeat(0, size), wrmax, rhmax, true);
    var all := AllNumbered(ops);
    outs, k := [], 0;
    assert all[..0] == [];
    while k < |ops| && rw.Cfg().Apart(rw.Held(), all[k])
      invariant 0 <= k <= |ops| && rw.Valid() && rw.Coherent() && |rw.media| == size && fresh(rw) && fresh(rw.wrbuffer) && fresh(rw.rhbuffer)
      invariant rw.Cfg() == Config(wrmax, rhmax, true, size) && !rw.Cfg().KeptApart(rw.Held(), ops[k..])
      invariant (rw.Contents(), outs) == Plain(Repeat(0, size), all[..k])
      invariant Newer(rw.media, rw.Contents(), rw.Held(), k)
    {
      assert all[..k + 1][..k] == all[..k];
      ghost var m, c, held := rw.media, rw.Contents(), rw.Held();
      SameShape(rw.Cfg(), held, ops[k], k + 1);
      var out := Call(rw, all[k]);
      StaysNewer(ops[k], m, c, held, rw.media, rw.Contents(), rw.Held(), k);
      outs := outs + out;
      k := k + 1;
    }
  }

  lemma PlainReads<B>(device: seq<B>, ops: seq<Op<B>>, start: int, n: nat)
    requires (forall i | 0 <= i < |ops| :: ops[i].Fits(|device|)) && 0 <= start && start + n <= |device|
    ensures forall op | op in ops + [Op.Read(start, n)] :: op.Fits(|device|)
    ensures var r := Plain(device, ops);
      Plain(device, ops + [Op.Read(start, n)]) == (r.0, r.1 + [r.0[start..start + n]])
  {
    var longer := ops + [Op<B>.Read(start, n)];
    assert longer[..|longer| - 1] == ops;
  }

  lemma SameShape(cfg: Config, held: Shape, op: Op<int>, k: int)
    requires cfg.readAhead ==> cfg.rhmax > 0
    ensures cfg.Apart(held, Numbered(op, k)) == cfg.Apart(held, op) && cfg.After(held, Numbered(op, k)) == cfg.After(held, op)
  {
  }

  lemma OnlyReadsMeet<B>(cfg: Config, held: Shape, op: Op<B>)
    requires (cfg.readAhead ==> cfg.rhmax > 0) && !cfg.Apart(held, op)
    ensures op.Read?
  {
  }

  /** With both, a read of block 0 can fetch a stale block 2 while new data for it is pending,
      and a later read of block 2 returns the old data. */
  method StaleRead() returns (rw: RwBuffer<int>, data: seq<int>)
    ensures rw.Valid() && rw.Contents() == [0, 0, 7, 0] && data != [7]
  {
    rw := new RwBuffer([0, 0, 0, 0], 2, 4, true);
    rw.Write(2, [7]);
    assert rw.Contents() == [0, 0, 7, 0];
    assert rw.Held() == Shape(2, 1, -1, 0);
    var first, w := rw.Read(0, 1);
    assert w == 0 && rw.Held() == Shape(2, 1, 0, 4);
    assert rw.rhbuffer[2] == rw.rhbuffer[..4][2] == rw.media[0..4][2] == 0;
    assert !rw.Agrees(2, 3) by { assert rw.rhbuffer[2] != rw.Contents()[rw.rhblockstart + 2]; }
    data, w := rw.Read(2, 1);
  }
}
