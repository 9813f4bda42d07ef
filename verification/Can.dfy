/**
 The FIFOs of the CAN driver (nuttx/drivers/can.c).

 The transmit FIFO is a ring with three indices: completed messages leave at head, queue is
 the next one to hand to the hardware, tail is where can_write adds. The hardware is a free
 choice at every point where the driver consults it: whether it is ready or idle, and how many
 completions it reports from inside dev_send or while a writer sleeps.
 */
module Can {
  import opened Common
  import opened Rings

  /** A message; its data length code is the length of the data, at most 8. */
  datatype Msg = Msg(id: nat, rtr: bool, data: seq<bv8>)

  datatype Code = OK | EIO | EBUSY | ENOENT | EAGAIN | ENOMEM | Errno(e: int)

  datatype Written = Sent(nbytes: nat) | Failed(code: Code)

  /** CAN_MSGLEN, for a header of hdr bytes. */
  function MsgLen(hdr: nat, m: Msg): (r: nat)
    ensures r >= hdr
  {
    hdr + |m.data|
  }

  /** How many bytes a run of messages takes. */
  function Bytes(hdr: nat, msgs: seq<Msg>): (r: nat) {
    if msgs == [] then 0 else Bytes(hdr, msgs[..|msgs| - 1]) + MsgLen(hdr, msgs[|msgs| - 1])
  }

  lemma {:induction false} BytesSplit(hdr: nat, msgs: seq<Msg>, k: nat)
    requires k <= |msgs|
    ensures Bytes(hdr, msgs) == Bytes(hdr, msgs[..k]) + Bytes(hdr, msgs[k..])
    decreases |msgs|
  {
    if k == |msgs| {
      assert msgs[..k] == msgs;
    } else {
      var front := msgs[..|msgs| - 1];
      BytesSplit(hdr, front, k);
      assert front[..k] == msgs[..k] && front[k..] == msgs[k..][..|msgs| - k - 1];
    }
  }

  /** More than a short tail is left exactly when a message is left. */
  lemma MoreMeans(hdr: nat, msgs: seq<Msg>, extra: nat, k: nat)
    requires extra < hdr && k <= |msgs|
    ensures Bytes(hdr, msgs) + extra - Bytes(hdr, msgs[..k]) >= hdr <==> k < |msgs|
  {
    BytesSplit(hdr, msgs, k);
    assert k < |msgs| ==> msgs[k..][|msgs| - k - 1] == msgs[|msgs| - 1];
  }

  lemma FirstBytes(hdr: nat, msgs: seq<Msg>, extra: nat)
    requires extra < hdr
    ensures Bytes(hdr, msgs[..0]) == 0 && (Bytes(hdr, msgs) + extra >= hdr <==> 0 < |msgs|)
  {
  }

  lemma NextBytes(hdr: nat, msgs: seq<Msg>, extra: nat, k: nat)
    requires extra < hdr && k < |msgs|
    ensures Bytes(hdr, msgs[..k + 1]) == Bytes(hdr, msgs[..k]) + MsgLen(hdr, msgs[k]) >= hdr
    ensures Bytes(hdr, msgs) + extra - Bytes(hdr, msgs[..k + 1]) >= hdr <==> k + 1 < |msgs|
  {
    assert msgs[..k + 1][..k] == msgs[..k];
    MoreMeans(hdr, msgs, extra, k + 1);
  }

  /** What storing a message makes of what a ring holds: if the tail has not moved, the message
      is last; otherwise it is lost, possibly with others, or entries out of use follow it. */
  ghost predicate StoredBehind(ring: seq<Msg>, m: Msg, still: bool, ring': seq<Msg>) {
    if still then ring' == ring + [m]
    else ring' <= ring || (ring + [m] <= ring' && |ring'| > |ring| + 1)
  }

  /** What a writer stored, and where it put the tail. */
  datatype Stored = Stored(m: Msg, nexttail: nat)

  /** Where the tail was when store i was made: where the one before had put it. */
  function TailAt(stores: seq<Stored>, i: nat): nat
    requires i <= |stores|
  {
    if i == 0 then 0 else stores[i - 1].nexttail
  }

  /** At store i the tail was where its writer had found it when it worked out the next one. */
  predicate FreshAt(stores: seq<Stored>, i: nat, n: nat)
    requires i < |stores| && forall k | 0 <= k < |stores| :: stores[k].nexttail < n
  {
    n > 0 && stores[i].nexttail == Next(TailAt(stores, i), n)
  }

  /** The stores are what was accepted, and they have led the tail to where it is; the order is
      kept as long as all of them are fresh. */
  ghost predicate Traced(stores: seq<Stored>, accepted: seq<Msg>, tail: nat, kept: bool, n: nat) {
    && |stores| == |accepted| && (forall i | 0 <= i < |stores| :: stores[i].m == accepted[i] && stores[i].nexttail < n)
    && tail == TailAt(stores, |stores|)
    && (kept <==> forall i | 0 <= i < |stores| :: FreshAt(stores, i, n))
  }

  lemma TracedMore(stores: seq<Stored>, accepted: seq<Msg>, tail: nat, kept: bool, n: nat, m: Msg, nexttail: nat)
    requires Traced(stores, accepted, tail, kept, n) && nexttail < n && tail < n
    ensures Traced(stores + [Stored(m, nexttail)], accepted + [m], nexttail, kept && nexttail == Next(tail, n), n)
  {
    var stores' := stores + [Stored(m, nexttail)];
    assert forall i | 0 <= i < |stores| :: TailAt(stores', i) == TailAt(stores, i) && FreshAt(stores', i, n) == FreshAt(stores, i, n);
    assert FreshAt(stores', |stores|, n) <==> nexttail == Next(tail, n);
  }

  lemma TracedSame(stores: seq<Stored>, a: seq<Msg>, tail: nat, kept: bool, a': seq<Msg>, tail': nat, kept': bool, n: nat)
    requires Traced(stores, a, tail, kept, n) && Traced(stores, a', tail', kept', n)
    ensures a == a' && tail == tail' && kept == kept'
  {
  }

  /** Where a writer finds the tail when it works out the next one for its message k: where its
      call began, or where it put it with the message before. */
  function Found(stores: seq<Stored>, at: seq<nat>, tail0: nat, k: nat): nat
    requires k <= |at| && forall i | 0 <= i < |at| :: at[i] < |stores|
  {
    if k == 0 then tail0 else stores[at[k - 1]].nexttail
  }

  /** The stores at these places are those of one call, which began with the tail at tail0. */
  ghost predicate OwnStores(at: seq<nat>, msgs: seq<Msg>, from: nat, tail0: nat, stores: seq<Stored>, n: nat) {
    && |at| <= |msgs| && tail0 < n
    && (forall i | 0 <= i < |stores| :: stores[i].nexttail < n)
    && (forall i | 0 <= i < |at| :: from <= at[i] < |stores|)
    && (forall i, j | 0 <= i < j < |at| :: at[i] < at[j])
    && (forall i | 0 <= i < |at| :: OwnAt(at, msgs, tail0, stores, n, i))
  }

  ghost predicate OwnAt(at: seq<nat>, msgs: seq<Msg>, tail0: nat, stores: seq<Stored>, n: nat, i: nat)
    requires i < |at| <= |msgs| && (forall k | 0 <= k < |at| :: at[k] < |stores|)
    requires tail0 < n && forall k | 0 <= k < |stores| :: stores[k].nexttail < n
  {
    stores[at[i]] == Stored(msgs[i], Next(Found(stores, at, tail0, i), n))
  }

  /** A call that has made these stores finds the tail where it put it last. */
  ghost predicate InCall(at: seq<nat>, msgs: seq<Msg>, from: nat, tail0: nat, stores: seq<Stored>, n: nat, tail: nat) {
    OwnStores(at, msgs, from, tail0, stores, n) && from <= |stores| && tail == Found(stores, at, tail0, |at|)
  }

  /** The order is kept over a call if and only if it was before, every store of another writer
      is fresh, and at each of its own the tail has not moved since the call looked. */
  ghost predicate KeptOver(at: seq<nat>, from: nat, tail0: nat, before: bool, stores: seq<Stored>, n: nat)
    requires (forall i | 0 <= i < |stores| :: stores[i].nexttail < n) && forall i | 0 <= i < |at| :: at[i] < |stores|
  {
    && before
    && (forall i | from <= i < |stores| && i !in at :: FreshAt(stores, i, n))
    && (forall k | 0 <= k < |at| :: TailAt(stores, at[k]) == Found(stores, at, tail0, k))
  }

  lemma KeptMeans(at: seq<nat>, msgs: seq<Msg>, tail0: nat, earlier: seq<Stored>, accepted0: seq<Msg>, kept0: bool,
                  stores: seq<Stored>, accepted: seq<Msg>, tail: nat, kept: bool, n: nat)
    requires Traced(earlier, accepted0, tail0, kept0, n) && Traced(stores, accepted, tail, kept, n) && earlier <= stores
    requires OwnStores(at, msgs, |earlier|, tail0, stores, n)
    ensures kept <==> KeptOver(at, |earlier|, tail0, kept0, stores, n)
  {
    assert forall i | 0 <= i < |earlier| :: TailAt(stores, i) == TailAt(earlier, i) && FreshAt(stores, i, n) == FreshAt(earlier, i, n);
    forall k | 0 <= k < |at|
      ensures FreshAt(stores, at[k], n) <==> TailAt(stores, at[k]) == Found(stores, at, tail0, k)
    {
      assert TailAt(stores, at[k]) < n by {
        if at[k] == 0 {
          assert TailAt(earlier, 0) == 0;
        }
      }
      assert Found(stores, at, tail0, k) < n && OwnAt(at, msgs, tail0, stores, n, k);
    }
  }

  lemma StillFresh(stores: seq<Stored>, e: Stored, n: nat)
    requires e.nexttail < n && forall k | 0 <= k < |stores| :: stores[k].nexttail < n
    ensures var stores' := stores + [e];
      && (forall i | 0 <= i < |stores| :: FreshAt(stores', i, n) == FreshAt(stores, i, n))
      && TailAt(stores', |stores|) == TailAt(stores, |stores|)
  {
  }

  lemma NextIsInjective(i: nat, j: nat, n: nat)
    requires i < n && j < n
    ensures Next(i, n) == Next(j, n) <==> i == j
  {
  }

  lemma OwnMeans(at: seq<nat>, msgs: seq<Msg>, from: nat, tail0: nat, stores: seq<Stored>, n: nat)
    requires OwnStores(at, msgs, from, tail0, stores, n)
    ensures |at| <= |msgs| && (forall i | 0 <= i < |stores| :: stores[i].nexttail < n) && forall i | 0 <= i < |at| :: at[i] < |stores|
  {
  }

  lemma InCallMeans(at: seq<nat>, msgs: seq<Msg>, from: nat, tail0: nat, stores: seq<Stored>, n: nat, tail: nat)
    requires InCall(at, msgs, from, tail0, stores, n, tail)
    ensures OwnStores(at, msgs, from, tail0, stores, n)
  {
  }

  lemma NoStores(msgs: seq<Msg>, tail0: nat, stores: seq<Stored>, n: nat)
    requires tail0 < n && forall i | 0 <= i < |stores| :: stores[i].nexttail < n
    ensures InCall([], msgs, |stores|, tail0, stores, n, tail0)
  {
  }

  lemma OwnLater(at: seq<nat>, msgs: seq<Msg>, from: nat, tail0: nat, stores: seq<Stored>, stores': seq<Stored>, n: nat)
    requires OwnStores(at, msgs, from, tail0, stores, n) && stores <= stores'
    requires forall i | 0 <= i < |stores'| :: stores'[i].nexttail < n
    ensures OwnStores(at, msgs, from, tail0, stores', n)
  {
    forall i | 0 <= i < |at| ensures OwnAt(at, msgs, tail0, stores', n, i) {
      assert OwnAt(at, msgs, tail0, stores, n, i);
      assert Found(stores', at, tail0, i) == Found(stores, at, tail0, i);
    }
  }

  lemma OwnNext(at: seq<nat>, msgs: seq<Msg>, from: nat, tail0: nat, stores: seq<Stored>, n: nat, tail: nat, later: seq<Stored>)
    requires InCall(at, msgs, from, tail0, stores, n, tail) && |at| < |msgs| && tail < n && stores < later
    requires forall i | 0 <= i < |later| :: later[i].nexttail < n
    requires later[|later| - 1] == Stored(msgs[|at|], Next(tail, n))
    ensures InCall(at + [|later| - 1], msgs, from, tail0, later, n, later[|later| - 1].nexttail)
  {
    OwnLater(at, msgs, from, tail0, stores, later, n);
    var at' := at + [|later| - 1];
    forall i | 0 <= i < |at'| ensures OwnAt(at', msgs, tail0, later, n, i) {
      assert Found(later, at', tail0, i) == Found(later, at, tail0, i);
      if i < |at| {
        assert OwnAt(at, msgs, tail0, later, n, i);
      }
    }
  }

  class TxFifo {
    const hdr: nat
    const buffer: array<Msg>
    var head: nat
    var queue: nat
    var tail: nat
    var ntxwaiters: nat
    var txsem: nat
    /** Whether transmit interrupts are enabled. */
    var txint: bool
    /** Every message that a writer added, every message that the hardware was given, and every
        message that it reported as done, each in order. */
    ghost var accepted: seq<Msg>
    ghost var sent: seq<Msg>
    ghost var completed: seq<Msg>

    /** Every store that a writer made; and whether every writer so far found the tail, when it
        stored its message, where it was when the writer worked out the next one. */
    ghost var stores: seq<Stored>
    ghost var kept: bool

    ghost predicate Bounded()
      reads this`head, this`queue, this`tail
    {
      head < buffer.Length && queue < buffer.Length && tail < buffer.Length
    }

    /** How many entries the indices enclose, and how many of these are not yet sent. */
    ghost function Held(): nat
      requires Bounded()
      reads this`head, this`queue, this`tail
    {
      Count(head, tail, buffer.Length)
    }

    ghost function Waiting(): nat
      requires Bounded()
      reads this`head, this`queue, this`tail
    {
      Count(queue, tail, buffer.Length)
    }

    ghost predicate Indices()
      requires Bounded()
      reads this`head, this`queue, this`tail, this`accepted, this`sent, this`completed, this`kept, buffer
    {
      && Count(head, queue, buffer.Length) <= Held()
      && accepted == completed + Run(buffer[..], head, tail)
    }

    /** head, queue and tail are in circular order; what was accepted is what was completed, then
        what is in flight, then what waits; the hardware saw the first two, in that order. */
    ghost predicate Ordered()
      requires Bounded()
      reads this`head, this`queue, this`tail, this`accepted, this`sent, this`completed, this`kept, buffer
    {
      Indices() && sent == completed + Run(buffer[..], head, queue)
    }

    ghost predicate Valid()
      reads this`head, this`queue, this`tail, this`accepted, this`sent, this`completed, this`kept, this`stores, buffer
    {
      Bounded() && Traced(stores, accepted, tail, kept, buffer.Length) && (kept ==> Ordered())
    }

    /** The same while message m is being handed to the hardware. */
    ghost predicate Handing(m: Msg)
      reads this`head, this`queue, this`tail, this`accepted, this`sent, this`completed, this`kept, this`stores, buffer
    {
      Bounded() && Traced(stores, accepted, tail, kept, buffer.Length) && (kept ==> Indices() && sent + [m] == completed + Run(buffer[..], head, queue))
    }

    constructor (size: nat, hdr: nat)
      requires size > 0
      ensures Valid() && kept && fresh(buffer) && buffer.Length == size && this.hdr == hdr
      ensures accepted == sent == completed == [] && stores == [] && ntxwaiters == 0 && head == tail == 0
    {
      this.hdr := hdr;
      buffer := new Msg[size];
      head, queue, tail, ntxwaiters, txsem, txint := 0, 0, 0, 0, 0, false;
      accepted, sent, completed, kept, stores := [], [], [], true, [];
    }

    /** In every state in order the hardware has been given a prefix of what was accepted. */
    lemma InOrder()
      requires Valid() && kept
      ensures completed <= sent <= accepted
      ensures accepted == completed + Run(buffer[..], head, queue) + Run(buffer[..], queue, tail)
      ensures queue == tail <==> sent == accepted
      ensures head == queue <==> sent == completed
      ensures |accepted| - |completed| == Held() && |accepted| - |sent| == Waiting() <= Held()
    {
      hide Run;
      Prefix(buffer[..], head, queue, tail);
    }

    /** can_xmit: hand over messages as long as the hardware is ready. Re-entry changes head,
        queue and more; the result is EIO for an empty FIFO, OK if something was sent. */
    method Xmit() returns (ret: Code)
      requires Valid()
      modifies this`head, this`queue, this`sent, this`completed, this`txsem, this`txint
      ensures Valid() && old(sent) <= sent && old(completed) <= completed
      ensures Held() <= old(Held()) && Waiting() <= old(Waiting())
      ensures ret == EIO <==> old(head) == tail
      ensures ret != EIO ==> ret == if sent == old(sent) then EBUSY else OK
      ensures sent == old(sent) ==> head == old(head)
      ensures txsem >= old(txsem) && (txint <==> ret != EIO)
      decreases Held(), Waiting(), 1
    {
      hide Run, Next, Ordered, Indices, Traced;
      if head == tail {
        assert kept ==> queue == head by { if kept { InOrder(); } }
        txint := false;
        return EIO;
      }
      ret := EBUSY;
      var ready: bool := *;
      while queue != tail && ready
        invariant Valid() && old(sent) <= sent && old(completed) <= completed
        invariant Held() <= old(Held()) && Waiting() <= old(Waiting())
        invariant ret == if sent == old(sent) then EBUSY else OK
        invariant (sent == old(sent) ==> head == old(head)) && txsem >= old(txsem)
        decreases Waiting()
      {
        assert kept ==> head != tail by { if kept { InOrder(); } }
        ret := SendOne();
        ready := *;
      }
      txint := true;
    }

    method SendOne() returns (ret: Code)
      requires Valid() && queue != tail
      modifies this`head, this`queue, this`sent, this`completed, this`txsem, this`txint
      ensures Valid() && old(sent) < sent && old(completed) <= completed && ret == OK && txsem >= old(txsem)
      ensures Held() <= old(Held()) && Waiting() < old(Waiting())
      decreases Held(), Waiting(), 0
    {
      hide Run, Next, Count, Ordered, Indices, Traced;
      var m := NextToSend();
      ret := DevSend(m);
    }

    /** The queue index moves on before the message is sent. */
    method NextToSend() returns (m: Msg)
      requires Valid() && queue != tail
      modifies this`queue
      ensures Handing(m) && Waiting() < old(Waiting())
    {
      hide Run, Traced;
      m := buffer[queue];
      if kept {
        InOrder();
        TakeIn(buffer[..], head, queue);
      }
      queue := Next(queue, buffer.Length);
    }

    /** dev_send: the hardware takes the message, and may report any number of completions
        before it returns. */
    method DevSend(m: Msg) returns (ret: Code)
      requires Handing(m)
      modifies this`head, this`queue, this`sent, this`completed, this`txsem, this`txint
      ensures Valid() && old(sent) + [m] <= sent && old(completed) <= completed && ret == OK && txsem >= old(txsem)
      ensures Held() <= old(Held()) && Waiting() <= old(Waiting())
      decreases Held(), Waiting(), 2
    {
      hide Run, Next, Count, Traced;
      sent := sent + [m];
      var reports: nat := *;
      while reports > 0 && head != queue
        invariant Valid() && old(sent) + [m] <= sent && old(completed) <= completed && txsem >= old(txsem)
        invariant Held() <= old(Held()) && Waiting() <= old(Waiting())
      {
        var r := TxDone();
        reports := reports - 1;
      }
      ret := OK;
    }

    /** can_txdone, for a completion of a message that is in flight, or a stray one while the FIFO
        is empty. */
    method TxDone() returns (ret: Code)
      requires Valid() && (kept ==> head == tail || head != queue)
      modifies this`head, this`queue, this`sent, this`completed, this`txsem, this`txint
      ensures Valid() && old(sent) <= sent && old(completed) <= completed
      ensures Held() <= old(Held()) && Waiting() <= old(Waiting())
      ensures if old(head) == tail then ret == ENOENT && completed == old(completed) && sent == old(sent)
              else
                && |completed| > |old(completed)|
                && ret == (if old(Held()) == 1 then EIO else if sent == old(sent) then EBUSY else OK)
                && (txint <==> ret != EIO)
      ensures txsem >= old(txsem) + if ret == OK && ntxwaiters > 0 then 1 else 0
      decreases Held(), Waiting(), 1
    {
      hide Run, Traced;
      ret := ENOENT;
      if head != tail {
        assert kept ==> head != queue;
        if kept {
          InOrder();
          Remove(buffer[..], head, tail);
          Remove(buffer[..], head, queue);
        }
        completed := completed + [buffer[head]];
        head := Next(head, buffer.Length);
        ret := Xmit();
        if ret == OK && ntxwaiters > 0 {
          txsem := txsem + 1;
        }
      }
    }

    /** The end of a turn of can_write: the message goes where the tail is, and the tail to where
        the writer worked out before it slept. The ring still shows what was accepted if and only
        if the tail has not moved meanwhile. */
    method Store(m: Msg, nexttail: nat)
      requires Valid() && nexttail < buffer.Length && nexttail != head
      modifies this`tail, this`accepted, this`kept, this`stores, buffer
      ensures Valid() && accepted == old(accepted) + [m] && tail == nexttail
      ensures stores == old(stores) + [Stored(m, nexttail)]
      ensures kept <==> old(kept) && nexttail == Next(old(tail), buffer.Length)
      ensures old(kept) ==> (Ordered() <==> nexttail == Next(old(tail), buffer.Length))
      ensures old(kept) ==> StoredBehind(old(Run(buffer[..], head, tail)), m, nexttail == Next(old(tail), buffer.Length),
                                         Run(buffer[..], head, tail))
    {
      hide Run, Traced;
      ghost var s := buffer[..];
      TracedMore(stores, accepted, tail, kept, buffer.Length, m, nexttail);
      StoreAt(s, head, tail, nexttail, m);
      if kept {
        InOrder();
        if nexttail == Next(tail, buffer.Length) {
          Append(s, head, tail, m);
        }
      }
      accepted, stores := accepted + [m], stores + [Stored(m, nexttail)];
      buffer[tail] := m;
      assert buffer[..] == s[old(tail) := m];
      kept := kept && nexttail == Next(tail, buffer.Length);
      tail := nexttail;
    }

    /** What happens while a writer sleeps on the semaphore: completions of messages in flight,
        other writers that start the hardware, and other writers that add messages, with a next
        tail that they may have worked out at any time, unless the writer is alone. */
    method Sleep(alone: bool)
      requires Valid()
      modifies this`head, this`queue, this`tail, this`sent, this`completed, this`accepted, this`kept, this`stores, this`txsem, this`txint, buffer
      ensures Valid() && old(sent) <= sent && old(completed) <= completed && old(stores) <= stores
      ensures alone ==> stores == old(stores)
    {
      hide Run, Next, Count, Ordered, Traced;
      var events: nat := *;
      while events > 0
        invariant Valid() && old(sent) <= sent && old(completed) <= completed && old(stores) <= stores
        invariant alone ==> stores == old(stores)
      {
        var completion: bool, kick: bool, other: Msg, nexttail: nat := *, *, *, *;
        if completion && head != queue {
          var r := TxDone();
        } else if kick {
          var r := Xmit();
        } else if !alone && nexttail < buffer.Length && nexttail != head {
          Store(other, nexttail);
        }
        events := events - 1;
      }
    }

    /** Wait on the semaphore of the FIFO. Each sem_wait succeeds, is interrupted, or fails for
        good; after patience of them the last is what happens. */
    method Wait(alone: bool, patience: nat) returns (err: Code, left: nat)
      requires Valid() && ntxwaiters < 255
      modifies this, buffer
      ensures Valid() && ntxwaiters == old(ntxwaiters) && (err == OK || err.Errno?)
      ensures old(sent) <= sent && old(completed) <= completed && old(stores) <= stores
      ensures (alone ==> stores == old(stores)) && (err == OK ==> left < patience)
    {
      hide Run, Count, Traced;
      left := patience;
      var interrupted := true;
      while interrupted
        invariant Valid() && ntxwaiters == old(ntxwaiters) && left <= patience
        invariant old(sent) <= sent && old(completed) <= completed && old(stores) <= stores
        invariant (alone ==> stores == old(stores)) && (!interrupted ==> left < patience)
        decreases left, interrupted
      {
        assert ntxwaiters < 255;
        ntxwaiters := ntxwaiters + 1;
        Sleep(alone);
        ntxwaiters := ntxwaiters - 1;
        if left == 0 {
          var e: int := *;
          return Errno(e), left;
        }
        left, interrupted := left - 1, *;
      }
      err := OK;
    }

    /** The inner loop of can_write: until the next tail, as it was worked out before, is not
        the head. */
    method AwaitSpace(nexttail: nat, alone: bool, inactive0: bool, patience: nat) returns (err: Code, inactive: bool, left: nat)
      requires Valid() && ntxwaiters < 255
      modifies this, buffer
      ensures Valid() && ntxwaiters == old(ntxwaiters) && (err == OK || err.Errno?)
      ensures old(sent) <= sent && old(completed) <= completed && old(stores) <= stores
      ensures (alone ==> stores == old(stores)) && (err == OK ==> nexttail != head)
      ensures nexttail != old(head) ==> err == OK && unchanged(this) && unchanged(buffer)
    {
      hide Run, Next, Count, Ordered, Traced;
      inactive, left, err := inactive0, patience, OK;
      while nexttail == head
        invariant Valid() && ntxwaiters == old(ntxwaiters) && err == OK
        invariant old(sent) <= sent && old(completed) <= completed && old(stores) <= stores
        invariant alone ==> stores == old(stores)
        invariant nexttail != old(head) ==> unchanged(this) && unchanged(buffer)
        decreases left
      {
        if inactive {
          var r := Xmit();
        }
        err, left := Wait(alone, left);
        if err != OK {
          return;
        }
        inactive := *;
      }
    }

    /** One turn of can_write: work out the next tail, wait while it is the head, and store. The
        message is then in the ring behind all others if and only if the tail was not moved
        before the store. A nonblocking call does not wait. */
    method Turn(m: Msg, nonblock: bool, alone: bool, inactive0: bool, patience: nat) returns (err: Code, inactive: bool, left: nat)
      requires Valid() && ntxwaiters < 255
      modifies this, buffer
      ensures Valid() && ntxwaiters == old(ntxwaiters)
      ensures old(sent) <= sent && old(completed) <= completed && old(stores) <= stores
      ensures err != OK ==> if nonblock then err == EAGAIN && unchanged(this) && unchanged(buffer) else err.Errno?
      ensures err == OK ==> |stores| > |old(stores)| && stores[|stores| - 1] == Stored(m, Next(old(tail), buffer.Length))
      ensures alone || nonblock ==> stores == old(stores) + if err == OK then [Stored(m, Next(old(tail), buffer.Length))] else []
      ensures alone || nonblock ==> kept == old(kept) && accepted == old(accepted) + if err == OK then [m] else []
      ensures err == OK && (forall i | 0 <= i < |stores| - 1 :: FreshAt(stores, i, buffer.Length)) ==>
                (Ordered() <==> TailAt(stores, |stores| - 1) == old(tail))
      ensures nonblock ==> (err == OK <==> old(Held()) < buffer.Length - 1)
      ensures nonblock && err == OK ==> Held() == old(Held()) + 1 && completed == old(completed) && sent == old(sent)
    {
      hide Run, Ordered, Traced, FreshAt, TailAt;
      FullMeans(head, tail, buffer.Length);
      ghost var stores0, accepted0, tail0, kept0 := stores, accepted, tail, kept;
      var nexttail := Next(tail, buffer.Length);
      err, inactive, left := OK, inactive0, patience;
      if nonblock && nexttail == head {
        err := EAGAIN;
      } else {
        err, inactive, left := AwaitSpace(nexttail, alone, inactive0, patience);
      }
      if alone || nonblock {
        TracedSame(stores, accepted0, tail0, kept0, accepted, tail, kept, buffer.Length);
      }
      if err == OK {
        TracedMeans();
        StillFresh(stores, Stored(m, nexttail), buffer.Length);
        NextIsInjective(tail, old(tail), buffer.Length);
        Store(m, nexttail);
      }
    }

    lemma TracedMeans()
      requires Valid()
      ensures |stores| == |accepted| && tail == TailAt(stores, |stores|)
      ensures forall i | 0 <= i < |stores| :: stores[i].m == accepted[i] && stores[i].nexttail < buffer.Length
      ensures kept <==> forall i | 0 <= i < |stores| :: FreshAt(stores, i, buffer.Length)
    {
    }

    /** can_write, for a buffer that holds the messages and then fewer bytes than a header. The
        call makes one store for each message that it adds, msgs[..|at|], in order. The order is
        kept if and only if it was before, the other writers store where they looked, and so does
        this call; it does so, and nothing comes between its messages, when it is alone. A
        nonblocking call adds as many as there is room for; if that is not all of them, it returns
        without having started the hardware. */
    method Write(msgs: seq<Msg>, extra: nat, nonblock: bool, alone: bool, patience: nat)
      returns (ret: Written, ghost at: seq<nat>)
      requires Valid() && ntxwaiters < 255 && extra < hdr
      modifies this, buffer
      ensures Valid() && ntxwaiters == old(ntxwaiters)
      ensures old(sent) <= sent && old(completed) <= completed && old(stores) <= stores
      ensures OwnStores(at, msgs, |old(stores)|, old(tail), stores, buffer.Length)
      ensures kept <==> KeptOver(at, |old(stores)|, old(tail), old(kept), stores, buffer.Length)
      ensures alone || nonblock ==> kept == old(kept) && accepted == old(accepted) + msgs[..|at|]
      ensures ret.Sent? ==> ret.nbytes == Bytes(hdr, msgs[..|at|]) && (nonblock || |at| == |msgs|)
      ensures ret.Failed? ==> |at| < |msgs| && if nonblock then ret.code == EAGAIN else ret.code.Errno?
      ensures nonblock ==>
          && |at| == Min(|msgs|, buffer.Length - 1 - old(Held()))
          && (ret.Failed? <==> at == [] && msgs != [])
          && (|at| < |msgs| ==> sent == old(sent))
    {
      hide Run, OwnStores, Bytes, MsgLen, Next, Ordered, Traced, KeptOver, FreshAt;
      ghost var stores0, accepted0, tail0, kept0 := stores, accepted, tail, kept;
      var inactive: bool := *;
      var err, nsent;
      err, nsent, inactive, at := AddAll(msgs, extra, nonblock, alone, inactive, patience);
      TracedMeans();
      OwnMeans(at, msgs, |stores0|, tail0, stores, buffer.Length);
      KeptMeans(at, msgs, tail0, stores0, accepted0, kept0, stores, accepted, tail, kept, buffer.Length);
      if err == OK {
        if inactive {
          var r := Xmit();
        }
        ret := Sent(nsent);
      } else {
        ret := if err == EAGAIN && nsent > 0 then Sent(nsent) else Failed(err);
      }
    }

    /** The loop of can_write. */
    method AddAll(msgs: seq<Msg>, extra: nat, nonblock: bool, alone: bool, inactive0: bool, patience: nat)
      returns (err: Code, nsent: nat, inactive: bool, ghost at: seq<nat>)
      requires Valid() && ntxwaiters < 255 && extra < hdr
      modifies this, buffer
      ensures Valid() && ntxwaiters == old(ntxwaiters)
      ensures old(sent) <= sent && old(completed) <= completed && old(stores) <= stores
      ensures OwnStores(at, msgs, |old(stores)|, old(tail), stores, buffer.Length)
      ensures alone || nonblock ==> kept == old(kept) && accepted == old(accepted) + msgs[..|at|]
      ensures |at| <= |msgs| && nsent == Bytes(hdr, msgs[..|at|]) && (nsent > 0 <==> at != [])
      ensures if err == OK then |at| == |msgs| else |at| < |msgs| && if nonblock then err == EAGAIN else err.Errno?
      ensures nonblock ==> sent == old(sent) && Held() == old(Held()) + |at| && (err != OK ==> Held() == buffer.Length - 1)
    {
      hide Run, Count, OwnStores, InCall, Bytes, MsgLen, Next, Ordered, Traced, FreshAt;
      ghost var n := buffer.Length;
      var buflen, k, left := Bytes(hdr, msgs) + extra, 0, patience;
      err, nsent, inactive, at := OK, 0, inactive0, [];
      FirstBytes(hdr, msgs, extra);
      TracedMeans();
      NoStores(msgs, tail, stores, n);
      while buflen - nsent >= hdr
        invariant Valid() && ntxwaiters == old(ntxwaiters) && k <= |msgs| && err == OK
        invariant nsent == Bytes(hdr, msgs[..k]) && (buflen - nsent >= hdr <==> k < |msgs|) && (nsent > 0 <==> k > 0)
        invariant old(sent) <= sent && old(completed) <= completed && old(stores) <= stores
        invariant |at| == k && InCall(at, msgs, |old(stores)|, old(tail), stores, n, tail)
        invariant alone || nonblock ==> kept == old(kept) && accepted == old(accepted) + msgs[..k]
        invariant nonblock ==> completed == old(completed) && sent == old(sent) && Held() == old(Held()) + k
        decreases |msgs| - k
      {
        ghost var before, tail1 := stores, tail;
        err, inactive, left := Turn(msgs[k], nonblock, alone, inactive, left);
        TracedMeans();
        if err != OK {
          InCallMeans(at, msgs, |old(stores)|, old(tail), before, n, tail1);
          OwnLater(at, msgs, |old(stores)|, old(tail), before, stores, n);
          return;
        }
        OwnNext(at, msgs, |old(stores)|, old(tail), before, n, tail1, stores);
        at := at + [|stores| - 1];
        NextBytes(hdr, msgs, extra, k);
        nsent := nsent + MsgLen(hdr, msgs[k]);
        k := k + 1;
      }
      InCallMeans(at, msgs, |old(stores)|, old(tail), stores, n, tail);
    }
  }

  /** Two writers on a FIFO of three: one works out its next tail while two messages fill the
      FIFO and sleeps; after a completion the other adds a message; the first one's message is
      then accepted, but the ring does not hold it. */
  method LostMessage(a: Msg, b: Msg, c: Msg, x: Msg) returns (fifo: TxFifo)
    requires x != a && x != b && x != c
    ensures fifo.Valid() && fifo.accepted == [a, b, c, x] && x !in fifo.completed
    ensures x !in Run(fifo.buffer[..], fifo.head, fifo.tail) && !fifo.Ordered()
  {
    fifo := Filled(a, b);
    var nexttail := Next(fifo.tail, 3);
    assert nexttail == fifo.head;
    Progress(fifo);
    AddAndAdd(fifo, c, x, nexttail);
  }

  method Filled(a: Msg, b: Msg) returns (fifo: TxFifo)
    ensures fresh(fifo) && fresh(fifo.buffer) && fifo.buffer.Length == 3
    ensures fifo.Valid() && fifo.kept && fifo.accepted == [a, b] && fifo.sent == fifo.completed == [] && fifo.head == 0 && fifo.tail == 2
  {
    hide Run, TxFifo.Ordered;
    fifo := new TxFifo(3, 2);
    fifo.Store(a, Next(fifo.tail, 3));
    fifo.Store(b, Next(fifo.tail, 3));
  }

  /** At least one message is completed. */
  method Progress(fifo: TxFifo)
    requires fifo.Valid() && fifo.kept && fifo.head != fifo.tail && fifo.completed == [] && fifo.sent == []
    modifies fifo`head, fifo`queue, fifo`sent, fifo`completed, fifo`txsem, fifo`txint
    ensures fifo.Valid() && fifo.completed != []
  {
    hide Run;
    fifo.InOrder();
    var r := fifo.SendOne();
    fifo.InOrder();
    if fifo.head != fifo.queue {
      r := fifo.TxDone();
    }
  }

  /** One writer adds c, and then another one adds x with the same next tail. */
  method AddAndAdd(fifo: TxFifo, c: Msg, x: Msg, nexttail: nat)
    requires fifo.Valid() && fifo.kept && nexttail < fifo.buffer.Length && nexttail != fifo.head
    requires nexttail == Next(fifo.tail, fifo.buffer.Length) && x != c && x !in fifo.accepted
    modifies fifo`tail, fifo`accepted, fifo`kept, fifo`stores, fifo.buffer
    ensures fifo.Valid() && fifo.accepted == old(fifo.accepted) + [c, x] && !fifo.Ordered()
    ensures x !in fifo.completed && x !in Run(fifo.buffer[..], fifo.head, fifo.tail)
  {
    hide Run;
    fifo.Store(c, nexttail);
    fifo.InOrder();
    ghost var ring := Run(fifo.buffer[..], fifo.head, fifo.tail);
    assert fifo.accepted == fifo.completed + ring;
    assert forall m :: m in fifo.completed || m in ring ==> m in fifo.accepted;
    fifo.Store(x, nexttail);
  }

  lemma NoBytes(hdr: nat)
    ensures Bytes(hdr, []) == 0
  {
  }

  lemma PushBytes(hdr: nat, msgs: seq<Msg>, m: Msg)
    ensures Bytes(hdr, msgs + [m]) == Bytes(hdr, msgs) + MsgLen(hdr, m)
  {
  }

  /** The longest run of whole messages from the front that fits into buflen bytes. */
  ghost predicate LongestFit(hdr: nat, out: seq<Msg>, held: seq<Msg>, buflen: nat) {
    && out <= held && Bytes(hdr, out) <= buflen
    && forall k | |out| < k <= |held| :: Bytes(hdr, held[..k]) > buflen
  }

  /** Where the next message does not fit, no longer run does. */
  lemma {:induction false} NothingLonger(hdr: nat, held: seq<Msg>, n: nat, k: nat)
    requires n <= k <= |held|
    ensures Bytes(hdr, held[..n]) <= Bytes(hdr, held[..k])
  {
    BytesSplit(hdr, held[..k], n);
    assert held[..k][..n] == held[..n];
  }

  lemma HeldFrom(before: seq<Msg>, out: seq<Msg>, rest: seq<Msg>)
    ensures (before + out + rest)[|before|..] == out + rest
  {
  }

  lemma StopsAtLongest(hdr: nat, out: seq<Msg>, held: seq<Msg>, buflen: nat)
    requires out <= held && Bytes(hdr, out) <= buflen
    requires |out| < |held| ==> Bytes(hdr, out) + MsgLen(hdr, held[|out|]) > buflen
    ensures LongestFit(hdr, out, held, buflen)
  {
    forall k | |out| < k <= |held| ensures Bytes(hdr, held[..k]) > buflen {
      assert held[..|out| + 1] == out + [held[|out|]] && (out + [held[|out|]])[..|out|] == out;
      NothingLonger(hdr, held, |out| + 1, k);
    }
  }

  class RxFifo {
    const hdr: nat
    const buffer: array<Msg>
    var head: nat
    var tail: nat
    /** Every message that was taken in, and every message that was given to a reader. */
    ghost var arrived: seq<Msg>
    ghost var delivered: seq<Msg>

    ghost predicate Valid()
      reads this, buffer
    {
      && head < buffer.Length && tail < buffer.Length
      && arrived == delivered + Run(buffer[..], head, tail)
    }

    constructor (size: nat, hdr: nat)
      requires size > 0
      ensures Valid() && fresh(buffer) && buffer.Length == size && this.hdr == hdr && arrived == []
    {
      this.hdr := hdr;
      buffer := new Msg[size];
      head, tail, arrived, delivered := 0, 0, [], [];
    }

    /** The enqueue half of can_receive: it refuses a message only when all entries but one are
        held. */
    method Receive(m: Msg) returns (ret: Code)
      requires Valid()
      modifies this`tail, this`arrived, buffer
      ensures Valid()
      ensures ret == if |old(arrived)| - |delivered| == buffer.Length - 1 then ENOMEM else OK
      ensures arrived == if ret == OK then old(arrived) + [m] else old(arrived)
    {
      hide Run;
      FullMeans(head, tail, buffer.Length);
      ret := ENOMEM;
      if Next(tail, buffer.Length) != head {
        Append(buffer[..], head, tail, m);
        arrived := arrived + [m];
        buffer[tail] := m;
        assert buffer[..] == old(buffer[..])[old(tail) := m];
        tail := Next(tail, buffer.Length);
        ret := OK;
      }
    }

    /** While a reader sleeps: messages arrive, and other readers take some. */
    method Sleep()
      requires Valid()
      modifies this, buffer
      ensures Valid() && old(arrived) <= arrived && old(delivered) <= delivered
    {
      hide Run;
      var events: nat := *;
      while events > 0
        invariant Valid() && old(arrived) <= arrived && old(delivered) <= delivered
      {
        var arrival: bool, m: Msg, room: nat := *, *, *;
        if arrival {
          var r := Receive(m);
        } else if head != tail {
          var out := Drain(room);
        }
        events := events - 1;
      }
    }

    /** The copy loop of can_read: whole messages as long as they fit. */
    method Drain(buflen: nat) returns (out: seq<Msg>)
      requires Valid() && head != tail
      modifies this`head, this`delivered
      ensures Valid() && delivered == old(delivered) + out
      ensures LongestFit(hdr, out, arrived[|old(delivered)|..], buflen)
    {
      hide Run, Bytes, Next;
      NoBytes(hdr);
      out := [];
      var nread := 0;
      while head != tail
        invariant Valid() && delivered == old(delivered) + out
        invariant nread == Bytes(hdr, out) <= buflen
        decreases |arrived| - |delivered|
      {
        var m := buffer[head];
        Remove(buffer[..], head, tail);
        if nread + MsgLen(hdr, m) > buflen {
          break;
        }
        PushBytes(hdr, out, m);
        nread := nread + MsgLen(hdr, m);
        out, delivered := out + [m], delivered + [m];
        head := Next(head, buffer.Length);
      }
      HeldFrom(old(delivered), out, Run(buffer[..], head, tail));
      StopsAtLongest(hdr, out, arrived[|old(delivered)|..], buflen);
    }

    /** can_read. A buffer that is too small for a header reads nothing; otherwise, once there
        are messages, the call returns the longest run of whole messages that fits, which may
        be empty, and removes exactly those. */
    method Read(buflen: nat, nonblock: bool, patience: nat) returns (err: Code, out: seq<Msg>, ghost from: nat)
      requires Valid()
      modifies this, buffer
      ensures Valid() && old(arrived) <= arrived && |old(delivered)| <= from <= |arrived|
      ensures delivered == arrived[..from] + out
      ensures err == OK && buflen >= hdr ==> from < |arrived| && LongestFit(hdr, out, arrived[from..], buflen)
      ensures err != OK || buflen < hdr ==> out == []
      ensures err != OK ==> buflen >= hdr && if nonblock then err == EAGAIN else err.Errno?
      ensures nonblock || old(head) != old(tail) ==> from == |old(delivered)| && arrived == old(arrived)
      ensures nonblock ==> (err == EAGAIN <==> buflen >= hdr && old(arrived) == old(delivered))
    {
      hide Run, Bytes, LongestFit;
      out, err, from := [], OK, |delivered|;
      if buflen >= hdr {
        var left := patience;
        while head == tail
          invariant Valid() && old(arrived) <= arrived && |old(delivered)| <= |delivered|
          invariant nonblock || old(head) != old(tail) ==> delivered == old(delivered) && arrived == old(arrived) && head == old(head) && tail == old(tail)
          decreases left
        {
          from := |delivered|;
          if nonblock {
            return EAGAIN, [], from;
          }
          Sleep();
          from := |delivered|;
          if left == 0 {
            var e: int := *;
            return Errno(e), [], from;
          }
          left := left - 1;
        }
        from := |delivered|;
        out := Drain(buflen);
      }
    }
  }
}
