/**
 Threads that share a descriptor table (nuttx/fs/fs_open.c, fs_files.c, fs_filedup.c,
 fs_filedup2.c). A call is several regions, each under the tree or the list semaphore, or a read
 of a slot with no lock at all; between them the other threads of the table run.
 */
module FileRuns {
  import opened Common
  import opened Spaces
  import opened FileSystems
  import opened Files
  import opened PathNames

  /** Where a thread is. Of open: inode_find has found n; files_allocate has filled slot fd; and
      inode_release of n is next. Of file_dup: the test of slot fd has passed; its inode x was read
      for inode_addref; the reference is taken; the slot was read again for files_allocate; there
      was no free slot; and y was read once more, to be released. Of dup2: the tests have passed;
      then, under the list semaphore to the end, slot fd2 is closed; and it is a copy of fd1, for
      which the driver's open method runs. */
  datatype Pc =
    | Idle
    | HasRef(n: Inode)
    | Holding(fd: nat, n: Inode)
    | Giving(n: Inode)
    | DupTested(fd: nat, minfd: nat)
    | DupRead(fd: nat, minfd: nat, x: Inode?)
    | DupHeld(fd: nat, minfd: nat, x: Inode?)
    | DupArgs(fd: nat, minfd: nat, x: Inode?, f: File)
    | DupFailed(fd: nat, x: Inode?)
    | DupGiving(x: Inode?, y: Inode?)
    | Dup2Tested(fd1: nat, fd2: nat)
    | Dup2Closed(fd1: nat, fd2: nat)
    | Dup2Opening(fd2: nat)

  /** The tree, the table, and the threads; the references of everyone else do not change. */
  datatype State = State(v: View, root: Inode?, files: seq<File>, pcs: seq<Pc>)

  /** The next region of a thread: its own step, or the first of a new call. */
  datatype Event =
    | Look(t: nat, path: string)
    | Reject(t: nat)
    | Alloc(t: nat, oflags: OpenFlags)
    | Opened(t: nat)
    | Undo(t: nat)
    | Give(t: nat)
    | Close(t: nat, fd: nat)
    | Dup(t: nat, fd: nat, minfd: nat)
    | DupLook(t: nat)
    | DupTake(t: nat)
    | DupArg(t: nat)
    | DupAlloc(t: nat)
    | DupAgain(t: nat)
    | DupGive(t: nat)
    | Dup2(t: nat, fd1: nat, fd2: nat)
    | Dup2Close(t: nat, ok: bool)
    | Dup2Copy(t: nat)
    | Dup2Opened(t: nat)
    | Dup2Undo(t: nat)

  /** The reference that a thread holds in the middle of a call. */
  function OwedBy(pc: Pc): Inode? {
    match pc
    case HasRef(n) => n
    case Giving(n) => n
    case DupHeld(_, _, x) => x
    case DupArgs(_, _, x, _) => x
    case DupFailed(_, x) => x
    case DupGiving(x, _) => x
    case _ => null
  }

  function Debt(pc: Pc): File {
    File(NO_FLAGS, 0, OwedBy(pc))
  }

  function Debts(pcs: seq<Pc>): (r: seq<File>)
    ensures |r| == |pcs|
  {
    seq(|pcs|, i requires 0 <= i < |pcs| => Debt(pcs[i]))
  }

  /** What a thread has read of a free slot is all zero. */
  predicate PcOk(s: State, pc: Pc) {
    match pc
    case Holding(fd, _) => fd < |s.files|
    case DupTested(fd, _) => fd < |s.files|
    case DupRead(fd, _, _) => fd < |s.files|
    case DupHeld(fd, _, _) => fd < |s.files|
    case DupArgs(fd, _, _, f) => fd < |s.files| && (f.f_inode == null ==> f == CLOSED)
    case DupFailed(fd, _) => fd < |s.files|
    case Dup2Tested(fd1, fd2) => fd1 < |s.files| && fd2 < |s.files| && fd1 != fd2
    case Dup2Closed(fd1, fd2) => fd1 < |s.files| && fd2 < |s.files| && fd1 != fd2
    case Dup2Opening(fd2) => fd2 < |s.files|
    case _ => true
  }

  /** The thread keeps the list semaphore between two of its regions. */
  predicate Locks(pc: Pc) {
    pc.Dup2Closed? || pc.Dup2Opening?
  }

  /** No other thread keeps the list semaphore. */
  predicate Unlocked(s: State, t: nat) {
    forall u | 0 <= u < |s.pcs| && u != t :: !Locks(s.pcs[u])
  }

  /** One thread at most keeps it, and a slot that was closed to be filled is still free. */
  ghost predicate LockOk(s: State) {
    forall t | 0 <= t < |s.pcs| && Locks(s.pcs[t]) ::
      && Unlocked(s, t)
      && (s.pcs[t].Dup2Closed? ==> s.pcs[t].fd2 < |s.files| && s.files[s.pcs[t].fd2].f_inode == null)
  }

  /** Every reference that is out is held by a slot, by a thread in the middle of a call, or by
      someone else, and is safe. */
  ghost predicate Good(s: State, ext: multiset<Inode>) {
    && Consistent(s.v, s.root, null) && Balanced(s.v, s.files, Refs(Debts(s.pcs)) + ext)
    && forall t | 0 <= t < |s.pcs| :: PcOk(s, s.pcs[t])
  }

  /** The step can be taken: the thread is there, and no freed node is touched. */
  ghost predicate Enabled(s: State, e: Event) {
    && e.t < |s.pcs| && PcOk(s, s.pcs[e.t])
    && var pc := s.pcs[e.t];
       match e
       case Look(_, path) => pc == Idle && Lookup(s.v, path).Some? && Lookup(s.v, path).value in s.v.cells
       case Reject(_) => pc.HasRef?
       case Alloc(_, _) => pc.HasRef? && Unlocked(s, e.t)
       case Opened(_) => pc.Holding?
       case Undo(_) => pc.Holding? && Unlocked(s, e.t)
       case Give(_) => pc.Giving? && pc.n in s.v.cells
       case Close(_, fd) => pc == Idle && fd < |s.files| && Live(s.v, s.files[fd].f_inode) && Unlocked(s, e.t)
       case Dup(_, fd, _) => pc == Idle && fd < |s.files| && s.files[fd].f_inode != null
       case DupLook(_) => pc.DupTested?
       case DupTake(_) => pc.DupRead? && Live(s.v, pc.x)
       case DupArg(_) => pc.DupHeld?
       case DupAlloc(_) => pc.DupArgs? && Unlocked(s, e.t)
       case DupAgain(_) => pc.DupFailed?
       case DupGive(_) => pc.DupGiving? && Live(s.v, pc.y)
       case Dup2(_, fd1, fd2) =>
         pc == Idle && fd1 < |s.files| && fd2 < |s.files| && fd1 != fd2 && s.files[fd1].f_inode != null
       case Dup2Close(_, _) => pc.Dup2Tested? && Live(s.v, s.files[pc.fd2].f_inode) && Unlocked(s, e.t)
       case Dup2Copy(_) => pc.Dup2Closed? && s.files[pc.fd1].f_inode != null && Live(s.v, s.files[pc.fd1].f_inode)
       case Dup2Opened(_) => pc.Dup2Opening?
       case Dup2Undo(_) => pc.Dup2Opening? && Live(s.v, s.files[pc.fd2].f_inode)
  }

  ghost predicate Live(v: View, n: Inode?) {
    n != null ==> n in v.cells
  }

  function To(s: State, t: nat, pc: Pc): State
    requires t < |s.pcs|
  {
    s.(pcs := s.pcs[t := pc])
  }

  ghost function TakenMaybe(v: View, n: Inode?): View
    requires Live(v, n)
  {
    if n == null then v else TakeView(v, n)
  }

  ghost function Next(s: State, e: Event): (s': State)
    requires Enabled(s, e)
    ensures |s'.pcs| == |s.pcs| && |s'.files| == |s.files|
  {
    var t, pc := e.t, s.pcs[e.t];
    match e
    case Look(_, path) => var n := Lookup(s.v, path).value; To(s.(v := TakeView(s.v, n)), t, HasRef(n))
    case Reject(_) => To(s, t, Giving(pc.n))
    case Alloc(_, oflags) =>
      var fd := LowestFree(s.files, 0);
      if fd < |s.files| then To(s.(files := s.files[fd := File(oflags, 0, pc.n)]), t, Holding(fd, pc.n))
      else To(s, t, Giving(pc.n))
    case Opened(_) => To(s, t, Idle)
    case Undo(_) => To(s.(files := s.files[pc.fd := CLOSED]), t, Giving(pc.n))
    case Give(_) => To(s.(v := ReleaseView(s.v, pc.n)), t, Idle)
    case Close(_, fd) => CloseSlotOf(s, fd)
    case Dup(_, fd, minfd) => To(s, t, DupTested(fd, minfd))
    case DupLook(_) => To(s, t, DupRead(pc.fd, pc.minfd, s.files[pc.fd].f_inode))
    case DupTake(_) => To(s.(v := TakenMaybe(s.v, pc.x)), t, DupHeld(pc.fd, pc.minfd, pc.x))
    case DupArg(_) => To(s, t, DupArgs(pc.fd, pc.minfd, pc.x, s.files[pc.fd]))
    case DupAlloc(_) =>
      var fd2 := LowestFree(s.files, pc.minfd);
      if pc.minfd < |s.files| && fd2 < |s.files| then To(s.(files := s.files[fd2 := pc.f]), t, Idle)
      else To(s, t, DupFailed(pc.fd, pc.x))
    case DupAgain(_) => To(s, t, DupGiving(pc.x, s.files[pc.fd].f_inode))
    case DupGive(_) => To(s.(v := CloseView(s.v, pc.y)), t, Idle)
    case Dup2(_, fd1, fd2) => To(s, t, Dup2Tested(fd1, fd2))
    case Dup2Close(_, ok) =>
      To(CloseSlotOf(s, pc.fd2), t, if ok || s.files[pc.fd2].f_inode == null then Dup2Closed(pc.fd1, pc.fd2) else Idle)
    case Dup2Copy(_) =>
      var f := s.files[pc.fd1];
      To(s.(v := TakeView(s.v, f.f_inode), files := s.files[pc.fd2 := f]), t, Dup2Opening(pc.fd2))
    case Dup2Opened(_) => To(s, t, Idle)
    case Dup2Undo(_) => To(CloseSlotOf(s, pc.fd2), t, Idle)
  }

  /** _files_close. */
  ghost function CloseSlotOf(s: State, fd: nat): State
    requires fd < |s.files|
  {
    var n := s.files[fd].f_inode;
    s.(v := CloseView(s.v, n), files := if n == null then s.files else s.files[fd := CLOSED])
  }

  /** What the regions that read a slot again rely on: the error exit of open finds in slot fd what
      files_allocate put there; file_dup takes a reference on a node that is still referenced or in
      the tree, fills the new slot with that node, and gives back that node. */
  ghost predicate Intact(s: State, e: Event)
    requires Enabled(s, e)
  {
    var pc := s.pcs[e.t];
    match e
    case Undo(_) => s.files[pc.fd].f_inode == pc.n
    case DupTake(_) => pc.x != null ==> pc.x in s.v.owner && (s.v.owner[pc.x] == None || pc.x in s.v.holders)
    case DupAlloc(_) => pc.minfd < |s.files| && LowestFree(s.files, pc.minfd) < |s.files| ==> pc.f.f_inode == pc.x
    case DupGive(_) => pc.y == pc.x || (pc.x == null && s.v.holders[pc.y] == 0)
    case _ => true
  }

  // ---------------------------------------------------------------------------------------
  // The books
  // ---------------------------------------------------------------------------------------

  lemma DebtsUpdate(pcs: seq<Pc>, t: nat, pc: Pc)
    requires t < |pcs|
    ensures Refs(Debts(pcs[t := pc])) + Ref(OwedBy(pcs[t])) == Refs(Debts(pcs)) + Ref(OwedBy(pc))
  {
    assert Debts(pcs[t := pc]) == Debts(pcs)[t := Debt(pc)];
    RefsUpdate(Debts(pcs), |pcs|, t, Debt(pc));
  }

  /** A slot goes from a to b and a thread from owing c to owing d: the books balance again if and
      only if the references out have changed by as much. */
  lemma Books(r: multiset<Inode>, r': multiset<Inode>, d: multiset<Inode>, d': multiset<Inode>, ext: multiset<Inode>,
              h: multiset<Inode>, h': multiset<Inode>, a: multiset<Inode>, b: multiset<Inode>, c: multiset<Inode>, e: multiset<Inode>)
    requires h == r + (d + ext) && r' + a == r + b && d' + c == d + e
    ensures h' == r' + (d' + ext) <==> h' + a + c == h + b + e
  {
    assert r' + (d' + ext) + a + c == (r' + a) + (d' + c) + ext;
    assert h + b + e == (r + b) + (d + e) + ext;
    if h' + a + c == r' + (d' + ext) + a + c {
      Assoc(h', a, c);
      Assoc(r' + (d' + ext), a, c);
      Cancel(h', r' + (d' + ext), a + c);
    }
  }

  lemma Assoc(x: multiset<Inode>, y: multiset<Inode>, z: multiset<Inode>)
    ensures x + y + z == x + (y + z)
  {
  }

  lemma Cancel(x: multiset<Inode>, y: multiset<Inode>, z: multiset<Inode>)
    requires x + z == y + z
    ensures x == y
  {
    assert x == x + z - z && y == y + z - z;
  }

  // ---------------------------------------------------------------------------------------
  // The steps
  // ---------------------------------------------------------------------------------------

  /** A thread moves on and the tree may change, but no slot. */
  lemma MoveOnly(s: State, t: nat, pc: Pc, v': View, ext: multiset<Inode>)
    requires Good(s, ext) && t < |s.pcs| && PcOk(s, pc) && Consistent(v', s.root, null) && Safe(v')
    ensures Good(To(s.(v := v'), t, pc), ext) <==>
            v'.holders + Ref(OwedBy(s.pcs[t])) == s.v.holders + Ref(OwedBy(pc))
  {
    hide Consistent, Safe, Refs, Ref;
    var s' := To(s.(v := v'), t, pc);
    DebtsUpdate(s.pcs, t, pc);
    var r, none := Refs(s.files), multiset{};
    assert v'.holders + none == v'.holders && s.v.holders + none == s.v.holders;
    Books(r, r, Refs(Debts(s.pcs)), Refs(Debts(s'.pcs)), ext, s.v.holders, v'.holders, none, none, Ref(OwedBy(s.pcs[t])), Ref(OwedBy(pc)));
    assert forall i | 0 <= i < |s'.pcs| :: PcOk(s', s'.pcs[i]) by {
      assert forall i | 0 <= i < |s.pcs| :: PcOk(s, s.pcs[i]);
    }
  }

  /** A thread moves on, the tree may change, and slot i becomes f. */
  lemma MoveSlot(s: State, t: nat, pc: Pc, v': View, i: nat, f: File, ext: multiset<Inode>)
    requires Good(s, ext) && t < |s.pcs| && PcOk(s, pc) && Consistent(v', s.root, null) && Safe(v')
    requires i < |s.files| && (f.f_inode == null ==> f == CLOSED)
    ensures Good(To(s.(v := v', files := s.files[i := f]), t, pc), ext) <==>
            v'.holders + Ref(s.files[i].f_inode) + Ref(OwedBy(s.pcs[t])) == s.v.holders + Ref(f.f_inode) + Ref(OwedBy(pc))
  {
    hide Consistent, Safe, Refs, Ref;
    var s' := To(s.(v := v', files := s.files[i := f]), t, pc);
    DebtsUpdate(s.pcs, t, pc);
    SlotUpdate(s.files, i, f);
    Books(Refs(s.files), Refs(s'.files), Refs(Debts(s.pcs)), Refs(Debts(s'.pcs)), ext, s.v.holders, v'.holders,
          Ref(s.files[i].f_inode), Ref(f.f_inode), Ref(OwedBy(s.pcs[t])), Ref(OwedBy(pc)));
    assert forall j | 0 <= j < |s'.pcs| :: PcOk(s', s'.pcs[j]) by {
      assert forall j | 0 <= j < |s.pcs| :: PcOk(s, s.pcs[j]);
    }
  }

  lemma SlotUpdate(files: seq<File>, i: nat, f: File)
    requires i < |files|
    ensures Refs(files[i := f]) + Ref(files[i].f_inode) == Refs(files) + Ref(f.f_inode)
  {
    RefsUpdate(files, |files|, i, f);
  }

  /** What the books say of a thread and of a slot. */
  lemma GoodMeans(s: State, ext: multiset<Inode>)
    requires Good(s, ext)
    ensures Consistent(s.v, s.root, null) && Safe(s.v)
    ensures forall n | n in s.v.holders :: n in s.v.cells && n in s.v.owner
    ensures forall i | 0 <= i < |s.files| :: s.files[i].f_inode == null ==> s.files[i] == CLOSED
    ensures forall t | 0 <= t < |s.pcs| :: PcOk(s, s.pcs[t])
  {
    forall n | n in s.v.holders ensures n in s.v.cells && n in s.v.owner {
      assert s.v.holders[n] > 0;
    }
  }

  lemma Contains(r': multiset<Inode>, r: multiset<Inode>, n: Inode)
    requires r' + Ref(n) == r + Ref(null)
    ensures r[n] > 0
  {
    assert (r' + Ref(n))[n] > 0 && (r + Ref(null))[n] == r[n];
  }

  /** What a slot holds, and what a thread owes, is referenced. */
  lemma SlotIsHeld(s: State, ext: multiset<Inode>, i: nat)
    requires Good(s, ext) && i < |s.files| && s.files[i].f_inode != null
    ensures s.files[i].f_inode in s.v.holders
  {
    SlotUpdate(s.files, i, CLOSED);
    Contains(Refs(s.files[i := CLOSED]), Refs(s.files), s.files[i].f_inode);
  }

  lemma DebtIsHeld(s: State, ext: multiset<Inode>, t: nat)
    requires Good(s, ext) && t < |s.pcs| && OwedBy(s.pcs[t]) != null
    ensures OwedBy(s.pcs[t]) in s.v.holders
  {
    DebtsUpdate(s.pcs, t, Idle);
    Contains(Refs(Debts(s.pcs[t := Idle])), Refs(Debts(s.pcs)), OwedBy(s.pcs[t]));
  }

  lemma TakenIsGood(v: View, root: Inode?, n: Inode)
    requires Consistent(v, root, null) && n in v.cells
    ensures Consistent(TakeView(v, n), root, null) && TakeView(v, n).holders == v.holders + multiset{n}
    ensures n in v.owner && Safe(v) ==> (Safe(TakeView(v, n)) <==> v.owner[n] == None || n in v.holders)
  {
    Taken(v, root, n);
    if n in v.owner && Safe(v) && Safe(TakeView(v, n)) && v.owner[n] != None {
      assert NodeOk(v, n, null);
      assert TakeView(v, n).holders[n] > 0;
    }
  }

  lemma ReleasedIsGood(v: View, root: Inode?, n: Inode)
    requires Consistent(v, root, null) && n in v.cells && Safe(v)
    ensures Consistent(ReleaseView(v, n), root, null) && Safe(ReleaseView(v, n))
    ensures ReleaseView(v, n).holders == v.holders - multiset{n}
  {
    Dropped(v, root, n);
    if v.cells[n].deleted && DropView(v, n).holders[n] == 0 {
      FreeConsistent(DropView(v, n), root, n);
    }
  }

  /** A thread takes a reference on n. */
  lemma MoveTake(s: State, t: nat, pc: Pc, n: Inode, ext: multiset<Inode>)
    requires Good(s, ext) && t < |s.pcs| && PcOk(s, pc) && n in s.v.cells && n in s.v.owner
    requires OwedBy(s.pcs[t]) == null && OwedBy(pc) == n
    ensures Good(To(s.(v := TakeView(s.v, n)), t, pc), ext) <==> s.v.owner[n] == None || n in s.v.holders
  {
    GoodMeans(s, ext);
    TakenIsGood(s.v, s.root, n);
    hide Consistent;
    if s.v.owner[n] == None || n in s.v.holders {
      hide Safe, Good;
      MoveOnly(s, t, pc, TakeView(s.v, n), ext);
      TakeBooks(s.v.holders, n);
    }
  }

  lemma TakeBooks(h: multiset<Inode>, n: Inode)
    ensures h + multiset{n} + Ref(null) == h + Ref(n)
  {
  }

  /** A thread gives a reference on y back. */
  lemma MoveGive(s: State, t: nat, pc: Pc, y: Inode, ext: multiset<Inode>)
    requires Good(s, ext) && t < |s.pcs| && PcOk(s, pc) && y in s.v.cells && OwedBy(pc) == null
    ensures var x := OwedBy(s.pcs[t]);
            Good(To(s.(v := ReleaseView(s.v, y)), t, pc), ext) <==> x == y || (x == null && s.v.holders[y] == 0)
  {
    GoodMeans(s, ext);
    var x := OwedBy(s.pcs[t]);
    if x != null {
      DebtIsHeld(s, ext, t);
    }
    ReleasedIsGood(s.v, s.root, y);
    hide Consistent, Safe, Good;
    MoveOnly(s, t, pc, ReleaseView(s.v, y), ext);
    GiveBooks(s.v.holders, y, x);
  }

  lemma GiveBooks(h: multiset<Inode>, y: Inode, x: Inode?)
    ensures h - multiset{y} + Ref(x) == h + Ref(null) <==> (x == y && y in h) || (x == null && y !in h)
  {
    if x == y && y in h {
      assert h - multiset{y} + Ref(x) == h + Ref(null);
    } else if x == null && y !in h {
      assert h - multiset{y} + Ref(x) == h + Ref(null);
    } else {
      var m: Inode := if x == null || x == y then y else x;
      assert (h - multiset{y} + Ref(x))[m] != (h + Ref(null))[m];
    }
  }

  lemma LookIsGood(s: State, e: Event, ext: multiset<Inode>)
    requires Good(s, ext) && e.Look? && Enabled(s, e)
    ensures Good(Next(s, e), ext)
  {
    GoodMeans(s, ext);
    LookedUp(s.v, s.root, e.path);
    hide Consistent, Safe, Good, TakeView;
    var n := Lookup(s.v, e.path).value;
    MoveTake(s, e.t, HasRef(n), n, ext);
  }

  lemma LookedUp(v: View, root: Inode?, path: string)
    requires Consistent(v, root, null) && Lookup(v, path).Some?
    ensures var n := Lookup(v, path).value; n in v.owner && v.owner[n] == None
  {
    TreeNode(v, root, Resolve(v.ns, v.cells, Top, path[1..]).at);
  }

  /** A thread moves on, and nothing else. */
  lemma MoveHere(s: State, t: nat, pc: Pc, ext: multiset<Inode>)
    requires Good(s, ext) && t < |s.pcs| && PcOk(s, pc)
    ensures Good(To(s, t, pc), ext) <==> OwedBy(s.pcs[t]) == OwedBy(pc)
  {
    GoodMeans(s, ext);
    hide Consistent, Safe, Good;
    MoveOnly(s, t, pc, s.v, ext);
    SameRef(s.v.holders, OwedBy(s.pcs[t]), OwedBy(pc));
    assert s.(v := s.v) == s;
  }

  /** A thread moves on, and slot i becomes f. */
  lemma SlotHere(s: State, t: nat, pc: Pc, i: nat, f: File, ext: multiset<Inode>)
    requires Good(s, ext) && t < |s.pcs| && PcOk(s, pc)
    requires i < |s.files| && (f.f_inode == null ==> f == CLOSED)
    ensures Good(To(s.(files := s.files[i := f]), t, pc), ext) <==>
            s.v.holders + Ref(s.files[i].f_inode) + Ref(OwedBy(s.pcs[t])) == s.v.holders + Ref(f.f_inode) + Ref(OwedBy(pc))
  {
    GoodMeans(s, ext);
    hide Consistent, Safe, Good, Ref;
    MoveSlot(s, t, pc, s.v, i, f, ext);
    assert s.(v := s.v, files := s.files[i := f]) == s.(files := s.files[i := f]);
  }

  lemma OpenIsGood(s: State, e: Event, ext: multiset<Inode>)
    requires Good(s, ext) && Enabled(s, e) && (e.Reject? || e.Opened?)
    ensures Good(Next(s, e), ext)
  {
    hide Good;
    MoveHere(s, e.t, if e.Opened? then Idle else Giving(s.pcs[e.t].n), ext);
  }

  lemma AllocIsGood(s: State, e: Event, ext: multiset<Inode>)
    requires Good(s, ext) && Enabled(s, e) && e.Alloc?
    ensures Good(Next(s, e), ext)
  {
    hide Good, Ref;
    var n, fd := s.pcs[e.t].n, LowestFree(s.files, 0);
    if fd < |s.files| {
      FreeIsNull(s.files, 0);
      SlotHere(s, e.t, Holding(fd, n), fd, File(e.oflags, 0, n), ext);
      Swap(s.v.holders, null, n);
    } else {
      MoveHere(s, e.t, Giving(n), ext);
    }
  }

  /** A slot goes from x to y and a debt from y to x, or the other way. */
  lemma Swap(h: multiset<Inode>, x: Inode?, y: Inode?)
    ensures h + Ref(x) + Ref(y) == h + Ref(y) + Ref(x)
  {
  }

  lemma {:induction false} FreeIsNull(s: seq<File>, minfd: nat)
    ensures minfd < |s| && LowestFree(s, minfd) < |s| ==> s[LowestFree(s, minfd)].f_inode == null
    decreases |s| - minfd
  {
    if minfd < |s| && s[minfd].f_inode != null {
      FreeIsNull(s, minfd + 1);
    }
  }

  /** The error exit of open keeps the books if and only if slot fd holds what files_allocate put
      there. */
  lemma UndoIsGood(s: State, e: Event, ext: multiset<Inode>)
    requires Good(s, ext) && e.Undo? && Enabled(s, e)
    ensures Good(Next(s, e), ext) <==> Intact(s, e)
  {
    hide Good, Ref;
    var pc := s.pcs[e.t];
    SlotHere(s, e.t, Giving(pc.n), pc.fd, CLOSED, ext);
    SameRef(s.v.holders, s.files[pc.fd].f_inode, pc.n);
  }

  lemma SameRef(h: multiset<Inode>, x: Inode?, y: Inode?)
    ensures h + Ref(x) + Ref(null) == h + Ref(null) + Ref(y) <==> x == y
    ensures h + Ref(null) + Ref(x) == h + Ref(y) + Ref(null) <==> x == y
    ensures h + Ref(x) == h + Ref(y) <==> x == y
  {
    if x != y {
      var m: Inode := if x != null then x else y;
      assert (h + Ref(x) + Ref(null))[m] != (h + Ref(null) + Ref(y))[m];
      assert (h + Ref(x))[m] != (h + Ref(y))[m];
      assert (h + Ref(null) + Ref(x))[m] != (h + Ref(y) + Ref(null))[m];
    }
  }

  lemma GiveIsGood(s: State, e: Event, ext: multiset<Inode>)
    requires Good(s, ext) && e.Give? && Enabled(s, e)
    ensures Good(Next(s, e), ext)
  {
    hide Good, ReleaseView;
    MoveGive(s, e.t, Idle, s.pcs[e.t].n, ext);
  }

  /** _files_close keeps the books. */
  lemma CloseIsGood(s: State, fd: nat, ext: multiset<Inode>)
    requires Good(s, ext) && fd < |s.files| && Live(s.v, s.files[fd].f_inode) && s.pcs != []
    ensures Good(CloseSlotOf(s, fd), ext)
  {
    var n := s.files[fd].f_inode;
    if n != null {
      GoodMeans(s, ext);
      SlotIsHeld(s, ext, fd);
      ReleasedIsGood(s.v, s.root, n);
      hide Consistent, Safe, Good, ReleaseView;
      assert s.pcs[0 := s.pcs[0]] == s.pcs;
      MoveSlot(s, 0, s.pcs[0], ReleaseView(s.v, n), fd, CLOSED, ext);
      CloseBooks(s.v.holders, n, OwedBy(s.pcs[0]));
    }
  }

  lemma CloseBooks(h: multiset<Inode>, n: Inode, x: Inode?)
    requires n in h
    ensures h - multiset{n} + Ref(n) + Ref(x) == h + Ref(null) + Ref(x)
  {
  }

  lemma DupIsGood(s: State, e: Event, ext: multiset<Inode>)
    requires Good(s, ext) && Enabled(s, e) && (e.Dup? || e.DupLook? || e.DupAgain? || e.Dup2?)
    ensures Good(Next(s, e), ext)
  {
    hide Good, Ref;
    var pc := s.pcs[e.t];
    match e
    case Dup(_, fd, minfd) => MoveHere(s, e.t, DupTested(fd, minfd), ext);
    case DupLook(_) => MoveHere(s, e.t, DupRead(pc.fd, pc.minfd, s.files[pc.fd].f_inode), ext);
    case DupAgain(_) => MoveHere(s, e.t, DupGiving(pc.x, s.files[pc.fd].f_inode), ext);
    case Dup2(_, fd1, fd2) => MoveHere(s, e.t, Dup2Tested(fd1, fd2), ext);
  }

  lemma DupArgIsGood(s: State, e: Event, ext: multiset<Inode>)
    requires Good(s, ext) && Enabled(s, e) && e.DupArg?
    ensures Good(Next(s, e), ext)
  {
    hide Ref;
    var pc := s.pcs[e.t];
    SlotIsClosed(s, pc.fd, ext);
    hide Good;
    MoveHere(s, e.t, DupArgs(pc.fd, pc.minfd, pc.x, s.files[pc.fd]), ext);
  }

  lemma DupTakeIsGood(s: State, e: Event, ext: multiset<Inode>)
    requires Good(s, ext) && e.DupTake? && Enabled(s, e)
    ensures Good(Next(s, e), ext) <==> Intact(s, e)
  {
    hide Good, TakeView;
    var pc := s.pcs[e.t];
    var pc' := DupHeld(pc.fd, pc.minfd, pc.x);
    if pc.x == null {
      MoveHere(s, e.t, pc', ext);
    } else {
      HasOwner(s, pc.x, ext);
      MoveTake(s, e.t, pc', pc.x, ext);
    }
  }

  lemma HasOwner(s: State, n: Inode, ext: multiset<Inode>)
    requires Good(s, ext) && n in s.v.cells
    ensures n in s.v.owner
  {
  }

  lemma SlotIsClosed(s: State, fd: nat, ext: multiset<Inode>)
    requires Good(s, ext) && fd < |s.files|
    ensures s.files[fd].f_inode == null ==> s.files[fd] == CLOSED
  {
  }

  lemma DupAllocIsGood(s: State, e: Event, ext: multiset<Inode>)
    requires Good(s, ext) && e.DupAlloc? && Enabled(s, e)
    ensures Good(Next(s, e), ext) <==> Intact(s, e)
  {
    hide Good, Ref;
    var pc, fd2 := s.pcs[e.t], LowestFree(s.files, s.pcs[e.t].minfd);
    if pc.minfd < |s.files| && fd2 < |s.files| {
      FreeIsNull(s.files, pc.minfd);
      SlotHere(s, e.t, Idle, fd2, pc.f, ext);
      SameRef(s.v.holders, pc.x, pc.f.f_inode);
    } else {
      MoveHere(s, e.t, DupFailed(pc.fd, pc.x), ext);
    }
  }

  lemma DupGiveIsGood(s: State, e: Event, ext: multiset<Inode>)
    requires Good(s, ext) && e.DupGive? && Enabled(s, e)
    ensures Good(Next(s, e), ext) <==> Intact(s, e)
  {
    hide Good, ReleaseView;
    var pc := s.pcs[e.t];
    if pc.y == null {
      MoveHere(s, e.t, Idle, ext);
    } else {
      MoveGive(s, e.t, Idle, pc.y, ext);
    }
  }

  lemma Dup2CloseIsGood(s: State, e: Event, ext: multiset<Inode>)
    requires Good(s, ext) && (e.Dup2Close? || e.Dup2Opened? || e.Dup2Undo?) && Enabled(s, e)
    ensures Good(Next(s, e), ext)
  {
    hide Good, CloseView, Ref;
    var pc, s1 := s.pcs[e.t], if e.Dup2Opened? then s else CloseSlotOf(s, s.pcs[e.t].fd2);
    if !e.Dup2Opened? {
      CloseIsGood(s, pc.fd2, ext);
    }
    MoveHere(s1, e.t, Next(s, e).pcs[e.t], ext);
  }

  lemma Dup2CopyIsGood(s: State, e: Event, ext: multiset<Inode>)
    requires Good(s, ext) && LockOk(s) && e.Dup2Copy? && Enabled(s, e)
    ensures Good(Next(s, e), ext)
  {
    hide Good, TakeView, Ref;
    var pc := s.pcs[e.t];
    assert Locks(pc);
    CopyIsGood(s, e.t, pc.fd1, pc.fd2, ext);
  }

  /** A free slot becomes a copy of another, with a reference of its own. */
  lemma CopyIsGood(s: State, t: nat, fd1: nat, fd2: nat, ext: multiset<Inode>)
    requires Good(s, ext) && t < |s.pcs| && OwedBy(s.pcs[t]) == null && fd1 < |s.files| && fd2 < |s.files|
    requires s.files[fd1].f_inode != null && s.files[fd2].f_inode == null && s.files[fd1].f_inode in s.v.cells
    ensures var n := s.files[fd1].f_inode;
            Good(To(s.(v := TakeView(s.v, n), files := s.files[fd2 := s.files[fd1]]), t, Dup2Opening(fd2)), ext)
  {
    var n := s.files[fd1].f_inode;
    GoodMeans(s, ext);
    SlotIsHeld(s, ext, fd1);
    TakenIsGood(s.v, s.root, n);
    hide Consistent, Safe, Good, TakeView;
    MoveSlot(s, t, Dup2Opening(fd2), TakeView(s.v, n), fd2, s.files[fd1], ext);
    CopyBooks(s.v.holders, n);
  }

  lemma CopyBooks(h: multiset<Inode>, n: Inode)
    ensures h + multiset{n} + Ref(null) + Ref(null) == h + Ref(n) + Ref(null)
  {
  }

  /** Every region keeps the books if and only if it finds what it relies on. */
  lemma StepKeeps(s: State, e: Event, ext: multiset<Inode>)
    requires Good(s, ext) && LockOk(s) && Enabled(s, e)
    ensures Good(Next(s, e), ext) <==> Intact(s, e)
  {
    match e
    case Look(_, _) => LookIsGood(s, e, ext);
    case Alloc(_, _) => AllocIsGood(s, e, ext);
    case Undo(_) => UndoIsGood(s, e, ext);
    case Give(_) => GiveIsGood(s, e, ext);
    case Close(_, fd) => CloseIsGood(s, fd, ext);
    case DupTake(_) => DupTakeIsGood(s, e, ext);
    case DupArg(_) => DupArgIsGood(s, e, ext);
    case DupAlloc(_) => DupAllocIsGood(s, e, ext);
    case DupGive(_) => DupGiveIsGood(s, e, ext);
    case Dup2Close(_, _) => Dup2CloseIsGood(s, e, ext);
    case Dup2Copy(_) => Dup2CopyIsGood(s, e, ext);
    case Dup2Opened(_) => Dup2CloseIsGood(s, e, ext);
    case Dup2Undo(_) => Dup2CloseIsGood(s, e, ext);
    case Reject(_) => OpenIsGood(s, e, ext);
    case Opened(_) => OpenIsGood(s, e, ext);
    case _ => DupIsGood(s, e, ext);
  }

  /** A thread gets the list semaphore only while no other keeps it, with its slot free. */
  lemma OwnLock(s: State, e: Event)
    requires Enabled(s, e) && LockOk(s) && Locks(Next(s, e).pcs[e.t])
    ensures Unlocked(s, e.t)
    ensures var pc := Next(s, e).pcs[e.t]; pc.Dup2Closed? ==> pc.fd2 < |s.files| && Next(s, e).files[pc.fd2].f_inode == null
  {
    hide TakeView, ReleaseView, CloseView, LowestFree, Lookup, Live;
  }

  /** While one keeps it, no step of another fills a slot. */
  lemma LockedStay(s: State, e: Event, u: nat, i: nat)
    requires Enabled(s, e) && LockOk(s) && u < |s.pcs| && u != e.t && Locks(s.pcs[u])
    requires i < |s.files| && s.files[i].f_inode == null
    ensures Next(s, e).files[i].f_inode == null
  {
    hide TakeView, ReleaseView, CloseView, LowestFree, Lookup, Live;
    assert !Locks(s.pcs[e.t]);
  }

  /** The list semaphore has one keeper at most, and a slot closed under it stays free. */
  lemma LockKept(s: State, e: Event)
    requires LockOk(s) && Enabled(s, e)
    ensures LockOk(Next(s, e))
  {
    hide Next, Enabled;
    var s' := Next(s, e);
    forall t | 0 <= t < |s'.pcs| && Locks(s'.pcs[t])
      ensures Unlocked(s', t) && (s'.pcs[t].Dup2Closed? ==> s'.pcs[t].fd2 < |s'.files| && s'.files[s'.pcs[t].fd2].f_inode == null)
    {
      LockKeptAt(s, e, t);
    }
  }

  lemma LockKeptAt(s: State, e: Event, t: nat)
    requires LockOk(s) && Enabled(s, e) && t < |s.pcs| && Locks(Next(s, e).pcs[t])
    ensures var s' := Next(s, e);
            Unlocked(s', t) && (s'.pcs[t].Dup2Closed? ==> s'.pcs[t].fd2 < |s'.files| && s'.files[s'.pcs[t].fd2].f_inode == null)
  {
    assert e.t < |s.pcs|;
    hide Next, Enabled;
    var s' := Next(s, e);
    forall u | 0 <= u < |s.pcs| && u != e.t ensures s'.pcs[u] == s.pcs[u] {
      OthersStay(s, e, u);
    }
    if Locks(s'.pcs[e.t]) {
      OwnLock(s, e);
    }
    if t != e.t && s.pcs[t].Dup2Closed? {
      LockedStay(s, e, t, s.pcs[t].fd2);
    }
  }

  // ---------------------------------------------------------------------------------------
  // Runs
  // ---------------------------------------------------------------------------------------

  /** states[i] takes events[i] to states[i + 1]. */
  ghost predicate Chain(states: seq<State>, events: seq<Event>) {
    && |states| == |events| + 1
    && forall i | 0 <= i < |events| :: Enabled(states[i], events[i]) && states[i + 1] == Next(states[i], events[i])
  }

  ghost predicate Steps(s: State, e: Event, s': State) {
    Enabled(s, e) && s' == Next(s, e)
  }

  /** A run from books in order, with all threads outside. */
  ghost predicate Run(states: seq<State>, events: seq<Event>, ext: multiset<Inode>) {
    Chain(states, events) && Good(states[0], ext) && forall t | 0 <= t < |states[0].pcs| :: states[0].pcs[t] == Idle
  }

  lemma {:induction false} RunLocks(states: seq<State>, events: seq<Event>, ext: multiset<Inode>, i: nat)
    requires Run(states, events, ext) && i < |states|
    ensures LockOk(states[i])
  {
    hide Good, Enabled, Next;
    if i == 0 {
      assert forall t | 0 <= t < |states[0].pcs| :: !Locks(states[0].pcs[t]);
    } else {
      RunLocks(states, events, ext, i - 1);
      LockKept(states[i - 1], events[i - 1]);
    }
  }

  /** As long as every region finds what it relies on, the books are in order; the first that does
      not find it breaks them. */
  lemma {:induction false} RunKeeps(states: seq<State>, events: seq<Event>, ext: multiset<Inode>, i: nat)
    requires Run(states, events, ext) && i < |states|
    requires forall k | 0 <= k < i - 1 :: Intact(states[k], events[k])
    ensures Good(states[i], ext) <==> i == 0 || Intact(states[i - 1], events[i - 1])
  {
    hide Good, Enabled, Next, Intact, LockOk;
    if i > 0 {
      RunKeeps(states, events, ext, i - 1);
      RunLocks(states, events, ext, i - 1);
      StepKeeps(states[i - 1], events[i - 1], ext);
    }
  }

  /** The step is the next one of its thread. */
  ghost predicate Ready(s: State, e: Event) {
    && e.t < |s.pcs|
    && var pc := s.pcs[e.t];
       match e
       case Look(_, path) => pc == Idle && Lookup(s.v, path).Some?
       case Close(_, fd) => pc == Idle && fd < |s.files| && Unlocked(s, e.t)
       case Give(_) => pc.Giving?
       case DupTake(_) => pc.DupRead?
       case DupGive(_) => pc.DupGiving?
       case Dup2Close(_, _) => pc.Dup2Tested? && Unlocked(s, e.t)
       case Dup2Copy(_) => pc.Dup2Closed?
       case Dup2Undo(_) => pc.Dup2Opening?
       case _ => Enabled(s, e)
  }

  /** It uses a node that has been freed, or no node at all. */
  ghost predicate Faults(s: State, e: Event)
    requires Ready(s, e) && PcOk(s, s.pcs[e.t])
  {
    var pc := s.pcs[e.t];
    match e
    case DupTake(_) => !Live(s.v, pc.x)
    case DupGive(_) => !Live(s.v, pc.y)
    case Dup2Copy(_) => s.files[pc.fd1].f_inode == null
    case _ => false
  }

  /** While the books are in order nothing else goes wrong. */
  lemma OnlyFaults(s: State, e: Event, ext: multiset<Inode>)
    requires Good(s, ext) && Ready(s, e)
    ensures PcOk(s, s.pcs[e.t]) && (Enabled(s, e) <==> !Faults(s, e))
  {
    hide Good;
    HasPcOk(s, e.t, ext);
    var pc := s.pcs[e.t];
    match e
    case Look(_, path) => LookedLive(s, path, ext);
    case Close(_, fd) => SlotIsLive(s, fd, ext);
    case Give(_) => DebtIsLive(s, e.t, ext);
    case Dup2Close(_, _) => SlotIsLive(s, pc.fd2, ext);
    case Dup2Copy(_) => SlotIsLive(s, pc.fd1, ext);
    case Dup2Undo(_) => SlotIsLive(s, pc.fd2, ext);
    case _ =>
  }

  lemma HasPcOk(s: State, t: nat, ext: multiset<Inode>)
    requires Good(s, ext) && t < |s.pcs|
    ensures PcOk(s, s.pcs[t])
  {
  }

  lemma LookedLive(s: State, path: string, ext: multiset<Inode>)
    requires Good(s, ext) && Lookup(s.v, path).Some?
    ensures Lookup(s.v, path).value in s.v.cells
  {
    TreeNode(s.v, s.root, Resolve(s.v.ns, s.v.cells, Top, path[1..]).at);
  }

  lemma SlotIsLive(s: State, fd: nat, ext: multiset<Inode>)
    requires Good(s, ext) && fd < |s.files|
    ensures Live(s.v, s.files[fd].f_inode)
  {
    if s.files[fd].f_inode != null {
      SlotIsHeld(s, ext, fd);
    }
  }

  lemma DebtIsLive(s: State, t: nat, ext: multiset<Inode>)
    requires Good(s, ext) && t < |s.pcs| && OwedBy(s.pcs[t]) != null
    ensures OwedBy(s.pcs[t]) in s.v.cells
  {
    DebtIsHeld(s, ext, t);
  }

  // ---------------------------------------------------------------------------------------
  // Threads that leave one another's descriptors alone
  // ---------------------------------------------------------------------------------------

  /** The slot that a call in progress works on. */
  function Watched(pc: Pc): Option<nat> {
    match pc
    case Holding(fd, _) => Some(fd)
    case DupTested(fd, _) => Some(fd)
    case DupRead(fd, _, _) => Some(fd)
    case DupHeld(fd, _, _) => Some(fd)
    case DupArgs(fd, _, _, _) => Some(fd)
    case DupFailed(fd, _) => Some(fd)
    case Dup2Tested(fd1, _) => Some(fd1)
    case Dup2Closed(fd1, _) => Some(fd1)
    case _ => None
  }

  /** What a thread remembers of that slot is still so. */
  predicate Remembers(s: State, pc: Pc) {
    PcOk(s, pc) &&
    match pc
    case Holding(fd, n) => s.files[fd].f_inode == n
    case DupTested(fd, _) => s.files[fd].f_inode != null
    case DupRead(fd, _, x) => x != null && s.files[fd].f_inode == x
    case DupHeld(fd, _, x) => x != null && s.files[fd].f_inode == x
    case DupArgs(fd, _, x, f) => x != null && s.files[fd].f_inode == x && f.f_inode == x
    case DupFailed(fd, x) => x != null && s.files[fd].f_inode == x
    case DupGiving(x, y) => x == y
    case Dup2Tested(fd1, _) => s.files[fd1].f_inode != null
    case Dup2Closed(fd1, _) => s.files[fd1].f_inode != null
    case _ => true
  }

  ghost predicate Mindful(s: State) {
    forall t | 0 <= t < |s.pcs| :: Remembers(s, s.pcs[t])
  }

  /** The slot that a step empties or replaces. */
  function Changed(s: State, e: Event): Option<nat>
    requires e.t < |s.pcs|
  {
    match e
    case Close(_, fd) => Some(fd)
    case Undo(_) => Watched(s.pcs[e.t])
    case Dup2Close(_, _) => Target(s.pcs[e.t])
    case Dup2Copy(_) => Target(s.pcs[e.t])
    case Dup2Undo(_) => Target(s.pcs[e.t])
    case _ => None
  }

  function Target(pc: Pc): Option<nat> {
    match pc
    case Dup2Tested(_, fd2) => Some(fd2)
    case Dup2Closed(_, fd2) => Some(fd2)
    case Dup2Opening(fd2) => Some(fd2)
    case _ => None
  }

  /** A step closes or replaces no descriptor that a call of another thread works on. */
  ghost predicate Calm(s: State, e: Event)
    requires e.t < |s.pcs|
  {
    Changed(s, e).Some? ==> forall u | 0 <= u < |s.pcs| && u != e.t :: Watched(s.pcs[u]) != Changed(s, e)
  }

  /** A mindful thread finds what it relies on, and never touches a freed node. */
  lemma MindfulIsIntact(s: State, e: Event, ext: multiset<Inode>)
    requires Good(s, ext) && Mindful(s) && Ready(s, e)
    ensures Enabled(s, e) && Intact(s, e)
  {
    hide Good, TakeView, ReleaseView, CloseView, LowestFree, Lookup;
    OnlyFaults(s, e, ext);
    var pc := s.pcs[e.t];
    assert Remembers(s, pc);
    if pc.DupRead? {
      SlotIsHeld(s, ext, pc.fd);
      SlotIsLive(s, pc.fd, ext);
      HasOwner(s, pc.x, ext);
    } else if pc.DupGiving? && pc.x != null {
      DebtIsLive(s, e.t, ext);
    }
  }

  /** A slot changes only where a step says, or from free to filled. */
  lemma SlotsStay(s: State, e: Event, i: nat)
    requires Enabled(s, e) && i < |s.files| && s.files[i].f_inode != null && Changed(s, e) != Some(i)
    ensures Next(s, e).files[i] == s.files[i]
  {
    hide TakeView, ReleaseView, CloseView, LowestFree, Lookup;
    FreeIsNull(s.files, 0);
    if e.DupAlloc? {
      FreeIsNull(s.files, s.pcs[e.t].minfd);
    }
  }

  lemma OthersStay(s: State, e: Event, u: nat)
    requires Enabled(s, e) && u < |s.pcs| && u != e.t
    ensures Next(s, e).pcs[u] == s.pcs[u]
  {
    hide TakeView, ReleaseView, CloseView, LowestFree, Lookup;
  }

  lemma StaysMindful(s: State, e: Event, u: nat)
    requires Enabled(s, e) && u < |s.pcs| && Remembers(s, s.pcs[u]) && u != e.t && Calm(s, e)
    ensures Remembers(Next(s, e), Next(s, e).pcs[u])
  {
    var w, s' := Watched(s.pcs[u]), Next(s, e);
    if w.Some? {
      SlotsStay(s, e, w.value);
    }
    OthersStay(s, e, u);
    hide Next, Enabled, Calm, Changed;
  }

  lemma MovesMindful(s: State, e: Event)
    requires Enabled(s, e) && Remembers(s, s.pcs[e.t])
    ensures Remembers(Next(s, e), Next(s, e).pcs[e.t])
  {
    hide TakeView, ReleaseView, CloseView, LowestFree, Lookup;
    FreeIsNull(s.files, 0);
  }

  lemma CalmKeeps(s: State, e: Event)
    requires Mindful(s) && Enabled(s, e) && Calm(s, e)
    ensures Mindful(Next(s, e))
  {
    var s' := Next(s, e);
    forall u | 0 <= u < |s'.pcs| ensures Remembers(s', s'.pcs[u]) {
      assert Remembers(s, s.pcs[u]);
      if u == e.t {
        MovesMindful(s, e);
      } else {
        StaysMindful(s, e, u);
      }
    }
  }

  /** Over any run in which no thread closes or replaces a descriptor that a call of another works
      on, the books are in order and no step faults. */
  lemma {:induction false} CalmRunIsGood(states: seq<State>, events: seq<Event>, ext: multiset<Inode>, i: nat)
    requires Run(states, events, ext) && i < |states|
    requires forall k | 0 <= k < i :: events[k].t < |states[k].pcs| && Calm(states[k], events[k])
    ensures Good(states[i], ext) && Mindful(states[i])
    ensures forall e :: Ready(states[i], e) ==> Enabled(states[i], e)
  {
    hide Good, Next, Intact, Calm, Enabled, Ready, LockOk;
    if i == 0 {
      OutsideIsMindful(states[0]);
    } else {
      CalmRunIsGood(states, events, ext, i - 1);
      EnabledIsReady(states[i - 1], events[i - 1]);
      MindfulIsIntact(states[i - 1], events[i - 1], ext);
      RunLocks(states, events, ext, i - 1);
      StepKeeps(states[i - 1], events[i - 1], ext);
      CalmKeeps(states[i - 1], events[i - 1]);
    }
    forall e | Ready(states[i], e) ensures Enabled(states[i], e) {
      MindfulIsIntact(states[i], e, ext);
    }
  }

  lemma OutsideIsMindful(s: State)
    requires forall t | 0 <= t < |s.pcs| :: s.pcs[t] == Idle
    ensures Mindful(s)
  {
  }

  lemma EnabledIsReady(s: State, e: Event)
    requires Enabled(s, e)
    ensures Ready(s, e)
  {
  }

  /** One thread at a time is calm: while no other is inside a call, nothing is disturbed. */
  lemma AloneIsCalm(s: State, e: Event)
    requires e.t < |s.pcs| && forall u | 0 <= u < |s.pcs| && u != e.t :: s.pcs[u] == Idle
    ensures Calm(s, e)
  {
  }

  // ---------------------------------------------------------------------------------------
  // On the table
  // ---------------------------------------------------------------------------------------

  ghost function Now(table: FileTable, pcs: seq<Pc>): State
    reads table, table.files, table.fs
  {
    State.State(table.fs.view, table.fs.root_inode, table.files[..], pcs)
  }

  /** Every step is what the source does in that region, on the table and the tree. */
  method Perform(table: FileTable, pcs: seq<Pc>, e: Event) returns (pcs': seq<Pc>)
    requires table.fs.Valid() && Enabled(Now(table, pcs), e)
    modifies table.files, table.fs`view, table.fs.view.cells.Keys`i_crefs
    ensures table.fs.Valid() && Now(table, pcs') == Next(old(Now(table, pcs)), e)
  {
    hide Consistent, Mirrors, TakeView, ReleaseView, Lookup, LowestFree;
    var t, pc := e.t, pcs[e.t];
    match e {
      case Look(_, path) =>
        var n := DoLook(table, path);
        pcs' := pcs[t := HasRef(n)];
      case Reject(_) =>
        pcs' := pcs[t := Giving(pc.n)];
      case Alloc(_, oflags) =>
        var fd := table.ScanFree(0);
        if fd < table.files.Length {
          table.SetSlot(fd, File(oflags, 0, pc.n));
          pcs' := pcs[t := Holding(fd, pc.n)];
        } else {
          pcs' := pcs[t := Giving(pc.n)];
        }
      case Opened(_) =>
        pcs' := pcs[t := Idle];
      case Undo(_) =>
        table.SetSlot(pc.fd, CLOSED);
        pcs' := pcs[t := Giving(pc.n)];
      case Give(_) =>
        table.fs.Release(pc.n);
        pcs' := pcs[t := Idle];
      case Close(_, fd) =>
        DoClose(table, fd);
        pcs' := pcs;
      case Dup(_, fd, minfd) =>
        pcs' := pcs[t := DupTested(fd, minfd)];
      case DupLook(_) =>
        pcs' := pcs[t := DupRead(pc.fd, pc.minfd, table.files[pc.fd].f_inode)];
      case DupTake(_) =>
        table.fs.AddRef(pc.x);
        pcs' := pcs[t := DupHeld(pc.fd, pc.minfd, pc.x)];
      case DupArg(_) =>
        pcs' := pcs[t := DupArgs(pc.fd, pc.minfd, pc.x, table.files[pc.fd])];
      case DupAlloc(_) =>
        var fd2 := table.ScanFree(pc.minfd);
        if fd2 < table.files.Length {
          table.SetSlot(fd2, pc.f);
          pcs' := pcs[t := Idle];
        } else {
          pcs' := pcs[t := DupFailed(pc.fd, pc.x)];
        }
      case DupAgain(_) =>
        pcs' := pcs[t := DupGiving(pc.x, table.files[pc.fd].f_inode)];
      case DupGive(_) =>
        table.fs.Release(pc.y);
        pcs' := pcs[t := Idle];
      case Dup2(_, fd1, fd2) =>
        pcs' := pcs[t := Dup2Tested(fd1, fd2)];
      case Dup2Close(_, ok) =>
        var was := table.files[pc.fd2].f_inode;
        DoClose(table, pc.fd2);
        pcs' := pcs[t := if ok || was == null then Dup2Closed(pc.fd1, pc.fd2) else Idle];
      case Dup2Copy(_) =>
        var f := table.files[pc.fd1];
        table.fs.AddRef(f.f_inode);
        table.SetSlot(pc.fd2, f);
        pcs' := pcs[t := Dup2Opening(pc.fd2)];
      case Dup2Opened(_) =>
        pcs' := pcs[t := Idle];
      case Dup2Undo(_) =>
        DoClose(table, pc.fd2);
        pcs' := pcs[t := Idle];
    }
  }

  /** inode_find, for a path that is there. */
  method DoLook(table: FileTable, path: string) returns (n: Inode)
    requires table.fs.Valid() && Lookup(table.fs.view, path).Some?
    modifies table.fs`view, table.fs.view.cells.Keys`i_crefs
    ensures table.fs.Valid() && Some(n) == Lookup(old(table.fs.view), path) && n in old(table.fs.view.cells)
    ensures table.fs.view == TakeView(old(table.fs.view), n)
  {
    hide Consistent, Mirrors, TakeView, Resolve;
    var m, relpath := table.fs.Find(path);
    n := m;
  }

  /** _files_close. */
  method DoClose(table: FileTable, fd: nat)
    requires table.fs.Valid() && fd < table.files.Length && Live(table.fs.view, table.files[fd].f_inode)
    modifies table.files, table.fs`view, table.fs.view.cells.Keys`i_crefs
    ensures table.fs.Valid()
    ensures var n := old(table.files[fd]).f_inode;
            && table.fs.view == CloseView(old(table.fs.view), n)
            && table.files[..] == if n == null then old(table.files[..]) else old(table.files[..])[fd := CLOSED]
  {
    hide Consistent, Mirrors, ReleaseView;
    var n := table.files[fd].f_inode;
    if n != null {
      table.fs.Release(n);
      table.SetSlot(fd, CLOSED);
    }
  }

  /** The table goes through any run of the machine. */
  method Play(table: FileTable, pcs: seq<Pc>, events: seq<Event>, ghost states: seq<State>) returns (pcs': seq<Pc>)
    requires table.fs.Valid() && Chain(states, events) && states[0] == Now(table, pcs)
    modifies table.files, table.fs`view, table.fs.view.cells.Keys`i_crefs
    ensures table.fs.Valid() && Now(table, pcs') == states[|events|]
  {
    hide Consistent, Mirrors, Enabled, Next;
    pcs' := pcs;
    var i := 0;
    while i < |events|
      invariant 0 <= i <= |events| && table.fs.Valid() && Now(table, pcs') == states[i]
      invariant table.fs.view.cells.Keys <= old(table.fs.view.cells.Keys)
    {
      NextFreesOnly(states[i], events[i]);
      pcs' := Perform(table, pcs', events[i]);
      i := i + 1;
    }
  }

  lemma NextFreesOnly(s: State, e: Event)
    requires Enabled(s, e)
    ensures Next(s, e).v.cells.Keys <= s.v.cells.Keys
  {
    hide LowestFree, Lookup, TakeView, ReleaseView, CloseView;
    var pc := s.pcs[e.t];
    match e
    case Look(_, path) => TakenKeys(s.v, Lookup(s.v, path).value);
    case DupTake(_) => TakenKeys(s.v, pc.x);
    case Give(_) => ClosingFrees(s.v, pc.n);
      assert CloseView(s.v, pc.n) == ReleaseView(s.v, pc.n) by { Closing(s.v, pc.n); }
    case Close(_, fd) => ClosingFrees(s.v, s.files[fd].f_inode);
    case DupGive(_) => ClosingFrees(s.v, pc.y);
    case Dup2Close(_, _) => ClosingFrees(s.v, s.files[pc.fd2].f_inode);
    case Dup2Copy(_) => TakenKeys(s.v, s.files[pc.fd1].f_inode);
    case Dup2Undo(_) => ClosingFrees(s.v, s.files[pc.fd2].f_inode);
    case _ =>
  }

  lemma TakenKeys(v: View, n: Inode?)
    requires Live(v, n)
    ensures TakenMaybe(v, n).cells.Keys == v.cells.Keys
  {
  }

  lemma Closing(v: View, n: Inode)
    requires n in v.cells
    ensures CloseView(v, n) == ReleaseView(v, n)
  {
  }

  // ---------------------------------------------------------------------------------------
  // A descriptor closed while it is being opened
  // ---------------------------------------------------------------------------------------

  /** Thread 0 opens /a; while it opens it a second time, thread 1 closes the new descriptor, and
      the driver's open fails. */
  function CloseInOpenEvents(): seq<Event> {
    [Look(0, "/a"), Alloc(0, NO_FLAGS), Opened(0),
     Look(0, "/a"), Alloc(0, NO_FLAGS), Close(1, 1), Undo(0), Give(0)]
  }

  ghost predicate AtA(v: View, n: Inode) {
    Sub(Top, "a") in v.ns && v.ns[Sub(Top, "a")] == n && n in v.cells
  }

  lemma FindsA(v: View)
    requires Sub(Top, "a") in v.ns
    ensures Lookup(v, "/a") == Some(v.ns[Sub(Top, "a")]) && Resolve(v.ns, v.cells, Top, "a") == Found(Sub(Top, "a"), "")
  {
    assert "/a"[1..] == "a" && Segment("a") == "a" && NextName("a") == "";
    assert Resolve(v.ns, v.cells, Top, "a") == Found(Sub(Top, "a"), "");
  }

  lemma LowestOfTwo(f: File, g: File)
    ensures LowestFree([f, g], 0) == if f.f_inode == null then 0 else if g.f_inode == null then 1 else 2
  {
    assert LowestFree([f, g], 2) == 2;
    assert LowestFree([f, g], 1) == if g.f_inode == null then 1 else 2;
  }

  /** A table of two slots and two threads, of which the second is outside. */
  ghost function Two(v: View, root: Inode?, f: File, g: File, pc: Pc): State {
    State.State(v, root, [f, g], [pc, Idle])
  }

  lemma LooksA(v: View, root: Inode?, f: File, g: File, n: Inode)
    requires AtA(v, n)
    ensures Steps(Two(v, root, f, g, Idle), Look(0, "/a"), Two(TakeView(v, n), root, f, g, HasRef(n)))
  {
    FindsA(v);
    hide TakeView, Lookup;
  }

  lemma AllocsA(v: View, root: Inode?, f: File, n: Inode)
    requires f.f_inode != null
    ensures var o := File(NO_FLAGS, 0, n);
            && Steps(Two(v, root, CLOSED, CLOSED, HasRef(n)), Alloc(0, NO_FLAGS), Two(v, root, o, CLOSED, Holding(0, n)))
            && Steps(Two(v, root, f, CLOSED, HasRef(n)), Alloc(0, NO_FLAGS), Two(v, root, f, o, Holding(1, n)))
  {
    LowestOfTwo(CLOSED, CLOSED);
    LowestOfTwo(f, CLOSED);
    hide LowestFree;
  }

  lemma OpenedA(v: View, root: Inode?, f: File, g: File, n: Inode)
    ensures Steps(Two(v, root, f, g, Holding(0, n)), Opened(0), Two(v, root, f, g, Idle))
  {
  }

  /** The last three steps give a reference back twice. */
  lemma UndoesA(v: View, v1: View, v0: View, root: Inode?, f: File, n: Inode)
    requires n in v.cells && n in v1.cells && ReleaseView(v, n) == v1 && ReleaseView(v1, n) == v0
    ensures var pc := Holding(1, n);
            && Steps(Two(v, root, f, File(NO_FLAGS, 0, n), pc), Close(1, 1), Two(v1, root, f, CLOSED, pc))
            && Steps(Two(v1, root, f, CLOSED, pc), Undo(0), Two(v1, root, f, CLOSED, Giving(n)))
            && Steps(Two(v1, root, f, CLOSED, Giving(n)), Give(0), Two(v0, root, f, CLOSED, Idle))
  {
    hide ReleaseView;
  }

  lemma TakesTwo(v: View, n: Inode) returns (v1: View, v2: View)
    requires AtA(v, n) && v.cells[n].crefs == v.holders[n] && n !in v.detached
    ensures v1 == TakeView(v, n) && AtA(v1, n) && v2 == TakeView(v1, n) && AtA(v2, n)
    ensures ReleaseView(v2, n) == v1 && ReleaseView(v1, n) == v
  {
    v1 := TakeView(v, n);
    v2 := TakeView(v1, n);
    ReleaseUndoesTake(v, n);
    ReleaseUndoesTake(v1, n);
  }

  /** The references are as at the start: that of slot 0 has been given back. */
  lemma CloseInOpenRun(v: View, root: Inode?, n: Inode) returns (states: seq<State>)
    requires AtA(v, n) && v.cells[n].crefs == v.holders[n] && n !in v.detached
    ensures Chain(states, CloseInOpenEvents()) && states[0] == Two(v, root, CLOSED, CLOSED, Idle)
    ensures states[8] == Two(v, root, File(NO_FLAGS, 0, n), CLOSED, Idle)
  {
    var o := File(NO_FLAGS, 0, n);
    var v1, v2 := TakesTwo(v, n);
    hide TakeView, ReleaseView, Two, Steps;
    LooksA(v, root, CLOSED, CLOSED, n);
    AllocsA(v1, root, o, n);
    OpenedA(v1, root, o, CLOSED, n);
    LooksA(v1, root, o, CLOSED, n);
    AllocsA(v2, root, o, n);
    UndoesA(v2, v1, v, root, o, n);
    states := EightSteps(
      Two(v, root, CLOSED, CLOSED, Idle), Two(v1, root, CLOSED, CLOSED, HasRef(n)), Two(v1, root, o, CLOSED, Holding(0, n)),
      Two(v1, root, o, CLOSED, Idle), Two(v2, root, o, CLOSED, HasRef(n)), Two(v2, root, o, o, Holding(1, n)),
      Two(v1, root, o, CLOSED, Holding(1, n)), Two(v1, root, o, CLOSED, Giving(n)), Two(v, root, o, CLOSED, Idle));
  }

  lemma EightSteps(s0: State, s1: State, s2: State, s3: State, s4: State, s5: State, s6: State, s7: State, s8: State)
    returns (states: seq<State>)
    requires Steps(s0, Look(0, "/a"), s1) && Steps(s1, Alloc(0, NO_FLAGS), s2) && Steps(s2, Opened(0), s3)
    requires Steps(s3, Look(0, "/a"), s4) && Steps(s4, Alloc(0, NO_FLAGS), s5)
    requires Steps(s5, Close(1, 1), s6) && Steps(s6, Undo(0), s7) && Steps(s7, Give(0), s8)
    ensures Chain(states, CloseInOpenEvents()) && states[0] == s0 && states[8] == s8
  {
    hide Enabled, Next;
    states := [s0, s1, s2, s3, s4, s5, s6, s7, s8];
  }

  /** From an empty tree and an empty table, with both threads done: slot 0 is open on a node
      with no reference. The node passes the tests of open. */
  method CloseInOpen() returns (table: FileTable, n: Inode)
    ensures fresh(table) && fresh(table.files) && fresh(table.fs) && fresh(table.fs.view.cells.Keys)
    ensures table.fs.Valid() && table.files[..] == [File(NO_FLAGS, 0, n), CLOSED]
    ensures AtA(table.fs.view, n) && table.fs.view.holders == multiset{} && AccessError(n.i_kind, n.i_ops, NO_FLAGS) == None
  {
    hide Consistent, Mirrors, Lookup, Balanced;
    var fs := new FileSystem();
    n := ReserveA(fs);
    Install(fs, n);
    table := new FileTable(fs, 2);
    assert table.files[..] == [CLOSED, CLOSED];
    PlayA(table, n);
  }

  /** The removal of /a then frees the node under the open descriptor. */
  method FreedWhileOpen() returns (table: FileTable, n: Inode)
    ensures table.fs.Valid() && table.files.Length == 2 && table.files[0].f_inode == n && n in table.fs.view.freed
  {
    hide Consistent, Mirrors;
    table, n := CloseInOpen();
    UnlinkA(table.fs);
  }

  method PlayA(table: FileTable, n: Inode)
    requires table.fs.Valid() && AtA(table.fs.view, n) && table.files[..] == [CLOSED, CLOSED]
    requires table.fs.view.cells[n].crefs == table.fs.view.holders[n] && n !in table.fs.view.detached
    modifies table.files, table.fs`view, table.fs.view.cells.Keys`i_crefs
    ensures table.fs.Valid() && table.fs.view == old(table.fs.view) && table.files[..] == [File(NO_FLAGS, 0, n), CLOSED]
  {
    assert |CloseInOpenEvents()| == 8;
    hide Consistent, Mirrors, CloseInOpenEvents, Chain;
    ghost var states := CloseInOpenRun(table.fs.view, table.fs.root_inode, n);
    var pcs := Play(table, [Idle, Idle], CloseInOpenEvents(), states);
  }

  method ReserveA(fs: FileSystem) returns (n: Inode)
    requires fs.Valid() && fs.view.ns == map[] && fs.view.holders == multiset{}
    modifies fs, fs.view.cells.Keys
    ensures fs.Valid() && Safe(fs.view) && AtA(fs.view, n) && fs.view.holders == multiset{} && n !in fs.view.detached
    ensures fs.view.cells[n].crefs == 0 && n.i_kind == Kind.Driver && fresh(n) && fresh(fs.view.cells.Keys - old(fs.view.cells.Keys))
  {
    hide Consistent, Mirrors, Prefixes, Resolve;
    ExamplePrefix(fs.view);
    var status, node, made;
    ghost var trail, ins;
    status, node, made, trail, ins := fs.Reserve("/a", 1);
    n := node;
    assert n.i_kind == fs.view.cells[n].kind by { KindInCell(fs.view.cells, n); }
  }

  lemma KindInCell(cells: Cells, n: Inode)
    requires Mirrors(cells) && n in cells
    ensures n.i_kind == cells[n].kind
  {
  }

  method UnlinkA(fs: FileSystem)
    requires fs.Valid() && Sub(Top, "a") in fs.view.ns && fs.view.holders == multiset{}
    modifies fs, fs.view.cells.Keys
    ensures fs.Valid() && old(fs.view.ns[Sub(Top, "a")]) in fs.view.freed
  {
    hide Consistent, Mirrors, Resolve;
    FindsA(fs.view);
    ghost var node, left, parent;
    var status;
    status, node, left, parent := fs.Remove("/a");
  }

  /** What register_driver does once the node is reserved. */
  method Install(fs: FileSystem, n: Inode)
    requires fs.Valid()
    modifies n`i_ops
    ensures fs.Valid() && n.i_ops == Some(Operations(true, true))
  {
    hide Consistent;
    n.i_ops := Some(Operations(true, true));
  }

  lemma ExamplePrefix(v: View)
    requires v.ns == map[]
    ensures "/a"[1..] == "a" && Prefixes(Top, "a") == [Sub(Top, "a")] && Resolve(v.ns, v.cells, Top, "a") == Missing(Top, "a")
  {
    assert Segment("a") == "a" && NextName("a") == "";
  }
}
