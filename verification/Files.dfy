/**
 The file descriptor table and its references to inodes: open, dup, dup2, close and
 the release of the whole table (nuttx/fs/fs_open.c, fs_files.c, fs_filedup.c, fs_filedup2.c).
 Calls are seen here as if no other thread used the table meanwhile; FileRuns is about threads
 that do.
 */
module Files {
  import opened Common
  import opened Spaces
  import opened FileSystems

  datatype Errno = EMFILE | ENOENT | ENXIO | EACCES | EBADF | ENOSYS | Driver(ret: int)

  /** The descriptor, or the error left in errno. */
  datatype Result = Fd(fd: nat) | Error(err: Errno)

  datatype OpenFlags = OpenFlags(read: bool, write: bool, other: nat)

  const NO_FLAGS := OpenFlags(false, false, 0)

  /** struct file; a slot without an inode is free. */
  datatype File = File(f_oflags: OpenFlags, f_pos: int, f_inode: Inode?)

  const CLOSED := File(NO_FLAGS, 0, null)

  /** The references that the first k slots of a table hold. */
  ghost function RefsTo(s: seq<File>, k: nat): multiset<Inode>
    requires k <= |s|
  {
    if k == 0 then multiset{} else RefsTo(s, k - 1) + Ref(s[k - 1].f_inode)
  }

  ghost function Refs(s: seq<File>): multiset<Inode> {
    RefsTo(s, |s|)
  }

  lemma Exchange(a: multiset<Inode>, b: multiset<Inode>, c: multiset<Inode>)
    ensures (a + b) + c == (a + c) + b
  {
  }

  lemma Regroup(a: multiset<Inode>, b: multiset<Inode>, c: multiset<Inode>, d: multiset<Inode>, e: multiset<Inode>)
    requires b + d == c + e
    ensures (b + a) + d == (c + a) + e
  {
    assert (b + a) + d == a + (b + d);
    assert (c + a) + e == a + (c + e);
  }

  lemma {:induction false} RefsBefore(s: seq<File>, k: nat, i: nat, f: File)
    requires k <= i < |s|
    ensures RefsTo(s[i := f], k) == RefsTo(s, k)
  {
    if k > 0 {
      RefsBefore(s, k - 1, i, f);
    }
  }

  lemma RefsLast(s: seq<File>, k: nat)
    requires 0 < k <= |s|
    ensures RefsTo(s, k) == RefsTo(s, k - 1) + Ref(s[k - 1].f_inode)
  {
  }

  /** Replacing a slot trades its reference for that of the new one. */
  lemma {:induction false} RefsUpdate(s: seq<File>, k: nat, i: nat, f: File)
    requires i < k <= |s|
    ensures RefsTo(s[i := f], k) + Ref(s[i].f_inode) == RefsTo(s, k) + Ref(f.f_inode)
  {
    hide RefsTo, Ref;
    var s' := s[i := f];
    RefsLast(s, k);
    RefsLast(s', k);
    var a, b, last := RefsTo(s', k - 1), RefsTo(s, k - 1), Ref(s[k - 1].f_inode);
    if i < k - 1 {
      RefsUpdate(s, k - 1, i, f);
      Regroup(last, a, b, Ref(s[i].f_inode), Ref(f.f_inode));
    } else {
      RefsBefore(s, k - 1, i, f);
      Exchange(b, Ref(f.f_inode), last);
    }
  }

  /** Every reference handed out is held by a slot or by someone else, and is safe; a free slot
      is all zero. */
  ghost predicate Balanced(v: View, s: seq<File>, outside: multiset<Inode>) {
    && Safe(v) && v.holders == Refs(s) + outside
    && forall i | 0 <= i < |s| :: s[i].f_inode == null ==> s[i] == CLOSED
  }

  lemma FreeSlotIsClosed(v: View, s: seq<File>, outside: multiset<Inode>, i: nat)
    requires Balanced(v, s, outside) && i < |s| && s[i].f_inode == null
    ensures s[i] == CLOSED
  {
  }

  lemma MovePast(r: multiset<Inode>, r': multiset<Inode>, o: multiset<Inode>, x: Inode)
    requires r' == r + multiset{x} && x in o
    ensures r' + (o - multiset{x}) == r + o
  {
  }

  /** Filling a free slot with a reference that someone else held loses none. */
  lemma FillBalanced(v: View, s: seq<File>, outside: multiset<Inode>, i: nat, f: File)
    requires Balanced(v, s, outside) && i < |s| && s[i].f_inode == null
    requires f.f_inode != null && f.f_inode in outside
    ensures Balanced(v, s[i := f], outside - multiset{f.f_inode})
  {
    RefsUpdate(s, |s|, i, f);
    assert Refs(s[i := f]) == Refs(s) + multiset{f.f_inode};
    MovePast(Refs(s), Refs(s[i := f]), outside, f.f_inode);
  }

  lemma DropOne(r: multiset<Inode>, r': multiset<Inode>, o: multiset<Inode>, x: Inode)
    requires r == r' + multiset{x}
    ensures r + o - multiset{x} == r' + o && x in r + o
  {
  }

  /** Freeing a slot and releasing its inode give up one and the same reference. */
  lemma CloseBalanced(v: View, root: Inode?, s: seq<File>, outside: multiset<Inode>, i: nat)
    requires Consistent(v, root, null) && Balanced(v, s, outside) && i < |s| && s[i].f_inode != null
    ensures s[i].f_inode in v.cells && Balanced(ReleaseView(v, s[i].f_inode), s[i := CLOSED], outside)
  {
    RefsUpdate(s, |s|, i, CLOSED);
    assert Refs(s) == Refs(s[i := CLOSED]) + multiset{s[i].f_inode};
    DropOne(Refs(s), Refs(s[i := CLOSED]), outside, s[i].f_inode);
    assert v.holders[s[i].f_inode] > 0;
    Dropped(v, root, s[i].f_inode);
  }

  lemma {:induction false} AllClosed(s: seq<File>, k: nat)
    requires k <= |s| && forall i | 0 <= i < |s| :: s[i].f_inode == null
    ensures RefsTo(s, k) == multiset{}
  {
    if k > 0 {
      AllClosed(s, k - 1);
    }
  }

  /** The lowest free slot at or above minfd; the length of the table when there is none. */
  function LowestFree(s: seq<File>, minfd: nat): (fd: nat)
    ensures minfd <= |s| ==> fd <= |s|
    decreases |s| - minfd
  {
    if minfd >= |s| then |s| else if s[minfd].f_inode == null then minfd else LowestFree(s, minfd + 1)
  }

  /** LowestFree is the lowest numbered available descriptor that POSIX asks for. */
  lemma {:induction false} LowestFreeIsLowest(s: seq<File>, minfd: nat, fd: nat)
    requires minfd <= fd <= |s|
    requires forall i | minfd <= i < fd :: s[i].f_inode != null
    requires fd < |s| ==> s[fd].f_inode == null
    ensures LowestFree(s, minfd) == fd
    decreases fd - minfd
  {
    if minfd < fd {
      LowestFreeIsLowest(s, minfd + 1, fd);
    }
  }

  /** A reference taken on a node that is held or not removed, and given back, leaves no trace. */
  lemma ReleaseUndoesTake(v: View, n: Inode)
    requires n in v.cells && v.cells[n].crefs == v.holders[n] && (n !in v.detached || n in v.holders)
    ensures ReleaseView(TakeView(v, n), n) == v
  {
    assert v.holders + multiset{n} - multiset{n} == v.holders;
    assert DropView(TakeView(v, n), n).cells == v.cells;
  }

  lemma TakeBalanced(v: View, root: Inode?, s: seq<File>, outside: multiset<Inode>, p: Path)
    requires Consistent(v, root, null) && Balanced(v, s, outside) && p in v.ns
    ensures var n := v.ns[p];
            && n in v.cells && n in v.owner && v.owner[n] == None && n !in v.detached
            && v.cells[n].crefs == v.holders[n]
            && Balanced(TakeView(v, n), s, outside + multiset{n})
  {
    var n := v.ns[p];
    TreeNode(v, root, p);
    Taken(v, root, n);
    assert Refs(s) + outside + multiset{n} == Refs(s) + (outside + multiset{n});
  }

  /** A slot's own reference lets the caller take another. */
  lemma DupBalanced(v: View, root: Inode?, s: seq<File>, outside: multiset<Inode>, i: nat)
    requires Consistent(v, root, null) && Balanced(v, s, outside) && i < |s| && s[i].f_inode != null
    ensures var n := s[i].f_inode;
            && n in v.cells && v.cells[n].crefs == v.holders[n] && n in v.holders
            && Balanced(TakeView(v, n), s, outside + multiset{n})
  {
    var n := s[i].f_inode;
    RefsUpdate(s, |s|, i, CLOSED);
    assert Refs(s) == Refs(s[i := CLOSED]) + multiset{n};
    assert v.holders[n] > 0;
    assert NodeOk(v, n, null);
    Taken(v, root, n);
    assert Refs(s) + outside + multiset{n} == Refs(s) + (outside + multiset{n});
  }

  lemma DropBalanced(v: View, root: Inode?, s: seq<File>, outside: multiset<Inode>, n: Inode)
    requires Consistent(v, root, null) && Balanced(v, s, outside) && n in outside
    ensures n in v.cells && Balanced(ReleaseView(v, n), s, outside - multiset{n})
  {
    assert v.holders[n] > 0;
    Dropped(v, root, n);
    assert Refs(s) + outside - multiset{n} == Refs(s) + (outside - multiset{n});
  }

  /** Forgetting a slot leaves its reference with the caller. */
  lemma ForgetBalanced(v: View, s: seq<File>, outside: multiset<Inode>, i: nat)
    requires Balanced(v, s, outside) && i < |s| && s[i].f_inode != null
    ensures Balanced(v, s[i := CLOSED], outside + multiset{s[i].f_inode})
  {
    RefsUpdate(s, |s|, i, CLOSED);
    var x, r, r' := multiset{s[i].f_inode}, Refs(s), Refs(s[i := CLOSED]);
    assert r == r' + x;
    assert (r' + x) + outside == r' + (outside + x);
  }

  /** inode_checkflags, and the tests on the inode before it. */
  function AccessError(kind: Kind, ops: Option<Operations>, oflags: OpenFlags): (e: Option<Errno>) {
    if kind == Block || ops == None then Some(ENXIO)
    else if (oflags.read && !ops.value.read) || (oflags.write && !ops.value.write) then Some(EACCES)
    else None
  }

  /** Closing a slot gives its reference back. */
  ghost function CloseView(v: View, n: Inode?): View {
    if n != null && n in v.cells then ReleaseView(v, n) else v
  }

  lemma ClosingFrees(v: View, n: Inode?)
    ensures CloseView(v, n).cells.Keys <= v.cells.Keys
  {
  }

  /** A table with every slot free holds no reference. */
  lemma ClosedHoldsNothing(v: View, s: seq<File>, outside: multiset<Inode>)
    requires Balanced(v, s, outside) && forall i | 0 <= i < |s| :: s[i].f_inode == null
    ensures v.holders == outside
  {
    AllClosed(s, |s|);
    assert multiset{} + outside == outside;
  }

  class FileTable {
    const fs: FileSystem
    const files: array<File>
    var fl_crefs: int
    ghost var outside: multiset<Inode>

    /** Every reference ever taken and not given back is held by a slot or by someone else. */
    ghost predicate Valid()
      reads this, files, fs, fs.view.cells.Keys
    {
      fs.Valid() && Balanced(fs.view, files[..], outside)
    }

    /** files_alloclist: a table with every slot free. */
    constructor (fs: FileSystem, n: nat)
      requires fs.Valid() && Safe(fs.view)
      ensures Valid() && fresh(files) && this.fs == fs && files.Length == n && fl_crefs == 1
      ensures forall i | 0 <= i < n :: files[i] == CLOSED
    {
      this.fs := fs;
      files := new File[n](_ => CLOSED);
      fl_crefs := 1;
      outside := fs.view.holders;
      new;
      AllClosed(files[..], files.Length);
    }

    /** The scan of files_allocate. */
    method ScanFree(minfd: nat) returns (i: nat)
      ensures i == if minfd < files.Length then LowestFree(files[..], minfd) else minfd
      ensures i < files.Length ==> files[i].f_inode == null
    {
      i := minfd;
      while i < files.Length
        invariant minfd <= i && (i <= files.Length || i == minfd)
        invariant LowestFree(files[..], minfd) == LowestFree(files[..], i)
      {
        if files[i].f_inode == null {
          return;
        }
        i := i + 1;
      }
    }

    /** files_allocate: the reference passes from the caller to the slot. */
    method Allocate(inode: Inode, oflags: OpenFlags, pos: int, minfd: nat) returns (r: Result)
      requires Valid() && inode in outside
      modifies this`outside, files
      ensures Valid()
      ensures var fd := LowestFree(old(files[..]), minfd);
              if fd < files.Length then
                && r == Fd(fd) && files[..] == old(files[..])[fd := File(oflags, pos, inode)]
                && outside == old(outside) - multiset{inode}
              else r == Error(EMFILE) && files[..] == old(files[..]) && outside == old(outside)
      ensures r.Fd? ==> old(files[..])[r.fd] == CLOSED
    {
      hide Consistent, Mirrors, Balanced;
      var i := ScanFree(minfd);
      if i < files.Length {
        FreeSlotIsClosed(fs.view, files[..], outside, i);
        FillBalanced(fs.view, files[..], outside, i, File(oflags, pos, inode));
        SetSlot(i, File(oflags, pos, inode));
        outside := outside - multiset{inode};
        r := Fd(i);
      } else {
        r := Error(EMFILE);
      }
    }

    method SetSlot(fd: nat, f: File)
      requires fd < files.Length
      modifies files
      ensures files[..] == old(files[..])[fd := f]
    {
      files[fd] := f;
    }

    /** _files_close: the driver's close method is called first and its result is returned, but
        the inode is released and the slot freed whatever it says. */
    method CloseSlot(fd: nat, closeRet: int) returns (ret: int)
      requires Valid() && fd < files.Length
      modifies files, fs`view, fs.view.cells.Keys`i_crefs
      ensures Valid()
      ensures files[..] == old(files[..])[fd := if old(files[fd]).f_inode == null then old(files[fd]) else CLOSED]
      ensures fs.view == CloseView(old(fs.view), old(files[fd].f_inode))
      ensures ret == if old(files[fd]).f_inode == null then 0 else closeRet
    {
      hide Consistent, Mirrors, Balanced, ReleaseView;
      var inode := files[fd].f_inode;
      ret := 0;
      if inode != null {
        CloseBalanced(fs.view, fs.root_inode, files[..], outside, fd);
        ret := closeRet;
        fs.Release(inode);
        SetSlot(fd, CLOSED);
      }
    }

    /** inode_find for a caller that now holds the reference. */
    method Take(path: string) returns (inode: Inode?)
      requires Valid()
      modifies this`outside, fs`view, fs.view.cells.Keys`i_crefs
      ensures Valid()
      ensures match Lookup(old(fs.view), path)
              case Some(n) =>
                && inode == n && n in old(fs.view.cells) && n !in old(fs.view.detached)
                && old(fs.view).cells[n].crefs == old(fs.view).holders[n]
                && fs.view == TakeView(old(fs.view), n) && outside == old(outside) + multiset{n}
              case None => inode == null && fs.view == old(fs.view) && outside == old(outside)
    {
      hide Consistent, Mirrors, Balanced, TakeView, Resolve;
      var relpath;
      ghost var v, root := fs.view, fs.root_inode;
      inode, relpath := fs.Find(path);
      if inode != null {
        TakeBalanced(v, root, files[..], outside, Resolve(v.ns, v.cells, Top, path[1..]).at);
        outside := outside + multiset{inode};
      }
    }

    /** inode_release for a caller that holds a reference of its own. */
    method Give(inode: Inode)
      requires Valid() && inode in outside
      modifies this`outside, fs`view, inode`i_crefs
      ensures Valid() && inode in old(fs.view.cells)
      ensures fs.view == ReleaseView(old(fs.view), inode) && outside == old(outside) - multiset{inode}
    {
      hide Consistent, Mirrors, Balanced, ReleaseView;
      DropBalanced(fs.view, fs.root_inode, files[..], outside, inode);
      fs.Release(inode);
      outside := outside - multiset{inode};
    }

    /** files_release: free a slot and leave its reference to the caller. */
    method Forget(fd: nat)
      requires Valid() && fd < files.Length && files[fd].f_inode != null
      modifies this`outside, files
      ensures Valid()
      ensures files[..] == old(files[..])[fd := CLOSED]
      ensures outside == old(outside) + multiset{old(files[fd].f_inode)}
    {
      hide Consistent, Mirrors, Balanced;
      ForgetBalanced(fs.view, files[..], outside, fd);
      outside := outside + multiset{files[fd].f_inode};
      SetSlot(fd, CLOSED);
    }

    /** open, with the result openRet of the driver's open method. Every error exit gives the
        reference back and leaves the table and all counts as they were. */
    method Open(path: string, oflags: OpenFlags, openRet: int) returns (r: Result)
      requires Valid()
      modifies this`outside, files, fs`view, fs.view.cells.Keys`i_crefs
      ensures Valid() && outside == old(outside)
      ensures r.Error? ==> files[..] == old(files[..]) && fs.view == old(fs.view)
      ensures match Lookup(old(fs.view), path)
              case None => r == Error(Errno.ENOENT)
              case Some(n) =>
                var fd := LowestFree(old(files[..]), 0);
                match AccessError(n.i_kind, n.i_ops, oflags)
                case Some(e) => r == Error(e)
                case None =>
                  if fd >= files.Length then r == Error(EMFILE)
                  else if openRet < 0 then r == Error(Errno.Driver(openRet))
                  else
                    && r == Fd(fd) && files[..] == old(files[..])[fd := File(oflags, 0, n)]
                    && n in old(fs.view.cells) && fs.view == TakeView(old(fs.view), n)
    {
      hide Consistent, Mirrors, Balanced, TakeView, ReleaseView, Lookup;
      ghost var v := fs.view;
      var inode := Take(path);
      if inode == null {
        return Error(Errno.ENOENT);
      }
      ReleaseUndoesTake(v, inode);
      r := OpenInode(inode, oflags, openRet);
    }

    /** open, once the inode is found: the caller's reference ends up in a slot or is given
        back. */
    method OpenInode(inode: Inode, oflags: OpenFlags, openRet: int) returns (r: Result)
      requires Valid() && inode in outside
      modifies this`outside, files, fs`view, inode`i_crefs
      ensures Valid() && outside == old(outside) - multiset{inode}
      ensures r.Error? ==>
                files[..] == old(files[..]) && inode in old(fs.view.cells) && fs.view == ReleaseView(old(fs.view), inode)
      ensures r.Fd? ==> fs.view == old(fs.view)
      ensures var fd := LowestFree(old(files[..]), 0);
              match AccessError(inode.i_kind, inode.i_ops, oflags)
              case Some(e) => r == Error(e)
              case None =>
                if fd >= files.Length then r == Error(EMFILE)
                else if openRet < 0 then r == Error(Errno.Driver(openRet))
                else r == Fd(fd) && files[..] == old(files[..])[fd := File(oflags, 0, inode)]
    {
      hide Consistent, Mirrors, Balanced, ReleaseView, LowestFree, AccessError;
      ghost var s := files[..];
      var e := AccessError(inode.i_kind, inode.i_ops, oflags);
      if e.Some? {
        Give(inode);
        return Error(e.value);
      }
      r := Allocate(inode, oflags, 0, 0);
      if r.Error? {
        Give(inode);
      } else if openRet < 0 {
        Forget(r.fd);
        Give(inode);
        assert files[..] == s;
        r := Error(Errno.Driver(openRet));
      }
    }

    predicate IsOpen(fd: int)
      reads this, files
    {
      0 <= fd < files.Length && files[fd].f_inode != null
    }

    /** files_close. */
    method Close(fd: int, closeRet: int) returns (r: Result)
      requires Valid()
      modifies files, fs`view, fs.view.cells.Keys`i_crefs
      ensures Valid()
      ensures if old(IsOpen(fd)) then
                && files[..] == old(files[..])[fd := CLOSED]
                && fs.view == CloseView(old(fs.view), old(files[fd].f_inode))
                && r == if closeRet < 0 then Error(Errno.Driver(closeRet)) else Fd(0)
              else r == Error(EBADF) && files[..] == old(files[..]) && fs.view == old(fs.view)
    {
      hide Consistent, Mirrors, Balanced, CloseView;
      if !IsOpen(fd) {
        return Error(EBADF);
      }
      var ret := CloseSlot(fd, closeRet);
      r := if ret < 0 then Error(Errno.Driver(ret)) else Fd(0);
    }

    /** inode_addref for a caller that goes through an open slot. */
    method TakeAgain(fd: nat)
      requires Valid() && fd < files.Length && files[fd].f_inode != null
      modifies this`outside, fs`view, files[fd].f_inode`i_crefs
      ensures Valid()
      ensures var n := files[fd].f_inode;
              && n in old(fs.view.cells) && n in old(fs.view.holders)
              && old(fs.view).cells[n].crefs == old(fs.view).holders[n]
              && fs.view == TakeView(old(fs.view), n) && outside == old(outside) + multiset{n}
    {
      hide Consistent, Mirrors, Balanced, TakeView;
      var inode := files[fd].f_inode;
      DupBalanced(fs.view, fs.root_inode, files[..], outside, fd);
      fs.AddRef(inode);
      outside := outside + multiset{inode};
    }

    /** file_dup: the lowest free descriptor at or above minfd shares the inode. */
    method Dup(fd: int, minfd: nat) returns (r: Result)
      requires Valid()
      modifies this`outside, files, fs`view, fs.view.cells.Keys`i_crefs
      ensures Valid() && outside == old(outside)
      ensures r.Error? ==> files[..] == old(files[..]) && fs.view == old(fs.view)
      ensures if !old(IsOpen(fd)) then r == Error(EBADF)
              else
                var fd2, f := LowestFree(old(files[..]), minfd), old(files[fd]);
                if fd2 >= files.Length then r == Error(EMFILE)
                else
                  && r == Fd(fd2) && files[..] == old(files[..])[fd2 := f]
                  && f.f_inode in old(fs.view.cells) && fs.view == TakeView(old(fs.view), f.f_inode)
    {
      hide Consistent, Mirrors, Balanced, TakeView, ReleaseView;
      if !IsOpen(fd) {
        return Error(EBADF);
      }
      var f := files[fd];
      ghost var v := fs.view;
      DupBalanced(v, fs.root_inode, files[..], outside, fd);
      TakeAgain(fd);
      ReleaseUndoesTake(v, f.f_inode);
      r := Allocate(f.f_inode, f.f_oflags, f.f_pos, minfd);
      if r.Error? {
        Give(f.f_inode);
      }
    }

    /** file_dup2 and files_dup. The target is closed first, and stays closed when its driver's
        close or the new open fails. On success the result is 0, not the new descriptor. */
    method Dup2(fd1: int, fd2: int, closeRet: int, openRet: int) returns (r: Result)
      requires Valid()
      modifies this`outside, files, fs`view, fs.view.cells.Keys`i_crefs
      ensures Valid() && outside == old(outside)
      ensures if !old(IsOpen(fd1)) || (fd1 != fd2 && !(0 <= fd2 < files.Length)) then r == Error(EBADF) && Untouched(old(files[..]), old(fs.view))
              else if fd1 == fd2 then r == Fd(fd1) && Untouched(old(files[..]), old(fs.view))
              else if old(files[fd1].f_inode.i_kind) == Mountpt then r == Error(ENOSYS) && Untouched(old(files[..]), old(fs.view))
              else
                var v := CloseView(old(fs.view), old(files[fd2].f_inode));
                var ret := if old(files[fd2].f_inode) == null then 0 else closeRet;
                if ret < 0 || openRet < 0 then
                  && r == Error(Errno.Driver(if ret < 0 then ret else openRet))
                  && files[..] == old(files[..])[fd2 := CLOSED] && fs.view == v
                else
                  && r == Fd(0) && files[..] == old(files[..])[fd2 := old(files[fd1])]
                  && old(files[fd1].f_inode) in v.cells && fs.view == TakeView(v, old(files[fd1].f_inode))
    {
      hide Consistent, Mirrors, Balanced, TakeView, ReleaseView, CloseView;
      if !IsOpen(fd1) {
        return Error(EBADF);
      }
      if fd1 == fd2 {
        return Fd(fd1);
      }
      if !(0 <= fd2 < files.Length) {
        return Error(EBADF);
      }
      if files[fd1].f_inode.i_kind == Mountpt {
        return Error(ENOSYS);
      }
      ghost var s := files[..];
      if files[fd2].f_inode == null {
        FreeSlotIsClosed(fs.view, files[..], outside, fd2);
      }
      DupBalanced(fs.view, fs.root_inode, files[..], outside, fd1);
      var ret := CloseSlot(fd2, closeRet);
      assert files[fd1] == s[fd1];
      if ret < 0 {
        return Error(Errno.Driver(ret));
      }
      r := Clone(fd1, fd2, openRet);
    }

    ghost predicate Untouched(s: seq<File>, v: View)
      reads this, files, fs
    {
      files[..] == s && fs.view == v
    }

    /** The second half of files_dup: slot fd2, now free, becomes a copy of slot fd1. */
    method Clone(fd1: nat, fd2: nat, openRet: int) returns (r: Result)
      requires Valid() && IsOpen(fd1) && fd2 < files.Length && files[fd2].f_inode == null
      modifies this`outside, files, fs`view, files[fd1].f_inode`i_crefs
      ensures Valid() && outside == old(outside)
      ensures openRet < 0 ==> r == Error(Errno.Driver(openRet)) && Untouched(old(files[..]), old(fs.view))
      ensures openRet >= 0 ==>
                && r == Fd(0) && files[..] == old(files[..])[fd2 := old(files[fd1])]
                && old(files[fd1].f_inode) in old(fs.view.cells)
                && fs.view == TakeView(old(fs.view), old(files[fd1].f_inode))
    {
      hide Consistent, Mirrors, Balanced, TakeView, ReleaseView;
      var f := files[fd1];
      ghost var v, s := fs.view, files[..];
      FreeSlotIsClosed(v, s, outside, fd2);
      Share(fd1, fd2);
      if openRet < 0 {
        ReleaseUndoesTake(v, f.f_inode);
        Forget(fd2);
        Give(f.f_inode);
        assert files[..] == s;
        return Error(Errno.Driver(openRet));
      }
      return Fd(0);
    }

    /** Copy slot fd1 to the free slot fd2, with a reference of its own. */
    method Share(fd1: nat, fd2: nat)
      requires Valid() && IsOpen(fd1) && fd2 < files.Length && files[fd2].f_inode == null
      modifies this`outside, files, fs`view, files[fd1].f_inode`i_crefs
      ensures Valid() && outside == old(outside)
      ensures files[..] == old(files[..])[fd2 := old(files[fd1])]
      ensures var n := old(files[fd1].f_inode);
              && n in old(fs.view.cells) && n in old(fs.view.holders)
              && old(fs.view).cells[n].crefs == old(fs.view).holders[n]
              && fs.view == TakeView(old(fs.view), n)
    {
      hide Consistent, Mirrors, Balanced, TakeView;
      var f := files[fd1];
      TakeAgain(fd1);
      FillBalanced(fs.view, files[..], outside, fd2, f);
      SetSlot(fd2, f);
      outside := outside - multiset{f.f_inode};
    }

    /** files_addreflist. */
    method AddRefList()
      requires Valid()
      modifies this`fl_crefs
      ensures Valid() && fl_crefs == old(fl_crefs) + 1
    {
      fl_crefs := fl_crefs + 1;
    }

    /** files_releaselist: with its last reference the table closes every slot, and so gives
        back every reference it held. */
    method ReleaseList(closeRets: seq<int>)
      requires Valid() && |closeRets| == files.Length
      modifies this`fl_crefs, files, fs`view, fs.view.cells.Keys`i_crefs
      ensures Valid() && fl_crefs == old(fl_crefs) - 1
      ensures fl_crefs > 0 ==> Untouched(old(files[..]), old(fs.view))
      ensures fl_crefs <= 0 ==> fs.view.holders == outside && forall i | 0 <= i < files.Length :: files[i].f_inode == null
    {
      hide Consistent, Mirrors, Balanced, CloseView;
      fl_crefs := fl_crefs - 1;
      if fl_crefs <= 0 {
        var i := 0;
        while i < files.Length
          invariant 0 <= i <= files.Length && Valid() && fl_crefs == old(fl_crefs) - 1
          invariant forall j | 0 <= j < i :: files[j].f_inode == null
          invariant fs.view.cells.Keys <= old(fs.view.cells.Keys)
        {
          ClosingFrees(fs.view, files[i].f_inode);
          var ret := CloseSlot(i, closeRets[i]);
          i := i + 1;
        }
        ClosedHoldsNothing(fs.view, files[..], outside);
      }
    }
  }
}
