/**
 Directory streams over the top level of the pseudo-filesystem: opendir of the root, readdir,
 seekdir, rewinddir and closedir (nuttx/fs/fs_opendir.c, fs_readdir.c, fs_seekdir.c,
 fs_rewinddir.c, fs_closedir.c).
 */
module DirStreams {
  import opened Common
  import opened Strings
  import opened PathNames
  import opened Spaces
  import opened FileSystems

  // ---------------------------------------------------------------------------------------
  // The listing of a directory
  // ---------------------------------------------------------------------------------------

  /** The nodes met by following i_peer from n, the first child of dir beyond lo. */
  ghost function Listing(ns: Space, cells: Cells, dir: Path, lo: Bound, n: Inode?): seq<Inode>
    requires Described(ns, cells) && PointsRight(ns, cells) && NextAt(ns, dir, lo, n)
    decreases Siblings(ns, dir, lo)
  {
    if n == null then []
    else
      SiblingsShrink(ns, dir, lo, n);
      [n] + Listing(ns, cells, dir, After(n.i_name), PeerOf(cells, n))
  }

  /** The listing holds every child of dir beyond lo, each once, in ascending order of names. */
  lemma {:induction false} ListingIsSorted(ns: Space, cells: Cells, dir: Path, lo: Bound, n: Inode?)
    requires Filed(ns, Top) && Described(ns, cells) && PointsRight(ns, cells) && NextAt(ns, dir, lo, n)
    ensures var l := Listing(ns, cells, dir, lo, n);
            && (forall i | 0 <= i < |l| :: l[i].i_path == Sub(dir, l[i].i_name) && In(ns, l[i]) && Beyond(lo, l[i].i_name))
            && (forall i, j | 0 <= i < j < |l| :: Lt(l[i].i_name, l[j].i_name))
            && (forall x | Sub(dir, x) in ns && Beyond(lo, x) :: ns[Sub(dir, x)] in l)
    decreases Siblings(ns, dir, lo)
  {
    if n != null {
      SiblingsShrink(ns, dir, lo, n);
      LtIsStrictTotalOrder();
      ListingIsSorted(ns, cells, dir, After(n.i_name), PeerOf(cells, n));
      var l, rest := Listing(ns, cells, dir, lo, n), Listing(ns, cells, dir, After(n.i_name), PeerOf(cells, n));
      assert l == [n] + rest;
      forall x | Sub(dir, x) in ns && Beyond(lo, x) ensures ns[Sub(dir, x)] in l {
        if x != n.i_name {
          assert ns[Sub(dir, x)] in rest;
        }
      }
    }
  }

  ghost function EntryAt(l: seq<Inode>, pos: int): Inode? {
    if 0 <= pos < |l| then l[pos] else null
  }

  /** Each entry's i_peer is the next entry. */
  lemma {:induction false} ListingFollowsPeers(ns: Space, cells: Cells, dir: Path, lo: Bound, n: Inode?, i: nat)
    requires Described(ns, cells) && PointsRight(ns, cells) && NextAt(ns, dir, lo, n)
    requires i < |Listing(ns, cells, dir, lo, n)|
    ensures var l := Listing(ns, cells, dir, lo, n);
            l[0] == n && l[i] in cells && In(ns, l[i]) && EntryAt(l, i + 1) == cells[l[i]].peer
    decreases i
  {
    SiblingsShrink(ns, dir, lo, n);
    assert In(ns, n) && ns[n.i_path] in cells;
    if i == 0 {
      var rest := Listing(ns, cells, dir, After(n.i_name), PeerOf(cells, n));
      assert |rest| > 0 ==> rest[0] == PeerOf(cells, n);
    } else {
      ListingFollowsPeers(ns, cells, dir, After(n.i_name), PeerOf(cells, n), i - 1);
    }
  }

  /** A listing depends on nothing but the links. */
  lemma {:induction false} ListingFrame(ns: Space, cells: Cells, cells': Cells, dir: Path, lo: Bound, n: Inode?)
    requires Described(ns, cells) && PointsRight(ns, cells) && NextAt(ns, dir, lo, n)
    requires Described(ns, cells') && PointsRight(ns, cells')
    requires forall m {:trigger cells[m]} {:trigger cells'[m]} | m in cells && m in cells' :: SameLinks(cells[m], cells'[m])
    ensures Listing(ns, cells', dir, lo, n) == Listing(ns, cells, dir, lo, n)
    decreases Siblings(ns, dir, lo)
  {
    if n != null {
      SiblingsShrink(ns, dir, lo, n);
      assert ns[n.i_path] in cells;
      assert PeerOf(cells', n) == PeerOf(cells, n);
      ListingFrame(ns, cells, cells', dir, After(n.i_name), PeerOf(cells, n));
    }
  }

  /** The entries of the root directory. */
  ghost function Entries(v: View, root: Inode?): seq<Inode> {
    if Linked(v.ns, Top, root, v.cells) then Listing(v.ns, v.cells, Top, Start, root) else []
  }

  /** Reads of the whole stream give every top-level node once, in ascending order. */
  lemma EntriesAreThePeers(v: View, root: Inode?)
    requires Linked(v.ns, Top, root, v.cells)
    ensures var l := Entries(v, root);
            && (forall i | 0 <= i < |l| :: l[i].i_path == Sub(Top, l[i].i_name) && In(v.ns, l[i]))
            && (forall i, j | 0 <= i < j < |l| :: Lt(l[i].i_name, l[j].i_name))
            && (forall x | Sub(Top, x) in v.ns :: v.ns[Sub(Top, x)] in l)
  {
    ListingIsSorted(v.ns, v.cells, Top, Start, root);
  }

  // ---------------------------------------------------------------------------------------
  // The state of a stream
  // ---------------------------------------------------------------------------------------

  /** A stream on the root stands before entry pos and holds a reference on its root and on the
      node it will read next; outside are the references of everyone else. */
  ghost predicate Positioned(v: View, root: Inode?, top: Inode, next: Inode?, pos: int, outside: multiset<Inode>) {
    && root == top && Safe(v) && v.holders == multiset{top} + Ref(next) + outside
    && 0 <= pos <= |Entries(v, root)| && next == EntryAt(Entries(v, root), pos)
  }

  ghost function TakeMaybe(v: View, n: Inode?): View {
    if n != null && n in v.cells then TakeView(v, n) else v
  }

  ghost function ReleaseMaybe(v: View, n: Inode?): View {
    if n != null && n in v.cells then ReleaseView(v, n) else v
  }

  /** An entry is a live node of the tree, counted and not removed. */
  lemma EntryIsLive(v: View, root: Inode?, i: nat)
    requires Consistent(v, root, null) && i < |Entries(v, root)|
    ensures var n := Entries(v, root)[i];
            && n in v.cells && n in v.owner && v.owner[n] == None && n !in v.detached
            && v.cells[n].crefs == v.holders[n] && EntryAt(Entries(v, root), i + 1) == v.cells[n].peer
            && Entries(v, root)[0] == root
  {
    ListingFollowsPeers(v.ns, v.cells, Top, Start, root, i);
    TreeNode(v, root, Entries(v, root)[i].i_path);
  }

  /** Counting does not change the entries. */
  lemma CountKeepsEntries(v: View, root: Inode?, n: Inode, crefs: nat, holders: multiset<Inode>)
    requires Linked(v.ns, Top, root, v.cells) && n in v.cells
    ensures Linked(v.ns, Top, root, CountView(v, n, crefs, holders).cells)
    ensures Entries(CountView(v, n, crefs, holders), root) == Entries(v, root)
  {
    var v' := CountView(v, n, crefs, holders);
    LinkedFrame(v.ns, Top, root, v.cells, v'.cells);
    ListingFrame(v.ns, v.cells, v'.cells, Top, Start, root);
  }

  lemma TakeEntry(v: View, root: Inode?, n: Inode?)
    requires Consistent(v, root, null) && Safe(v)
    requires n != null ==> n in v.cells && n in v.owner && v.owner[n] == None
    ensures var v' := TakeMaybe(v, n);
            && Consistent(v', root, null) && Safe(v') && v'.holders == v.holders + Ref(n)
            && Entries(v', root) == Entries(v, root) && v'.ns == v.ns && v'.cells.Keys == v.cells.Keys
            && v'.detached == v.detached && v'.freed == v.freed && v'.owner == v.owner
  {
    if n != null {
      Taken(v, root, n);
      CountKeepsEntries(v, root, n, (v.holders + multiset{n})[n], v.holders + multiset{n});
    }
  }

  lemma DropEntry(v: View, root: Inode?, n: Inode?)
    requires Consistent(v, root, null) && Safe(v)
    requires n != null ==> n in v.cells && n !in v.detached
    ensures var v' := ReleaseMaybe(v, n);
            && Consistent(v', root, null) && Safe(v') && v'.holders == v.holders - Ref(n)
            && Entries(v', root) == Entries(v, root) && v'.ns == v.ns && v'.cells.Keys == v.cells.Keys
            && v'.detached == v.detached && v'.freed == v.freed
  {
    if n != null {
      Dropped(v, root, n);
      assert NodeOk(v, n, null);
      CountKeepsEntries(v, root, n, (v.holders - multiset{n})[n], v.holders - multiset{n});
    }
  }

  /** What every move of a stream does to the tree: a reference on the new next node is taken
      before the one on the old is given back. */
  ghost function MoveView(v: View, next': Inode?, next: Inode?): View {
    ReleaseMaybe(TakeMaybe(v, next'), next)
  }

  lemma Shuffle(t: multiset<Inode>, a: multiset<Inode>, b: multiset<Inode>, o: multiset<Inode>)
    ensures t + a + o + b - a == t + b + o
  {
  }

  lemma Moved(v: View, root: Inode?, top: Inode, next: Inode?, pos: int, outside: multiset<Inode>, next': Inode?, pos': int)
    requires Consistent(v, root, null) && Positioned(v, root, top, next, pos, outside)
    requires 0 <= pos' <= |Entries(v, root)| && next' == EntryAt(Entries(v, root), pos')
    ensures var v' := MoveView(v, next', next);
            && Positioned(v', root, top, next', pos', outside) && Entries(v', root) == Entries(v, root)
            && v'.ns == v.ns && v'.freed == v.freed && v'.cells.Keys == v.cells.Keys
    ensures next' != null ==> next' in v.cells && v.owner[next'] == None
    ensures next != null ==> next in TakeMaybe(v, next').cells
  {
    if pos' < |Entries(v, root)| {
      EntryIsLive(v, root, pos');
    }
    if pos < |Entries(v, root)| {
      EntryIsLive(v, root, pos);
    }
    TakeEntry(v, root, next');
    DropEntry(TakeMaybe(v, next'), root, next);
    Shuffle(multiset{top}, Ref(next), Ref(next'), outside);
  }

  /** Opening the root takes two references on its first node. */
  lemma RootOpens(v: View, root: Inode)
    requires Consistent(v, root, null) && Safe(v)
    ensures root in v.cells && root in TakeView(v, root).cells
    ensures var v' := TakeView(TakeView(v, root), root);
            && Positioned(v', root, root, root, 0, v.holders) && Entries(v', root) == Entries(v, root)
            && v'.ns == v.ns && v'.freed == v.freed && v'.cells.Keys == v.cells.Keys
  {
    assert |Entries(v, root)| > 0;
    EntryIsLive(v, root, 0);
    TakeEntry(v, root, root);
    TakeEntry(TakeView(v, root), root, root);
    assert v.holders + multiset{root} + multiset{root} == multiset{root} + multiset{root} + v.holders;
  }

  /** What a stream knows where it stands. */
  lemma Standing(v: View, root: Inode?, top: Inode, next: Inode?, pos: int, outside: multiset<Inode>)
    requires Consistent(v, root, null) && Positioned(v, root, top, next, pos, outside)
    ensures var l := Entries(v, root);
            && 0 <= pos <= |l| && next == EntryAt(l, pos)
            && top == EntryAt(l, 0) && top in v.cells
            && (next != null ==> next in v.cells && EntryAt(l, pos + 1) == v.cells[next].peer)
            && (pos + 1 < |l| ==> l[pos + 1] in v.cells)
  {
    var l := Entries(v, root);
    assert |l| > 0;
    EntryIsLive(v, root, 0);
    if pos < |l| {
      EntryIsLive(v, root, pos);
    }
    if pos + 1 < |l| {
      EntryIsLive(v, root, pos + 1);
    }
  }

  lemma GiveBoth(t: multiset<Inode>, n: multiset<Inode>, o: multiset<Inode>)
    ensures t + n + o - n - t == o
  {
  }

  /** Closing gives both references back. */
  lemma Closed(v: View, root: Inode?, top: Inode, next: Inode?, pos: int, outside: multiset<Inode>)
    requires Consistent(v, root, null) && Positioned(v, root, top, next, pos, outside)
    ensures top in ReleaseMaybe(v, next).cells
    ensures var v' := ReleaseMaybe(ReleaseMaybe(v, next), top);
            && Safe(v') && v'.holders == outside && Entries(v', root) == Entries(v, root)
            && v'.ns == v.ns && v'.freed == v.freed && v'.cells.Keys == v.cells.Keys
  {
    Standing(v, root, top, next, pos, outside);
    EntryIsLive(v, root, 0);
    if pos < |Entries(v, root)| {
      EntryIsLive(v, root, pos);
    }
    hide Consistent, Safe, ReleaseView, Entries;
    DropEntry(v, root, next);
    DropEntry(ReleaseMaybe(v, next), root, top);
    GiveBoth(multiset{top}, Ref(next), outside);
  }

  /** Where seekdir leads in a directory of n entries. */
  function SeekPos(offset: int, n: nat): int {
    if 0 <= offset <= n then offset else n
  }

  /** Where one readdir leads. */
  function ReadPos(pos: int, n: nat): int {
    if pos < n then pos + 1 else pos
  }

  function ReadsPos(pos: int, n: nat, k: nat): int {
    if k == 0 then pos else ReadPos(ReadsPos(pos, n, k - 1), n)
  }

  /** seekdir(k) leads where rewinddir and k times readdir lead, for every k. */
  lemma {:induction false} SeekIsRewindAndReads(n: nat, k: nat)
    ensures SeekPos(k, n) == ReadsPos(0, n, k)
  {
    if k > 0 {
      SeekIsRewindAndReads(n, k - 1);
    }
  }

  /** NAME_MAX, as configured by default. */
  const NAME_MAX: nat := 32

  /** What strncpy leaves of a name in d_name, which has no room for more. */
  function DirName(name: string): (r: string)
    ensures |r| <= NAME_MAX + 1 && r <= name && (r == name <==> |name| <= NAME_MAX + 1)
  {
    if |name| > NAME_MAX + 1 then name[..NAME_MAX + 1] else name
  }

  /** What a directory method of a mountpoint leaves in the storage that it shares with fd_next,
      and in fd_position. */
  datatype Effect = Effect(next: Inode?, pos: int)

  /** The directory methods of a mountpoint: rewinddir, if there is one, and what the next calls
      of its readdir do before one fails. */
  datatype MountDir = MountDir(rewind: Option<Effect>, more: seq<Effect>)

  /** The loop of seekmountptdir: it reads on until it has counted up to the offset. */
  function ReadOn(e: Effect, pos: int, offset: int, more: seq<Effect>): (r: Effect)
    decreases more
  {
    if pos >= offset then e.(pos := pos) else if more == [] then e else ReadOn(more[0], pos + 1, offset, more[1..])
  }

  /** seekmountptdir. */
  function SeekMounted(e: Effect, offset: int, m: MountDir): (r: Effect) {
    if offset >= e.pos then ReadOn(e, e.pos, offset, m.more)
    else if m.rewind == None then e
    else ReadOn(m.rewind.value, 0, offset, m.more)
  }

  class DirStream {
    const fs: FileSystem
    const fd_root: Inode
    var fd_next: Inode?
    var fd_position: int
    ghost var outside: multiset<Inode>

    ghost predicate Valid()
      reads this, fs, fs.view.cells.Keys
    {
      fs.Valid() && Positioned(fs.view, fs.root_inode, fd_root, fd_next, fd_position, outside)
    }

    /** open_pseudodir on the root: two references, one for fd_root and one for fd_next. */
    constructor (fs: FileSystem)
      requires fs.Valid() && Safe(fs.view) && fs.root_inode != null
      modifies fs`view, Just(fs.root_inode)`i_crefs
      ensures Valid() && this.fs == fs && fd_position == 0 && fd_root == fd_next == fs.root_inode
      ensures outside == old(fs.view.holders)
      ensures OnlyCounts(old(fs.view), old(fs.root_inode))
    {
      hide Consistent, Mirrors, Positioned, TakeView, Entries, Safe;
      RootOpens(fs.view, fs.root_inode);
      this.fs := fs;
      fd_root := fs.root_inode;
      fd_next := fs.root_inode;
      fd_position := 0;
      outside := fs.view.holders;
      new;
      fs.AddRef(fd_root);
      fs.AddRef(fd_root);
    }

    /** Go to the node n, which is entry pos: the moves of readdir, seekdir and rewinddir. */
    method Move(n: Inode?, pos: int)
      requires Valid() && 0 <= pos <= |Entries(fs.view, fs.root_inode)|
      requires n == EntryAt(Entries(fs.view, fs.root_inode), pos)
      modifies this`fd_next, this`fd_position, fs`view, Just(n)`i_crefs, Just(fd_next)`i_crefs
      ensures Valid() && fd_position == pos && OnlyCounts(old(fs.view), old(fs.root_inode))
    {
      hide Consistent, Mirrors, Positioned, TakeView, ReleaseView, Entries;
      Moved(fs.view, fs.root_inode, fd_root, fd_next, fd_position, outside, n, pos);
      var prev := fd_next;
      fd_next := n;
      fd_position := pos;
      fs.AddRef(n);
      fs.Release(prev);
    }

    /** readdir, on a stream of the pseudo-filesystem: the next name, or the end. */
    method Read() returns (name: Option<string>)
      requires Valid()
      modifies this`fd_next, this`fd_position, fs`view, fs.view.cells.Keys`i_crefs
      ensures Valid() && OnlyCounts(old(fs.view), old(fs.root_inode))
      ensures var l, pos := old(Entries(fs.view, fs.root_inode)), old(fd_position);
              && fd_position == ReadPos(pos, |l|)
              && name == if pos < |l| then Some(DirName(l[pos].i_name)) else None
    {
      hide Consistent, Positioned, Entries;
      Standing(fs.view, fs.root_inode, fd_root, fd_next, fd_position, outside);
      if fd_next == null {
        return None;
      }
      name := Some(DirName(fd_next.i_name));
      assert fs.view.cells[fd_next].peer == fd_next.i_peer;
      Move(fd_next.i_peer, fd_position + 1);
    }

    /** rewindpsuedodir. */
    method RewindPseudo()
      requires Valid()
      modifies this`fd_next, this`fd_position, fs`view, fs.view.cells.Keys`i_crefs
      ensures Valid() && OnlyCounts(old(fs.view), old(fs.root_inode)) && fd_position == 0
    {
      hide Consistent, Mirrors, Positioned, Entries;
      Standing(fs.view, fs.root_inode, fd_root, fd_next, fd_position, outside);
      Move(fd_root, 0);
    }

    /** rewinddir. A stream on the root is rewound unless the first node is a mountpoint: then
        it is up to the mountpoint's method, if there is one. */
    method Rewind(m: MountDir)
      requires Valid()
      modifies this`fd_next, this`fd_position, fs`view, fs.view.cells.Keys`i_crefs
      ensures OnlyCounts(old(fs.view), old(fs.root_inode))
      ensures fd_root.i_kind != Mountpt ==> Valid() && fd_position == 0
      ensures fd_root.i_kind == Mountpt ==>
                && fs.Valid() && fs.view == old(fs.view)
                && Here() == if m.rewind == None then old(Here()) else m.rewind.value
    {
      hide Consistent, Mirrors, Positioned, Entries;
      if fd_root.i_kind == Mountpt {
        if m.rewind.Some? {
          fd_next, fd_position := m.rewind.value.next, m.rewind.value.pos;
        }
      } else {
        RewindPseudo();
      }
    }

    function Here(): Effect
      reads this`fd_next, this`fd_position
    {
      Effect(fd_next, fd_position)
    }

    /** The walk of seekdir along the peer list. */
    method Walk(start: Inode?, from: int, offset: int) returns (curr: Inode?, pos: int)
      requires Valid() && 0 <= from <= |Entries(fs.view, fs.root_inode)|
      requires start == EntryAt(Entries(fs.view, fs.root_inode), from)
      ensures 0 <= pos <= |Entries(fs.view, fs.root_inode)| && curr == EntryAt(Entries(fs.view, fs.root_inode), pos)
      ensures pos == if from <= offset <= |Entries(fs.view, fs.root_inode)| then offset else |Entries(fs.view, fs.root_inode)|
    {
      hide Consistent, Positioned, Entries;
      ghost var l := Entries(fs.view, fs.root_inode);
      curr, pos := start, from;
      while curr != null && pos != offset
        invariant from <= pos <= |l| && curr == EntryAt(l, pos)
        invariant from <= offset <= |l| ==> pos <= offset
        decreases |l| - pos
      {
        EntryIsLive(fs.view, fs.root_inode, pos);
        assert fs.view.cells[curr].peer == curr.i_peer;
        curr, pos := curr.i_peer, pos + 1;
      }
    }

    /** seekpsuedodir: forward from here, or from the start when the offset is behind. */
    method SeekPseudo(offset: int)
      requires Valid()
      modifies this`fd_next, this`fd_position, fs`view, fs.view.cells.Keys`i_crefs
      ensures Valid() && OnlyCounts(old(fs.view), old(fs.root_inode))
      ensures fd_position == SeekPos(offset, |old(Entries(fs.view, fs.root_inode))|)
    {
      hide Consistent, Mirrors, Positioned, Entries;
      Standing(fs.view, fs.root_inode, fd_root, fd_next, fd_position, outside);
      var curr, pos;
      if offset < fd_position {
        curr, pos := Walk(fd_root, 0, offset);
      } else {
        curr, pos := Walk(fd_next, fd_position, offset);
      }
      if pos < |Entries(fs.view, fs.root_inode)| {
        EntryIsLive(fs.view, fs.root_inode, pos);
      }
      Move(curr, pos);
    }

    /** seekdir, with the same dispatch. */
    method Seek(offset: int, m: MountDir)
      requires Valid()
      modifies this`fd_next, this`fd_position, fs`view, fs.view.cells.Keys`i_crefs
      ensures OnlyCounts(old(fs.view), old(fs.root_inode))
      ensures fd_root.i_kind != Mountpt ==>
                Valid() && fd_position == SeekPos(offset, |old(Entries(fs.view, fs.root_inode))|)
      ensures fd_root.i_kind == Mountpt ==>
                fs.Valid() && fs.view == old(fs.view) && Here() == SeekMounted(old(Here()), offset, m)
    {
      if fd_root.i_kind == Mountpt {
        SeekMountpt(offset, m);
      } else {
        SeekPseudo(offset);
      }
    }

    /** seekmountptdir. */
    method SeekMountpt(offset: int, m: MountDir)
      modifies this`fd_next, this`fd_position
      ensures Here() == SeekMounted(old(Here()), offset, m)
    {
      var pos := fd_position;
      if offset < fd_position {
        if m.rewind.None? {
          return;
        }
        fd_next, fd_position := m.rewind.value.next, m.rewind.value.pos;
        pos := 0;
      }
      var i := 0;
      assert m.more[0..] == m.more;
      while pos < offset
        invariant 0 <= i <= |m.more|
        invariant ReadOn(Here(), pos, offset, m.more[i..]) == SeekMounted(old(Here()), offset, m)
        decreases offset - pos
      {
        if i >= |m.more| {
          return;
        }
        fd_next, fd_position := m.more[i].next, m.more[i].pos;
        i, pos := i + 1, pos + 1;
      }
      fd_position := pos;
    }

    /** closedir, whatever the state of the stream: it gives back what it stands on. */
    method GiveBack()
      requires fs.Valid() && (fd_next != null ==> fd_next in fs.view.cells)
      requires fd_root in fs.view.cells && fd_root in ReleaseMaybe(fs.view, fd_next).cells
      modifies fs`view, Just(fd_next)`i_crefs, fd_root`i_crefs
      ensures fs.Valid() && fs.view == ReleaseMaybe(ReleaseMaybe(old(fs.view), fd_next), fd_root)
    {
      hide Consistent, Mirrors, ReleaseView, Safe;
      fs.Release(fd_next);
      fs.Release(fd_root);
    }

    /** closedir on a stream in order: every reference of the stream is given back. */
    method Close()
      requires Valid()
      modifies fs`view, fs.view.cells.Keys`i_crefs
      ensures fs.Valid() && Safe(fs.view) && fs.view.holders == outside
      ensures OnlyCounts(old(fs.view), old(fs.root_inode))
    {
      hide Consistent, Mirrors, Positioned, Entries, ReleaseView, Safe;
      Standing(fs.view, fs.root_inode, fd_root, fd_next, fd_position, outside);
      Closed(fs.view, fs.root_inode, fd_root, fd_next, fd_position, outside);
      GiveBack();
    }

    /** Nothing but reference counts has changed in the tree. */
    ghost predicate OnlyCounts(v: View, root: Inode?)
      reads this, fs
    {
      && fs.root_inode == root && fs.view.ns == v.ns && fs.view.freed == v.freed && fs.view.cells.Keys == v.cells.Keys
      && Entries(fs.view, fs.root_inode) == Entries(v, root)
    }
  }

  datatype Errno = ENOTDIR | ENOMEM

  /** opendir for the root. There is none before the first node is reserved. */
  method OpenRoot(fs: FileSystem, memory: bool) returns (err: Option<Errno>, dir: DirStream?)
    requires fs.Valid() && Safe(fs.view)
    modifies fs`view, Just(fs.root_inode)`i_crefs
    ensures if dir == null then err.Some? && fs.Valid() && fs.view == old(fs.view) else err == None && fresh(dir)
    ensures err == if old(fs.root_inode) == null then Some(ENOTDIR) else if !memory then Some(Errno.ENOMEM) else None
    ensures dir != null ==>
              && dir.Valid() && dir.fs == fs && dir.fd_position == 0 && dir.outside == old(fs.view.holders)
              && dir.OnlyCounts(old(fs.view), old(fs.root_inode))
  {
    dir := null;
    if fs.root_inode == null {
      return Some(ENOTDIR), dir;
    }
    if !memory {
      return Some(Errno.ENOMEM), dir;
    }
    err := None;
    dir := new DirStream(fs);
  }

  datatype Move = Read | Rewind | Seek(offset: int)

  /** Where a stream over n entries stands after some moves. */
  function PosAfter(n: nat, moves: seq<Move>): (pos: int)
    ensures 0 <= pos <= n
  {
    if moves == [] then 0 else
      MovePos(n, PosAfter(n, moves[..|moves| - 1]), moves[|moves| - 1])
  }

  function MovePos(n: nat, pos: int, move: Move): int {
    match move
    case Read => ReadPos(pos, n)
    case Rewind => 0
    case Seek(offset) => SeekPos(offset, n)
  }

  /** What a move made at pos tells. */
  ghost function Told(l: seq<Inode>, pos: int, move: Move): Option<string> {
    if move == Read && 0 <= pos < |l| then Some(DirName(l[pos].i_name)) else None
  }

  ghost function Tale(l: seq<Inode>, moves: seq<Move>): seq<Option<string>> {
    if moves == [] then [] else
      var before := moves[..|moves| - 1];
      Tale(l, before) + [Told(l, PosAfter(|l|, before), moves[|moves| - 1])]
  }

  /** The moves that the stream itself makes: all, unless the first node is a mountpoint. */
  predicate OwnMove(kind: Kind, move: Move) {
    kind != Mountpt || move == Read
  }

  method Apply(dir: DirStream, move: Move, m: MountDir) returns (name: Option<string>)
    requires dir.Valid() && OwnMove(dir.fd_root.i_kind, move)
    modifies dir`fd_next, dir`fd_position, dir.fs`view, dir.fs.view.cells.Keys`i_crefs
    ensures dir.Valid() && dir.OnlyCounts(old(dir.fs.view), old(dir.fs.root_inode))
    ensures var l, pos := old(Entries(dir.fs.view, dir.fs.root_inode)), old(dir.fd_position);
      dir.fd_position == MovePos(|l|, pos, move) && name == Told(l, pos, move)
  {
    hide Consistent, Mirrors, Entries, Safe;
    name := None;
    match move {
      case Read => name := dir.Read();
      case Rewind => dir.Rewind(m);
      case Seek(offset) => dir.Seek(offset, m);
    }
  }

  /** Unless the first node is a mountpoint, or all moves are reads: open the root, move about, and
      close, and every read tells the entry where the moves before
      it lead, and no reference is left behind. */
  method Browse(fs: FileSystem, moves: seq<Move>, m: MountDir) returns (names: seq<Option<string>>)
    requires fs.Valid() && Safe(fs.view) && fs.root_inode != null
    requires forall i | 0 <= i < |moves| :: OwnMove(fs.root_inode.i_kind, moves[i])
    modifies fs`view, fs.view.cells.Keys`i_crefs
    ensures fs.Valid() && Safe(fs.view) && fs.view.holders == old(fs.view.holders) && fs.view.ns == old(fs.view.ns)
    ensures names == Tale(old(Entries(fs.view, fs.root_inode)), moves)
  {
    hide Consistent, Mirrors, Positioned, Entries, Safe, Told, MovePos, OwnMove;
    ghost var v, root, l := fs.view, fs.root_inode, Entries(fs.view, fs.root_inode);
    RootIsLive(v, root);
    var dir := new DirStream(fs);
    names := [];
    var i := 0;
    while i < |moves|
      invariant 0 <= i <= |moves| && dir.fs == fs && fresh(dir)
      invariant dir.Valid() && dir.OnlyCounts(v, root) && dir.outside == v.holders
      invariant dir.fd_position == PosAfter(|l|, moves[..i])
      invariant names == Tale(l, moves[..i])
    {
      assert moves[..i + 1][..i] == moves[..i];
      var name := Apply(dir, moves[i], m);
      names := names + [name];
      i := i + 1;
    }
    assert moves[..|moves|] == moves;
    dir.Close();
  }

  /** If the first node is a mountpoint, a stream on the root is not rewound by rewinddir where the
      mountpoint has no method for it: after one read it stays where it is, and the next read
      tells the second entry. */
  method MountedStays(fs: FileSystem) returns (dir: DirStream, rewound: int, name: Option<string>)
    requires fs.Valid() && Safe(fs.view) && fs.root_inode != null && fs.root_inode.i_kind == Mountpt
    modifies fs`view, fs.view.cells.Keys`i_crefs
    ensures dir.Valid() && rewound == 1 && name == Told(old(Entries(fs.view, fs.root_inode)), 1, Read)
  {
    hide Consistent, Mirrors, Entries, Safe, Positioned;
    ghost var v, root := fs.view, fs.root_inode;
    RootIsLive(v, root);
    dir := new DirStream(fs);
    HasFirst(fs.view, fs.root_inode);
    name := dir.Read();
    dir.Rewind(MountDir(None, []));
    rewound := dir.fd_position;
    name := dir.Read();
  }

  /** And where it has one, what that leaves in the shared storage hides the reference that the
      stream holds on its position: closing leaves it behind. */
  method MountedLeaks(fs: FileSystem)
    requires fs.Valid() && Safe(fs.view) && fs.root_inode != null && fs.root_inode.i_kind == Mountpt
    modifies fs`view, fs.view.cells.Keys`i_crefs
    ensures fs.Valid() && fs.view.holders == old(fs.view.holders) + multiset{old(fs.root_inode)}
  {
    hide Consistent, Mirrors, Entries, Safe, ReleaseView;
    ghost var root, out := fs.root_inode, fs.view.holders;
    RootIsLive(fs.view, root);
    var dir := new DirStream(fs);
    OneLess(fs.view, root, out);
    dir.Rewind(MountDir(Some(Effect(null, 0)), []));
    dir.GiveBack();
  }

  /** Such a tree is one reservation and one mount away from the start. */
  method MountedFirst() returns (fs: FileSystem)
    ensures fs.Valid() && Safe(fs.view) && fs.root_inode != null && fs.root_inode.i_kind == Mountpt
  {
    hide Consistent, Mirrors, Resolve, Prefixes;
    fs := new FileSystem();
    OneSegment(fs.view);
    var status, node, made;
    ghost var trail, ins;
    status, node, made, trail, ins := fs.Reserve("/a", 1);
    NoHolders(fs.view, fs.root_inode);
    assert [Sub(Top, "a")][..made] == [Sub(Top, "a")];
    OnlyNode(fs.view, fs.root_inode, node);
    fs.SetKind(node, Mountpt);
  }

  lemma OneSegment(v: View)
    requires v.ns == map[]
    ensures "/a"[1..] == "a" && Resolve(v.ns, v.cells, Top, "a") == Missing(Top, "a") && Prefixes(Top, "a") == [Sub(Top, "a")]
  {
    assert Segment("a") == "a" && NextName("a") == "";
  }

  lemma NoHolders(v: View, root: Inode?)
    requires Consistent(v, root, null) && v.holders == multiset{}
    ensures Safe(v)
  {
  }

  lemma OnlyNode(v: View, root: Inode?, node: Inode)
    requires Consistent(v, root, null) && In(v.ns, node) && v.ns.Keys == PathSet([Sub(Top, "a")])
    ensures root == node && node in v.cells
  {
  }

  lemma HasFirst(v: View, root: Inode?)
    requires Consistent(v, root, null) && root != null
    ensures |Entries(v, root)| > 0
  {
  }

  lemma OneLess(v: View, root: Inode, outside: multiset<Inode>)
    requires Consistent(v, root, null) && Positioned(v, root, root, root, 0, outside)
    ensures root in v.cells && ReleaseMaybe(v, root).holders == outside + multiset{root}
  {
    HasFirst(v, root);
    EntryIsLive(v, root, 0);
    DropEntry(v, root, root);
    assert multiset{root} + multiset{root} + outside - multiset{root} == outside + multiset{root};
  }

  lemma RootIsLive(v: View, root: Inode?)
    requires Consistent(v, root, null) && root != null
    ensures root in v.cells
  {
  }
}
