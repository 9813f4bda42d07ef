/**
 Spaces: the abstract view of the pseudo-filesystem tree, and what its pointers mean.

 The tree of nuttx/fs/fs_inode.c is a left-child/right-peer tree whose peer lists are sorted by
 name. A space is a map from paths to nodes; `Linked` says, pointer by pointer, that the heap is
 exactly the tree of a space.
 */
module Spaces {
  import opened Common
  import opened Strings
  import opened PathNames

  /** The list of segments that names a node, innermost last. */
  datatype Path = Top | Sub(parent: Path, name: string)

  /** The node type bits of i_flags. */
  datatype Kind = Driver | Block | Mountpt

  /** The driver methods the file layer looks at. */
  datatype Operations = Operations(read: bool, write: bool)

  /** struct inode. A node never moves, so the path it was reserved under is a ghost constant.
      kzalloc leaves a new node unlinked, unreferenced and without operations. */
  class Inode {
    ghost const i_path: Path
    const i_name: string
    var i_peer: Inode?
    var i_child: Inode?
    var i_crefs: nat
    var i_kind: Kind
    var i_deleted: bool
    var i_ops: Option<Operations>

    constructor (ghost base: Path, name: string)
      ensures i_name == Segment(name) && i_path == Sub(base, i_name)
      ensures i_peer == null && i_child == null && i_crefs == 0
      ensures i_kind == Driver && !i_deleted && i_ops == None
    {
      i_name := Segment(name);
      i_path := Sub(base, Segment(name));
      i_peer, i_child, i_crefs := null, null, 0;
      i_kind, i_deleted, i_ops := Driver, false, None;
    }
  }

  /** The objects behind a pointer that may be null, for frames. */
  ghost function Just(n: Inode?): set<Inode> {
    if n == null then {} else {n}
  }

  type Space = map<Path, Inode>

  /** n is filed in the space. */
  ghost predicate In(ns: Space, n: Inode) {
    n.i_path in ns && ns[n.i_path] == n
  }

  /** Where a scan of a peer list stands: at its start, or just after a name. */
  datatype Bound = Start | After(name: string)

  predicate Beyond(lo: Bound, x: string) {
    lo.Start? || Lt(lo.name, x)
  }

  function BoundOf(peer: Inode?): Bound {
    if peer == null then Start else After(peer.i_name)
  }

  /** n is the child of dir with the least name beyond lo; null when there is none. */
  ghost predicate NextAt(ns: Space, dir: Path, lo: Bound, n: Inode?) {
    && (n == null ==> forall x :: Sub(dir, x) in ns ==> !Beyond(lo, x))
    && (n != null ==>
          && n.i_path == Sub(dir, n.i_name) && In(ns, n)
          && Beyond(lo, n.i_name)
          && forall x :: Sub(dir, x) in ns && Beyond(lo, x) ==> x == n.i_name || Lt(n.i_name, x))
  }

  /** left is the child of dir with the greatest name below x; null when there is none. */
  ghost predicate LeftOf(ns: Space, dir: Path, x: string, left: Inode?) {
    && (left == null ==> forall y :: Sub(dir, y) in ns ==> !Lt(y, x))
    && (left != null ==>
          && left.i_path == Sub(dir, left.i_name) && In(ns, left)
          && Lt(left.i_name, x)
          && forall y :: Sub(dir, y) in ns && Lt(y, x) ==> y == left.i_name || Lt(y, left.i_name))
  }

  /** parent is the node at dir; null stands for the top level. */
  ghost predicate NodeAt(ns: Space, dir: Path, parent: Inode?) {
    if parent == null then dir == Top else dir == parent.i_path && dir != Top && In(ns, parent)
  }

  /** A space hung below base is closed under parents and files every node under its own path. */
  ghost predicate Filed(ns: Space, base: Path) {
    && base !in ns && Top !in ns
    && (forall p {:trigger p.parent} | p in ns :: p.Sub? && (p.parent == base || p.parent in ns))
    && (forall p {:trigger ns[p]} | p in ns :: ns[p].i_path == p && p.Sub? && ns[p].i_name == p.name)
  }

  /** The links, count and flags of one node, as a value. */
  datatype Cell = Cell(peer: Inode?, child: Inode?, crefs: nat, kind: Kind, deleted: bool)

  type Cells = map<Inode, Cell>

  /** The cells are the fields of the nodes they describe. */
  ghost predicate Mirrors(cells: Cells)
    reads cells.Keys
  {
    forall n {:trigger cells[n]} | n in cells ::
      cells[n] == Cell(n.i_peer, n.i_child, n.i_crefs, n.i_kind, n.i_deleted)
  }

  ghost predicate SameLinks(c: Cell, c': Cell) {
    c'.peer == c.peer && c'.child == c.child
  }

  ghost function PeerOf(cells: Cells, n: Inode): Inode?
    requires n in cells
  {
    cells[n].peer
  }

  ghost function ChildOf(cells: Cells, n: Inode): Inode?
    requires n in cells
  {
    cells[n].child
  }

  ghost predicate Described(ns: Space, cells: Cells) {
    forall p {:trigger ns[p]} | p in ns :: ns[p] in cells
  }

  /** The i_child of every node leads to its first child. */
  ghost predicate PointsDown(ns: Space, cells: Cells) {
    forall n {:trigger ChildOf(cells, n)} | n in cells && In(ns, n) :: NextAt(ns, n.i_path, Start, ChildOf(cells, n))
  }

  /** The i_peer of every node leads to its next greater peer. */
  ghost predicate PointsRight(ns: Space, cells: Cells) {
    forall n {:trigger PeerOf(cells, n)} | n in cells && In(ns, n) ::
      n.i_path.Sub? && NextAt(ns, n.i_path.parent, After(n.i_name), PeerOf(cells, n))
  }

  /** Starting from the link first, the cells are the tree of the space ns hung below base. */
  ghost predicate Linked(ns: Space, base: Path, first: Inode?, cells: Cells) {
    && Filed(ns, base) && Described(ns, cells)
    && NextAt(ns, base, Start, first) && PointsDown(ns, cells) && PointsRight(ns, cells)
  }

  /** The tree of a space depends on the links of its own nodes only. */
  lemma LinkedFrame(ns: Space, base: Path, first: Inode?, cells: Cells, cells': Cells)
    requires Linked(ns, base, first, cells)
    requires forall p {:trigger ns[p]} | p in ns ::
               var n := ns[p];
               n in cells' && SameLinks(cells[n], cells'[n])
    ensures Linked(ns, base, first, cells')
  {
    forall n | n in cells' && In(ns, n) ensures NextAt(ns, n.i_path, Start, ChildOf(cells', n)) {
      assert NextAt(ns, n.i_path, Start, ChildOf(cells, n));
    }
    assert PointsRight(ns, cells') by {
      forall n | n in cells' && In(ns, n)
        ensures n.i_path.Sub? && NextAt(ns, n.i_path.parent, After(n.i_name), PeerOf(cells', n))
      {
        assert NextAt(ns, n.i_path.parent, After(n.i_name), PeerOf(cells, n));
      }
    }
  }

  // ---------------------------------------------------------------------------------------
  // Path resolution
  // ---------------------------------------------------------------------------------------

  /** Found: the path of the node and the part of the string left over.
      Missing: the deepest directory reached and the string from its first absent segment. */
  datatype Resolution = Found(at: Path, relpath: string) | Missing(base: Path, name: string)

  ghost predicate IsMountpt(cells: Cells, n: Inode) {
    n in cells && cells[n].kind == Mountpt
  }

  /** What a path string means on a space, with no regard to order or links. */
  ghost function Resolve(ns: Space, cells: Cells, base: Path, name: string): Resolution
    decreases |name|
  {
    var p := Sub(base, Segment(name));
    var rest := NextName(name);
    if p !in ns then Missing(base, name)
    else if rest == "" || IsMountpt(cells, ns[p]) then Found(p, rest)
    else Resolve(ns, cells, p, rest)
  }

  /** The paths of the successive prefixes of a path string. */
  ghost function Prefixes(base: Path, name: string): (ps: seq<Path>)
    ensures ps != []
    decreases |name|
  {
    var p, rest := Sub(base, Segment(name)), NextName(name);
    [p] + if rest == "" then [] else Prefixes(p, rest)
  }

  /** The path a whole string names. */
  ghost function Full(base: Path, name: string): Path {
    var ps := Prefixes(base, name);
    ps[|ps| - 1]
  }

  /** The string after its first k segments. */
  function Skip(name: string, k: nat): string
    decreases k
  {
    if k == 0 then name else Skip(NextName(name), k - 1)
  }

  /** Resolution of a string with prefixes ps is settled at its prefix k: those before it exist
      and are no mountpoints; ps[k] is missing, is a mountpoint, or is the whole path. */
  ghost predicate SettledAt(ns: Space, cells: Cells, ps: seq<Path>, name: string, k: nat, r: Resolution) {
    && k < |ps| && (forall j | 0 <= j < k :: ps[j] in ns && !IsMountpt(cells, ns[ps[j]]))
    && match r
       case Found(p, rest) =>
         p == ps[k] && p in ns && rest == Skip(name, k + 1) && (k == |ps| - 1 || IsMountpt(cells, ns[p]))
       case Missing(b, rest) =>
         Sub(b, Segment(rest)) == ps[k] && ps[k] !in ns && rest == Skip(name, k)
  }

  lemma SettledLater(ns: Space, cells: Cells, p: Path, ps: seq<Path>, name: string, k: nat, r: Resolution)
    requires SettledAt(ns, cells, ps, NextName(name), k, r)
    requires p in ns && !IsMountpt(cells, ns[p])
    ensures SettledAt(ns, cells, [p] + ps, name, k + 1, r)
  {
  }

  /** Resolution stops at the shortest prefix that is a mountpoint or the whole path, or, if it
      comes first, at the shortest prefix that does not exist; what is reported as left over is
      exactly what follows the segments consumed. */
  lemma {:induction false} ResolveMeaning(ns: Space, cells: Cells, base: Path, name: string) returns (k: nat)
    ensures SettledAt(ns, cells, Prefixes(base, name), name, k, Resolve(ns, cells, base, name))
    decreases |name|
  {
    var p, rest, ps := Sub(base, Segment(name)), NextName(name), Prefixes(base, name);
    if p !in ns || rest == "" || IsMountpt(cells, ns[p]) {
      k := 0;
      assert Skip(name, 1) == Skip(rest, 0);
    } else {
      var ps' := Prefixes(p, rest);
      var k' := ResolveMeaning(ns, cells, p, rest);
      assert ps == [p] + ps';
      k := k' + 1;
      SettledLater(ns, cells, p, ps', name, k', Resolve(ns, cells, p, rest));
    }
  }

  /** What is missing of a path, below the directory reached, names the same place. */
  lemma {:induction false} MissingNamesTheSame(ns: Space, cells: Cells, base: Path, name: string)
    ensures var r := Resolve(ns, cells, base, name); r.Missing? ==> Full(r.base, r.name) == Full(base, name)
    decreases |name|
  {
    var p, rest := Sub(base, Segment(name)), NextName(name);
    if p in ns && rest != "" && !IsMountpt(cells, ns[p]) {
      MissingNamesTheSame(ns, cells, p, rest);
    }
  }

  /** A path whose every prefix exists and is no mountpoint resolves to its own node. */
  lemma {:induction false} ResolveWhole(ns: Space, cells: Cells, base: Path, name: string)
    requires forall p | p in Prefixes(base, name) :: p in ns && !IsMountpt(cells, ns[p])
    ensures Resolve(ns, cells, base, name) == Found(Full(base, name), "")
    decreases |name|
  {
    var p, rest := Sub(base, Segment(name)), NextName(name);
    if rest != "" {
      assert Prefixes(base, name)[1..] == Prefixes(p, rest);
      ResolveWhole(ns, cells, p, rest);
    }
  }

  // ---------------------------------------------------------------------------------------
  // Scanning a sorted peer list
  // ---------------------------------------------------------------------------------------

  /** The children of dir beyond lo; shrinks as a scan of its peer list goes on. */
  ghost function Siblings(ns: Space, dir: Path, lo: Bound): set<Path> {
    set p | p in ns && p.Sub? && p.parent == dir && Beyond(lo, p.name)
  }

  lemma SiblingsShrink(ns: Space, dir: Path, lo: Bound, node: Inode)
    requires NextAt(ns, dir, lo, node)
    ensures Siblings(ns, dir, After(node.i_name)) < Siblings(ns, dir, lo)
  {
    LtIsStrictTotalOrder();
    assert Sub(dir, node.i_name) in Siblings(ns, dir, lo);
  }

  /** A scan of the peer list of dir for x stands at node, peer being the node just passed. */
  ghost predicate Scanning(ns: Space, dir: Path, x: string, peer: Inode?, node: Inode?) {
    && NextAt(ns, dir, BoundOf(peer), node)
    && (peer != null ==> peer.i_path == Sub(dir, peer.i_name) && In(ns, peer) && Lt(peer.i_name, x))
  }

  /** Passing the end of a sorted list, or a greater name, loses nothing. */
  lemma ScanMisses(ns: Space, dir: Path, x: string, peer: Inode?, node: Inode?)
    requires Scanning(ns, dir, x, peer, node)
    requires node == null || Lt(x, node.i_name)
    ensures Sub(dir, x) !in ns
    ensures LeftOf(ns, dir, x, peer)
  {
    LtIsStrictTotalOrder();
  }

  lemma ScanHits(ns: Space, dir: Path, x: string, peer: Inode?, node: Inode)
    requires Scanning(ns, dir, x, peer, node) && node.i_name == x
    ensures Sub(dir, x) in ns && ns[Sub(dir, x)] == node
    ensures LeftOf(ns, dir, x, peer)
  {
    LtIsStrictTotalOrder();
  }

  /** What inode_search hands back for a resolution. */
  ghost predicate Located(ns: Space, r: Resolution, node: Inode?, peer: Inode?, parent: Inode?,
                          name: string, relpath: Option<string>)
  {
    match r
    case Found(p, rest) =>
      && p in ns && p.Sub? && node == ns[p] && name == rest && relpath == Some(rest)
      && NodeAt(ns, p.parent, parent) && LeftOf(ns, p.parent, p.name, peer)
    case Missing(base, rest) =>
      && node == null && name == rest && relpath == None
      && NodeAt(ns, base, parent) && LeftOf(ns, base, Segment(rest), peer)
      && Sub(base, Segment(rest)) !in ns
  }

  /** inode_search: one pass down the sorted lists, left as soon as a greater name is met. */
  method Search(root: Inode?, path: string, ghost ns: Space, ghost cells: Cells)
    returns (node: Inode?, peer: Inode?, parent: Inode?, name: string, relpath: Option<string>)
    requires Linked(ns, Top, root, cells) && Mirrors(cells) && path != ""
    ensures Located(ns, Resolve(ns, cells, Top, path[1..]), node, peer, parent, name, relpath)
  {
    name, node, peer, parent, relpath := path[1..], root, null, null, None;
    ghost var dir := Top;
    while node != null
      invariant Resolve(ns, cells, Top, path[1..]) == Resolve(ns, cells, dir, name)
      invariant relpath == None
      invariant NodeAt(ns, dir, parent)
      invariant Scanning(ns, dir, Segment(name), peer, node)
      decreases |name|, Siblings(ns, dir, BoundOf(peer))
    {
      assert PeerOf(cells, node) == node.i_peer && ChildOf(cells, node) == node.i_child;
      CompareOrdersSegments(name, node.i_name);
      var result := Compare(name, node.i_name);
      if result < 0 {
        ScanMisses(ns, dir, Segment(name), peer, node);
        node := null;
        return;
      } else if result > 0 {
        SiblingsShrink(ns, dir, BoundOf(peer), node);
        peer := node;
        node := node.i_peer;
      } else {
        ScanHits(ns, dir, Segment(name), peer, node);
        name := NextName(name);
        if name == "" || node.i_kind == Mountpt {
          relpath := Some(name);
          return;
        } else {
          dir := node.i_path;
          parent := node;
          peer := null;
          node := node.i_child;
        }
      }
    }
    ScanMisses(ns, dir, Segment(name), peer, node);
  }

  // ---------------------------------------------------------------------------------------
  // Adding a leaf
  // ---------------------------------------------------------------------------------------

  /** A free name below an existing directory, and its neighbours. */
  ghost predicate Insertable(ns: Space, node: Inode, left: Inode?, parent: Inode?) {
    && node.i_path.Sub? && node.i_path.name == node.i_name && node.i_path !in ns
    && NodeAt(ns, node.i_path.parent, parent)
    && LeftOf(ns, node.i_path.parent, node.i_name, left)
  }

  /** The link that inode_insert and inode_unlink redirect: that of the left neighbour, else
      that of the parent, else the root. */
  ghost function Slot(cells: Cells, root: Inode?, left: Inode?, parent: Inode?): Inode?
    requires left != null ==> left in cells
    requires parent != null ==> parent in cells
  {
    if left != null then PeerOf(cells, left) else if parent != null then ChildOf(cells, parent) else root
  }

  ghost function Redirect(cells: Cells, left: Inode?, parent: Inode?, n: Inode?): Cells
    requires left != null ==> left in cells
    requires parent != null ==> parent in cells
  {
    if left != null then cells[left := cells[left].(peer := n)]
    else if parent != null then cells[parent := cells[parent].(child := n)]
    else cells
  }

  ghost function RedirectRoot(root: Inode?, left: Inode?, parent: Inode?, n: Inode?): Inode? {
    if left == null && parent == null then n else root
  }

  lemma InsertFiles(ns: Space, node: Inode, left: Inode?, parent: Inode?)
    requires Filed(ns, Top) && Insertable(ns, node, left, parent)
    ensures Filed(ns[node.i_path := node], Top)
  {
  }

  /** Filing a new leaf changes only the successor of its left neighbour. */
  lemma NextAfterInsert(ns: Space, node: Inode, left: Inode?, parent: Inode?, dir: Path, lo: Bound, m: Inode?)
    requires Insertable(ns, node, left, parent)
    requires NextAt(ns, dir, lo, m)
    requires lo.After? ==> Sub(dir, lo.name) in ns
    ensures NextAt(ns[node.i_path := node], dir, lo,
                   if dir == node.i_path.parent && lo == BoundOf(left) then node else m)
    ensures dir == node.i_path.parent && lo == BoundOf(left) ==>
              NextAt(ns[node.i_path := node], dir, After(node.i_name), m)
  {
    LtIsStrictTotalOrder();
  }

  lemma InsertChild(ns: Space, root: Inode?, cells: Cells, node: Inode, left: Inode?, parent: Inode?, n: Inode)
    requires Linked(ns, Top, root, cells) && Insertable(ns, node, left, parent) && In(ns, n)
    ensures NextAt(ns[node.i_path := node], n.i_path, Start, ChildOf(Redirect(cells, left, parent, node), n))
  {
    NextAfterInsert(ns, node, left, parent, n.i_path, Start, ChildOf(cells, n));
  }

  lemma InsertPeer(ns: Space, root: Inode?, cells: Cells, node: Inode, left: Inode?, parent: Inode?, n: Inode)
    requires Linked(ns, Top, root, cells) && Insertable(ns, node, left, parent) && In(ns, n)
    ensures n.i_path.Sub?
    ensures NextAt(ns[node.i_path := node], n.i_path.parent, After(n.i_name), PeerOf(Redirect(cells, left, parent, node), n))
  {
    assert ns[n.i_path].i_name == n.i_path.name;
    NextAfterInsert(ns, node, left, parent, n.i_path.parent, After(n.i_name), PeerOf(cells, n));
  }

  /** The new leaf has no children and takes over the old target as its peer. */
  lemma InsertSelf(ns: Space, root: Inode?, cells: Cells, node: Inode, left: Inode?, parent: Inode?)
    requires Linked(ns, Top, root, cells) && Insertable(ns, node, left, parent)
    ensures left != null ==> left in cells
    ensures parent != null ==> parent in cells
    ensures NextAt(ns[node.i_path := node], node.i_path, Start, null)
    ensures NextAt(ns[node.i_path := node], node.i_path.parent, After(node.i_name), Slot(cells, root, left, parent))
    ensures NextAt(ns[node.i_path := node], Top, Start, RedirectRoot(root, left, parent, node))
  {
    var p := node.i_path;
    forall x ensures Sub(p, x) !in ns { assert Sub(p, x).parent == p; }
    if left != null { assert NextAt(ns, p.parent, After(left.i_name), PeerOf(cells, left)); }
    if parent != null { assert NextAt(ns, p.parent, Start, ChildOf(cells, parent)); }
    NextAfterInsert(ns, node, left, parent, p.parent, BoundOf(left), Slot(cells, root, left, parent));
    NextAfterInsert(ns, node, left, parent, Top, Start, root);
  }

  lemma InsertDown(ns: Space, root: Inode?, cells: Cells, node: Inode, left: Inode?, parent: Inode?, c: Cell)
    requires Linked(ns, Top, root, cells) && Insertable(ns, node, left, parent) && c.child == null
    requires left != null ==> left in cells
    requires parent != null ==> parent in cells
    ensures PointsDown(ns[node.i_path := node], Redirect(cells, left, parent, node)[node := c])
  {
    var ns', cells' := ns[node.i_path := node], Redirect(cells, left, parent, node)[node := c];
    forall n | n in cells' && In(ns', n) ensures NextAt(ns', n.i_path, Start, ChildOf(cells', n)) {
      if n == node {
        InsertSelf(ns, root, cells, node, left, parent);
      } else {
        InsertChild(ns, root, cells, node, left, parent, n);
      }
    }
  }

  lemma InsertRight(ns: Space, root: Inode?, cells: Cells, node: Inode, left: Inode?, parent: Inode?, c: Cell)
    requires Linked(ns, Top, root, cells) && Insertable(ns, node, left, parent)
    requires left != null ==> left in cells
    requires parent != null ==> parent in cells
    requires c.peer == Slot(cells, root, left, parent)
    ensures PointsRight(ns[node.i_path := node], Redirect(cells, left, parent, node)[node := c])
  {
    var ns', cells' := ns[node.i_path := node], Redirect(cells, left, parent, node)[node := c];
    forall n | n in cells' && In(ns', n)
      ensures n.i_path.Sub? && NextAt(ns', n.i_path.parent, After(n.i_name), PeerOf(cells', n))
    {
      if n == node {
        InsertSelf(ns, root, cells, node, left, parent);
      } else {
        InsertPeer(ns, root, cells, node, left, parent, n);
      }
    }
  }

  /** Redirecting one link to a new leaf gives the tree of the space with the leaf filed. */
  lemma InsertLinked(ns: Space, root: Inode?, cells: Cells, node: Inode, left: Inode?, parent: Inode?, c: Cell)
    requires Linked(ns, Top, root, cells) && Insertable(ns, node, left, parent)
    requires left != null ==> left in cells
    requires parent != null ==> parent in cells
    requires c.child == null && c.peer == Slot(cells, root, left, parent)
    ensures Linked(ns[node.i_path := node], Top, RedirectRoot(root, left, parent, node),
                   Redirect(cells, left, parent, node)[node := c])
  {
    InsertFiles(ns, node, left, parent);
    InsertSelf(ns, root, cells, node, left, parent);
    InsertDown(ns, root, cells, node, left, parent, c);
    InsertRight(ns, root, cells, node, left, parent, c);
  }

  // ---------------------------------------------------------------------------------------
  // Cutting off a subtree
  // ---------------------------------------------------------------------------------------

  /** p is at or below top. */
  ghost predicate Within(top: Path, p: Path) {
    p == top || (p.Sub? && Within(top, p.parent))
  }

  ghost function Depth(p: Path): nat {
    if p == Top then 0 else 1 + Depth(p.parent)
  }

  lemma {:induction false} WithinIsDeeper(top: Path, p: Path)
    requires Within(top, p)
    ensures Depth(top) <= Depth(p) && (p != top ==> Depth(top) < Depth(p))
  {
    if p != top {
      WithinIsDeeper(top, p.parent);
    }
  }

  /** Nothing is at or below a path and also a strict prefix of it. */
  lemma ParentNotWithin(top: Path)
    requires top.Sub?
    ensures !Within(top, top.parent)
  {
    if Within(top, top.parent) {
      WithinIsDeeper(top, top.parent);
    }
  }

  /** The space without the subtree at top, and the part of that subtree strictly below top. */
  ghost function Cut(ns: Space, top: Path): Space {
    map p | p in ns && !Within(top, p) :: ns[p]
  }

  ghost function Below(ns: Space, top: Path): Space {
    map p | p in ns && Within(top, p) && p != top :: ns[p]
  }

  ghost predicate Removable(ns: Space, node: Inode, left: Inode?) {
    && In(ns, node) && node.i_path.Sub? && node.i_path.name == node.i_name
    && LeftOf(ns, node.i_path.parent, node.i_name, left)
  }

  lemma CutFiles(ns: Space, top: Path)
    requires Filed(ns, Top) && top in ns
    ensures Filed(Cut(ns, top), Top) && Filed(Below(ns, top), top)
  {
    var cut := Cut(ns, top);
    forall p | p in cut ensures p.Sub? && (p.parent == Top || p.parent in cut) {
      assert ns[p].i_path == p && (p.parent == Top || p.parent in ns);
    }
    var below := Below(ns, top);
    forall p | p in below ensures p.Sub? && (p.parent == top || p.parent in below) {
      assert ns[p].i_path == p;
      WithinIsDeeper(top, p.parent);
    }
  }

  /** Exactly one pointer leads to a node: that of its left neighbour. */
  lemma OnlyLeftLeads(ns: Space, node: Inode, left: Inode?, dir: Path, lo: Bound, m: Inode?)
    requires Removable(ns, node, left)
    requires NextAt(ns, dir, lo, m) && (lo.After? ==> Sub(dir, lo.name) in ns)
    ensures m == node <==> dir == node.i_path.parent && lo == BoundOf(left)
  {
    LtIsStrictTotalOrder();
  }

  /** In what is left, the successor of the left neighbour is the next peer of the node. */
  lemma NextAfterCut(ns: Space, node: Inode, next: Inode?, dir: Path, lo: Bound, m: Inode?)
    requires In(ns, node) && node.i_path.Sub? && node.i_path.name == node.i_name
    requires NextAt(ns, node.i_path.parent, After(node.i_name), next)
    requires NextAt(ns, dir, lo, m) && !Within(node.i_path, dir)
    ensures NextAt(Cut(ns, node.i_path), dir, lo, if m == node then next else m)
  {
    LtIsStrictTotalOrder();
    forall x ensures Within(node.i_path, Sub(dir, x)) <==> Sub(dir, x) == node.i_path {}
  }

  /** Below the cut, nothing changes. */
  lemma NextBelow(ns: Space, top: Path, dir: Path, lo: Bound, m: Inode?)
    requires NextAt(ns, dir, lo, m) && Within(top, dir)
    ensures NextAt(Below(ns, top), dir, lo, m)
  {
    forall x ensures Within(top, Sub(dir, x)) && Sub(dir, x) != top {
      if Sub(dir, x) == top {
        ParentNotWithin(top);
      }
    }
  }

  lemma CutChild(ns: Space, root: Inode?, cells: Cells, node: Inode, left: Inode?, parent: Inode?, n: Inode)
    requires Linked(ns, Top, root, cells) && Removable(ns, node, left)
    requires NodeAt(ns, node.i_path.parent, parent)
    requires node in cells && (left != null ==> left in cells) && (parent != null ==> parent in cells)
    requires In(Cut(ns, node.i_path), n)
    ensures n in cells
    ensures NextAt(Cut(ns, node.i_path), n.i_path, Start, ChildOf(Redirect(cells, left, parent, PeerOf(cells, node)), n))
  {
    var m := ChildOf(cells, n);
    assert NextAt(ns, node.i_path.parent, After(node.i_name), PeerOf(cells, node));
    OnlyLeftLeads(ns, node, left, n.i_path, Start, m);
    NextAfterCut(ns, node, PeerOf(cells, node), n.i_path, Start, m);
  }

  lemma CutPeer(ns: Space, root: Inode?, cells: Cells, node: Inode, left: Inode?, parent: Inode?, n: Inode)
    requires Linked(ns, Top, root, cells) && Removable(ns, node, left)
    requires NodeAt(ns, node.i_path.parent, parent)
    requires node in cells && (left != null ==> left in cells) && (parent != null ==> parent in cells)
    requires In(Cut(ns, node.i_path), n)
    ensures n in cells && n.i_path.Sub?
    ensures NextAt(Cut(ns, node.i_path), n.i_path.parent, After(n.i_name),
                   PeerOf(Redirect(cells, left, parent, PeerOf(cells, node)), n))
  {
    var m := PeerOf(cells, n);
    assert ns[n.i_path].i_name == n.i_path.name;
    assert NextAt(ns, node.i_path.parent, After(node.i_name), PeerOf(cells, node));
    OnlyLeftLeads(ns, node, left, n.i_path.parent, After(n.i_name), m);
    NextAfterCut(ns, node, PeerOf(cells, node), n.i_path.parent, After(n.i_name), m);
  }

  /** After inode_unlink the rest is the tree of the space without the subtree; the cell c of
      the node itself does not matter. */
  lemma CutLinked(ns: Space, root: Inode?, cells: Cells, node: Inode, left: Inode?, parent: Inode?, c: Cell)
    requires Linked(ns, Top, root, cells) && Removable(ns, node, left)
    requires NodeAt(ns, node.i_path.parent, parent)
    requires node in cells && (left != null ==> left in cells) && (parent != null ==> parent in cells)
    ensures var next := PeerOf(cells, node);
            Linked(Cut(ns, node.i_path), Top, RedirectRoot(root, left, parent, next),
                   Redirect(cells, left, parent, next)[node := c])
  {
    var next := PeerOf(cells, node);
    var rest, cells' := Cut(ns, node.i_path), Redirect(cells, left, parent, next)[node := c];
    CutFiles(ns, node.i_path);
    assert NextAt(rest, Top, Start, RedirectRoot(root, left, parent, next)) by {
      OnlyLeftLeads(ns, node, left, Top, Start, root);
      NextAfterCut(ns, node, next, Top, Start, root);
    }
    assert PointsDown(rest, cells') by {
      forall n | n in cells' && In(rest, n) ensures NextAt(rest, n.i_path, Start, ChildOf(cells', n)) {
        CutChild(ns, root, cells, node, left, parent, n);
      }
    }
    assert PointsRight(rest, cells') by {
      forall n | n in cells' && In(rest, n)
        ensures n.i_path.Sub? && NextAt(rest, n.i_path.parent, After(n.i_name), PeerOf(cells', n))
      {
        CutPeer(ns, root, cells, node, left, parent, n);
      }
    }
  }

  /** Neither the node nor its neighbours are below it. */
  lemma NeighboursNotBelow(ns: Space, node: Inode, left: Inode?, parent: Inode?, n: Inode)
    requires Removable(ns, node, left) && NodeAt(ns, node.i_path.parent, parent)
    requires In(Below(ns, node.i_path), n)
    ensures n != node && n != left && n != parent
  {
    ParentNotWithin(node.i_path);
  }

  /** The part cut off is still a tree, hung below the removed node. */
  lemma BelowLinked(ns: Space, root: Inode?, cells: Cells, node: Inode)
    requires Linked(ns, Top, root, cells) && In(ns, node) && node in cells
    ensures Linked(Below(ns, node.i_path), node.i_path, ChildOf(cells, node), cells)
  {
    var top, below := node.i_path, Below(ns, node.i_path);
    CutFiles(ns, top);
    NextBelow(ns, top, top, Start, ChildOf(cells, node));
    assert PointsDown(below, cells) by {
      forall n | n in cells && In(below, n) ensures NextAt(below, n.i_path, Start, ChildOf(cells, n)) {
        NextBelow(ns, top, n.i_path, Start, ChildOf(cells, n));
      }
    }
    assert PointsRight(below, cells) by {
      forall n | n in cells && In(below, n)
        ensures n.i_path.Sub? && NextAt(below, n.i_path.parent, After(n.i_name), PeerOf(cells, n))
      {
        assert NextAt(ns, n.i_path.parent, After(n.i_name), PeerOf(cells, n));
        NextBelow(ns, top, n.i_path.parent, After(n.i_name), PeerOf(cells, n));
      }
    }
  }

  // ---------------------------------------------------------------------------------------
  // What a recursive walk from a pointer visits
  // ---------------------------------------------------------------------------------------

  /** p is a child of dir beyond lo, or below one. */
  ghost predicate Under(dir: Path, lo: Bound, p: Path) {
    p.Sub? && ((p.parent == dir && Beyond(lo, p.name)) || Under(dir, lo, p.parent))
  }

  ghost function Region(ns: Space, dir: Path, lo: Bound): set<Path> {
    set p | p in ns && Under(dir, lo, p)
  }

  lemma {:induction false} UnderIsDeeper(dir: Path, lo: Bound, p: Path)
    requires Under(dir, lo, p)
    ensures Depth(dir) < Depth(p)
  {
    if !(p.parent == dir && Beyond(lo, p.name)) {
      UnderIsDeeper(dir, lo, p.parent);
    }
  }

  lemma UnderGoesDown()
    ensures forall dir, lo, p :: Under(dir, lo, p) ==> Depth(dir) < Depth(p)
  {
    forall dir, lo, p | Under(dir, lo, p) ensures Depth(dir) < Depth(p) {
      UnderIsDeeper(dir, lo, p);
    }
  }

  lemma {:induction false} FiledBelowBase(ns: Space, base: Path, p: Path)
    requires Filed(ns, base) && p in ns
    ensures Depth(base) < Depth(p)
  {
    assert p.parent == base || p.parent in ns;
    if p.parent != base {
      FiledBelowBase(ns, base, p.parent);
    }
  }

  /** The three parts of a walk from node: itself, what is below it, and what is right of it. */
  lemma {:induction false} WalkSplits(ns: Space, base: Path, dir: Path, lo: Bound, node: Inode, p: Path)
    requires Filed(ns, base) && (dir == base || dir in ns) && NextAt(ns, dir, lo, node) && p in ns
    ensures Under(dir, lo, p) <==>
            p == node.i_path || Under(node.i_path, Start, p) || Under(dir, After(node.i_name), p)
    decreases p
  {
    UnderGoesDown();
    if dir != base { FiledBelowBase(ns, base, dir); }
    assert p.parent == base || p.parent in ns;
    LtIsStrictTotalOrder();
    if p.parent != dir && p.parent != base {
      WalkSplits(ns, base, dir, lo, node, p.parent);
    }
  }

  lemma {:induction false} WalkPartsDisjoint(dir: Path, x: string, p: Path)
    ensures !Under(Sub(dir, x), Start, Sub(dir, x)) && !Under(dir, After(x), Sub(dir, x))
    ensures !(Under(Sub(dir, x), Start, p) && Under(dir, After(x), p))
    decreases p
  {
    UnderGoesDown();
    LtIrreflexive(x);
    if p.Sub? && p.parent != Sub(dir, x) && p.parent != dir {
      WalkPartsDisjoint(dir, x, p.parent);
    }
  }

  lemma RegionSplits(ns: Space, base: Path, dir: Path, lo: Bound, node: Inode)
    requires Filed(ns, base) && (dir == base || dir in ns) && NextAt(ns, dir, lo, node)
    ensures var own, below, right := {node.i_path}, Region(ns, node.i_path, Start), Region(ns, dir, After(node.i_name));
            && Region(ns, dir, lo) == own + below + right
            && own !! below && own !! right && below !! right
  {
    forall p | p in ns {
      WalkSplits(ns, base, dir, lo, node, p);
    }
    forall p {
      WalkPartsDisjoint(dir, node.i_name, p);
    }
  }

  lemma {:induction false} NothingUnderNull(ns: Space, base: Path, dir: Path, lo: Bound, p: Path)
    requires Filed(ns, base) && (dir == base || dir in ns) && NextAt(ns, dir, lo, null) && p in ns
    ensures !Under(dir, lo, p)
  {
    UnderGoesDown();
    if dir != base { FiledBelowBase(ns, base, dir); }
    assert p.parent == base || p.parent in ns;
    if p.parent != dir && p.parent != base {
      NothingUnderNull(ns, base, dir, lo, p.parent);
    }
  }

  /** A walk from the first child of the base visits the whole space. */
  lemma {:induction false} WalkVisitsAll(ns: Space, base: Path, p: Path)
    requires Filed(ns, base) && p in ns
    ensures Under(base, Start, p)
  {
    assert p.parent == base || p.parent in ns;
    if p.parent != base {
      WalkVisitsAll(ns, base, p.parent);
    }
  }
}
