/**
 The inode tree as a state machine: reservation, reference counting, removal and deferred
 deletion (nuttx/fs/fs_inode*.c). Every method is one region under the tree semaphore.
 */
module FileSystems {
  import opened Common
  import opened Strings
  import opened PathNames
  import opened Spaces

  datatype Status = OK | EINVAL | EEXIST | ENOMEM | EBUSY | ENOENT

  /** What the heap of inodes means: the space of the tree; the removed nodes that are still
      held, each with the space that hangs below it; for every node not yet freed, its fields
      and the tree (None) or the removed node (Some) it belongs to; the references handed out
      and not given back; and the nodes handed to kfree. */
  datatype View = View(ns: Space, detached: map<Inode, Space>, cells: Cells, owner: map<Inode, Option<Inode>>,
                       holders: multiset<Inode>, freed: set<Inode>)

  /** The root pointer and what the heap means. */
  datatype State = State(v: View, root: Inode?)

  ghost predicate TreeOk(v: View, root: Inode?) {
    && (forall p {:trigger v.ns[p]} | p in v.ns :: v.ns[p] in v.owner && v.owner[v.ns[p]] == None)
    && Linked(v.ns, Top, root, v.cells)
  }

  /** h heads a detached subtree: nothing leads on from it but its own children. */
  ghost predicate HeadOk(v: View, h: Inode)
    requires h in v.detached
  {
    && h in v.cells && h in v.owner && v.owner[h] == Some(h) && v.cells[h].peer == null
    && (forall p {:trigger v.detached[h][p]} | p in v.detached[h] ::
          var n := v.detached[h][p]; n != h && n in v.owner && v.owner[n] == Some(h))
    && Linked(v.detached[h], h.i_path, v.cells[h].child, v.cells)
  }

  ghost predicate CutOk(v: View) {
    forall h {:trigger HeadOk(v, h)} | h in v.detached :: HeadOk(v, h)
  }

  /** No node that is not freed is lost. */
  ghost predicate Kept(v: View, n: Inode)
    requires n in v.owner
  {
    match v.owner[n]
    case None => In(v.ns, n)
    case Some(h) => h in v.detached && (n == h || In(v.detached[h], n))
  }

  /** The count of a node is the number of its holders. A node is marked deleted exactly when
      it heads a detached subtree, and then it is held; x is the one node in between. */
  ghost predicate NodeOk(v: View, n: Inode, x: Inode?)
    requires n in v.owner && n in v.cells
  {
    && n !in v.freed && Kept(v, n)
    && v.cells[n].crefs == v.holders[n]
    && (n != x ==> (v.cells[n].deleted <==> n in v.detached))
    && (n != x && n in v.detached ==> v.cells[n].crefs > 0)
  }

  ghost predicate NodesOk(v: View, x: Inode?) {
    && v.owner.Keys == v.cells.Keys
    && forall n {:trigger NodeOk(v, n, x)} | n in v.cells :: NodeOk(v, n, x)
  }

  ghost predicate Consistent(v: View, root: Inode?, x: Inode?) {
    TreeOk(v, root) && CutOk(v) && NodesOk(v, x)
  }

  /** Same links, for a node that keeps its owner. */
  ghost predicate SameNode(v: View, v': View, n: Inode)
    requires n in v.owner && n in v.cells
  {
    && n in v'.owner && n in v'.cells && v'.owner[n] == v.owner[n]
    && SameLinks(v.cells[n], v'.cells[n])
  }

  /** A detached subtree stays one as long as its own nodes do not change. */
  lemma HeadFrame(v: View, v': View, h: Inode)
    requires v.owner.Keys == v.cells.Keys && h in v.detached && HeadOk(v, h)
    requires h in v'.detached && v'.detached[h] == v.detached[h]
    requires forall n {:trigger v.owner[n]} | n in v.owner && v.owner[n] == Some(h) :: SameNode(v, v', n)
    ensures HeadOk(v', h)
  {
    assert SameNode(v, v', h);
    LinkedFrame(v.detached[h], h.i_path, v.cells[h].child, v.cells, v'.cells);
  }

  lemma HeadsAreLive(v: View)
    requires CutOk(v)
    ensures forall h | h in v.detached :: h in v.cells && h in v.owner && v.owner[h] == Some(h)
  {
    forall h | h in v.detached ensures h in v.cells && h in v.owner && v.owner[h] == Some(h) {
      assert HeadOk(v, h);
    }
  }

  lemma TreeIsLinked(v: View, root: Inode?)
    requires Consistent(v, root, null)
    ensures Linked(v.ns, Top, root, v.cells)
  {
  }

  /** A node of the tree is live, counted and not removed. */
  lemma TreeNode(v: View, root: Inode?, p: Path)
    requires Consistent(v, root, null) && p in v.ns
    ensures var n := v.ns[p];
            && n in v.cells && n in v.owner && v.owner[n] == None && n !in v.detached
            && v.cells[n].crefs == v.holders[n]
  {
    assert NodeOk(v, v.ns[p], null);
    HeadsAreLive(v);
  }

  // ---------------------------------------------------------------------------------------
  // The steps, on views
  // ---------------------------------------------------------------------------------------

  ghost function InsertView(v: View, node: Inode, left: Inode?, parent: Inode?, c: Cell): View
    requires left != null ==> left in v.cells
    requires parent != null ==> parent in v.cells
  {
    v.(ns := v.ns[node.i_path := node], cells := Redirect(v.cells, left, parent, node)[node := c],
       owner := v.owner[node := None])
  }

  /** The cell of a node as inode_alloc and inode_insert leave it. */
  ghost function NewCell(v: View, root: Inode?, left: Inode?, parent: Inode?): Cell
    requires left != null ==> left in v.cells
    requires parent != null ==> parent in v.cells
  {
    Cell(Slot(v.cells, root, left, parent), null, 0, Driver, false)
  }

  lemma InsertNodesOk(v: View, node: Inode, left: Inode?, parent: Inode?, c: Cell)
    requires NodesOk(v, null) && node.i_path !in v.ns && c.crefs == 0 && !c.deleted
    requires node !in v.cells && node !in v.freed && node !in v.holders && node !in v.detached
    requires left != null ==> left in v.cells
    requires parent != null ==> parent in v.cells
    ensures NodesOk(InsertView(v, node, left, parent, c), null)
  {
    var v' := InsertView(v, node, left, parent, c);
    forall n | n in v'.cells ensures NodeOk(v', n, null) {
      if n != node {
        assert NodeOk(v, n, null);
      }
    }
  }

  lemma InsertCutOk(v: View, node: Inode, left: Inode?, parent: Inode?, c: Cell)
    requires v.owner.Keys == v.cells.Keys && CutOk(v) && node !in v.cells
    requires left != null ==> left in v.cells && v.owner[left] == None
    requires parent != null ==> parent in v.cells && v.owner[parent] == None
    ensures CutOk(InsertView(v, node, left, parent, c))
  {
    var v' := InsertView(v, node, left, parent, c);
    forall h | h in v.detached ensures HeadOk(v', h) {
      assert HeadOk(v, h);
      HeadFrame(v, v', h);
    }
  }

  lemma InsertConsistent(v: View, root: Inode?, node: Inode, left: Inode?, parent: Inode?, c: Cell)
    requires Consistent(v, root, null) && Insertable(v.ns, node, left, parent)
    requires node !in v.cells && node !in v.freed && node !in v.holders
    requires left != null ==> left in v.cells
    requires parent != null ==> parent in v.cells
    requires c.child == null && c.peer == Slot(v.cells, root, left, parent) && c.crefs == 0 && !c.deleted
    ensures Consistent(InsertView(v, node, left, parent, c), RedirectRoot(root, left, parent, node), null)
  {
    InsertLinked(v.ns, root, v.cells, node, left, parent, c);
    HeadsAreLive(v);
    InsertNodesOk(v, node, left, parent, c);
    InsertCutOk(v, node, left, parent, c);
  }

  /** New fields, but the same links, for a node; and new holders. */
  ghost function RecellView(v: View, n: Inode, c: Cell, holders: multiset<Inode>): View {
    v.(cells := v.cells[n := c], holders := holders)
  }

  lemma RecellTreeOk(v: View, root: Inode?, n: Inode, c: Cell, holders: multiset<Inode>)
    requires TreeOk(v, root) && n in v.cells && SameLinks(v.cells[n], c)
    ensures TreeOk(RecellView(v, n, c, holders), root)
  {
    LinkedFrame(v.ns, Top, root, v.cells, RecellView(v, n, c, holders).cells);
  }

  lemma RecellCutOk(v: View, n: Inode, c: Cell, holders: multiset<Inode>)
    requires v.owner.Keys == v.cells.Keys && CutOk(v) && n in v.cells && SameLinks(v.cells[n], c)
    ensures CutOk(RecellView(v, n, c, holders))
  {
    var v' := RecellView(v, n, c, holders);
    forall h | h in v.detached ensures HeadOk(v', h) {
      assert HeadOk(v, h);
      HeadFrame(v, v', h);
    }
  }

  /** A node with a new kind, as registration and mount set it. */
  ghost function KindView(v: View, n: Inode, kind: Kind): View
    requires n in v.cells
  {
    RecellView(v, n, v.cells[n].(kind := kind), v.holders)
  }

  lemma KindConsistent(v: View, root: Inode?, n: Inode, kind: Kind)
    requires Consistent(v, root, null) && n in v.cells
    ensures Consistent(KindView(v, n, kind), root, null)
  {
    RecellTreeOk(v, root, n, v.cells[n].(kind := kind), v.holders);
    RecellCutOk(v, n, v.cells[n].(kind := kind), v.holders);
    KindNodesOk(v, n, kind);
  }

  lemma KindNodesOk(v: View, n: Inode, kind: Kind)
    requires NodesOk(v, null) && n in v.cells
    ensures NodesOk(KindView(v, n, kind), null)
  {
    forall m | m in v.cells ensures NodeOk(KindView(v, n, kind), m, null) {
      assert NodeOk(v, m, null);
    }
  }

  /** One reference more or less on a node. */
  ghost function CountView(v: View, n: Inode, crefs: nat, holders: multiset<Inode>): View
    requires n in v.cells
  {
    RecellView(v, n, v.cells[n].(crefs := crefs), holders)
  }

  lemma CountNodeOk(v: View, n: Inode, holders: multiset<Inode>, m: Inode)
    requires v.owner.Keys == v.cells.Keys && n in v.cells && m in v.cells && NodeOk(v, m, null)
    requires m != n ==> holders[m] == v.holders[m]
    ensures var v' := CountView(v, n, holders[n], holders);
            && NodeOk(v', m, n)
            && (n !in v.detached || holders[n] > 0 ==> NodeOk(v', m, null))
  {
  }

  lemma CountNodesOk(v: View, n: Inode, holders: multiset<Inode>)
    requires NodesOk(v, null) && n in v.cells
    requires forall m | m != n && m in v.cells :: holders[m] == v.holders[m]
    ensures var v' := CountView(v, n, holders[n], holders);
            NodesOk(v', n) && (n !in v.detached || holders[n] > 0 ==> NodesOk(v', null))
  {
    var v' := CountView(v, n, holders[n], holders);
    forall m | m in v.cells
      ensures NodeOk(v', m, n) && (n !in v.detached || holders[n] > 0 ==> NodeOk(v', m, null))
    {
      assert NodeOk(v, m, null);
      CountNodeOk(v, n, holders, m);
    }
  }

  /** Counting may leave n, if it is detached, as the node in between. */
  lemma CountConsistent(v: View, root: Inode?, n: Inode, holders: multiset<Inode>)
    requires Consistent(v, root, null) && n in v.cells
    requires forall m | m != n && m in v.cells :: holders[m] == v.holders[m]
    ensures var v' := CountView(v, n, holders[n], holders);
            && Consistent(v', root, n)
            && (n !in v.detached || holders[n] > 0 ==> Consistent(v', root, null))
  {
    RecellTreeOk(v, root, n, v.cells[n].(crefs := holders[n]), holders);
    RecellCutOk(v, n, v.cells[n].(crefs := holders[n]), holders);
    CountNodesOk(v, n, holders);
  }

  /** The view once node and what is below it are cut off. */
  ghost function UnlinkView(v: View, node: Inode, left: Inode?, parent: Inode?): View
    requires node in v.cells
    requires left != null ==> left in v.cells
    requires parent != null ==> parent in v.cells
  {
    var cells := Redirect(v.cells, left, parent, v.cells[node].peer);
    var below := Below(v.ns, node.i_path);
    v.(ns := Cut(v.ns, node.i_path), detached := v.detached[node := below],
       cells := cells[node := v.cells[node].(peer := null)],
       owner := map n | n in v.owner :: if n == node || In(below, n) then Some(node) else v.owner[n])
  }

  ghost predicate Unlinkable(v: View, root: Inode?, node: Inode, left: Inode?, parent: Inode?) {
    && Consistent(v, root, null)
    && Removable(v.ns, node, left) && NodeAt(v.ns, node.i_path.parent, parent)
    && node in v.cells && (left != null ==> left in v.cells) && (parent != null ==> parent in v.cells)
  }

  lemma UnlinkTreeOk(v: View, root: Inode?, node: Inode, left: Inode?, parent: Inode?)
    requires TreeOk(v, root) && Removable(v.ns, node, left) && NodeAt(v.ns, node.i_path.parent, parent)
    requires node in v.cells && (left != null ==> left in v.cells) && (parent != null ==> parent in v.cells)
    ensures TreeOk(UnlinkView(v, node, left, parent), RedirectRoot(root, left, parent, v.cells[node].peer))
  {
    CutLinked(v.ns, root, v.cells, node, left, parent, v.cells[node].(peer := null));
  }

  lemma UnlinkBelow(v: View, node: Inode, left: Inode?, parent: Inode?, p: Path)
    requires Filed(v.ns, Top) && Described(v.ns, v.cells) && v.owner.Keys == v.cells.Keys
    requires Removable(v.ns, node, left) && NodeAt(v.ns, node.i_path.parent, parent)
    requires node in v.cells && (left != null ==> left in v.cells) && (parent != null ==> parent in v.cells)
    requires p in Below(v.ns, node.i_path)
    ensures var v', n := UnlinkView(v, node, left, parent), v.ns[p];
            && n != node && n in v.cells && n in v'.cells && SameLinks(v.cells[n], v'.cells[n])
            && n in v'.owner && v'.owner[n] == Some(node)
  {
    var n := v.ns[p];
    assert In(Below(v.ns, node.i_path), n);
    NeighboursNotBelow(v.ns, node, left, parent, n);
  }

  lemma UnlinkHeadOk(v: View, root: Inode?, node: Inode, left: Inode?, parent: Inode?)
    requires Linked(v.ns, Top, root, v.cells) && v.owner.Keys == v.cells.Keys
    requires Removable(v.ns, node, left) && NodeAt(v.ns, node.i_path.parent, parent)
    requires node in v.cells && (left != null ==> left in v.cells) && (parent != null ==> parent in v.cells)
    ensures HeadOk(UnlinkView(v, node, left, parent), node)
  {
    var v', below := UnlinkView(v, node, left, parent), Below(v.ns, node.i_path);
    forall p {:trigger below[p]} | p in below
      ensures below[p] != node && below[p] in v'.cells && SameLinks(v.cells[below[p]], v'.cells[below[p]])
      ensures below[p] in v'.owner && v'.owner[below[p]] == Some(node)
    {
      UnlinkBelow(v, node, left, parent, p);
    }
    BelowLinked(v.ns, root, v.cells, node);
    LinkedFrame(below, node.i_path, v.cells[node].child, v.cells, v'.cells);
  }

  lemma UnlinkOtherHead(v: View, node: Inode, left: Inode?, parent: Inode?, h: Inode)
    requires v.owner.Keys == v.cells.Keys && h in v.detached && h != node && HeadOk(v, h)
    requires forall p {:trigger v.ns[p]} | p in v.ns :: v.ns[p] in v.owner && v.owner[v.ns[p]] == None
    requires node in v.cells && In(v.ns, node)
    requires left != null ==> left in v.cells && In(v.ns, left)
    requires parent != null ==> parent in v.cells && In(v.ns, parent)
    ensures HeadOk(UnlinkView(v, node, left, parent), h)
  {
    HeadFrame(v, UnlinkView(v, node, left, parent), h);
  }

  lemma UnlinkCutOk(v: View, root: Inode?, node: Inode, left: Inode?, parent: Inode?)
    requires Unlinkable(v, root, node, left, parent)
    ensures CutOk(UnlinkView(v, node, left, parent))
  {
    var v' := UnlinkView(v, node, left, parent);
    forall h | h in v'.detached ensures HeadOk(v', h) {
      if h == node {
        UnlinkHeadOk(v, root, node, left, parent);
      } else {
        assert HeadOk(v, h);
        UnlinkOtherHead(v, node, left, parent, h);
      }
    }
  }

  lemma UnlinkNodesOk(v: View, node: Inode, left: Inode?, parent: Inode?)
    requires NodesOk(v, null) && node in v.cells && In(v.ns, node) && node !in v.detached
    requires left != null ==> left in v.cells
    requires parent != null ==> parent in v.cells
    ensures NodesOk(UnlinkView(v, node, left, parent), node)
  {
    var v' := UnlinkView(v, node, left, parent);
    assert v'.owner.Keys == v.owner.Keys && v'.cells.Keys == v.cells.Keys;
    forall n | n in v'.cells ensures NodeOk(v', n, node) {
      assert NodeOk(v, n, null);
    }
  }

  /** Unlinking keeps everything in order but for the mark on the node itself. */
  lemma UnlinkConsistent(v: View, root: Inode?, node: Inode, left: Inode?, parent: Inode?)
    requires Unlinkable(v, root, node, left, parent)
    ensures Consistent(UnlinkView(v, node, left, parent), RedirectRoot(root, left, parent, v.cells[node].peer), node)
  {
    UnlinkTreeOk(v, root, node, left, parent);
    UnlinkCutOk(v, root, node, left, parent);
    HeadsAreLive(v);
    UnlinkNodesOk(v, node, left, parent);
  }

  /** The nodes of the subtree detached at h. */
  ghost function Owned(v: View, h: Inode): set<Inode> {
    set n | n in v.owner && v.owner[n] == Some(h)
  }

  /** The view once the subtree detached at h is freed. */
  ghost function FreeView(v: View, h: Inode): View {
    var gone := Owned(v, h);
    v.(detached := v.detached - {h}, cells := v.cells - gone, owner := v.owner - gone, freed := v.freed + gone)
  }

  lemma FreeConsistent(v: View, root: Inode?, h: Inode)
    requires Consistent(v, root, h) && h in v.detached
    ensures Consistent(FreeView(v, h), root, null)
  {
    var v' := FreeView(v, h);
    assert TreeOk(v', root) by {
      LinkedFrame(v.ns, Top, root, v.cells, v'.cells);
    }
    assert CutOk(v') by {
      forall g | g in v'.detached ensures HeadOk(v', g) {
        assert HeadOk(v, g);
        LinkedFrame(v.detached[g], g.i_path, v.cells[g].child, v.cells, v'.cells);
      }
    }
    assert NodesOk(v', null) by {
      forall n | n in v'.cells ensures NodeOk(v', n, null) {
        assert NodeOk(v, n, h);
        assert HeadOk(v, h);
      }
    }
  }

  // ---------------------------------------------------------------------------------------
  // Safety of references
  // ---------------------------------------------------------------------------------------

  /** No reference is to a freed node, nor to a node that will be freed with a detached one. */
  ghost predicate Safe(v: View) {
    && (forall n {:trigger v.holders[n]} | n in v.holders :: n in v.cells)
    && (forall n {:trigger v.owner[n]} | n in v.owner && v.owner[n].Some? && v.owner[n] != Some(n) :: v.holders[n] == 0)
  }

  /** A reference that may be missing. */
  ghost function Ref(n: Inode?): multiset<Inode> {
    if n == null then multiset{} else multiset{n}
  }

  /** The view with one more reference to n. */
  ghost function TakeView(v: View, n: Inode): View
    requires n in v.cells
  {
    CountView(v, n, (v.holders + multiset{n})[n], v.holders + multiset{n})
  }

  /** The view with one reference to n given back. */
  ghost function DropView(v: View, n: Inode): View
    requires n in v.cells
  {
    CountView(v, n, (v.holders - multiset{n})[n], v.holders - multiset{n})
  }

  /** The view after inode_release: the last reference to a removed node frees it. */
  ghost function ReleaseView(v: View, n: Inode): View
    requires n in v.cells
  {
    var v' := DropView(v, n);
    if n in v'.detached && v'.holders[n] == 0 then FreeView(v', n) else v'
  }

  lemma TakeIsSafe(v: View, n: Inode)
    requires v.owner.Keys == v.cells.Keys && n in v.cells && Safe(v)
    requires v.owner[n] == None || n in v.holders
    ensures Safe(TakeView(v, n))
  {
  }

  lemma DropIsSafe(v: View, n: Inode)
    requires n in v.cells && Safe(v)
    ensures Safe(DropView(v, n))
  {
  }

  /** Freeing a detached subtree is safe when only its head could still be held, and is not. */
  lemma FreeIsSafe(v: View, h: Inode)
    requires v.owner.Keys == v.cells.Keys && Safe(v) && v.holders[h] == 0
    ensures Safe(FreeView(v, h))
  {
  }

  /** Taking a reference keeps the view consistent, and safe for a node of the tree or a node
      already held. */
  lemma Taken(v: View, root: Inode?, n: Inode)
    requires Consistent(v, root, null) && n in v.cells
    ensures Consistent(TakeView(v, n), root, null)
    ensures TakeView(v, n).cells[n].crefs == v.cells[n].crefs + 1
    ensures Safe(v) && (v.owner[n] == None || n in v.holders) ==> Safe(TakeView(v, n))
  {
    assert NodeOk(v, n, null);
    CountConsistent(v, root, n, v.holders + multiset{n});
    if Safe(v) && (v.owner[n] == None || n in v.holders) {
      TakeIsSafe(v, n);
    }
  }

  /** Once the count is down, the view is consistent, up to the freeing of a removed node that
      this was the last reference to. */
  ghost predicate ReleaseReady(v: View, root: Inode?, n: Inode)
    requires n in v.cells
  {
    var v', c := DropView(v, n), v.cells[n];
    && v'.cells[n].crefs == v'.holders[n] == (if c.crefs > 0 then c.crefs - 1 else 0)
    && (n in v'.detached <==> c.deleted)
    && Consistent(v', root, if c.deleted && v'.holders[n] == 0 then n else null)
  }

  lemma DroppedReady(v: View, root: Inode?, n: Inode)
    requires Consistent(v, root, null) && n in v.cells
    ensures ReleaseReady(v, root, n)
  {
    assert NodeOk(v, n, null);
    CountConsistent(v, root, n, v.holders - multiset{n});
    hide Consistent;
  }

  lemma DroppedSafe(v: View, n: Inode)
    requires v.owner.Keys == v.cells.Keys && n in v.cells && Safe(v)
    ensures Safe(ReleaseView(v, n))
  {
    DropIsSafe(v, n);
    hide Safe;
    if DropView(v, n).holders[n] == 0 {
      FreeIsSafe(DropView(v, n), n);
    }
  }

  lemma Dropped(v: View, root: Inode?, n: Inode)
    requires Consistent(v, root, null) && n in v.cells
    ensures ReleaseReady(v, root, n)
    ensures Safe(v) ==> Safe(ReleaseView(v, n))
  {
    DroppedReady(v, root, n);
    assert v.owner.Keys == v.cells.Keys;
    hide ReleaseReady, ReleaseView, Safe, Consistent;
    if Safe(v) {
      DroppedSafe(v, n);
    }
  }

  /** No node strictly below top is referenced. */
  ghost predicate UnheldBelow(v: View, top: Path) {
    forall p {:trigger v.ns[p]} | p in Below(v.ns, top) :: v.holders[v.ns[p]] == 0
  }

  /** Removal is safe exactly when nothing below the node is referenced. */
  lemma UnlinkIsSafe(v: View, root: Inode?, node: Inode, left: Inode?, parent: Inode?)
    requires TreeOk(v, root) && v.owner.Keys == v.cells.Keys && Safe(v) && node in v.cells
    requires left != null ==> left in v.cells
    requires parent != null ==> parent in v.cells
    ensures Safe(UnlinkView(v, node, left, parent)) <==> UnheldBelow(v, node.i_path)
  {
    var v', below := UnlinkView(v, node, left, parent), Below(v.ns, node.i_path);
    forall p | p in below ensures In(below, v.ns[p]) && v.ns[p] in v'.owner && v'.owner[v.ns[p]] == Some(node) {}
    if Safe(v') {
      forall p | p in below ensures v.holders[v.ns[p]] == 0 {
        WithinIsDeeper(node.i_path, p);
        assert v'.owner[v.ns[p]] == Some(node);
      }
    }
    if UnheldBelow(v, node.i_path) {
      forall n | n in v'.owner && v'.owner[n].Some? && v'.owner[n] != Some(n) ensures v'.holders[n] == 0 {
        if In(below, n) {
          assert v.ns[n.i_path] == n;
        } else {
          assert v'.owner[n] == v.owner[n];
        }
      }
    }
  }

  /** The view after inode_remove has unlinked node: a node still held is marked and waits for
      its last release, any other is freed at once with all that is below it. */
  ghost function RemoveView(v: View, node: Inode, left: Inode?, parent: Inode?): View
    requires node in v.cells
    requires left != null ==> left in v.cells
    requires parent != null ==> parent in v.cells
  {
    var v' := UnlinkView(v, node, left, parent);
    if v.cells[node].crefs > 0 then MarkView(v', node) else FreeView(v', node)
  }

  ghost function MarkView(v: View, node: Inode): View
    requires node in v.cells
  {
    RecellView(v, node, v.cells[node].(deleted := true), v.holders)
  }

  lemma MarkConsistent(v: View, root: Inode?, node: Inode)
    requires Consistent(v, root, node) && node in v.detached && node in v.cells && v.cells[node].crefs > 0
    ensures Consistent(MarkView(v, node), root, null)
  {
    RecellTreeOk(v, root, node, v.cells[node].(deleted := true), v.holders);
    RecellCutOk(v, node, v.cells[node].(deleted := true), v.holders);
    MarkNodesOk(v, node);
  }

  lemma MarkNodesOk(v: View, node: Inode)
    requires NodesOk(v, node) && node in v.detached && node in v.cells && v.cells[node].crefs > 0
    ensures NodesOk(MarkView(v, node), null)
  {
    var v' := MarkView(v, node);
    forall n | n in v'.cells ensures NodeOk(v', n, null) {
      assert NodeOk(v, n, node);
    }
  }

  /** Once unlinked, the node may be freed, or, if it is held, marked. */
  ghost predicate RemoveReady(v: View, root: Inode?, node: Inode, left: Inode?, parent: Inode?)
    requires node in v.cells
    requires left != null ==> left in v.cells
    requires parent != null ==> parent in v.cells
  {
    var v', root' := UnlinkView(v, node, left, parent), RedirectRoot(root, left, parent, v.cells[node].peer);
    && Consistent(v', root', node)
    && (v'.cells[node].crefs > 0 ==> Consistent(MarkView(v', node), root', null))
  }

  lemma NotItself(ns: Space, node: Inode, left: Inode?, parent: Inode?)
    requires Removable(ns, node, left) && NodeAt(ns, node.i_path.parent, parent)
    ensures node != left && node != parent
  {
    ParentNotWithin(node.i_path);
    LtIrreflexive(node.i_name);
  }

  lemma UnlinkedMeans(v: View, root: Inode?, node: Inode, left: Inode?, parent: Inode?)
    requires node in v.cells && (left != null ==> left in v.cells) && (parent != null ==> parent in v.cells)
    requires RemoveReady(v, root, node, left, parent)
    ensures var v', root' := UnlinkView(v, node, left, parent), RedirectRoot(root, left, parent, v.cells[node].peer);
            && Consistent(v', root', node) && node in v'.detached && node in v'.cells && v'.cells[node].crefs == v.cells[node].crefs
            && (v.cells[node].crefs > 0 ==> Consistent(MarkView(v', node), root', null))
            && RemoveView(v, node, left, parent) == if v.cells[node].crefs > 0 then MarkView(v', node) else FreeView(v', node)
  {
    hide Consistent, MarkView, FreeView;
  }

  /** inode_remove keeps the view consistent, and safe exactly when nothing below the node is
      referenced. */
  lemma Removed(v: View, root: Inode?, node: Inode, left: Inode?, parent: Inode?)
    requires Unlinkable(v, root, node, left, parent)
    ensures RemoveReady(v, root, node, left, parent)
    ensures Safe(v) ==> (Safe(RemoveView(v, node, left, parent)) <==> UnheldBelow(v, node.i_path))
  {
    var v', root' := UnlinkView(v, node, left, parent), RedirectRoot(root, left, parent, v.cells[node].peer);
    UnlinkConsistent(v, root, node, left, parent);
    if v'.cells[node].crefs > 0 {
      MarkConsistent(v', root', node);
    }
    if Safe(v) {
      assert NodeOk(v, node, null);
      UnlinkIsSafe(v, root, node, left, parent);
      RemovalIsSafe(v, v', node);
    }
  }

  /** What inode_remove does to the namespace and to the nodes, whatever their neighbours. */
  ghost predicate RemovedAt(v: View, v': View, p: Path)
    requires p in v.ns
  {
    var node, below := v.ns[p], Below(v.ns, p);
    && v'.ns == Cut(v.ns, p) && v'.holders == v.holders
    && if v.holders[node] > 0 then v'.detached == v.detached[node := below] && v'.freed == v.freed
       else v'.detached == v.detached && v'.freed == v.freed + {node} + NodesAt(below, below.Keys)
  }

  lemma OwnersAreHeads(v: View, node: Inode)
    requires NodesOk(v, null) && node !in v.detached
    ensures forall n {:trigger v.owner[n]} | n in v.owner :: v.owner[n] != Some(node)
  {
    forall n | n in v.owner ensures v.owner[n] != Some(node) {
      assert NodeOk(v, n, null);
    }
  }

  /** The subtree that an unlinked node heads. */
  lemma UnlinkOwned(v: View, node: Inode, left: Inode?, parent: Inode?)
    requires node in v.cells && node in v.owner
    requires left != null ==> left in v.cells
    requires parent != null ==> parent in v.cells
    requires forall p {:trigger v.ns[p]} | p in v.ns :: v.ns[p].i_path == p && v.ns[p] in v.owner
    requires forall n {:trigger v.owner[n]} | n in v.owner :: v.owner[n] != Some(node)
    ensures var below := Below(v.ns, node.i_path);
            Owned(UnlinkView(v, node, left, parent), node) == {node} + NodesAt(below, below.Keys)
  {
  }

  lemma RemoveViewMeans(v: View, node: Inode, left: Inode?, parent: Inode?)
    requires In(v.ns, node) && node in v.cells && node in v.owner && node !in v.detached
    requires left != null ==> left in v.cells
    requires parent != null ==> parent in v.cells
    requires v.cells[node].crefs == v.holders[node]
    requires var below := Below(v.ns, node.i_path);
             Owned(UnlinkView(v, node, left, parent), node) == {node} + NodesAt(below, below.Keys)
    ensures RemovedAt(v, RemoveView(v, node, left, parent), node.i_path)
  {
    assert v.detached[node := Below(v.ns, node.i_path)] - {node} == v.detached;
  }

  lemma RemoveMeans(v: View, root: Inode?, node: Inode, left: Inode?, parent: Inode?)
    requires Unlinkable(v, root, node, left, parent)
    ensures node.i_path in v.ns && v.ns[node.i_path] == node && v.cells[node].crefs == v.holders[node]
    ensures RemovedAt(v, RemoveView(v, node, left, parent), node.i_path)
  {
    assert NodeOk(v, node, null);
    HeadsAreLive(v);
    OwnersAreHeads(v, node);
    UnlinkOwned(v, node, left, parent);
    RemoveViewMeans(v, node, left, parent);
  }

  lemma RemovalIsSafe(v: View, v': View, node: Inode)
    requires v'.owner.Keys == v'.cells.Keys && v'.holders == v.holders && v'.cells.Keys == v.cells.Keys
    requires Safe(v) && node in v'.cells && v'.cells[node].crefs == v'.holders[node]
    ensures v'.cells[node].crefs > 0 ==> (Safe(MarkView(v', node)) <==> Safe(v'))
    ensures v'.cells[node].crefs == 0 ==> (Safe(FreeView(v', node)) <==> Safe(v'))
  {
  }

  // ---------------------------------------------------------------------------------------
  // Growing the tree
  // ---------------------------------------------------------------------------------------

  /** Nothing but the links differs between two descriptions of a node. */
  ghost predicate SameFields(c: Cell, c': Cell) {
    c'.crefs == c.crefs && c'.kind == c.kind && c'.deleted == c.deleted
  }

  /** v' is v with new unreferenced nodes at exactly the paths added. */
  ghost predicate Grown(v: View, v': View, added: set<Path>) {
    && v'.detached == v.detached && v'.holders == v.holders && v'.freed == v.freed
    && v'.ns.Keys == v.ns.Keys + added && v.ns.Keys !! added
    && (forall p {:trigger v'.ns[p]} | p in v.ns :: v'.ns[p] == v.ns[p])
    && (forall p {:trigger v'.ns[p]} | p in added ::
          var n := v'.ns[p]; n !in v.cells && n in v'.cells && v'.cells[n].kind == Driver && v'.cells[n].crefs == 0)
    && (forall n {:trigger v'.cells[n]} {:trigger v.cells[n]} | n in v.cells :: n in v'.cells && SameFields(v.cells[n], v'.cells[n]))
  }

  lemma GrownMore(v: View, v': View, added: set<Path>, node: Inode, left: Inode?, parent: Inode?, c: Cell)
    requires Grown(v, v', added) && node.i_path !in v'.ns && node !in v'.cells
    requires left != null ==> left in v'.cells
    requires parent != null ==> parent in v'.cells
    requires c.crefs == 0 && c.kind == Driver
    ensures Grown(v, InsertView(v', node, left, parent, c), added + {node.i_path})
  {
  }

  /** A path found before growth is found in the same place after it. */
  lemma {:induction false} GrowthKeepsFound(v: View, v': View, added: set<Path>, base: Path, name: string)
    requires Grown(v, v', added) && Described(v.ns, v.cells)
    ensures match Resolve(v.ns, v.cells, base, name)
            case Found(_, _) => Resolve(v'.ns, v'.cells, base, name) == Resolve(v.ns, v.cells, base, name)
            case Missing(b, rest) => Resolve(v'.ns, v'.cells, base, name) == Resolve(v'.ns, v'.cells, b, rest)
    decreases |name|
  {
    var p, rest := Sub(base, Segment(name)), NextName(name);
    if p in v.ns {
      assert v'.ns[p] == v.ns[p];
      var n := v.ns[p];
      assert n in v.cells && n in v'.cells && SameFields(v.cells[n], v'.cells[n]);
      if rest != "" && !IsMountpt(v.cells, v.ns[p]) {
        GrowthKeepsFound(v, v', added, p, rest);
      }
    }
  }

  /** Below a path that did not exist, growth makes only the added paths themselves resolve. */
  lemma {:induction false} GrowthAddsOnly(v: View, v': View, added: set<Path>, base: Path, name: string)
    requires Grown(v, v', added) && Filed(v.ns, Top)
    requires Sub(base, Segment(name)) !in v.ns
    ensures Resolve(v'.ns, v'.cells, base, name).Found? ==> Full(base, name) in added
    decreases |name|
  {
    var p, rest := Sub(base, Segment(name)), NextName(name);
    if p in v'.ns && rest != "" {
      assert Sub(p, Segment(rest)).parent == p;
      GrowthAddsOnly(v, v', added, p, rest);
    }
  }

  /** Every lookup but those of the added paths is unchanged by growth. */
  lemma OtherLookupsUnchanged(v: View, v': View, added: set<Path>, name: string)
    requires Grown(v, v', added) && Filed(v.ns, Top) && Described(v.ns, v.cells)
    ensures var r, r' := Resolve(v.ns, v.cells, Top, name), Resolve(v'.ns, v'.cells, Top, name);
            if r.Found? then r' == r && r.at in v.ns && v'.ns[r.at] == v.ns[r.at]
            else Full(Top, name) !in added ==> r'.Missing?
  {
    GrowthKeepsFound(v, v', added, Top, name);
    MissingNamesTheSame(v.ns, v.cells, Top, name);
    var k := ResolveMeaning(v.ns, v.cells, Top, name);
    var r := Resolve(v.ns, v.cells, Top, name);
    if r.Missing? {
      GrowthAddsOnly(v, v', added, r.base, r.name);
    }
  }

  /** The node that a path resolves to, with no reference taken. */
  ghost function Lookup(v: View, path: string): Option<Inode> {
    if path == "" || path[0] != '/' then None
    else
      match Resolve(v.ns, v.cells, Top, path[1..])
      case Found(p, _) => if p in v.ns then Some(v.ns[p]) else None
      case Missing(_, _) => None
  }

  ghost function PathSet(ps: seq<Path>): set<Path> {
    set p | p in ps
  }

  /** What inode_reserve leaves behind for an absent path whose missing prefixes are ps: the
      first made of them exist. With all of them the path resolves to the new node. */
  ghost predicate Reserved(v: View, v': View, name: string, ps: seq<Path>, made: nat, status: Status, node: Inode?) {
    && made <= |ps| && Grown(v, v', PathSet(ps[..made]))
    && (made < |ps| ==> status == ENOMEM && node == null)
    && (made == |ps| ==>
          && status == OK && node != null && In(v'.ns, node)
          && Resolve(v'.ns, v'.cells, Top, name) == Found(node.i_path, ""))
  }

  /** The first made of the missing prefixes ps exist; name is what is left, below base. */
  ghost predicate Growing(v: View, v': View, ps: seq<Path>, made: nat, base: Path, name: string) {
    made < |ps| && ps[made..] == Prefixes(base, name) && Grown(v, v', PathSet(ps[..made]))
  }

  lemma GrowingStep(v: View, v1: View, ps: seq<Path>, made: nat, base: Path, name: string,
                    node: Inode, left: Inode?, parent: Inode?, c: Cell)
    requires Growing(v, v1, ps, made, base, name)
    requires node.i_path == Sub(base, Segment(name)) && node.i_path !in v1.ns && node !in v1.cells
    requires left != null ==> left in v1.cells
    requires parent != null ==> parent in v1.cells
    requires c.crefs == 0 && c.kind == Driver
    ensures var v' := InsertView(v1, node, left, parent, c);
            if NextName(name) == "" then made + 1 == |ps| && Grown(v, v', PathSet(ps)) && node.i_path == ps[made]
            else Growing(v, v', ps, made + 1, node.i_path, NextName(name))
  {
    GrownMore(v, v1, PathSet(ps[..made]), node, left, parent, c);
    assert ps[made] == ps[made..][0] == node.i_path;
    assert ps[made + 1..] == ps[made..][1..];
    assert ps[..made + 1] == ps[..made] + [ps[made]];
    assert PathSet(ps[..made + 1]) == PathSet(ps[..made]) + {node.i_path};
    assert ps[..|ps|] == ps;
  }

  /** Once all missing prefixes exist, the path resolves. */
  lemma ReservedResolves(v: View, v': View, name: string, r: Resolution)
    requires r == Resolve(v.ns, v.cells, Top, name) && r.Missing?
    requires Described(v.ns, v.cells) && Grown(v, v', PathSet(Prefixes(r.base, r.name)))
    ensures Resolve(v'.ns, v'.cells, Top, name) == Found(Full(r.base, r.name), "")
  {
    var ps := Prefixes(r.base, r.name);
    GrowthKeepsFound(v, v', PathSet(ps), Top, name);
    forall p | p in ps ensures p in v'.ns && !IsMountpt(v'.cells, v'.ns[p]) {
      assert p in PathSet(ps);
    }
    ResolveWhole(v'.ns, v'.cells, r.base, r.name);
    MissingNamesTheSame(v.ns, v.cells, Top, name);
  }

  /** A turn of the loop of inode_reserve is about to start: the place for the next node is
      known, and the first made of the missing prefixes ps exist. */
  ghost predicate Ready(v: View, v1: View, root: Inode?, ps: seq<Path>, made: nat, base: Path, name: string,
                        left: Inode?, parent: Inode?)
  {
    && Consistent(v1, root, null) && Growing(v, v1, ps, made, base, name)
    && NodeAt(v1.ns, base, parent) && LeftOf(v1.ns, base, Segment(name), left)
    && Sub(base, Segment(name)) !in v1.ns
    && (left != null ==> left in v1.cells) && (parent != null ==> parent in v1.cells)
  }

  /** Memory ran out with the first made of the missing prefixes in place. */
  ghost predicate GrewPart(v: View, v': View, root: Inode?, ps: seq<Path>, made: nat) {
    Consistent(v', root, null) && made < |ps| && Grown(v, v', PathSet(ps[..made]))
  }

  /** All missing prefixes exist, and node is the last of them. */
  ghost predicate Complete(v: View, v': View, root: Inode?, ps: seq<Path>, node: Inode) {
    && Consistent(v', root, null) && Grown(v, v', PathSet(ps))
    && In(v'.ns, node) && ps != [] && node.i_path == ps[|ps| - 1]
  }

  lemma TurnTaken(v: View, v1: View, root: Inode?, ps: seq<Path>, made: nat, base: Path, name: string,
                  left: Inode?, parent: Inode?, node: Inode)
    requires Ready(v, v1, root, ps, made, base, name, left, parent)
    requires node.i_name == Segment(name) && node.i_path == Sub(base, Segment(name))
    requires node !in v1.cells && node !in v1.freed && node !in v1.holders
    ensures var v' := InsertView(v1, node, left, parent, NewCell(v1, root, left, parent));
            var root' := RedirectRoot(root, left, parent, node);
            if NextName(name) == "" then made + 1 == |ps| && Complete(v, v', root', ps, node)
            else Ready(v, v', root', ps, made + 1, node.i_path, NextName(name), null, node)
  {
    var c := NewCell(v1, root, left, parent);
    InsertConsistent(v1, root, node, left, parent, c);
    GrowingStep(v, v1, ps, made, base, name, node, left, parent, c);
    forall x ensures Sub(node.i_path, x) !in v1.ns { assert Sub(node.i_path, x).parent == node.i_path; }
  }

  lemma CompleteIsReserved(v: View, v': View, root: Inode?, name: string, r: Resolution, node: Inode)
    requires r == Resolve(v.ns, v.cells, Top, name) && r.Missing? && Described(v.ns, v.cells)
    requires Complete(v, v', root, Prefixes(r.base, r.name), node)
    ensures Reserved(v, v', name, Prefixes(r.base, r.name), |Prefixes(r.base, r.name)|, OK, node)
  {
    var ps := Prefixes(r.base, r.name);
    ReservedResolves(v, v', name, r);
    assert ps[..|ps|] == ps;
  }

  lemma ReadyAtFirst(v: View, root: Inode?, r: Resolution, left: Inode?, parent: Inode?)
    requires Consistent(v, root, null)
    requires r.Missing? && Located(v.ns, r, null, left, parent, r.name, None)
    ensures Ready(v, v, root, Prefixes(r.base, r.name), 0, r.base, r.name, left, parent)
  {
  }

  /** One inode_insert: which node, and where. */
  datatype Insertion = Insertion(node: Inode, left: Inode?, parent: Inode?)

  ghost predicate InsertStep(s: State, i: Insertion, s': State) {
    && Insertable(s.v.ns, i.node, i.left, i.parent)
    && i.node !in s.v.cells && i.node !in s.v.freed && i.node !in s.v.holders
    && (i.left != null ==> i.left in s.v.cells) && (i.parent != null ==> i.parent in s.v.cells)
    && s' == State(InsertView(s.v, i.node, i.left, i.parent, NewCell(s.v, s.root, i.left, i.parent)),
                   RedirectRoot(s.root, i.left, i.parent, i.node))
  }

  /** Insertions lead from s to s' through the states of the trail. */
  ghost predicate Built(s: State, trail: seq<State>, ins: seq<Insertion>, s': State) {
    && |trail| == |ins| + 1 && trail[0] == s && trail[|ins|] == s'
    && forall i | 0 <= i < |ins| :: InsertStep(trail[i], ins[i], trail[i + 1])
  }

  /** The paths of the nodes inserted, in order. */
  ghost function PathsOf(ins: seq<Insertion>): (ps: seq<Path>)
    ensures |ps| == |ins|
  {
    seq(|ins|, i requires 0 <= i < |ins| => ins[i].node.i_path)
  }

  lemma PathsGrow(ps: seq<Path>, made: nat, ins: seq<Insertion>, i: Insertion)
    requires made < |ps| && PathsOf(ins) == ps[..made] && i.node.i_path == ps[made]
    ensures PathsOf(ins + [i]) == ps[..made + 1]
  {
  }

  lemma BuiltNothing(s: State)
    ensures Built(s, [s], [], s)
  {
  }

  lemma ReadyNext(v: View, v1: View, root: Inode?, ps: seq<Path>, made: nat, base: Path, name: string, left: Inode?, parent: Inode?)
    requires Ready(v, v1, root, ps, made, base, name, left, parent)
    ensures made < |ps| && ps[made] == Sub(base, Segment(name))
  {
    assert ps[made] == ps[made..][0];
  }

  lemma ReadyPlace(v: View, v1: View, root: Inode?, ps: seq<Path>, made: nat, base: Path, name: string, left: Inode?, parent: Inode?)
    requires Ready(v, v1, root, ps, made, base, name, left, parent)
    ensures (left != null ==> left in v1.cells) && (parent != null ==> parent in v1.cells)
  {
  }

  lemma TurnInserts(v: View, v1: View, root: Inode?, ps: seq<Path>, made: nat, base: Path, name: string,
                    left: Inode?, parent: Inode?, node: Inode)
    requires Ready(v, v1, root, ps, made, base, name, left, parent)
    requires node.i_name == Segment(name) && node.i_path == Sub(base, Segment(name))
    requires node !in v1.cells && node !in v1.freed && node !in v1.holders
    ensures (left != null ==> left in v1.cells) && (parent != null ==> parent in v1.cells)
    ensures var v' := InsertView(v1, node, left, parent, NewCell(v1, root, left, parent));
            && v'.cells.Keys == v1.cells.Keys + {node}
            && InsertStep(State(v1, root), Insertion(node, left, parent), State(v', RedirectRoot(root, left, parent, node)))
  {
    hide Consistent, Growing;
  }

  lemma ReadyIsPart(v: View, v1: View, root: Inode?, ps: seq<Path>, made: nat, base: Path, name: string, left: Inode?, parent: Inode?)
    requires Ready(v, v1, root, ps, made, base, name, left, parent)
    ensures GrewPart(v, v1, root, ps, made)
  {
  }

  lemma BuiltMore(s: State, trail: seq<State>, ins: seq<Insertion>, s1: State, i: Insertion, s2: State)
    requires Built(s, trail, ins, s1) && InsertStep(s1, i, s2)
    ensures Built(s, trail + [s2], ins + [i], s2)
  {
    hide InsertStep;
  }

  // ---------------------------------------------------------------------------------------
  // Freeing a subtree
  // ---------------------------------------------------------------------------------------

  ghost function NodesAt(sp: Space, ps: set<Path>): set<Inode> {
    set p | p in ps && p in sp :: sp[p]
  }

  /** The subtree detached at h is h and the nodes of the space below it. */
  lemma OwnedNodes(v: View, root: Inode?, h: Inode)
    requires Consistent(v, root, h) && h in v.detached
    ensures h in v.cells && h !in NodesAt(v.detached[h], Region(v.detached[h], h.i_path, Start))
    ensures Owned(v, h) == {h} + NodesAt(v.detached[h], Region(v.detached[h], h.i_path, Start))
    ensures Owned(v, h) !! v.freed
  {
    var sp := v.detached[h];
    assert HeadOk(v, h);
    forall p | p in sp ensures p in Region(sp, h.i_path, Start) {
      WalkVisitsAll(sp, h.i_path, p);
    }
    forall n | n in Owned(v, h) ensures n !in v.freed && (n == h || n in NodesAt(sp, Region(sp, h.i_path, Start))) {
      assert NodeOk(v, n, h);
    }
  }

  lemma NoNodes(sp: Space, base: Path, dir: Path, lo: Bound)
    requires Filed(sp, base) && (dir == base || dir in sp) && NextAt(sp, dir, lo, null)
    ensures NodesAt(sp, Region(sp, dir, lo)) == {}
  {
    forall p | p in sp ensures !Under(dir, lo, p) {
      NothingUnderNull(sp, base, dir, lo, p);
    }
  }

  /** The parts of a walk, as nodes. */
  lemma NodesSplit(sp: Space, base: Path, dir: Path, lo: Bound, node: Inode)
    requires Filed(sp, base) && (dir == base || dir in sp) && NextAt(sp, dir, lo, node)
    ensures var below, right := NodesAt(sp, Region(sp, node.i_path, Start)), NodesAt(sp, Region(sp, dir, After(node.i_name)));
            && NodesAt(sp, Region(sp, dir, lo)) == {node} + below + right
            && node !in below && node !in right && below !! right
            && Region(sp, node.i_path, Start) < Region(sp, dir, lo)
            && Region(sp, dir, After(node.i_name)) < Region(sp, dir, lo)
  {
    RegionSplits(sp, base, dir, lo, node);
    assert node.i_path in Region(sp, dir, lo);
    forall p | p in sp ensures sp[p].i_path == p {}
  }

  // ---------------------------------------------------------------------------------------
  // The tree
  // ---------------------------------------------------------------------------------------

  /** kzalloc of one node, with its outcome. */
  method Alloc(name: string, ghost base: Path, ok: bool) returns (node: Inode?)
    ensures node != null <==> ok
    ensures node != null ==>
              && fresh(node) && node.i_name == Segment(name) && node.i_path == Sub(base, Segment(name))
              && node.i_peer == null && node.i_child == null && node.i_crefs == 0
              && node.i_kind == Driver && !node.i_deleted && node.i_ops == None
  {
    node := null;
    if ok {
      node := new Inode(base, name);
    }
  }

  /** The assignments of inode_insert. The result is the root pointer. */
  method LinkIn(root: Inode?, node: Inode, peer: Inode?, parent: Inode?, ghost cells: Cells) returns (root': Inode?)
    requires Mirrors(cells) && node !in cells
    requires node.i_child == null && node.i_crefs == 0 && node.i_kind == Driver && !node.i_deleted
    requires peer != null ==> peer in cells
    requires parent != null ==> parent in cells
    modifies node`i_peer, Just(peer)`i_peer, Just(parent)`i_child
    ensures root' == RedirectRoot(root, peer, parent, node)
    ensures Mirrors(Redirect(cells, peer, parent, node)[node := Cell(Slot(cells, root, peer, parent), null, 0, Driver, false)])
  {
    root' := root;
    if peer != null {
      node.i_peer := peer.i_peer;
      peer.i_peer := node;
    } else if parent != null {
      node.i_peer := parent.i_child;
      parent.i_child := node;
    } else {
      node.i_peer := root;
      root' := node;
    }
  }

  /** The assignments of inode_unlink. The result is the root pointer. */
  method LinkOut(root: Inode?, node: Inode, peer: Inode?, parent: Inode?, ghost cells: Cells) returns (root': Inode?)
    requires Mirrors(cells) && node in cells && node != peer && node != parent
    requires peer != null ==> peer in cells
    requires parent != null ==> parent in cells
    modifies node`i_peer, Just(peer)`i_peer, Just(parent)`i_child
    ensures root' == RedirectRoot(root, peer, parent, cells[node].peer)
    ensures Mirrors(Redirect(cells, peer, parent, cells[node].peer)[node := cells[node].(peer := null)])
  {
    root' := root;
    if peer != null {
      peer.i_peer := node.i_peer;
    } else if parent != null {
      parent.i_child := node.i_peer;
    } else {
      root' := node.i_peer;
    }
    node.i_peer := null;
  }

  class FileSystem {
    var root_inode: Inode?
    ghost var view: View

    ghost predicate Valid()
      reads this, view.cells.Keys
    {
      Mirrors(view.cells) && Consistent(view, root_inode, null)
    }

    constructor ()
      ensures Valid() && Safe(view)
      ensures view == View(map[], map[], map[], map[], multiset{}, {}) && root_inode == null
    {
      root_inode := null;
      view := View(map[], map[], map[], map[], multiset{}, {});
    }

    /** inode_insert: to the right of peer, else at the head of parent's children, else as the
        new root. */
    method Insert(node: Inode, peer: Inode?, parent: Inode?)
      requires Mirrors(view.cells) && node !in view.cells
      requires node.i_child == null && node.i_crefs == 0 && node.i_kind == Driver && !node.i_deleted
      requires peer != null ==> peer in view.cells
      requires parent != null ==> parent in view.cells
      modifies this, node`i_peer, Just(peer)`i_peer, Just(parent)`i_child
      ensures Mirrors(view.cells)
      ensures root_inode == RedirectRoot(old(root_inode), peer, parent, node)
      ensures view == InsertView(old(view), node, peer, parent, NewCell(old(view), old(root_inode), peer, parent))
    {
      ghost var v, root := view, root_inode;
      root_inode := LinkIn(root_inode, node, peer, parent, view.cells);
      view := InsertView(v, node, peer, parent, NewCell(v, root, peer, parent));
    }

    /** inode_alloc and inode_insert. */
    method Add(name: string, peer: Inode?, parent: Inode?, ghost base: Path, ok: bool) returns (node: Inode?)
      requires Mirrors(view.cells)
      requires peer != null ==> peer in view.cells
      requires parent != null ==> parent in view.cells
      modifies this, Just(peer)`i_peer, Just(parent)`i_child
      ensures Mirrors(view.cells) && (node != null <==> ok)
      ensures node == null ==> view == old(view) && root_inode == old(root_inode)
      ensures node != null ==>
                && fresh(node) && node.i_name == Segment(name) && node.i_path == Sub(base, Segment(name))
                && root_inode == RedirectRoot(old(root_inode), peer, parent, node)
                && view == InsertView(old(view), node, peer, parent, NewCell(old(view), old(root_inode), peer, parent))
    {
      node := Alloc(name, base, ok);
      if node != null {
        Insert(node, peer, parent);
      }
    }

    /** inode_reserve, where memory is how many allocations succeed. */
    method Reserve(path: string, memory: nat)
      returns (status: Status, node: Inode?, made: nat, ghost trail: seq<State>, ghost ins: seq<Insertion>)
      requires Valid()
      modifies this, view.cells.Keys`i_peer, view.cells.Keys`i_child
      ensures Valid()
      ensures path == "" || path[0] != '/' ==> status == EINVAL && node == null && view == old(view)
      ensures path != "" && path[0] == '/' ==>
                match Resolve(old(view).ns, old(view).cells, Top, path[1..])
                case Found(_, _) => status == EEXIST && node == null && view == old(view)
                case Missing(b, rest) =>
                  && made == Min(memory, |Prefixes(b, rest)|) && PathsOf(ins) == Prefixes(b, rest)[..made]
                  && Reserved(old(view), view, path[1..], Prefixes(b, rest), made, status, node)
      ensures status == EINVAL || status == EEXIST ==> made == 0 && ins == [] && root_inode == old(root_inode)
      ensures Built(State(old(view), old(root_inode)), trail, ins, State(view, root_inode))
      ensures fresh(view.cells.Keys - old(view.cells.Keys))
    {
      hide Built, Ready, Reserved, Consistent, Prefixes, Resolve;
      ghost var start := State(view, root_inode);
      made, trail, ins := 0, [start], [];
      BuiltNothing(start);
      if path == "" || path[0] != '/' {
        return EINVAL, null, made, trail, ins;
      }
      ghost var r := Resolve(view.ns, view.cells, Top, path[1..]);
      TreeIsLinked(view, root_inode);
      var found, left, parent, name, relpath := Search(root_inode, path, view.ns, view.cells);
      if found != null {
        return EEXIST, null, made, trail, ins;
      }
      ReadyAtFirst(view, root_inode, r, left, parent);
      ReadyPlace(view, view, root_inode, Prefixes(r.base, r.name), 0, r.base, r.name, left, parent);
      status, node, made, trail, ins := ReserveMissing(path, name, left, parent, r, memory);
    }

    /** inode_reserve, once the search has found the place of the first missing node. */
    method ReserveMissing(ghost path: string, name: string, left: Inode?, parent: Inode?, ghost r: Resolution, memory: nat)
      returns (status: Status, node: Inode?, made: nat, ghost trail: seq<State>, ghost ins: seq<Insertion>)
      requires Valid() && path != "" && r == Resolve(view.ns, view.cells, Top, path[1..]) && r.Missing? && name == r.name
      requires Ready(view, view, root_inode, Prefixes(r.base, r.name), 0, r.base, name, left, parent)
      modifies this, Just(left)`i_peer, Just(parent)`i_child
      ensures Valid() && (status == OK || status == ENOMEM)
      ensures var ps := Prefixes(r.base, r.name);
              && made == Min(memory, |ps|) && PathsOf(ins) == ps[..made]
              && Reserved(old(view), view, path[1..], ps, made, status, node)
      ensures Built(State(old(view), old(root_inode)), trail, ins, State(view, root_inode))
      ensures fresh(view.cells.Keys - old(view.cells.Keys))
    {
      hide Built, Ready, Prefixes, Resolve, Consistent;
      ghost var v, root := view, root_inode;
      node, made, trail, ins := Grow(name, left, parent, r.base, Prefixes(r.base, r.name), memory);
      if node == null {
        status := ENOMEM;
      } else {
        TreeIsLinked(v, root);
        CompleteIsReserved(v, view, root_inode, path[1..], r, node);
        status := OK;
      }
    }

    /** One turn of the loop of inode_reserve. */
    method Turn(name: string, left: Inode?, parent: Inode?, ghost v: View, ghost ps: seq<Path>, ghost made: nat, ghost base: Path, ok: bool)
      returns (node: Inode?)
      requires Mirrors(view.cells) && Ready(v, view, root_inode, ps, made, base, name, left, parent)
      modifies this, Just(left)`i_peer, Just(parent)`i_child
      ensures Mirrors(view.cells) && (node != null <==> ok)
      ensures node == null ==> view == old(view) && root_inode == old(root_inode)
      ensures node != null ==>
                && fresh(node) && view.cells.Keys == old(view.cells.Keys) + {node} && node.i_path == Sub(base, Segment(name))
                && InsertStep(State(old(view), old(root_inode)), Insertion(node, left, parent), State(view, root_inode))
                && if NextName(name) == "" then made + 1 == |ps| && Complete(v, view, root_inode, ps, node)
                   else Ready(v, view, root_inode, ps, made + 1, node.i_path, NextName(name), null, node)
    {
      hide Ready, Complete, InsertStep, InsertView;
      ghost var v1, root := view, root_inode;
      ReadyPlace(v, v1, root, ps, made, base, name, left, parent);
      node := Add(name, left, parent, base, ok);
      if node != null {
        TurnTaken(v, v1, root, ps, made, base, name, left, parent, node);
        TurnInserts(v, v1, root, ps, made, base, name, left, parent, node);
      }
    }

    /** The loop of inode_reserve: a node for each missing segment. */
    method Grow(name0: string, left0: Inode?, parent0: Inode?, ghost base0: Path, ghost ps: seq<Path>, memory: nat)
      returns (node: Inode?, made: nat, ghost trail: seq<State>, ghost ins: seq<Insertion>)
      requires Mirrors(view.cells) && Ready(view, view, root_inode, ps, 0, base0, name0, left0, parent0)
      modifies this, Just(left0)`i_peer, Just(parent0)`i_child
      ensures Mirrors(view.cells)
      ensures if node == null then GrewPart(old(view), view, root_inode, ps, made)
              else made == |ps| && Complete(old(view), view, root_inode, ps, node)
      ensures Built(State(old(view), old(root_inode)), trail, ins, State(view, root_inode))
      ensures made == Min(memory, |ps|) && (node == null <==> memory < |ps|) && PathsOf(ins) == ps[..made]
      ensures fresh(view.cells.Keys - old(view.cells.Keys))
    {
      hide InsertStep, Ready, Complete, GrewPart, Built;
      ghost var v, base := view, base0;
      var name, left, parent := name0, left0, parent0;
      ghost var start := State(view, root_inode);
      made, trail, ins := 0, [start], [];
      BuiltNothing(start);
      while true
        invariant Mirrors(view.cells) && Ready(v, view, root_inode, ps, made, base, name, left, parent)
        invariant left == null || left == left0
        invariant parent == parent0 || (parent != null && fresh(parent))
        invariant Built(start, trail, ins, State(view, root_inode))
        invariant fresh(view.cells.Keys - v.cells.Keys)
        invariant made <= memory && made <= |ps| && PathsOf(ins) == ps[..made]
        decreases |name|
      {
        ghost var before := State(view, root_inode);
        ReadyNext(v, view, root_inode, ps, made, base, name, left, parent);
        node := Turn(name, left, parent, v, ps, made, base, made < memory);
        if node == null {
          ReadyIsPart(v, view, root_inode, ps, made, base, name, left, parent);
          return;
        }
        PathsGrow(ps, made, ins, Insertion(node, left, parent));
        BuiltMore(start, trail, ins, before, Insertion(node, left, parent), State(view, root_inode));
        trail, ins := trail + [State(view, root_inode)], ins + [Insertion(node, left, parent)];
        made := made + 1;
        if NextName(name) == "" {
          return;
        }
        base, name, left, parent := node.i_path, NextName(name), null, node;
      }
    }

    /** kfree: a node is freed at most once. */
    method KFree(node: Inode)
      requires node !in view.freed
      modifies this`view
      ensures view == old(view).(freed := old(view).freed + {node})
    {
      view := view.(freed := view.freed + {node});
    }

    /** inode_free: everything right of and below node. */
    method InodeFree(node: Inode?, ghost sp: Space, ghost base: Path, ghost first: Inode?, ghost dir: Path, ghost lo: Bound)
      requires Mirrors(view.cells) && Linked(sp, base, first, view.cells)
      requires (dir == base || dir in sp) && NextAt(sp, dir, lo, node)
      requires NodesAt(sp, Region(sp, dir, lo)) !! view.freed
      modifies this`view
      ensures view == old(view).(freed := old(view).freed + NodesAt(sp, Region(sp, dir, lo)))
      decreases Region(sp, dir, lo)
    {
      if node != null {
        NodesSplit(sp, base, dir, lo, node);
        assert PeerOf(view.cells, node) == node.i_peer && ChildOf(view.cells, node) == node.i_child;
        InodeFree(node.i_peer, sp, base, first, dir, After(node.i_name));
        InodeFree(node.i_child, sp, base, first, node.i_path, Start);
        KFree(node);
      } else {
        NoNodes(sp, base, dir, lo);
      }
    }

    method SetCount(node: Inode, crefs: nat, ghost holders: multiset<Inode>)
      requires Mirrors(view.cells) && node in view.cells
      modifies this`view, node`i_crefs
      ensures Mirrors(view.cells) && view == CountView(old(view), node, crefs, holders)
      ensures node.i_crefs == crefs
    {
      node.i_crefs := crefs;
      view := CountView(view, node, crefs, holders);
    }

    /** inode_addref: one more reference, for a caller that holds the node or found it in the
        tree. */
    method AddRef(node: Inode?)
      requires Valid() && (node != null ==> node in view.cells)
      modifies this`view, Just(node)`i_crefs
      ensures Valid()
      ensures view == if node == null then old(view) else TakeView(old(view), node)
      ensures Safe(old(view)) && (node != null ==> old(view).owner[node] == None || node in old(view).holders) ==> Safe(view)
    {
      hide Consistent, Safe;
      if node != null {
        assert node.i_crefs == view.cells[node].crefs;
        Taken(view, root_inode, node);
        SetCount(node, node.i_crefs + 1, view.holders + multiset{node});
      }
    }

    /** inode_find: search, and take a reference on what is found. */
    method Find(path: string) returns (node: Inode?, relpath: Option<string>)
      requires Valid()
      modifies this`view, view.cells.Keys`i_crefs
      ensures Valid() && (Safe(old(view)) ==> Safe(view))
      ensures path == "" || path[0] != '/' ==> node == null && view == old(view)
      ensures path != "" && path[0] == '/' ==>
                match Resolve(old(view).ns, old(view).cells, Top, path[1..])
                case Found(p, rest) =>
                  && p in old(view).ns && node == old(view).ns[p] && node in old(view).cells
                  && relpath == Some(rest) && view == TakeView(old(view), node)
                case Missing(_, _) => node == null && view == old(view)
    {
      node, relpath := null, None;
      if path != "" && path[0] == '/' {
        var peer, parent, name;
        node, peer, parent, name, relpath := Search(root_inode, path, view.ns, view.cells);
        AddRef(node);
      }
    }

    /** The end of inode_remove and inode_release: free a node cut off from the tree, and all
        that is below it. */
    method FreeDetached(node: Inode)
      requires Mirrors(view.cells) && Consistent(view, root_inode, node) && node in view.detached
      modifies this`view
      ensures Valid() && view == FreeView(old(view), node)
    {
      ghost var v, sp := view, view.detached[node];
      OwnedNodes(v, root_inode, node);
      FreeConsistent(v, root_inode, node);
      assert HeadOk(v, node);
      InodeFree(node.i_child, sp, node.i_path, node.i_child, node.i_path, Start);
      KFree(node);
      view := view.(detached := v.detached - {node}, cells := v.cells - Owned(v, node), owner := v.owner - Owned(v, node));
    }

    /** inode_release: give a reference back; the last one to a removed node frees it. */
    method Release(node: Inode?)
      requires Valid() && (node != null ==> node in view.cells)
      modifies this`view, Just(node)`i_crefs
      ensures Valid() && (Safe(old(view)) ==> Safe(view))
      ensures node == null ==> view == old(view)
      ensures node != null ==> view == ReleaseView(old(view), node)
    {
      if node != null {
        Dropped(view, root_inode, node);
        ReleaseNode(node);
      }
    }

    method ReleaseNode(node: Inode)
      requires Mirrors(view.cells) && node in view.cells && ReleaseReady(view, root_inode, node)
      modifies this`view, node`i_crefs
      ensures Valid() && view == ReleaseView(old(view), node)
    {
      SetCount(node, if node.i_crefs > 0 then node.i_crefs - 1 else 0, view.holders - multiset{node});
      if node.i_crefs <= 0 && node.i_deleted {
        FreeDetached(node);
      }
    }

    /** INODE_SET_MOUNTPT and its kin, as registration and mount use them. */
    method SetKind(node: Inode, kind: Kind)
      requires Valid() && node in view.cells
      modifies this`view, node`i_kind
      ensures Valid() && view == KindView(old(view), node, kind) && node.i_kind == kind
    {
      hide Consistent;
      KindConsistent(view, root_inode, node, kind);
      node.i_kind := kind;
      view := KindView(view, node, kind);
    }

    /** inode_unlink: close the gap the node leaves. */
    method Unlink(node: Inode, peer: Inode?, parent: Inode?)
      requires Mirrors(view.cells) && node in view.cells && node != peer && node != parent
      requires peer != null ==> peer in view.cells
      requires parent != null ==> parent in view.cells
      modifies this, node`i_peer, Just(peer)`i_peer, Just(parent)`i_child
      ensures Mirrors(view.cells)
      ensures root_inode == RedirectRoot(old(root_inode), peer, parent, old(view).cells[node].peer)
      ensures view == UnlinkView(old(view), node, peer, parent)
    {
      ghost var v := view;
      root_inode := LinkOut(root_inode, node, peer, parent, view.cells);
      view := UnlinkView(v, node, peer, parent);
    }

    method Mark(node: Inode)
      requires Mirrors(view.cells) && node in view.cells
      modifies this`view, node`i_deleted
      ensures Mirrors(view.cells) && view == MarkView(old(view), node)
    {
      node.i_deleted := true;
      view := MarkView(view, node);
    }

    /** inode_remove. */
    method Remove(path: string) returns (status: Status, ghost node: Inode?, ghost left: Inode?, ghost parent: Inode?)
      requires Valid()
      modifies this, view.cells.Keys
      ensures Valid()
      ensures path == "" || path[0] != '/' ==> status == EINVAL && view == old(view) && root_inode == old(root_inode) && node == null
      ensures path != "" && path[0] == '/' ==>
                match Resolve(old(view).ns, old(view).cells, Top, path[1..])
                case Missing(_, _) => status == ENOENT && view == old(view) && root_inode == old(root_inode) && node == null
                case Found(p, _) =>
                  && p in old(view).ns && node == old(view).ns[p]
                  && Unlinkable(old(view), old(root_inode), node, left, parent)
                  && view == RemoveView(old(view), node, left, parent)
                  && root_inode == RedirectRoot(old(root_inode), left, parent, old(view).cells[node].peer)
                  && RemovedAt(old(view), view, p)
                  && status == (if old(view).holders[old(view).ns[p]] > 0 then EBUSY else OK)
                  && (Safe(old(view)) ==> (Safe(view) <==> UnheldBelow(old(view), p)))
    {
      hide RemoveView, UnheldBelow, Safe, CutOk, NodesOk, Resolve, RemovedAt;
      node, left, parent := null, null, null;
      if path == "" || path[0] != '/' {
        return EINVAL, node, left, parent;
      }
      var found, peer, above, name, relpath := Search(root_inode, path, view.ns, view.cells);
      if found == null {
        return ENOENT, node, left, parent;
      }
      node, left, parent := found, peer, above;
      RemoveMeans(view, root_inode, node, left, parent);
      Removed(view, root_inode, node, left, parent);
      status := RemoveNode(found, peer, above);
    }

    method RemoveNode(node: Inode, left: Inode?, parent: Inode?) returns (status: Status)
      requires Mirrors(view.cells) && node in view.cells && Removable(view.ns, node, left)
      requires NodeAt(view.ns, node.i_path.parent, parent)
      requires (left != null ==> left in view.cells) && (parent != null ==> parent in view.cells)
      requires RemoveReady(view, root_inode, node, left, parent)
      modifies this, node, Just(left)`i_peer, Just(parent)`i_child
      ensures Valid() && view == RemoveView(old(view), node, left, parent)
      ensures root_inode == RedirectRoot(old(root_inode), left, parent, old(view).cells[node].peer)
      ensures status == (if old(view).cells[node].crefs > 0 then EBUSY else OK)
    {
      NotItself(view.ns, node, left, parent);
      UnlinkedMeans(view, root_inode, node, left, parent);
      hide Consistent, RemoveReady, RemoveView, UnlinkView, MarkView, FreeView, Mirrors, Removable;
      Unlink(node, left, parent);
      status := MarkOrFree(node);
    }

    /** The end of inode_remove: a node that is still held is marked for the last release. */
    method MarkOrFree(node: Inode) returns (status: Status)
      requires Mirrors(view.cells) && Consistent(view, root_inode, node) && node in view.detached && node in view.cells
      requires view.cells[node].crefs > 0 ==> Consistent(MarkView(view, node), root_inode, null)
      modifies this`view, node`i_deleted
      ensures Valid() && view == if old(view).cells[node].crefs > 0 then MarkView(old(view), node) else FreeView(old(view), node)
      ensures status == (if old(view).cells[node].crefs > 0 then EBUSY else OK)
    {
      hide Consistent, MarkView, FreeView;
      if node.i_crefs > 0 {
        Mark(node);
        status := EBUSY;
      } else {
        FreeDetached(node);
        status := OK;
      }
    }
  }
}
