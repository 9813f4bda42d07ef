/**
 Whole runs of the inode tree: what holds after any sequence of reservations, references taken
 and given back, and removals, each as the methods of FileSystem perform them.
 */
module FileSystemRuns {
  import opened Common
  import opened PathNames
  import opened Spaces
  import opened FileSystems

  /** What can happen to the tree: an insertion, of which inode_reserve makes any number; a
      reference taken by inode_find or inode_addref; inode_release; inode_remove; a change of the
      kind of a node. */
  datatype Call =
    | Insert(i: Insertion)
    | Take(n: Inode)
    | Give(n: Inode)
    | Remove(node: Inode, left: Inode?, parent: Inode?)
    | SetKind(n: Inode, kind: Kind)

  /** Callers take references on nodes of the tree or nodes that they hold, and give back what
      they hold. */
  ghost predicate Step(s: State, call: Call, s': State) {
    match call
    case Insert(i) => InsertStep(s, i, s')
    case Take(n) =>
      && n in s.v.cells && n in s.v.owner && (s.v.owner[n] == None || n in s.v.holders)
      && s' == State(TakeView(s.v, n), s.root)
    case Give(n) => n in s.v.holders && n in s.v.cells && s' == State(ReleaseView(s.v, n), s.root)
    case Remove(node, left, parent) =>
      && Unlinkable(s.v, s.root, node, left, parent)
      && s' == State(RemoveView(s.v, node, left, parent), RedirectRoot(s.root, left, parent, s.v.cells[node].peer))
    case SetKind(n, kind) => n in s.v.cells && s' == State(KindView(s.v, n, kind), s.root)
  }

  ghost predicate Good(s: State) {
    Consistent(s.v, s.root, null)
  }

  /** A removal spares the references below the node that it removes. */
  ghost predicate Spares(s: State, call: Call) {
    call.Remove? ==> UnheldBelow(s.v, call.node.i_path)
  }

  lemma InsertIsGood(s: State, i: Insertion, s': State)
    requires Good(s) && InsertStep(s, i, s')
    ensures Good(s') && (Safe(s.v) ==> Safe(s'.v))
  {
    InsertConsistent(s.v, s.root, i.node, i.left, i.parent, NewCell(s.v, s.root, i.left, i.parent));
    hide Consistent;
  }

  lemma RemoveIsGood(v: View, root: Inode?, node: Inode, left: Inode?, parent: Inode?)
    requires Unlinkable(v, root, node, left, parent)
    ensures Consistent(RemoveView(v, node, left, parent), RedirectRoot(root, left, parent, v.cells[node].peer), null)
    ensures Safe(v) ==> (Safe(RemoveView(v, node, left, parent)) <==> UnheldBelow(v, node.i_path))
  {
    hide Consistent, Safe, UnheldBelow;
    Removed(v, root, node, left, parent);
    if v.cells[node].crefs == 0 {
      FreeConsistent(UnlinkView(v, node, left, parent), RedirectRoot(root, left, parent, v.cells[node].peer), node);
    }
  }

  /** Every call keeps the tree in order, and keeps references safe if and only if it spares
      those below a removed node. */
  lemma StepIsGood(s: State, call: Call, s': State)
    requires Good(s) && Step(s, call, s')
    ensures Good(s')
    ensures Safe(s.v) ==> (Safe(s'.v) <==> Spares(s, call))
  {
    hide Consistent, Safe, InsertStep, UnheldBelow;
    match call
    case Insert(i) => InsertIsGood(s, i, s');
    case Take(n) => Taken(s.v, s.root, n);
    case Give(n) => GiveIsGood(s.v, s.root, n);
    case Remove(node, left, parent) => RemoveIsGood(s.v, s.root, node, left, parent);
    case SetKind(n, kind) => SetKindIsGood(s.v, s.root, n, kind);
  }

  lemma GiveIsGood(v: View, root: Inode?, n: Inode)
    requires Consistent(v, root, null) && n in v.cells
    ensures Consistent(ReleaseView(v, n), root, null) && (Safe(v) ==> Safe(ReleaseView(v, n)))
  {
    hide Consistent, Safe;
    Dropped(v, root, n);
    if v.cells[n].deleted && DropView(v, n).holders[n] == 0 {
      FreeConsistent(DropView(v, n), root, n);
    }
  }

  lemma SetKindIsGood(v: View, root: Inode?, n: Inode, kind: Kind)
    requires Consistent(v, root, null) && n in v.cells
    ensures Consistent(KindView(v, n, kind), root, null) && (Safe(v) ==> Safe(KindView(v, n, kind)))
  {
    KindConsistent(v, root, n, kind);
  }

  /** The calls lead from s to s' through the states. */
  ghost predicate Leads(s: State, states: seq<State>, calls: seq<Call>, s': State) {
    && |states| == |calls| + 1 && states[0] == s && states[|calls|] == s'
    && forall i | 0 <= i < |calls| :: Step(states[i], calls[i], states[i + 1])
  }

  /** The same, from an empty tree on. */
  ghost predicate Run(states: seq<State>, calls: seq<Call>) {
    states != [] && Leads(State(View(map[], map[], map[], map[], multiset{}, {}), null), states, calls, states[|states| - 1])
  }

  /** After any run the tree is in order and every count is the number of holders; while all
      removals spare the references below them, every reference is safe. */
  lemma {:induction false} RunIsGood(states: seq<State>, calls: seq<Call>, i: nat)
    requires Run(states, calls) && i < |states|
    ensures Good(states[i])
    ensures (forall k | 0 <= k < i :: Spares(states[k], calls[k])) ==> Safe(states[i].v)
  {
    hide Step, Safe, Consistent, Spares;
    if i == 0 {
      EmptyIsGood();
    } else {
      RunIsGood(states, calls, i - 1);
      StepIsGood(states[i - 1], calls[i - 1], states[i]);
    }
  }

  lemma EmptyIsGood()
    ensures var v := View(map[], map[], map[], map[], multiset{}, {});
            Consistent(v, null, null) && Safe(v)
  {
  }

  /** The call that frees a removed node: its removal if no one holds it, else the release of
      its last reference. */
  ghost predicate Ends(s: State, call: Call, head: Inode) {
    match call
    case Remove(node, _, _) => head == node && s.v.holders[head] == 0
    case Give(n) => head == n && head in s.v.detached && s.v.holders[head] == 1
    case _ => false
  }

  lemma FreedGrows(s: State, call: Call, s': State)
    requires Step(s, call, s')
    ensures s.v.freed <= s'.v.freed
  {
  }

  /** A removed node stays until the call that ends it. */
  lemma HeadStep(s: State, call: Call, s': State, h: Inode)
    requires Good(s) && Step(s, call, s') && h in s.v.detached
    ensures if Ends(s, call, h) then h in s'.v.freed else h in s'.v.detached
  {
    HeadsAreLive(s.v);
    hide Consistent, Linked;
    match call
    case Remove(node, left, parent) => RemoveKeepsHeads(s.v, s.root, node, left, parent, h);
    case Give(n) =>
    case _ =>
  }

  lemma RemoveKeepsHeads(v: View, root: Inode?, node: Inode, left: Inode?, parent: Inode?, h: Inode)
    requires Unlinkable(v, root, node, left, parent) && h in v.detached
    ensures h != node && h in RemoveView(v, node, left, parent).detached
  {
    hide Consistent, RemoveView, Below, Cut;
    RemoveMeans(v, root, node, left, parent);
    TreeNode(v, root, node.i_path);
  }

  /** Removal frees a node at once or leaves it detached. */
  lemma RemoveStep(s: State, call: Call, s': State)
    requires Good(s) && Step(s, call, s') && call.Remove?
    ensures if Ends(s, call, call.node) then call.node in s'.v.freed else call.node in s'.v.detached
  {
    RemoveMeans(s.v, s.root, call.node, call.left, call.parent);
  }

  /** A removed node is freed at the later of its removal and its last release, and is held
      until then. */
  lemma {:induction false} FreedAtTheEnd(states: seq<State>, calls: seq<Call>, i: nat, j: nat)
    requires Run(states, calls) && i < j < |states| && calls[i].Remove?
    ensures var node, v := calls[i].node, states[j].v;
      if exists k | i <= k < j :: Ends(states[k], calls[k], node) then node in v.freed && node !in v.cells
      else node in v.detached && node !in v.freed && v.holders[node] > 0
    decreases j
  {
    hide Step, Consistent, Ends;
    var node, s, call := calls[i].node, states[j - 1], calls[j - 1];
    RunIsGood(states, calls, j - 1);
    RunIsGood(states, calls, j);
    if i == j - 1 {
      RemoveStep(s, call, states[j]);
    } else {
      FreedAtTheEnd(states, calls, i, j - 1);
      FreedGrows(s, call, states[j]);
      if node in s.v.detached {
        HeadStep(s, call, states[j], node);
      }
    }
    FreedOrHeld(states[j], node);
  }

  lemma FreedOrHeld(s: State, h: Inode)
    requires Good(s)
    ensures h in s.v.freed ==> h !in s.v.cells
    ensures h in s.v.detached ==> h !in s.v.freed && s.v.holders[h] > 0
  {
    HeadsAreLive(s.v);
    if h in s.v.cells {
      assert NodeOk(s.v, h, null);
    }
  }

  /** What is freed stays so: no later call frees it again or brings it back. */
  lemma {:induction false} FreedForGood(states: seq<State>, calls: seq<Call>, i: nat, j: nat, n: Inode)
    requires Run(states, calls) && i <= j < |states| && n in states[i].v.freed
    ensures n in states[j].v.freed && n !in states[j].v.cells
  {
    hide Step, Consistent;
    if i < j {
      FreedForGood(states, calls, i, j - 1, n);
      FreedGrows(states[j - 1], calls[j - 1], states[j]);
    }
    RunIsGood(states, calls, j);
    FreedOrHeld(states[j], n);
  }

  // ---------------------------------------------------------------------------------------
  // Live references
  // ---------------------------------------------------------------------------------------

  /** Every node that is referenced is still there. */
  ghost predicate Live(v: View) {
    forall n {:trigger v.holders[n]} | n in v.holders :: n in v.cells
  }

  /** What a call frees besides the node that it is about: all that is below a node that it
      removes or whose last reference it gives back. */
  ghost function Doomed(s: State, call: Call): set<Inode> {
    match call
    case Remove(node, _, _) =>
      if s.v.holders[node] == 0 then NodesAt(Below(s.v.ns, node.i_path), Below(s.v.ns, node.i_path).Keys) else {}
    case Give(n) => if n in s.v.detached && s.v.holders[n] == 1 then Owned(s.v, n) - {n} else {}
    case _ => {}
  }

  /** A call keeps every reference live if and only if nothing that it frees, besides the node it
      is about, is referenced. */
  lemma LiveStep(s: State, call: Call, s': State)
    requires Good(s) && Step(s, call, s') && Live(s.v)
    ensures Live(s'.v) <==> forall n | n in Doomed(s, call) :: s.v.holders[n] == 0
  {
    match call
    case Remove(node, left, parent) => LiveRemove(s.v, s.root, node, left, parent);
    case Give(n) => LiveGive(s.v, s.root, n);
    case _ =>
  }

  lemma LiveRemove(v: View, root: Inode?, node: Inode, left: Inode?, parent: Inode?)
    requires Unlinkable(v, root, node, left, parent) && Live(v)
    ensures Live(RemoveView(v, node, left, parent)) <==>
            (v.holders[node] == 0 ==> forall n | n in NodesAt(Below(v.ns, node.i_path), Below(v.ns, node.i_path).Keys) :: v.holders[n] == 0)
  {
    hide Consistent, NodesAt, Below, Live, RemoveView, Removable;
    GoesWith(v, root, node, left, parent);
    RemoveGone(v, node, left, parent);
    var below := NodesAt(Below(v.ns, node.i_path), Below(v.ns, node.i_path).Keys);
    LiveWithout(v, RemoveView(v, node, left, parent), node, if v.holders[node] == 0 then {node} + below else {});
  }

  /** What leaves with a removed node. */
  lemma GoesWith(v: View, root: Inode?, node: Inode, left: Inode?, parent: Inode?)
    requires Unlinkable(v, root, node, left, parent)
    ensures v.cells[node].crefs == v.holders[node]
    ensures Owned(UnlinkView(v, node, left, parent), node) == {node} + NodesAt(Below(v.ns, node.i_path), Below(v.ns, node.i_path).Keys)
  {
    hide RemoveView;
    assert NodeOk(v, node, null);
    HeadsAreLive(v);
    OwnersAreHeads(v, node);
    UnlinkOwned(v, node, left, parent);
  }

  lemma RemoveGone(v: View, node: Inode, left: Inode?, parent: Inode?)
    requires node in v.cells && (left != null ==> left in v.cells) && (parent != null ==> parent in v.cells)
    requires v.cells[node].crefs == v.holders[node]
    ensures var v', gone := RemoveView(v, node, left, parent), Owned(UnlinkView(v, node, left, parent), node);
      && v'.holders == v.holders
      && v'.cells.Keys == v.cells.Keys - if v.holders[node] == 0 then gone else {}
  {
    hide Owned;
    assert UnlinkView(v, node, left, parent).cells.Keys == v.cells.Keys;
  }

  lemma LiveWithout(v: View, v': View, head: Inode, gone: set<Inode>)
    requires Live(v) && v'.cells.Keys == v.cells.Keys - gone && (head in gone ==> v'.holders[head] == 0)
    requires v'.holders == v.holders || v'.holders == v.holders - multiset{head}
    ensures Live(v') <==> forall n | n in gone && n != head :: v.holders[n] == 0
  {
    if Live(v') {
      forall n | n in gone && n != head ensures v.holders[n] == 0 {
        assert n !in v'.cells && v'.holders[n] == v.holders[n];
      }
    }
  }

  lemma LiveGive(v: View, root: Inode?, n: Inode)
    requires Consistent(v, root, null) && Live(v) && n in v.cells && n in v.holders
    ensures Live(ReleaseView(v, n)) <==>
            (n in v.detached && v.holders[n] == 1 ==> forall m | m in Owned(v, n) - {n} :: v.holders[m] == 0)
  {
    hide Consistent;
    LiveWithout(v, ReleaseView(v, n), n, if n in v.detached && v.holders[n] == 1 then Owned(v, n) else {});
  }

  /** Over any run in which no call frees a referenced node besides the one it is about, every
      reference is live. */
  lemma {:induction false} RunIsLive(states: seq<State>, calls: seq<Call>, i: nat)
    requires Run(states, calls) && i < |states|
    requires forall k, n | 0 <= k < i && n in Doomed(states[k], calls[k]) :: states[k].v.holders[n] == 0
    ensures Live(states[i].v)
  {
    hide Step, Consistent, Doomed;
    if i > 0 {
      RunIsLive(states, calls, i - 1);
      RunIsGood(states, calls, i - 1);
      LiveStep(states[i - 1], calls[i - 1], states[i]);
    }
  }
}
