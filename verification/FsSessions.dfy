/**
 The methods of FileSystem as runs: what each request does, clients that make requests from the
 first reservation on, and a request that frees a node still referenced.
 */
module FileSystemSessions {
  import opened Common
  import opened PathNames
  import opened Spaces
  import opened FileSystems
  import opened FileSystemRuns

  /** A request to the file system; memory is how many allocations succeed. */
  datatype Request = Reserve(path: string, memory: nat) | Find(path: string) | AddRef(n: Inode) | Release(n: Inode) | Unlink(path: string)

  /** A caller adds references to nodes of the tree or nodes that it holds, and releases what
      it holds. */
  ghost predicate Allowed(v: View, r: Request) {
    match r
    case AddRef(n) => n in v.cells && n in v.owner && (v.owner[n] == None || n in v.holders)
    case Release(n) => n in v.cells && n in v.holders
    case _ => true
  }

  ghost function Now(fs: FileSystem): State
    reads fs
  {
    State(fs.view, fs.root_inode)
  }

  lemma LeadsNowhere(s: State)
    ensures Leads(s, [s], [], s)
  {
  }

  lemma LeadsByOne(s: State, call: Call, s': State)
    requires Step(s, call, s')
    ensures Leads(s, [s, s'], [call], s')
  {
    hide Step;
  }

  function Inserts(ins: seq<Insertion>): seq<Call> {
    seq(|ins|, i requires 0 <= i < |ins| => Insert(ins[i]))
  }

  lemma BuiltLeads(s: State, trail: seq<State>, ins: seq<Insertion>, s': State)
    requires Built(s, trail, ins, s')
    ensures Leads(s, trail, Inserts(ins), s')
  {
    hide InsertStep;
  }

  /** The references that are out after a request that found node n, if it looked for one. */
  ghost function Outstanding(holders: multiset<Inode>, r: Request, n: Inode?): multiset<Inode> {
    match r
    case Find(_) => if n == null then holders else holders + multiset{n}
    case AddRef(m) => holders + multiset{m}
    case Release(m) => holders - multiset{m}
    case _ => holders
  }

  /** A path of one segment. */
  predicate Shallow(path: string) {
    path != "" && NextName(path[1..]) == ""
  }

  /** The prefixes of a path that do not exist, if it is one to reserve. */
  ghost function ToReserve(v: View, path: string): seq<Path> {
    if path == "" || path[0] != '/' then []
    else
      match Resolve(v.ns, v.cells, Top, path[1..])
      case Found(_, _) => []
      case Missing(b, rest) => Prefixes(b, rest)
  }

  /** What a request asks for: the missing prefixes, as far as there is memory; a reference on the
      node that the path resolves to; a reference more or less; the removal of that node. */
  ghost predicate Asked(v: View, r: Request, n: Inode?, calls: seq<Call>) {
    match r
    case Reserve(path, memory) =>
      var ps := ToReserve(v, path);
      && n == null && |calls| == Min(memory, |ps|)
      && forall i | 0 <= i < |calls| :: calls[i].Insert? && calls[i].i.node.i_path == ps[i]
    case Find(path) =>
      (match Lookup(v, path)
       case None => n == null && calls == []
       case Some(t) => n == t && calls == [Take(t)])
    case AddRef(m) => n == null && calls == [Take(m)]
    case Release(m) => n == null && calls == [Give(m)]
    case Unlink(path) =>
      (match Lookup(v, path)
       case None => n == null && calls == []
       case Some(t) => n == null && |calls| == 1 && calls[0].Remove? && calls[0].node == t)
  }

  /** What a request does: the calls that it asks for lead from s to s'. */
  ghost predicate Done(s: State, r: Request, n: Inode?, states: seq<State>, calls: seq<Call>, s': State) {
    && Leads(s, states, calls, s') && s'.v.holders == Outstanding(s.v.holders, r, n) && Asked(s.v, r, n, calls)
  }

  /** Every method of FileSystem is a step of the machine, or, for a reservation, several. */
  method Perform(fs: FileSystem, r: Request) returns (n: Inode?, ghost states: seq<State>, ghost calls: seq<Call>)
    requires fs.Valid() && Allowed(fs.view, r)
    modifies fs, fs.view.cells.Keys
    ensures fs.Valid() && Done(old(Now(fs)), r, n, states, calls, Now(fs))
    ensures fresh(fs.view.cells.Keys - old(fs.view.cells.Keys))
    ensures r.Find? && n != null && Shallow(r.path) ==> n.i_path == Sub(Top, n.i_name)
  {
    hide Consistent, Mirrors, Done;
    n := null;
    match r
    case Reserve(path, memory) => states, calls := DoReserve(fs, path, memory);
    case Find(path) => n, states, calls := DoFind(fs, path);
    case AddRef(m) => states, calls := DoAddRef(fs, m);
    case Release(m) => states, calls := DoRelease(fs, m);
    case Unlink(path) => states, calls := DoUnlink(fs, path);
  }

  method DoReserve(fs: FileSystem, path: string, memory: nat) returns (ghost states: seq<State>, ghost calls: seq<Call>)
    requires fs.Valid()
    modifies fs, fs.view.cells.Keys`i_peer, fs.view.cells.Keys`i_child
    ensures fs.Valid() && Done(old(Now(fs)), Request.Reserve(path, memory), null, states, calls, Now(fs))
    ensures fresh(fs.view.cells.Keys - old(fs.view.cells.Keys))
  {
    hide Consistent, Mirrors, Resolve, Prefixes, Built, Leads;
    ghost var ins;
    var status, node, made;
    ghost var s := Now(fs);
    status, node, made, states, ins := fs.Reserve(path, memory);
    BuiltLeads(s, states, ins, Now(fs));
    calls := Inserts(ins);
    assert forall i | 0 <= i < |ins| :: PathsOf(ins)[i] == ins[i].node.i_path;
  }

  method DoFind(fs: FileSystem, path: string) returns (n: Inode?, ghost states: seq<State>, ghost calls: seq<Call>)
    requires fs.Valid()
    modifies fs`view, fs.view.cells.Keys`i_crefs
    ensures fs.Valid() && Done(old(Now(fs)), Request.Find(path), n, states, calls, Now(fs))
    ensures fs.view.cells.Keys == old(fs.view.cells.Keys)
    ensures n != null && Shallow(path) ==> n.i_path == Sub(Top, n.i_name)
  {
    hide Consistent, Mirrors, Resolve, Leads;
    ghost var s := Now(fs);
    states, calls := [s], [];
    LeadsNowhere(s);
    var relpath;
    n, relpath := fs.Find(path);
    if n != null {
      FoundInTree(s.v, s.root, path);
      states, calls := [s, Now(fs)], [Take(n)];
      LeadsByOne(s, Take(n), Now(fs));
    }
  }

  method DoAddRef(fs: FileSystem, m: Inode) returns (ghost states: seq<State>, ghost calls: seq<Call>)
    requires fs.Valid() && Allowed(fs.view, Request.AddRef(m))
    modifies fs`view, m`i_crefs
    ensures fs.Valid() && Done(old(Now(fs)), Request.AddRef(m), null, states, calls, Now(fs))
    ensures fs.view.cells.Keys == old(fs.view.cells.Keys)
  {
    hide Consistent, Mirrors, Leads;
    ghost var s := Now(fs);
    fs.AddRef(m);
    states, calls := [s, Now(fs)], [Take(m)];
    LeadsByOne(s, Take(m), Now(fs));
  }

  method DoRelease(fs: FileSystem, m: Inode) returns (ghost states: seq<State>, ghost calls: seq<Call>)
    requires fs.Valid() && Allowed(fs.view, Request.Release(m))
    modifies fs`view, m`i_crefs
    ensures fs.Valid() && Done(old(Now(fs)), Request.Release(m), null, states, calls, Now(fs))
    ensures fs.view.cells.Keys <= old(fs.view.cells.Keys)
  {
    hide Consistent, Mirrors, Leads;
    ghost var s := Now(fs);
    fs.Release(m);
    states, calls := [s, Now(fs)], [Give(m)];
    LeadsByOne(s, Give(m), Now(fs));
  }

  method DoUnlink(fs: FileSystem, path: string) returns (ghost states: seq<State>, ghost calls: seq<Call>)
    requires fs.Valid()
    modifies fs, fs.view.cells.Keys
    ensures fs.Valid() && Done(old(Now(fs)), Request.Unlink(path), null, states, calls, Now(fs))
    ensures fs.view.cells.Keys <= old(fs.view.cells.Keys)
  {
    hide Consistent, Mirrors, Resolve, Leads, RemoveView;
    ghost var s, node, left, parent := Now(fs), null, null, null;
    states, calls := [s], [];
    LeadsNowhere(s);
    var status;
    status, node, left, parent := fs.Remove(path);
    if node != null {
      RemoveKeys(s.v, node, left, parent);
      states, calls := [s, Now(fs)], [Remove(node, left, parent)];
      LeadsByOne(s, Remove(node, left, parent), Now(fs));
    }
  }

  lemma RemoveKeys(v: View, node: Inode, left: Inode?, parent: Inode?)
    requires node in v.cells && (left != null ==> left in v.cells) && (parent != null ==> parent in v.cells)
    ensures RemoveView(v, node, left, parent).cells.Keys <= v.cells.Keys
  {
  }

  lemma FoundInTree(v: View, root: Inode?, path: string)
    requires Consistent(v, root, null) && path != ""
    ensures var r := Resolve(v.ns, v.cells, Top, path[1..]);
      r.Found? && r.at in v.ns ==>
        && v.ns[r.at] in v.owner && v.owner[v.ns[r.at]] == None
        && (NextName(path[1..]) == "" ==> v.ns[r.at].i_path == Sub(Top, v.ns[r.at].i_name))
  {
  }

  /** What a client asks for; references are numbered in the order in which it got them. */
  datatype Wish = WantReserve(path: string, memory: nat) | WantFind(path: string) | WantAddRef(i: nat) | WantRelease(i: nat) | WantUnlink(path: string)

  /** A client with the references held; top says which are on top-level nodes. */
  datatype Client = Client(held: seq<Inode>, top: seq<bool>) {
    ghost predicate Knows(v: View) {
      |held| == |top| && v.holders == Bag(held) && Right()
    }

    ghost predicate Right()
      requires |held| == |top|
    {
      forall i | 0 <= i < |held| && top[i] :: held[i].i_path == Sub(Top, held[i].i_name)
    }

    /** The request behind a wish. The client does not touch what it does not hold, and unlinks
        only while all that it holds are top-level nodes. */
    function Ask(w: Wish): (r: Option<Request>)
      requires |held| == |top|
    {
      match w
      case WantReserve(path, memory) => Some(Request.Reserve(path, memory))
      case WantFind(path) => Some(Request.Find(path))
      case WantAddRef(i) => if i < |held| then Some(Request.AddRef(held[i])) else None
      case WantRelease(i) => if i < |held| then Some(Request.Release(held[i])) else None
      case WantUnlink(path) => if forall i | 0 <= i < |held| :: top[i] then Some(Request.Unlink(path)) else None
    }

    function After(w: Wish, n: Inode?): Client
      requires |held| == |top|
    {
      match w
      case WantFind(path) => if n == null then this else Client(held + [n], top + [Shallow(path)])
      case WantAddRef(i) => if i < |held| then Client(held + [held[i]], top + [top[i]]) else this
      case WantRelease(i) => if i < |held| then Client(held[..i] + held[i + 1..], top[..i] + top[i + 1..]) else this
      case _ => this
    }
  }

  lemma ClientAllowed(c: Client, s: State, w: Wish)
    requires Good(s) && Safe(s.v) && c.Knows(s.v) && c.Ask(w).Some?
    ensures Allowed(s.v, c.Ask(w).value)
  {
    if (w.WantAddRef? || w.WantRelease?) && w.i < |c.held| {
      assert c.held[w.i] in multiset(c.held);
      assert s.v.holders[c.held[w.i]] > 0;
    }
  }

  lemma Without(s: seq<Inode>, i: nat)
    requires i < |s|
    ensures Bag(s[..i] + s[i + 1..]) == Bag(s) - multiset{s[i]}
  {
    assert s == s[..i] + [s[i]] + s[i + 1..];
  }

  /** What a wish makes of the nodes held. */
  lemma ClientCounts(c: Client, holders: multiset<Inode>, w: Wish, n: Inode?)
    requires |c.held| == |c.top| && c.Ask(w).Some? && holders == Bag(c.held)
    ensures Outstanding(holders, c.Ask(w).value, n) == Bag(c.After(w, n).held)
  {
    hide Bag, Shallow, Outstanding, Client.After;
    match w {
      case WantRelease(i) => ReleaseCounts(c, i, n);
      case WantAddRef(i) => AddRefCounts(c, i, n);
      case WantFind(path) => FindCounts(c, path, n);
      case _ => OthersCount(c, w, n);
    }
  }

  lemma ReleaseCounts(c: Client, i: nat, n: Inode?)
    requires |c.held| == |c.top| && i < |c.held|
    ensures Outstanding(Bag(c.held), Request.Release(c.held[i]), n) == Bag(c.After(WantRelease(i), n).held)
  {
    hide Bag;
    Without(c.held, i);
  }

  lemma AddRefCounts(c: Client, i: nat, n: Inode?)
    requires |c.held| == |c.top| && i < |c.held|
    ensures Outstanding(Bag(c.held), Request.AddRef(c.held[i]), n) == Bag(c.After(WantAddRef(i), n).held)
  {
    hide Bag;
    With(c.held, c.held[i]);
  }

  lemma FindCounts(c: Client, path: string, n: Inode?)
    requires |c.held| == |c.top|
    ensures Outstanding(Bag(c.held), Request.Find(path), n) == Bag(c.After(WantFind(path), n).held)
  {
    hide Bag, Shallow;
    if n != null {
      With(c.held, n);
    }
  }

  lemma OthersCount(c: Client, w: Wish, n: Inode?)
    requires |c.held| == |c.top| && (w.WantReserve? || w.WantUnlink?) && c.Ask(w).Some?
    ensures Outstanding(Bag(c.held), c.Ask(w).value, n) == Bag(c.After(w, n).held)
  {
    hide Bag;
  }

  ghost function Bag(s: seq<Inode>): multiset<Inode> {
    multiset(s)
  }

  lemma With(s: seq<Inode>, n: Inode)
    ensures Bag(s + [n]) == Bag(s) + multiset{n}
  {
  }

  lemma ClientIsRight(c: Client, w: Wish, n: Inode?)
    requires |c.held| == |c.top| && c.Right() && c.Ask(w).Some?
    requires w.WantFind? && n != null && Shallow(w.path) ==> n.i_path == Sub(Top, n.i_name)
    ensures |c.After(w, n).held| == |c.After(w, n).top| && c.After(w, n).Right()
  {
    hide Shallow;
    var held', top' := c.After(w, n).held, c.After(w, n).top;
    forall i | 0 <= i < |held'| && top'[i] ensures held'[i].i_path == Sub(Top, held'[i].i_name) {
      if w.WantRelease? {
        var k := if i < w.i then i else i + 1;
        assert c.top[k] && held'[i] == c.held[k];
      } else if w.WantAddRef? && i == |c.held| {
        assert c.top[w.i];
      }
    }
  }

  /** The books are kept. */
  lemma ClientKnows(c: Client, v: View, w: Wish, n: Inode?, v': View)
    requires c.Knows(v) && c.Ask(w).Some? && v'.holders == Outstanding(v.holders, c.Ask(w).value, n)
    requires w.WantFind? && n != null && Shallow(w.path) ==> n.i_path == Sub(Top, n.i_name)
    ensures c.After(w, n).Knows(v')
  {
    hide Client.After, Client.Ask, Client.Right, Shallow;
    ClientCounts(c, v.holders, w, n);
    ClientIsRight(c, w, n);
  }

  /** Nothing is below a node but what has a longer path. */
  lemma TopIsSpared(c: Client, s: State, p: Path)
    requires Good(s) && c.Knows(s.v) && p in s.v.ns && forall i | 0 <= i < |c.held| :: c.top[i]
    ensures UnheldBelow(s.v, p)
  {
    forall q | q in Below(s.v.ns, p) ensures s.v.holders[s.v.ns[q]] == 0 {
      WithinIsDeeper(p, q);
      assert s.v.ns[q].i_path == q && s.v.ns[p].i_path == p;
    }
  }

  /** All removals of a run spare the references below them. */
  ghost predicate AllSpare(states: seq<State>, calls: seq<Call>) {
    |states| == |calls| + 1 && forall k | 0 <= k < |calls| :: Spares(states[k], calls[k])
  }

  lemma LeadsOn(s: State, states: seq<State>, calls: seq<Call>, s1: State, more: seq<State>, calls': seq<Call>, s2: State)
    requires Leads(s, states, calls, s1) && Leads(s1, more, calls', s2)
    ensures Leads(s, states + more[1..], calls + calls', s2)
    ensures AllSpare(states, calls) && AllSpare(more, calls') ==> AllSpare(states + more[1..], calls + calls')
  {
    hide Step, Spares;
    var all, both := states + more[1..], calls + calls';
    assert forall i | |calls| <= i < |all| :: all[i] == more[i - |calls|];
    assert forall i | 0 <= i < |both| :: Step(all[i], both[i], all[i + 1]);
    if AllSpare(states, calls) && AllSpare(more, calls') {
      assert forall i | 0 <= i < |both| :: Spares(all[i], both[i]);
    }
  }

  /** A removal is all that its request does. */
  lemma RemovesOne(s: State, r: Request, n: Inode?, states: seq<State>, calls: seq<Call>, s': State, k: nat)
    requires Done(s, r, n, states, calls, s') && k < |calls| && calls[k].Remove?
    ensures r.Unlink? && |states| == |calls| + 1 && states[k] == s && calls[k].node.i_path in s.v.ns
  {
    hide Lookup, ToReserve, Consistent, RemoveView, InsertStep;
    assert Step(states[k], calls[k], states[k + 1]);
  }

  lemma SparesMeans(s: State, call: Call)
    ensures Spares(s, call) <==> call.Remove? ==> UnheldBelow(s.v, call.node.i_path)
  {
  }

  lemma DoneSpares(c: Client, s: State, w: Wish, n: Inode?, states: seq<State>, calls: seq<Call>, s': State)
    requires Good(s) && c.Knows(s.v) && c.Ask(w).Some? && Done(s, c.Ask(w).value, n, states, calls, s')
    ensures AllSpare(states, calls)
  {
    hide Done, Good, Spares, UnheldBelow, Client.Right;
    DoneMeans(s, c.Ask(w).value, n, states, calls, s');
    forall k | 0 <= k < |calls| ensures Spares(states[k], calls[k]) {
      if calls[k].Remove? {
        RemovesOne(s, c.Ask(w).value, n, states, calls, s', k);
        TopIsSpared(c, s, calls[k].node.i_path);
        SparesMeans(s, calls[k]);
      } else {
        SparesMeans(states[k], calls[k]);
      }
    }
  }

  /** What became of one wish: the client before and after, and what was done for it. */
  datatype Deed = Deed(s: State, c: Client, n: Inode?, states: seq<State>, calls: seq<Call>, s': State, c': Client)

  ghost predicate Fulfilled(w: Wish, d: Deed) {
    && |d.c.held| == |d.c.top|
    && match d.c.Ask(w)
       case None => d.s' == d.s && d.c' == d.c && d.calls == [] && d.states == [d.s]
       case Some(r) => Done(d.s, r, d.n, d.states, d.calls, d.s') && d.c' == d.c.After(w, d.n)
  }

  /** The deeds fulfil the wishes one after the other, and lead from s and c to s' and c'. */
  ghost predicate Deeds(wishes: seq<Wish>, deeds: seq<Deed>, s: State, c: Client, s': State, c': Client) {
    if wishes == [] then deeds == [] && s' == s && c' == c
    else
      && deeds != []
      && var w, d := wishes[|wishes| - 1], deeds[|deeds| - 1];
         Fulfilled(w, d) && d.s' == s' && d.c' == c' && Deeds(wishes[..|wishes| - 1], deeds[..|deeds| - 1], s, c, d.s, d.c)
  }

  lemma DeedsMore(wishes: seq<Wish>, deeds: seq<Deed>, s: State, c: Client, w: Wish, d: Deed)
    requires Deeds(wishes, deeds, s, c, d.s, d.c) && Fulfilled(w, d)
    ensures Deeds(wishes + [w], deeds + [d], s, c, d.s', d.c')
  {
    hide Fulfilled;
    assert (wishes + [w])[..|wishes|] == wishes && (deeds + [d])[..|deeds|] == deeds;
  }

  /** The steps of all deeds. */
  ghost function StepsOf(deeds: seq<Deed>): seq<Call> {
    if deeds == [] then [] else StepsOf(deeds[..|deeds| - 1]) + deeds[|deeds| - 1].calls
  }

  lemma StepsMore(deeds: seq<Deed>, d: Deed)
    ensures StepsOf(deeds + [d]) == StepsOf(deeds) + d.calls
  {
    assert (deeds + [d])[..|deeds|] == deeds;
  }

  ghost function Empty(): State {
    State(View(map[], map[], map[], map[], multiset{}, {}), null)
  }

  /** Whatever a client wishes for, in any order, from the first reservation on: every wish is
      fulfilled, what is done is a run of the machine, the references out are those that the client
      holds, and all are safe. */
  method Session(wishes: seq<Wish>) returns (fs: FileSystem, c: Client, ghost deeds: seq<Deed>, ghost states: seq<State>)
    ensures fs.Valid() && Safe(fs.view) && c.Knows(fs.view)
    ensures Deeds(wishes, deeds, Empty(), Client([], []), Now(fs), c)
    ensures var calls := StepsOf(deeds);
      Run(states, calls) && |states| == |calls| + 1 && states[|calls|] == Now(fs)
  {
    hide Consistent, Mirrors, Safe, Leads, AllSpare, Deeds, StepsOf, Client.Knows;
    fs := new FileSystem();
    c := Client([], []);
    ghost var start := Now(fs);
    deeds, states := [], [start];
    StartsWell(start, c);
    var i := 0;
    assert wishes[..0] == [];
    while i < |wishes|
      invariant 0 <= i <= |wishes| && fs.Valid() && Safe(fs.view) && c.Knows(fs.view)
      invariant Deeds(wishes[..i], deeds, start, Client([], []), Now(fs), c)
      invariant Leads(start, states, StepsOf(deeds), Now(fs)) && AllSpare(states, StepsOf(deeds))
      invariant fresh(fs) && fresh(fs.view.cells.Keys)
    {
      assert wishes[..i + 1] == wishes[..i] + [wishes[i]];
      ghost var d;
      ghost var before := Now(fs);
      c, d := Fulfil(fs, c, wishes[i]);
      DeedsMore(wishes[..i], deeds, start, Client([], []), wishes[i], d);
      LeadsOn(start, states, StepsOf(deeds), before, d.states, d.calls, Now(fs));
      StepsMore(deeds, d);
      deeds, states := deeds + [d], states + d.states[1..];
      SparedIsSafe(start, states, StepsOf(deeds), Now(fs));
      i := i + 1;
    }
    assert wishes[..|wishes|] == wishes;
    SparedIsSafe(start, states, StepsOf(deeds), Now(fs));
  }

  /** One wish. */
  method Fulfil(fs: FileSystem, c: Client, w: Wish) returns (c': Client, ghost d: Deed)
    requires fs.Valid() && Safe(fs.view) && c.Knows(fs.view)
    modifies fs, fs.view.cells.Keys
    ensures fs.Valid() && c'.Knows(fs.view) && fresh(fs.view.cells.Keys - old(fs.view.cells.Keys))
    ensures Fulfilled(w, d) && d.s == old(Now(fs)) && d.c == c && d.s' == Now(fs) && d.c' == c'
    ensures Leads(d.s, d.states, d.calls, d.s') && d.states != [] && AllSpare(d.states, d.calls)
  {
    hide Consistent, Mirrors, Safe, Leads, Done, AllSpare, Client.Knows, Client.After;
    KnowsLengths(c, fs.view);
    ghost var s := Now(fs);
    var r := c.Ask(w);
    if r == None {
      LeadsNowhere(s);
      NothingToSpare(s);
      c', d := c, Deed(s, c, null, [s], [], s, c);
    } else {
      ClientAllowed(c, s, w);
      var n;
      ghost var states, calls;
      n, states, calls := Perform(fs, r.value);
      DoneSpares(c, s, w, n, states, calls, Now(fs));
      DoneMeans(s, r.value, n, states, calls, Now(fs));
      ClientKnows(c, s.v, w, n, fs.view);
      c' := c.After(w, n);
      d := Deed(s, c, n, states, calls, Now(fs), c');
    }
  }

  lemma NothingToSpare(s: State)
    ensures AllSpare([s], [])
  {
  }

  lemma StartsWell(start: State, c: Client)
    requires start == Empty() && c == Client([], [])
    ensures Leads(start, [start], StepsOf([]), start) && AllSpare([start], StepsOf([])) && c.Knows(start.v)
    ensures Deeds([], [], start, c, start, c)
  {
  }

  lemma KnowsLengths(c: Client, v: View)
    requires c.Knows(v)
    ensures |c.held| == |c.top|
  {
  }

  lemma DoneMeans(s: State, r: Request, n: Inode?, states: seq<State>, calls: seq<Call>, s': State)
    requires Done(s, r, n, states, calls, s')
    ensures Leads(s, states, calls, s') && states != [] && s'.v.holders == Outstanding(s.v.holders, r, n)
  {
  }

  lemma SparedIsSafe(start: State, states: seq<State>, calls: seq<Call>, s: State)
    requires start == Empty()
    requires Leads(start, states, calls, s) && AllSpare(states, calls)
    ensures Run(states, calls) && |states| == |calls| + 1 && states[|calls|] == s && Safe(s.v)
  {
    RunIsGood(states, calls, |calls|);
  }

  lemma ExampleNames()
    ensures Segment("a/b") == Segment("a") == "a" && NextName("a/b") == "b" && Segment("b") == "b"
    ensures NextName("a") == NextName("b") == ""
    ensures "/a/b"[1..] == "a/b" && "/a"[1..] == "a"
  {
  }

  lemma ExampleResolves(ns: Space, cells: Cells)
    requires var a, b := Sub(Top, "a"), Sub(Sub(Top, "a"), "b");
      a in ns && b in ns && !IsMountpt(cells, ns[a])
    ensures Resolve(ns, cells, Top, "a") == Found(Sub(Top, "a"), "")
    ensures Resolve(ns, cells, Top, "a/b") == Found(Sub(Sub(Top, "a"), "b"), "")
  {
    ExampleNames();
  }

  /** The references below a node are not looked at: with /a/b held, removing /a frees b. */
  method HeldBelow(fs: FileSystem) returns (n: Inode?)
    requires fs.Valid()
    requires var a, b, v := Sub(Top, "a"), Sub(Sub(Top, "a"), "b"), fs.view;
      a in v.ns && b in v.ns && !IsMountpt(v.cells, v.ns[a]) && v.holders[v.ns[a]] == 0
    modifies fs, fs.view.cells.Keys
    ensures fs.Valid() && n in fs.view.holders && n in fs.view.freed && !Safe(fs.view)
  {
    ExampleNames();
    hide Consistent, Mirrors, Resolve, Unlinkable, RemoveView, Safe;
    ghost var v, root, a, b := fs.view, fs.root_inode, Sub(Top, "a"), Sub(Sub(Top, "a"), "b");
    ghost var x, left, parent;
    var status, relpath;
    ExampleResolves(v.ns, v.cells);
    ApartInTree(v, root, a, b);
    n, relpath := fs.Find("/a/b");
    ghost var v2 := fs.view;
    ExampleResolves(v2.ns, v2.cells);
    status, x, left, parent := fs.Remove("/a");
    assert Below(v2.ns, a)[b] == n;
    FreedWhileHeld(fs.view, fs.root_inode, n);
  }

  /** Such a state is reached: reserve /a/b, find it, remove /a. */
  method HeldBelowFromStart() returns (fs: FileSystem, n: Inode?)
    ensures fs.Valid() && n in fs.view.holders && n in fs.view.freed && !Safe(fs.view)
  {
    hide Consistent, Mirrors, Safe;
    fs := new FileSystem();
    ReserveBoth(fs);
    n := HeldBelow(fs);
  }

  method ReserveBoth(fs: FileSystem)
    requires fs.Valid() && fs.view.ns == map[] && fs.view.holders == multiset{}
    modifies fs, fs.view.cells.Keys
    ensures fs.Valid() && fs.view.holders == multiset{} && fresh(fs.view.cells.Keys - old(fs.view.cells.Keys))
    ensures var a, b, v := Sub(Top, "a"), Sub(Sub(Top, "a"), "b"), fs.view;
            a in v.ns && b in v.ns && !IsMountpt(v.cells, v.ns[a])
  {
    ExampleNames();
    ExamplePrefixes();
    ExampleMissing(fs.view);
    hide Consistent, Mirrors, Resolve, Prefixes, Reserved, Built, PathsOf;
    ghost var v, a, b := fs.view, Sub(Top, "a"), Sub(Sub(Top, "a"), "b");
    var status, node, made;
    ghost var trail, ins;
    status, node, made, trail, ins := fs.Reserve("/a/b", 2);
    BothReserved(v, fs.view, a, b, status, node);
  }

  lemma BothReserved(v: View, v': View, a: Path, b: Path, status: Status, node: Inode?)
    requires Reserved(v, v', "a/b", [a, b], 2, status, node)
    ensures a in v'.ns && b in v'.ns && !IsMountpt(v'.cells, v'.ns[a]) && v'.holders == v.holders
  {
    hide Resolve;
    assert [a, b][..2] == [a, b] && [a, b][0] == a && [a, b][1] == b;
    assert a in PathSet([a, b]) && b in PathSet([a, b]);
  }

  lemma ExamplePrefixes()
    ensures Prefixes(Top, "a/b") == [Sub(Top, "a"), Sub(Sub(Top, "a"), "b")]
  {
    ExampleNames();
  }

  lemma ExampleMissing(v: View)
    requires v.ns == map[]
    ensures Resolve(v.ns, v.cells, Top, "a/b") == Missing(Top, "a/b")
  {
  }

  lemma ApartInTree(v: View, root: Inode?, p: Path, q: Path)
    requires Consistent(v, root, null) && p in v.ns && q in v.ns && p != q
    ensures v.ns[p] != v.ns[q]
  {
  }

  lemma FreedWhileHeld(v: View, root: Inode?, n: Inode)
    requires Consistent(v, root, null) && n in v.freed && n in v.holders
    ensures !Safe(v)
  {
    assert n !in v.cells by { FreedOrHeld(State(v, root), n); }
    assert v.holders[n] > 0;
  }
}
