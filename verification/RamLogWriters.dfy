/** Any number of calls to ramlog_write that interleave: each step of a writer is at most one
    ramlog_addchar, which may be refused. */
module RamLogWriters {
  import opened Common
  import opened Rings
  import opened RamLogs

  /** A call under way: the characters of the input that are done with, whether the carriage
      return of the next one is stored, and whether the call has ended. */
  datatype Writer = Writer(input: string, n: nat, half: bool, done: bool) {
    ghost predicate Valid(crlf: bool) {
      n <= |input| && (half ==> crlf && n < |input| && input[n] == '\n')
    }

    /** The character that its next step offers. */
    function Offers(crlf: bool): Option<char> {
      if done || n >= |input| || (crlf && input[n] == '\r') then None
      else if crlf && input[n] == '\n' && !half then Some('\r')
      else Some(input[n])
    }

    /** After that step; ok says whether the character was stored. */
    function After(crlf: bool, ok: bool): Writer {
      if done then this
      else if n >= |input| then this.(done := true)
      else if crlf && input[n] == '\r' then this.(n := n + 1)
      else if !ok then this.(done := true)
      else if crlf && input[n] == '\n' && !half then this.(half := true)
      else this.(n := n + 1, half := false)
    }
  }

  /** A stored character: which writer stored it, and for which place of its input. */
  datatype Entry = Entry(c: char, w: nat, k: nat)

  datatype State = State(log: seq<Entry>, ws: seq<Writer>)

  function Text(log: seq<Entry>): (r: string)
    ensures |r| == |log| && forall i | 0 <= i < |log| :: r[i] == log[i].c
  {
    seq(|log|, i requires 0 <= i < |log| => log[i].c)
  }

  /** A step of writer w. */
  function Turn(s: State, w: nat, ok: bool, crlf: bool): (s': State)
    requires w < |s.ws|
    ensures |s'.ws| == |s.ws|
  {
    var x := s.ws[w];
    var c := x.Offers(crlf);
    State(if c.Some? && ok then s.log + [Entry(c.value, w, x.n)] else s.log, s.ws[w := x.After(crlf, ok)])
  }

  /** What writer w has stored, in order. */
  function Own(log: seq<Entry>, w: nat): (r: string) {
    if log == [] then ""
    else Own(log[..|log| - 1], w) + if log[|log| - 1].w == w then [log[|log| - 1].c] else []
  }

  lemma OwnNext(log: seq<Entry>, e: Entry, w: nat)
    ensures Own(log + [e], w) == Own(log, w) + if e.w == w then [e.c] else []
  {
    assert (log + [e])[..|log|] == log;
  }

  /** The states that writers with these inputs go through, starting with an empty log. */
  ghost predicate Run(states: seq<State>, turns: seq<(nat, bool)>, inputs: seq<string>, crlf: bool) {
    && |states| == |turns| + 1 && states[0] == Start(inputs)
    && forall i | 0 <= i < |turns| :: turns[i].0 < |states[i].ws| && states[i + 1] == Turn(states[i], turns[i].0, turns[i].1, crlf)
  }

  function Start(inputs: seq<string>): State {
    State([], seq(|inputs|, i requires 0 <= i < |inputs| => Writer(inputs[i], 0, false, false)))
  }

  /** Each writer has stored the expansion of what it is done with, and perhaps half a line end. */
  ghost predicate Faithful(s: State, crlf: bool) {
    forall w | 0 <= w < |s.ws| ::
      s.ws[w].Valid(crlf) && Own(s.log, w) == Expand(crlf, s.ws[w].input[..s.ws[w].n]) + if s.ws[w].half then "\r" else ""
  }

  lemma TurnIsFaithful(s: State, w: nat, ok: bool, crlf: bool)
    requires Faithful(s, crlf) && w < |s.ws|
    ensures Faithful(Turn(s, w, ok, crlf), crlf)
  {
    hide Own, Expand;
    var s', x, c := Turn(s, w, ok, crlf), s.ws[w], s.ws[w].Offers(crlf);
    if x.n < |x.input| {
      ExpandNext(crlf, x.input, x.n);
    }
    forall v | 0 <= v < |s'.ws|
      ensures s'.ws[v].Valid(crlf)
      ensures Own(s'.log, v) == Expand(crlf, s'.ws[v].input[..s'.ws[v].n]) + if s'.ws[v].half then "\r" else ""
    {
      assert s.ws[v].Valid(crlf);
      if c.Some? && ok {
        OwnNext(s.log, Entry(c.value, w, x.n), v);
      }
    }
  }

  /** However the calls interleave, and whatever is refused, the characters of each call are, in
      order, a prefix of its expanded input, and all of it if the call got through. */
  lemma {:induction false} EachStoresItsPrefix(states: seq<State>, turns: seq<(nat, bool)>, inputs: seq<string>, crlf: bool, i: nat)
    requires Run(states, turns, inputs, crlf) && i < |states|
    ensures Faithful(states[i], crlf) && |states[i].ws| == |inputs|
    ensures forall w | 0 <= w < |inputs| ::
      var x := states[i].ws[w];
      && x.input == inputs[w] && Own(states[i].log, w) <= Expand(crlf, inputs[w])
      && (x.n == |inputs[w]| ==> Own(states[i].log, w) == Expand(crlf, inputs[w]))
  {
    if i == 0 {
      forall w | 0 <= w < |inputs| ensures Expand(crlf, inputs[w][..0]) == "" {
        ExpandNothing(crlf, inputs[w]);
      }
    } else {
      EachStoresItsPrefix(states, turns, inputs, crlf, i - 1);
      TurnIsFaithful(states[i - 1], turns[i - 1].0, turns[i - 1].1, crlf);
      KeepsInput(states[i - 1], turns[i - 1].0, turns[i - 1].1, crlf);
    }
    forall w | 0 <= w < |inputs|
      ensures Own(states[i].log, w) <= Expand(crlf, inputs[w])
      ensures states[i].ws[w].n == |inputs[w]| ==> Own(states[i].log, w) == Expand(crlf, inputs[w])
    {
      OwnIsPrefix(states[i], w, crlf);
    }
  }

  lemma KeepsInput(s: State, w: nat, ok: bool, crlf: bool)
    requires w < |s.ws|
    ensures forall v | 0 <= v < |s.ws| :: Turn(s, w, ok, crlf).ws[v].input == s.ws[v].input
  {
  }

  lemma OwnIsPrefix(s: State, w: nat, crlf: bool)
    requires Faithful(s, crlf) && w < |s.ws|
    ensures var x := s.ws[w];
      && Own(s.log, w) <= Expand(crlf, x.input)
      && (x.n == |x.input| ==> Own(s.log, w) == Expand(crlf, x.input))
  {
    hide Own, Expand;
    var x := s.ws[w];
    assert x.Valid(crlf);
    if x.n < |x.input| {
      ExpandNext(crlf, x.input, x.n);
      ExpandPrefix(crlf, x.input, x.n + 1);
      if x.half {
        assert "\r\n" == "\r" + "\n";
      }
    } else {
      assert x.input[..x.n] == x.input;
    }
  }

  // ---------------------------------------------------------------------------------------
  // Line ends
  // ---------------------------------------------------------------------------------------

  /** The carriage return and the line feed of a line end. */
  function Cr(w: nat, k: nat): Entry { Entry('\r', w, k) }
  function Lf(w: nat, k: nat): Entry { Entry('\n', w, k) }

  /** An entry is for a place that its writer is done with, or is the first half of a line end
      that the writer is in. */
  ghost predicate Placed(s: State, e: Entry) {
    && e.w < |s.ws|
    && if e.k < s.ws[e.w].n then e.c == '\r' ==> Lf(e.w, e.k) in s.log
       else e == Cr(e.w, s.ws[e.w].n) && s.ws[e.w].half
  }

  /** With CONFIG_RAMLOG_CRLF: no entry comes twice, every line feed comes some time after its
      carriage return, and every carriage return has its line feed or its writer is in between. */
  ghost predicate Paired(s: State) {
    && (forall i, j | 0 <= i < j < |s.log| :: s.log[i] != s.log[j])
    && (forall i | 0 <= i < |s.log| :: Placed(s, s.log[i]))
    && (forall j | 0 <= j < |s.log| && s.log[j].c == '\n' :: Cr(s.log[j].w, s.log[j].k) in s.log[..j])
    && (forall w | 0 <= w < |s.ws| :: s.ws[w].Valid(true) && (s.ws[w].half ==> Cr(w, s.ws[w].n) in s.log))
  }

  lemma TurnIsPaired(s: State, w: nat, ok: bool)
    requires Paired(s) && w < |s.ws|
    ensures Paired(Turn(s, w, ok, true))
  {
    var s', x := Turn(s, w, ok, true), s.ws[w];
    var c := x.Offers(true);
    assert x.Valid(true);
    assert s.log <= s'.log;
    if c.Some? && ok {
      var e := Entry(c.value, w, x.n);
      forall i | 0 <= i < |s.log| ensures s.log[i] != e && Placed(s', s.log[i]) {
        assert Placed(s, s.log[i]);
        assert s'.log[|s.log|] == e;
      }
      assert Placed(s', e);
      forall j | 0 <= j < |s'.log| && s'.log[j].c == '\n' ensures Cr(s'.log[j].w, s'.log[j].k) in s'.log[..j] {
        assert s'.log[..j] == s.log[..j];
        if j == |s.log| {
          assert s.log[..j] == s.log;
        }
      }
    } else {
      forall i | 0 <= i < |s.log| ensures Placed(s', s.log[i]) {
        assert Placed(s, s.log[i]);
      }
    }
  }

  lemma {:induction false} ReachableIsPaired(states: seq<State>, turns: seq<(nat, bool)>, inputs: seq<string>, i: nat)
    requires Run(states, turns, inputs, true) && i < |states|
    ensures Paired(states[i])
  {
    hide Turn, Paired;
    if i == 0 {
      StartIsPaired(inputs);
    } else {
      ReachableIsPaired(states, turns, inputs, i - 1);
      TurnIsPaired(states[i - 1], turns[i - 1].0, turns[i - 1].1);
    }
  }

  lemma StartIsPaired(inputs: seq<string>)
    ensures Paired(Start(inputs))
  {
  }

  /** No other character lands between the two of a line end. */
  ghost predicate Together(log: seq<Entry>) {
    forall j | 0 <= j < |log| && log[j].c == '\n' :: j > 0 && log[j - 1] == Cr(log[j].w, log[j].k)
  }

  ghost predicate NoneHalf(s: State) {
    forall w | 0 <= w < |s.ws| :: !s.ws[w].half
  }

  /** A line feed that follows a foreign carriage return leaves that one's line feed to come
      later, and that follows a foreign one again, and so on: the log would never end. */
  lemma {:induction false} NoForeignReturn(s: State, j: nat)
    requires Paired(s) && NoneHalf(s) && Lines(Text(s.log))
    requires 0 < j < |s.log| && s.log[j].c == '\n' && s.log[j - 1] != Cr(s.log[j].w, s.log[j].k)
    ensures false
    decreases |s.log| - j
  {
    var e := s.log[j - 1];
    assert Text(s.log)[j] == '\n';
    assert Placed(s, e) && e == Cr(e.w, e.k);
    var m :| 0 <= m < |s.log| && s.log[m] == Lf(e.w, e.k);
    var i :| 0 <= i < m && s.log[i] == Cr(e.w, e.k);
    assert m > j;
    NoForeignReturn(s, m);
  }

  /** While no writer is inside a line end, every line feed directly follows a carriage return if
      and only if no other character ever landed between the two of a line end. */
  lemma LinesMeans(s: State)
    requires Paired(s) && NoneHalf(s)
    ensures Lines(Text(s.log)) <==> Together(s.log)
  {
    if Together(s.log) {
      TogetherHasLines(s.log);
    }
    if Lines(Text(s.log)) {
      forall j | 0 <= j < |s.log| && s.log[j].c == '\n' ensures j > 0 && s.log[j - 1] == Cr(s.log[j].w, s.log[j].k) {
        assert Text(s.log)[j] == '\n';
        if s.log[j - 1] != Cr(s.log[j].w, s.log[j].k) {
          NoForeignReturn(s, j);
        }
      }
    }
  }

  lemma TogetherHasLines(log: seq<Entry>)
    requires Together(log)
    ensures Lines(Text(log))
  {
    forall j | 0 <= j < |log| && Text(log)[j] == '\n' ensures j > 0 && Text(log)[j - 1] == '\r' {
      assert log[j].c == '\n';
    }
  }

  /** The turn that parts a line end: a writer stores its line feed, and the last character in
      the log is not its carriage return. */
  ghost predicate Parts(s: State, w: nat, ok: bool)
    requires w < |s.ws|
  {
    ok && s.ws[w].Offers(true) == Some('\n') && (s.log == [] || s.log[|s.log| - 1] != Cr(w, s.ws[w].n))
  }

  lemma TurnTogether(s: State, w: nat, ok: bool)
    requires w < |s.ws| && Together(s.log)
    ensures Together(Turn(s, w, ok, true).log) <==> !Parts(s, w, ok)
  {
    var log', n := Turn(s, w, ok, true).log, |s.log|;
    if Parts(s, w, ok) {
      assert log'[n] == Lf(w, s.ws[w].n);
      assert n > 0 ==> log'[n - 1] == s.log[n - 1];
    } else {
      forall j | 0 <= j < |log'| && log'[j].c == '\n' ensures j > 0 && log'[j - 1] == Cr(log'[j].w, log'[j].k) {
        if j < n {
          assert log'[j] == s.log[j];
          assert s.log[j - 1] == log'[j - 1];
        }
      }
    }
  }

  lemma {:induction false} TogetherMeans(states: seq<State>, turns: seq<(nat, bool)>, inputs: seq<string>, i: nat)
    requires Run(states, turns, inputs, true) && i < |states|
    ensures Together(states[i].log) <==> forall k | 0 <= k < i :: !Parts(states[k], turns[k].0, turns[k].1)
  {
    hide Parts, Together;
    if i == 0 {
      NoneParted();
    } else {
      TogetherMeans(states, turns, inputs, i - 1);
      StaysParted(states[i - 1], turns[i - 1].0, turns[i - 1].1);
      if Together(states[i - 1].log) {
        TurnTogether(states[i - 1], turns[i - 1].0, turns[i - 1].1);
      }
    }
  }

  lemma NoneParted()
    ensures Together([])
  {
  }

  lemma StaysParted(s: State, w: nat, ok: bool)
    requires w < |s.ws|
    ensures Together(Turn(s, w, ok, true).log) ==> Together(s.log)
  {
    var log' := Turn(s, w, ok, true).log;
    if Together(log') {
      forall j | 0 <= j < |s.log| && s.log[j].c == '\n' ensures j > 0 && s.log[j - 1] == Cr(s.log[j].w, s.log[j].k) {
        assert log'[j] == s.log[j];
        assert log'[j - 1] == s.log[j - 1];
      }
    }
  }

  /** Over any interleaving of calls: at any time when no writer is inside a line end, every line
      feed in the log directly follows a carriage return if and only if no writer stored a line
      feed after another had stored something since its carriage return. */
  lemma LinesOfRuns(states: seq<State>, turns: seq<(nat, bool)>, inputs: seq<string>, i: nat)
    requires Run(states, turns, inputs, true) && i < |states| && NoneHalf(states[i])
    ensures Lines(Text(states[i].log)) <==> forall k | 0 <= k < i :: !Parts(states[k], turns[k].0, turns[k].1)
  {
    hide Run, Paired, Lines, Together, Parts;
    ReachableIsPaired(states, turns, inputs, i);
    LinesMeans(states[i]);
    TogetherMeans(states, turns, inputs, i);
  }

  // ---------------------------------------------------------------------------------------
  // On the ring
  // ---------------------------------------------------------------------------------------

  /** A step of writer w on the ring, whose text goes on from base. */
  method TurnOn(ring: RamLog, s: State, w: nat, ghost base: string) returns (s': State, ok: bool)
    requires ring.Between() && w < |s.ws| && ring.stored == base + Text(s.log)
    modifies ring`head, ring`stored, ring`kept, ring.buffer
    ensures ring.Between() && s' == Turn(s, w, ok, ring.crlf) && ring.stored == base + Text(s'.log)
    ensures ok == GoesIn(s, w, old(Places(ring)), ring.crlf) && Places(ring) == old(Places(ring)).After(s, w, ring.crlf)
    ensures ring.kept <==> old(ring.kept) && !Overruns(s, w, old(Places(ring)), ring.crlf)
    ensures old(ring.kept) && ring.tail < ring.buffer.Length && |old(ring.stored)| - |ring.taken| < ring.buffer.Length - 1 ==> ok
  {
    var c := s.ws[w].Offers(ring.crlf);
    ok := true;
    if c.Some? {
      ok := ring.AddChar(c.value);
    }
    s' := Turn(s, w, ok, ring.crlf);
    if c.Some? && ok {
      TextNext(s.log, Entry(c.value, w, s.ws[w].n));
    }
  }

  lemma TextNext(log: seq<Entry>, e: Entry)
    ensures Text(log + [e]) == Text(log) + [e.c]
  {
  }

  /** Where the two indices of a ring of n stand. */
  datatype Indices = Indices(head: nat, tail: nat, n: nat) {
    predicate Valid() {
      head < n && tail <= n
    }

    /** ramlog_addchar refuses. */
    predicate Full()
      requires Valid()
    {
      Next(head, n) == tail
    }

    /** After a step of writer w. */
    function After(s: State, w: nat, crlf: bool): (r: Indices)
      requires Valid() && w < |s.ws|
      ensures r.Valid()
    {
      if s.ws[w].Offers(crlf).Some? && !Full() then this.(head := Next(head, n)) else this
    }

    predicate HasSome()
      requires Valid()
    {
      tail < n && head != tail
    }

    /** After the first store of a reader, and after the second. */
    function Taken(): (r: Indices)
      requires Valid()
      ensures r.Valid()
    {
      if !HasSome() then this else this.(tail := if tail == n - 1 && n == 0x1_0000 then 0 else tail + 1)
    }

    function Reset(): (r: Indices)
      requires Valid()
      ensures r.Valid()
    {
      if tail == n then this.(tail := 0) else this
    }
  }

  ghost function Places(ring: RamLog): Indices
    reads ring
  {
    Indices(ring.head, ring.tail, ring.buffer.Length)
  }

  /** The character that writer w offers, if any, is not refused. */
  predicate GoesIn(s: State, w: nat, ix: Indices, crlf: bool)
    requires ix.Valid() && w < |s.ws|
  {
    s.ws[w].Offers(crlf).Some? ==> !ix.Full()
  }

  /** Writer w stores a character over one that has not been read: a reader stands between its two
      stores with the tail past the end, and all entries but one are used. */
  predicate Overruns(s: State, w: nat, ix: Indices, crlf: bool)
    requires ix.Valid() && w < |s.ws|
  {
    s.ws[w].Offers(crlf).Some? && ix.tail == ix.n && Next(ix.head, ix.n) == 0
  }

  /** What is done next: a step of a writer, or one of the two of a reader. */
  datatype Step = Writes(w: nat) | Takes | Resets

  /** What steps lead to: the writers and their log, the indices, the turns that the writers took,
      whether one overran, and how many characters were read. */
  datatype Play = Play(s: State, ix: Indices, turns: seq<(nat, bool)>, over: bool, took: nat)

  function Played(inputs: seq<string>, ix: Indices, steps: seq<Step>, crlf: bool): (p: Play)
    requires ix.Valid()
    ensures p.ix.Valid() && p.ix.n == ix.n && |p.s.ws| == |inputs|
  {
    if steps == [] then Play(Start(inputs), ix, [], false, 0)
    else StepOn(Played(inputs, ix, steps[..|steps| - 1], crlf), steps[|steps| - 1], crlf)
  }

  function StepOn(p: Play, step: Step, crlf: bool): (q: Play)
    requires p.ix.Valid()
    ensures q.ix.Valid() && q.ix.n == p.ix.n && |q.s.ws| == |p.s.ws|
  {
    match step
    case Writes(w) =>
      if w >= |p.s.ws| then p
      else
        var ok := GoesIn(p.s, w, p.ix, crlf);
        Play(Turn(p.s, w, ok, crlf), p.ix.After(p.s, w, crlf), p.turns + [(w, ok)], p.over || Overruns(p.s, w, p.ix, crlf), p.took)
    case Takes => p.(ix := p.ix.Taken(), took := if p.ix.HasSome() then p.took + 1 else p.took)
    case Resets => p.(ix := p.ix.Reset())
  }

  /** What is played is a run of the writers. */
  lemma {:induction false} PlayedIsRun(inputs: seq<string>, ix: Indices, steps: seq<Step>, crlf: bool) returns (states: seq<State>)
    requires ix.Valid()
    ensures var p := Played(inputs, ix, steps, crlf);
      Run(states, p.turns, inputs, crlf) && |states| == |p.turns| + 1 && states[|p.turns|] == p.s
  {
    hide Turn, Run;
    if steps == [] {
      states := [Start(inputs)];
      RunStarts(inputs, crlf);
    } else {
      var p, step := Played(inputs, ix, steps[..|steps| - 1], crlf), steps[|steps| - 1];
      states := PlayedIsRun(inputs, ix, steps[..|steps| - 1], crlf);
      if step.Writes? && step.w < |p.s.ws| {
        RunGoesOn(states, p.turns, inputs, crlf, step.w, GoesIn(p.s, step.w, p.ix, crlf));
        states := states + [StepOn(p, step, crlf).s];
      }
    }
  }

  lemma RunStarts(inputs: seq<string>, crlf: bool)
    ensures Run([Start(inputs)], [], inputs, crlf)
  {
  }

  lemma RunGoesOn(states: seq<State>, turns: seq<(nat, bool)>, inputs: seq<string>, crlf: bool, w: nat, ok: bool)
    requires Run(states, turns, inputs, crlf) && w < |states[|turns|].ws|
    ensures Run(states + [Turn(states[|turns|], w, ok, crlf)], turns + [(w, ok)], inputs, crlf)
  {
    hide Turn;
  }

  /** Any interleaving of calls to ramlog_write and of readers on the ring comes out as it is
      played; what the ring stores is the log; and its order is kept if and only if it was before
      and no writer overran. */
  method Interleave(ring: RamLog, inputs: seq<string>, steps: seq<Step>) returns (s: State)
    requires ring.Between()
    modifies ring, ring.buffer
    ensures ring.Between()
    ensures var p := Played(inputs, old(Places(ring)), steps, ring.crlf);
      && s == p.s && Places(ring) == p.ix && |ring.taken| == |old(ring.taken)| + p.took
      && ring.stored == old(ring.stored) + Text(s.log) && (ring.kept <==> old(ring.kept) && !p.over)
  {
    hide RamLog.Between, Turn, Text, GoesIn, Overruns, Indices.After, Indices.Taken, Indices.Reset, Indices.HasSome;
    PlacesValid(ring);
    s := Start(inputs);
    TextOfNone();
    assert steps[..0] == [];
    for i := 0 to |steps|
      invariant ring.Between() && Places(ring).Valid() && ring.stored == old(ring.stored) + Text(s.log)
      invariant var p := Played(inputs, old(Places(ring)), steps[..i], ring.crlf);
        && s == p.s && Places(ring) == p.ix && |ring.taken| == |old(ring.taken)| + p.took
        && (ring.kept <==> old(ring.kept) && !p.over)
    {
      assert steps[..i + 1][..i] == steps[..i];
      match steps[i] {
        case Writes(w) =>
          if w < |s.ws| {
            var ok;
            s, ok := TurnOn(ring, s, w, old(ring.stored));
          }
        case Takes => TakeIfAny(ring);
        case Resets => ResetOn(ring);
      }
    }
    assert steps[..|steps|] == steps;
  }

  lemma PlacesValid(ring: RamLog)
    requires ring.Between()
    ensures Places(ring).Valid()
  {
  }

  method TakeIfAny(ring: RamLog)
    requires ring.Between() && Places(ring).Valid()
    modifies ring`tail, ring`taken
    ensures ring.Between() && Places(ring) == old(Places(ring)).Taken()
    ensures |ring.taken| == |old(ring.taken)| + if old(Places(ring)).HasSome() then 1 else 0
  {
    if ring.tail < ring.buffer.Length && ring.head != ring.tail {
      var c := ring.TakeFirst();
    }
  }

  method ResetOn(ring: RamLog)
    requires ring.Between() && Places(ring).Valid()
    modifies ring`tail
    ensures ring.Between() && Places(ring) == old(Places(ring)).Reset()
  {
    ring.TakeReset();
  }

  lemma TextOfNone()
    ensures Text([]) == ""
  {
  }

  /** Two calls, one of which logs a line feed, and another that interrupts it between the two
      characters of the line end: the log then has a line feed behind something else. */
  method SplitLineEnd() returns (ring: RamLog, s: State)
    ensures ring.Valid() && ring.crlf && ring.stored == Text(s.log) == "\rx\n" && !Lines(ring.stored) && NoneHalf(s)
  {
    hide Run, Lines, NoneHalf, RamLog.Between, Text;
    ring := new RamLog(16, true);
    s := Start(["\n", "x"]);
    var ok;
    TextOfNone();
    s, ok := TurnOn(ring, s, 0, "");
    assert s == State([Cr(0, 0)], [Writer("\n", 0, true, false), Writer("x", 0, false, false)]);
    s, ok := TurnOn(ring, s, 1, "");
    assert s == State([Cr(0, 0), Entry('x', 1, 0)], [Writer("\n", 0, true, false), Writer("x", 1, false, false)]);
    s, ok := TurnOn(ring, s, 0, "");
    assert s == State([Cr(0, 0), Entry('x', 1, 0), Lf(0, 0)], [Writer("\n", 1, false, false), Writer("x", 1, false, false)]);
    SplitLog(s);
  }

  lemma SplitLog(s: State)
    requires s == State([Cr(0, 0), Entry('x', 1, 0), Lf(0, 0)], [Writer("\n", 1, false, false), Writer("x", 1, false, false)])
    ensures Text(s.log) == "\rx\n" && !Lines(Text(s.log)) && NoneHalf(s)
  {
    assert Text(s.log)[2] == '\n' && Text(s.log)[1] == 'x';
  }

  /** The condition on writers inside a line end is needed: one that was refused there leaves a
      carriage return that the line feed of another may follow. */
  lemma SpareReturn() returns (s: State)
    ensures Paired(s) && !NoneHalf(s) && Lines(Text(s.log)) && !Together(s.log)
  {
    hide Paired, Lines, Together, NoneHalf, Text, Turn, Start;
    s := BothHalf();
    var s1 := RefusedThenDone(s);
    TurnIsPaired(s, 1, false);
    TurnIsPaired(Turn(s, 1, false, true), 0, true);
    s := s1;
    SpareLog(s);
  }

  lemma BothHalf() returns (s: State)
    ensures Paired(s)
    ensures s == State([Cr(0, 0), Cr(1, 0)], [Writer("\n", 0, true, false), Writer("\n", 0, true, false)])
  {
    hide Paired;
    var s0 := Start(["\n", "\n"]);
    StartIsPaired(["\n", "\n"]);
    TurnIsPaired(s0, 0, true);
    var s1 := Turn(s0, 0, true, true);
    assert s1 == State([Cr(0, 0)], [Writer("\n", 0, true, false), Writer("\n", 0, false, false)]);
    TurnIsPaired(s1, 1, true);
    s := Turn(s1, 1, true, true);
  }

  lemma RefusedThenDone(s: State) returns (s': State)
    requires s == State([Cr(0, 0), Cr(1, 0)], [Writer("\n", 0, true, false), Writer("\n", 0, true, false)])
    ensures s' == Turn(Turn(s, 1, false, true), 0, true, true)
    ensures s' == State([Cr(0, 0), Cr(1, 0), Lf(0, 0)], [Writer("\n", 1, false, false), Writer("\n", 0, true, true)])
  {
    var s1 := Turn(s, 1, false, true);
    assert s1 == State([Cr(0, 0), Cr(1, 0)], [Writer("\n", 0, true, false), Writer("\n", 0, true, true)]);
    s' := Turn(s1, 0, true, true);
  }

  lemma SpareLog(s: State)
    requires s == State([Cr(0, 0), Cr(1, 0), Lf(0, 0)], [Writer("\n", 1, false, false), Writer("\n", 0, true, true)])
    ensures !NoneHalf(s) && Lines(Text(s.log)) && !Together(s.log)
  {
    assert s.log[2].c == '\n' && s.log[1] == Cr(1, 0) && s.ws[1].half;
  }
}
