/**
 The if/then/else/fi line machine of the NuttShell (apps/nshlib/nsh_parse.c).

 A script is a sequence of lines, each a sequence of words. The shell takes one line at a time
 and remembers where it is in nested conditionals in a small stack.
 */
module NshScript {

  /** A word as written: literal text, or a reference to a variable. "?" is the exit status. */
  datatype Word = Lit(text: string) | Dollar(name: string)

  type Line = seq<Word>
  type Argv = seq<string>
  type Trace = seq<Argv>

  /** Everything outside the parser: whether a command fails and what a variable holds may
      depend on all commands run so far. */
  datatype World = World(fails: (Trace, Argv) -> bool, env: (Trace, string) -> string)

  datatype ParserState = NORMAL | IF | THEN | ELSE

  /** struct nsh_state_s. */
  datatype Level = Level(state: ParserState, ifcond: bool, disabled: bool)

  const START := Level(NORMAL, false, false)

  /** The used part of np_st[]: the levels below np_ndx and the one at it. */
  datatype Stack = Stack(below: seq<Level>, top: Level)

  /** The stack, the last status, and the commands run so far. */
  datatype Machine = Machine(st: Stack, fail: bool, trace: Trace)

  function Expand(w: Word, fail: bool, trace: Trace, world: World): string {
    match w
    case Lit(s) => s
    case Dollar(name) => if name == "?" then if fail then "1" else "0" else world.env(trace, name)
  }

  function ExpandAll(ws: Line, fail: bool, trace: Trace, world: World): Argv {
    seq(|ws|, i requires 0 <= i < |ws| => Expand(ws[i], fail, trace, world))
  }

  /** The branch a level is in is the one its condition selects. */
  predicate Taken(l: Level) {
    match l.state
    case THEN => !l.ifcond
    case ELSE => l.ifcond
    case _ => true
  }

  /** nsh_cmdenabled, at one level. */
  predicate Enabled(l: Level) {
    !l.disabled && Taken(l)
  }

  /** What nsh_ifthenelse makes of a line: a context error, or a stack and the command, possibly
      empty, that the line still asks for. */
  datatype Verdict = Misplaced | Accepted(st: Stack, cmd: Argv)

  function IfThenElse(st: Stack, argv: Argv, depth: nat): Verdict {
    var top := st.top;
    if argv == [] then Accepted(st, [])
    else if argv[0] == "if" then
      if |argv| == 1 || top.state == IF || |st.below| + 1 >= depth then Misplaced
      else Accepted(Stack(st.below + [top], Level(IF, false, !Enabled(top))), argv[1..])
    else if argv[0] == "then" then
      if |argv| > 1 || top.state != IF then Misplaced
      else Accepted(st.(top := top.(state := THEN)), [])
    else if argv[0] == "else" then
      if |argv| > 1 || top.state != THEN then Misplaced
      else Accepted(st.(top := top.(state := ELSE)), [])
    else if argv[0] == "fi" then
      if |argv| > 1 || (top.state != THEN && top.state != ELSE) || st.below == [] then Misplaced
      else Accepted(Stack(st.below[..|st.below| - 1], st.below[|st.below| - 1]), [])
    else if top.state == IF then Misplaced
    else Accepted(st, argv)
  }

  /** nsh_saveresult. */
  function SaveResult(m: Machine, failed: bool): Machine {
    if m.st.top.state == IF then m.(fail := false, st := m.st.(top := m.st.top.(ifcond := failed)))
    else m.(fail := failed)
  }

  /** nsh_parse, on one line. */
  function Step(m: Machine, line: Line, depth: nat, world: World): Machine {
    Obey(m, IfThenElse(m.st, ExpandAll(line, m.fail, m.trace, world), depth), world)
  }

  /** What nsh_parse does once nsh_ifthenelse has looked at the line. */
  function Obey(m: Machine, v: Verdict, world: World): Machine {
    match v
    case Misplaced => SaveResult(m.(st := Stack([], START)), true)
    case Accepted(st, cmd) =>
      if cmd == [] || !Enabled(st.top) then m.(st := st)
      else SaveResult(m.(st := st, trace := m.trace + [cmd]), world.fails(m.trace, cmd))
  }

  /** The whole script, a line at a time. */
  function Run(m: Machine, lines: seq<Line>, depth: nat, world: World): Machine
    decreases |lines|
  {
    if lines == [] then m else Run(Step(m, lines[0], depth, world), lines[1..], depth, world)
  }

  // ---------------------------------------------------------------------------------------
  // The recursive interpreter
  // ---------------------------------------------------------------------------------------

  /** A nested program: commands, blank or comment lines, and conditionals, each with what
      follows it. Blank lines may also stand between an if line and its then. */
  datatype Prog =
    | Done
    | Cmd(words: Line, next: Prog)
    | Blank(next: Prog)
    | If(cond: Line, blanks: nat, thn: Prog, hasElse: bool, els: Prog, next: Prog)

  /** What a program does: a command sets the status; a conditional runs its command, clears the
      status, and goes on with the branch that the command's success selects. */
  function Interpret(p: Prog, fail: bool, trace: Trace, world: World): (bool, Trace) {
    match p
    case Done => (fail, trace)
    case Blank(next) => Interpret(next, fail, trace, world)
    case Cmd(words, next) =>
      var argv := ExpandAll(words, fail, trace, world);
      Interpret(next, world.fails(trace, argv), trace + [argv], world)
    case If(cond, _, thn, hasElse, els, next) =>
      var argv := ExpandAll(cond, fail, trace, world);
      var (f, t) := if !world.fails(trace, argv) then Interpret(thn, false, trace + [argv], world)
                    else if hasElse then Interpret(els, false, trace + [argv], world)
                    else (false, trace + [argv]);
      Interpret(next, f, t, world)
  }

  /** How deep the conditionals nest. */
  function Depth(p: Prog): nat {
    match p
    case Done => 0
    case Blank(next) => Depth(next)
    case Cmd(_, next) => Depth(next)
    case If(_, _, thn, hasElse, els, next) =>
      Max(1 + Max(Depth(thn), if hasElse then Depth(els) else 0), Depth(next))
  }

  function Max(a: nat, b: nat): nat {
    if a < b then b else a
  }

  predicate IsKeyword(s: string) {
    s == "if" || s == "then" || s == "else" || s == "fi"
  }

  /** The first word of a command cannot be taken for a keyword. */
  predicate IsCommand(words: Line) {
    words != [] && if words[0].Lit? then !IsKeyword(words[0].text) else words[0].name == "?"
  }

  predicate WellFormed(p: Prog) {
    match p
    case Done => true
    case Blank(next) => WellFormed(next)
    case Cmd(words, next) => IsCommand(words) && WellFormed(next)
    case If(cond, _, thn, hasElse, els, next) =>
      cond != [] && WellFormed(thn) && (hasElse ==> WellFormed(els)) && WellFormed(next)
  }

  function Keyword(s: string): Line {
    [Lit(s)]
  }

  function Blanks(n: nat): seq<Line> {
    if n == 0 then [] else [[]] + Blanks(n - 1)
  }

  function Flatten(p: Prog): seq<Line> {
    match p
    case Done => []
    case Blank(next) => [[]] + Flatten(next)
    case Cmd(words, next) => [words] + Flatten(next)
    case If(cond, blanks, thn, hasElse, els, next) =>
      [Keyword("if") + cond] + (Blanks(blanks) + ([Keyword("then")] + (Flatten(thn) +
        (ElseLines(hasElse, if hasElse then Flatten(els) else []) + ([Keyword("fi")] + Flatten(next))))))
  }

  function ElseLines(hasElse: bool, lines: seq<Line>): seq<Line> {
    if hasElse then [Keyword("else")] + lines else []
  }

  // ---------------------------------------------------------------------------------------
  // The machine refines the interpreter
  // ---------------------------------------------------------------------------------------

  lemma {:induction false} RunConcat(m: Machine, a: seq<Line>, b: seq<Line>, depth: nat, world: World)
    ensures Run(m, a + b, depth, world) == Run(Run(m, a, depth, world), b, depth, world)
    decreases |a|
  {
    hide Step;
    if a == [] {
      assert a + b == b;
    } else {
      RunConcat(Step(m, a[0], depth, world), a[1..], b, depth, world);
      assert (a + b)[0] == a[0] && (a + b)[1..] == a[1..] + b;
    }
  }

  lemma RunNone(m: Machine, depth: nat, world: World)
    ensures Run(m, [], depth, world) == m
  {
  }

  lemma RunOne(m: Machine, line: Line, rest: seq<Line>, depth: nat, world: World)
    ensures Run(m, [line] + rest, depth, world) == Run(Step(m, line, depth, world), rest, depth, world)
  {
  }

  lemma BlankStep(m: Machine, depth: nat, world: World)
    ensures Step(m, [], depth, world) == m
  {
  }

  lemma {:induction false} RunBlanks(m: Machine, n: nat, depth: nat, world: World)
    ensures Run(m, Blanks(n), depth, world) == m
  {
    hide Step;
    if n > 0 {
      BlankStep(m, depth, world);
      RunOne(m, [], Blanks(n - 1), depth, world);
      RunBlanks(m, n - 1, depth, world);
    }
  }

  lemma CmdStep(m: Machine, words: Line, depth: nat, world: World)
    requires m.st.top.state != IF && IsCommand(words)
    ensures var argv := ExpandAll(words, m.fail, m.trace, world);
            Step(m, words, depth, world) ==
            if Enabled(m.st.top) then m.(fail := world.fails(m.trace, argv), trace := m.trace + [argv]) else m
  {
  }

  lemma IfStep(m: Machine, cond: Line, depth: nat, world: World)
    requires m.st.top.state != IF && cond != [] && |m.st.below| + 1 < depth
    ensures var argv := ExpandAll(cond, m.fail, m.trace, world);
            var below := m.st.below + [m.st.top];
            Step(m, Keyword("if") + cond, depth, world) ==
            if Enabled(m.st.top)
            then Machine(Stack(below, Level(IF, world.fails(m.trace, argv), false)), false, m.trace + [argv])
            else m.(st := Stack(below, Level(IF, false, true)))
  {
    var all := ExpandAll(Keyword("if") + cond, m.fail, m.trace, world);
    assert all[0] == "if" && all[1..] == ExpandAll(cond, m.fail, m.trace, world);
  }

  /** A line with nothing but a keyword, in its place. */
  lemma KeywordStep(m: Machine, keyword: string, depth: nat, world: World)
    ensures var st := m.st;
            && (keyword == "then" && st.top.state == IF ==>
                  Step(m, Keyword(keyword), depth, world) == m.(st := st.(top := st.top.(state := THEN))))
            && (keyword == "else" && st.top.state == THEN ==>
                  Step(m, Keyword(keyword), depth, world) == m.(st := st.(top := st.top.(state := ELSE))))
            && (keyword == "fi" && (st.top.state == THEN || st.top.state == ELSE) && st.below != [] ==>
                  Step(m, Keyword(keyword), depth, world) ==
                  m.(st := Stack(st.below[..|st.below| - 1], st.below[|st.below| - 1])))
  {
  }

  /** The lines of a conditional, run in order. */
  lemma RunOfIf(m: Machine, p: Prog, depth: nat, world: World)
    requires p.If?
    ensures var m1 := Step(m, Keyword("if") + p.cond, depth, world);
            var m2 := Step(m1, Keyword("then"), depth, world);
            var m3 := Run(m2, Flatten(p.thn), depth, world);
            var m4 := if p.hasElse then Run(Step(m3, Keyword("else"), depth, world), Flatten(p.els), depth, world) else m3;
            Run(m, Flatten(p), depth, world) == Run(Step(m4, Keyword("fi"), depth, world), Flatten(p.next), depth, world)
  {
    hide Step, Run, Blanks;
    var fi := [Keyword("fi")] + Flatten(p.next);
    var el := ElseLines(p.hasElse, if p.hasElse then Flatten(p.els) else []);
    var m1 := Step(m, Keyword("if") + p.cond, depth, world);
    var m2 := Step(m1, Keyword("then"), depth, world);
    var m3 := Run(m2, Flatten(p.thn), depth, world);
    var thn := [Keyword("then")] + (Flatten(p.thn) + (el + fi));
    RunOne(m, Keyword("if") + p.cond, Blanks(p.blanks) + thn, depth, world);
    RunConcat(m1, Blanks(p.blanks), thn, depth, world);
    RunBlanks(m1, p.blanks, depth, world);
    RunOne(m1, Keyword("then"), Flatten(p.thn) + (el + fi), depth, world);
    RunConcat(m2, Flatten(p.thn), el + fi, depth, world);
    if p.hasElse {
      var m' := Step(m3, Keyword("else"), depth, world);
      assert el + fi == [Keyword("else")] + (Flatten(p.els) + fi);
      RunOne(m3, Keyword("else"), Flatten(p.els) + fi, depth, world);
      RunConcat(m', Flatten(p.els), fi, depth, world);
      RunOne(Run(m', Flatten(p.els), depth, world), Keyword("fi"), Flatten(p.next), depth, world);
    } else {
      assert el + fi == fi;
      RunOne(m3, Keyword("fi"), Flatten(p.next), depth, world);
    }
  }

  /** Where a program leaves the machine. */
  function Outcome(m: Machine, p: Prog, world: World): Machine {
    if Enabled(m.st.top) then
      var (f, t) := Interpret(p, m.fail, m.trace, world);
      m.(fail := f, trace := t)
    else m
  }

  /** The machine once it is inside the then branch, inside the else branch, and past the fi of
      a conditional. */
  function AtThen(m: Machine, p: Prog, world: World): Machine
    requires p.If?
  {
    var argv := ExpandAll(p.cond, m.fail, m.trace, world);
    var below := m.st.below + [m.st.top];
    if Enabled(m.st.top)
    then Machine(Stack(below, Level(THEN, world.fails(m.trace, argv), false)), false, m.trace + [argv])
    else m.(st := Stack(below, Level(THEN, false, true)))
  }

  function AtElse(m: Machine, p: Prog, world: World): Machine
    requires p.If?
  {
    var m3 := Outcome(AtThen(m, p, world), p.thn, world);
    m3.(st := m3.st.(top := m3.st.top.(state := ELSE)))
  }

  function AfterFi(m: Machine, p: Prog, world: World): Machine
    requires p.If?
  {
    var m4 := if p.hasElse then Outcome(AtElse(m, p, world), p.els, world)
              else Outcome(AtThen(m, p, world), p.thn, world);
    m4.(st := m.st)
  }

  lemma IfComposes(m: Machine, p: Prog, depth: nat, world: World)
    requires p.If? && m.st.top.state != IF && p.cond != [] && |m.st.below| + 1 < depth
    ensures Outcome(AfterFi(m, p, world), p.next, world) == Outcome(m, p, world)
    ensures var m1 := Step(m, Keyword("if") + p.cond, depth, world);
            Step(m1, Keyword("then"), depth, world) == AtThen(m, p, world)
    ensures Step(Outcome(AtThen(m, p, world), p.thn, world), Keyword("else"), depth, world) == AtElse(m, p, world)
    ensures var m4 := if p.hasElse then Outcome(AtElse(m, p, world), p.els, world)
                      else Outcome(AtThen(m, p, world), p.thn, world);
            Step(m4, Keyword("fi"), depth, world) == AfterFi(m, p, world)
  {
    hide Step, Expand, ExpandAll;
    IfStep(m, p.cond, depth, world);
    KeywordStep(Step(m, Keyword("if") + p.cond, depth, world), "then", depth, world);
    var m3 := Outcome(AtThen(m, p, world), p.thn, world);
    KeywordStep(m3, "else", depth, world);
    var m4 := if p.hasElse then Outcome(AtElse(m, p, world), p.els, world) else m3;
    KeywordStep(m4, "fi", depth, world);
    assert m4.st.below == m.st.below + [m.st.top];
    assert m4.st.below[..|m4.st.below| - 1] == m.st.below;
  }

  /** Fed line by line, a program of fitting depth runs the commands that the recursive
      interpreter runs, in the same order and with the same status, and restores the stack;
      in a branch not taken it changes nothing at all. */
  lemma {:induction false} MachineRefinesInterpreter(m: Machine, p: Prog, depth: nat, world: World)
    requires m.st.top.state != IF && WellFormed(p) && |m.st.below| + 1 + Depth(p) <= depth
    ensures Run(m, Flatten(p), depth, world) == Outcome(m, p, world)
    decreases p
  {
    hide Step, Run;
    match p
    case Done =>
      RunNone(m, depth, world);
    case Blank(next) =>
      RunOne(m, [], Flatten(next), depth, world);
      BlankStep(m, depth, world);
      MachineRefinesInterpreter(m, next, depth, world);
    case Cmd(words, next) =>
      RunOne(m, words, Flatten(next), depth, world);
      CmdStep(m, words, depth, world);
      MachineRefinesInterpreter(Step(m, words, depth, world), next, depth, world);
    case If(_, _, _, _, _, _) =>
      IfRefines(m, p, depth, world);
  }

  lemma {:induction false} IfRefines(m: Machine, p: Prog, depth: nat, world: World)
    requires p.If? && m.st.top.state != IF && WellFormed(p) && |m.st.below| + 1 + Depth(p) <= depth
    ensures Run(m, Flatten(p), depth, world) == Outcome(m, p, world)
    decreases p, 0
  {
    hide Step, Run, Flatten, Outcome, Interpret;
    MachineRefinesInterpreter(AtThen(m, p, world), p.thn, depth, world);
    StackKept(AtThen(m, p, world), p.thn, world);
    if p.hasElse {
      MachineRefinesInterpreter(AtElse(m, p, world), p.els, depth, world);
    }
    MachineRefinesInterpreter(AfterFi(m, p, world), p.next, depth, world);
    IfComposes(m, p, depth, world);
    RunOfIf(m, p, depth, world);
  }

  lemma StackKept(m: Machine, p: Prog, world: World)
    ensures Outcome(m, p, world).st == m.st
  {
  }

  // ---------------------------------------------------------------------------------------
  // Reachable stacks
  // ---------------------------------------------------------------------------------------

  function Pop(st: Stack): Stack
    requires st.below != []
  {
    Stack(st.below[..|st.below| - 1], st.below[|st.below| - 1])
  }

  /** Level 0 is never in a conditional, every other level is; only the top can stand between if
      and then; and a level is disabled exactly when commands are not enabled at the one below. */
  ghost predicate WellStacked(st: Stack)
    decreases |st.below|
  {
    if st.below == [] then st.top == START
    else
      var down := Pop(st);
      && down.top.state != IF && st.top.state != NORMAL && st.top.disabled == !Enabled(down.top)
      && WellStacked(down)
  }

  /** nsh_ifthenelse keeps the stack in order and within its bounds. */
  lemma VerdictIsWellStacked(st: Stack, argv: Argv, depth: nat)
    requires WellStacked(st) && |st.below| < depth
    ensures var v := IfThenElse(st, argv, depth); v.Accepted? ==> WellStacked(v.st) && |v.st.below| < depth
  {
  }

  lemma StepIsWellStacked(m: Machine, line: Line, depth: nat, world: World)
    requires WellStacked(m.st) && |m.st.below| < depth
    ensures var m' := Step(m, line, depth, world); WellStacked(m'.st) && |m'.st.below| < depth
  {
    hide IfThenElse, Enabled;
    var argv := ExpandAll(line, m.fail, m.trace, world);
    VerdictIsWellStacked(m.st, argv, depth);
  }

  /** Whatever lines it is fed, the machine only reaches well-stacked states. */
  lemma {:induction false} ReachableIsWellStacked(m: Machine, lines: seq<Line>, depth: nat, world: World)
    requires WellStacked(m.st) && |m.st.below| < depth
    ensures var m' := Run(m, lines, depth, world); WellStacked(m'.st) && |m'.st.below| < depth
    decreases |lines|
  {
    hide Step, WellStacked;
    if lines != [] {
      StepIsWellStacked(m, lines[0], depth, world);
      ReachableIsWellStacked(Step(m, lines[0], depth, world), lines[1..], depth, world);
    }
  }

  /** Commands are enabled exactly when every level is in the branch its condition selects. */
  lemma {:induction false} EnabledWhenAllTaken(st: Stack)
    requires WellStacked(st)
    ensures Enabled(st.top) <==> Taken(st.top) && forall l | l in st.below :: Taken(l)
    decreases |st.below|
  {
    if st.below != [] {
      var down := Pop(st);
      EnabledWhenAllTaken(down);
      assert st.below == down.below + [down.top];
    }
  }

  /** A line runs its command exactly when every enclosing branch is the taken one. */
  lemma RunsWhenAllTaken(m: Machine, line: Line, depth: nat, world: World)
    requires WellStacked(m.st) && |m.st.below| < depth
    ensures var v := IfThenElse(m.st, ExpandAll(line, m.fail, m.trace, world), depth);
            Step(m, line, depth, world).trace ==
            if v.Accepted? && v.cmd != [] && Taken(v.st.top) && (forall l | l in v.st.below :: Taken(l))
            then m.trace + [v.cmd] else m.trace
  {
    hide IfThenElse, WellStacked, Enabled, Taken;
    var argv := ExpandAll(line, m.fail, m.trace, world);
    var v := IfThenElse(m.st, argv, depth);
    VerdictIsWellStacked(m.st, argv, depth);
    if v.Accepted? {
      EnabledWhenAllTaken(v.st);
    }
  }

  /** A misplaced keyword, or a command where only then may stand, takes the machine back to its
      initial stack with the status set to failure, and runs nothing. */
  lemma MisplacedResets(m: Machine, line: Line, depth: nat, world: World)
    requires IfThenElse(m.st, ExpandAll(line, m.fail, m.trace, world), depth).Misplaced?
    ensures Step(m, line, depth, world) == Machine(Stack([], START), true, m.trace)
  {
  }

  // ---------------------------------------------------------------------------------------
  // The parser object
  // ---------------------------------------------------------------------------------------

  /** struct nsh_parser_s: the fields nsh_ifthenelse, nsh_saveresult and nsh_parse update. The
      commands it has run stand for their effects on the world. */
  class NshParser {
    const world: World
    const np_st: array<Level>
    var np_ndx: nat
    var np_fail: bool
    var trace: Trace

    ghost predicate Valid()
      reads this, np_st
    {
      np_ndx < np_st.Length && WellStacked(Stack(np_st[..np_ndx], np_st[np_ndx]))
    }

    ghost function Model(): Machine
      requires np_ndx < np_st.Length
      reads this, np_st
    {
      Machine(Stack(np_st[..np_ndx], np_st[np_ndx]), np_fail, trace)
    }

    constructor (nestdepth: nat, world: World)
      requires nestdepth > 0
      ensures Valid() && fresh(np_st) && np_st.Length == nestdepth && this.world == world
      ensures Model() == Machine(Stack([], START), false, [])
    {
      this.world := world;
      np_st := new Level[nestdepth](_ => START);
      np_ndx, np_fail, trace := 0, false, [];
    }

    /** nsh_cmdenabled. */
    method CmdEnabled() returns (ret: bool)
      requires np_ndx < np_st.Length
      ensures ret == Enabled(np_st[np_ndx])
    {
      ret := !np_st[np_ndx].disabled;
      if ret {
        match np_st[np_ndx].state
        case THEN => ret := !np_st[np_ndx].ifcond;
        case ELSE => ret := np_st[np_ndx].ifcond;
        case _ =>
      }
    }

    /** The error exit of nsh_ifthenelse. */
    method Reset()
      requires np_ndx < np_st.Length
      modifies this`np_ndx, np_st
      ensures np_ndx == 0 && np_st[0] == START
    {
      np_ndx := 0;
      np_st[0] := START;
    }

    /** nsh_ifthenelse: the command left to run, or none; an error resets the stack. */
    method DoIfThenElse(argv: Argv) returns (ok: bool, cmd: Argv)
      requires Valid()
      modifies this`np_ndx, np_st
      ensures np_ndx < np_st.Length
      ensures match IfThenElse(old(Model().st), argv, np_st.Length)
              case Misplaced => !ok && Model().st == Stack([], START)
              case Accepted(st, c) => ok && Model().st == st && cmd == c
    {
      ok, cmd := true, argv;
      if argv != [] {
        var state := np_st[np_ndx].state;
        if argv[0] == "if" {
          if |argv| == 1 || (state != NORMAL && state != THEN && state != ELSE) || np_ndx >= np_st.Length - 1 {
            Reset();
            ok := false;
          } else {
            var enabled := CmdEnabled();
            np_ndx := np_ndx + 1;
            np_st[np_ndx] := Level(IF, false, !enabled);
            cmd := argv[1..];
          }
        } else if argv[0] == "then" {
          cmd := argv[1..];
          if cmd != [] || state != IF {
            Reset();
            ok := false;
          } else {
            np_st[np_ndx] := np_st[np_ndx].(state := THEN);
          }
        } else if argv[0] == "else" {
          cmd := argv[1..];
          if cmd != [] || state != THEN {
            Reset();
            ok := false;
          } else {
            np_st[np_ndx] := np_st[np_ndx].(state := ELSE);
          }
        } else if argv[0] == "fi" {
          cmd := argv[1..];
          if cmd != [] || (state != THEN && state != ELSE) || np_ndx < 1 {
            Reset();
            ok := false;
          } else {
            np_ndx := np_ndx - 1;
          }
        } else if state == IF {
          Reset();
          ok := false;
        }
      }
    }

    /** nsh_saveresult. */
    method DoSaveResult(result: bool)
      requires np_ndx < np_st.Length
      modifies this`np_fail, np_st
      ensures Model() == SaveResult(old(Model()), result)
    {
      if np_st[np_ndx].state == IF {
        np_fail := false;
        np_st[np_ndx] := np_st[np_ndx].(ifcond := result);
      } else {
        np_fail := result;
      }
    }

    /** nsh_parse, for a line already cut into words. */
    method Parse(line: Line)
      requires Valid()
      modifies this`np_ndx, this`np_fail, this`trace, np_st
      ensures Valid() && Model() == Step(old(Model()), line, np_st.Length, world)
    {
      StepIsWellStacked(Model(), line, np_st.Length, world);
      var ok, cmd := DoIfThenElse(ExpandAll(line, np_fail, trace, world));
      if !ok {
        DoSaveResult(true);
        return;
      }
      var enabled := CmdEnabled();
      if cmd == [] || !enabled {
        return;
      }
      var failed := world.fails(trace, cmd);
      trace := trace + [cmd];
      DoSaveResult(failed);
    }

    /** A whole script. */
    method RunScript(lines: seq<Line>)
      requires Valid()
      modifies this`np_ndx, this`np_fail, this`trace, np_st
      ensures Valid() && Model() == Run(old(Model()), lines, np_st.Length, world)
    {
      hide Step, WellStacked;
      var i := 0;
      while i < |lines|
        invariant 0 <= i <= |lines| && Valid()
        invariant Run(Model(), lines[i..], np_st.Length, world) == Run(old(Model()), lines, np_st.Length, world)
      {
        Parse(lines[i]);
        i := i + 1;
      }
    }
  }
}
