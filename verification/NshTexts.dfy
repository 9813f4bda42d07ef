/**
 Scripts as text: nsh_parse on the characters of a line (apps/nshlib/nsh_parse.c). Which lines
 can be written down at all, and what a nested program does once it is written down.
 */
module NshTexts {
  import opened Common
  import opened NshScript
  import opened NshTokens

  // ---------------------------------------------------------------------------------------
  // Lines that can be written
  // ---------------------------------------------------------------------------------------

  /** There is a text that reads as this word. */
  predicate Legible(w: Word) {
    match w
    case Lit(s) => Printable(s)
    case Dollar(name) => Undelimited(name)
  }

  predicate AllLegible(line: Line) {
    forall i | 0 <= i < |line| :: Legible(line[i])
  }

  function Show(w: Word): string {
    match w
    case Lit(s) => Quote(s)
    case Dollar(name) => "$" + name
  }

  /** The text of a line. */
  function ShowLine(line: Line): string {
    Join(seq(|line|, i requires 0 <= i < |line| => Show(line[i])))
  }

  /** A legible line reads back as it was. */
  lemma WordsOfShow(line: Line)
    requires AllLegible(line)
    ensures Words(ShowLine(line)) == Some(line)
  {
    hide Words, Printable, Undelimited, Quote;
    var ts := seq(|line|, i requires 0 <= i < |line| => Show(line[i]));
    assert forall i | 0 <= i < |ts| :: ReadsAs(ts[i], line[i]) by {
      assert forall i | 0 <= i < |line| :: Legible(line[i]);
    }
    WordsOfJoin(ts, line);
  }

  lemma FirstIsLegible(b: string)
    requires b != "" && b != "\"" && !IsDelim(b[0]) && b[0] !in {'>', '#'}
    ensures Legible(FirstToken(b).0.value)
  {
    hide TokenEnd;
    if b[0] == '"' {
      var body := b[1..];
      var e := TokenEnd(body, 1, true);
      assert forall i | 1 <= i < e :: body[i] != '"';
      assert body[..e][1..] == body[1..e];
    } else {
      var e := TokenEnd(b, 1, false);
      assert forall i | 1 <= i < e :: !IsDelim(b[i]);
      assert b[..e] != "";
    }
  }

  lemma ArgumentIsLegible(s: string)
    requires NoLoneQuote(s) && Argument(s).0.Some?
    ensures Legible(Argument(s).0.value)
  {
    hide SkipDelims, FirstToken;
    var b := SkipDelims(s);
    if b[0] != '>' {
      FirstIsLegible(b);
    }
  }

  lemma {:induction false} WordsAreLegible(s: string)
    requires Words(s).Some?
    ensures AllLegible(Words(s).value)
    decreases |s|
  {
    hide Argument, NoLoneQuote, Legible, Words;
    WordsStep(s);
    if Argument(s).0.Some? {
      ArgumentIsLegible(s);
      ArgumentAdvances(s);
      WordsAreLegible(Argument(s).1);
    }
  }

  /** Some text reads as a line if and only if all of its words are legible. */
  lemma WritableIfLegible(line: Line)
    ensures (exists text :: Words(text) == Some(line)) <==> AllLegible(line)
  {
    hide Words, AllLegible;
    if AllLegible(line) {
      WordsOfShow(line);
    }
    forall text | Words(text) == Some(line) ensures AllLegible(line) {
      WordsAreLegible(text);
    }
  }

  // ---------------------------------------------------------------------------------------
  // nsh_parse on text
  // ---------------------------------------------------------------------------------------

  /** The command words that are left are cut off where argv[] ends. */
  function CutOff(v: Verdict): Verdict {
    match v
    case Misplaced => v
    case Accepted(st, cmd) => Accepted(st, Fitting(cmd, MAX_ARGV))
  }

  /** nsh_parse, on the text of one line. */
  function ParseText(m: Machine, text: string, depth: nat, world: World): Machine
    requires Words(text).Some?
  {
    Obey(m, CutOff(IfThenElse(m.st, ExpandAll(Words(text).value, m.fail, m.trace, world), depth)), world)
  }

  /** The texts are those of the lines. */
  ghost predicate Reads(texts: seq<string>, lines: seq<Line>) {
    |texts| == |lines| && forall i | 0 <= i < |texts| :: Words(texts[i]) == Some(lines[i])
  }

  /** No line holds a quote with nothing after it, which the tokenizer would read past. */
  predicate Readable(texts: seq<string>) {
    forall i | 0 <= i < |texts| :: Words(texts[i]).Some?
  }

  function RunTexts(m: Machine, texts: seq<string>, depth: nat, world: World): Machine
    requires Readable(texts)
    decreases |texts|
  {
    hide Words, ParseText;
    if texts == [] then m else RunTexts(ParseText(m, texts[0], depth, world), texts[1..], depth, world)
  }

  /** The words that a line can use: argv[] holds MAX_ARGV, and an if stands before them. */
  lemma FirstWordsDecide(st: Stack, argv: Argv, depth: nat)
    ensures CutOff(IfThenElse(st, Fitting(argv, MAX_ARGV + 1), depth)) == CutOff(IfThenElse(st, argv, depth))
  {
    var some := Fitting(argv, MAX_ARGV + 1);
    if |argv| > MAX_ARGV + 1 {
      assert some[1..][..MAX_ARGV] == argv[1..][..MAX_ARGV];
      assert some[..MAX_ARGV] == argv[..MAX_ARGV];
    }
  }

  lemma FittingExpands(ws: Line, room: nat, fail: bool, trace: Trace, world: World)
    ensures ExpandAll(Fitting(ws, room), fail, trace, world) == Fitting(ExpandAll(ws, fail, trace, world), room)
  {
  }

  lemma ObeyIsWellStacked(m: Machine, v: Verdict, world: World)
    requires v.Accepted? ==> WellStacked(v.st)
    ensures WellStacked(Obey(m, v, world).st)
  {
  }

  lemma TextIsWellStacked(m: Machine, text: string, depth: nat, world: World)
    requires Words(text).Some? && WellStacked(m.st) && |m.st.below| < depth
    ensures WellStacked(ParseText(m, text, depth, world).st)
  {
    hide Words, IfThenElse, WellStacked, Obey;
    var argv := ExpandAll(Words(text).value, m.fail, m.trace, world);
    VerdictIsWellStacked(m.st, argv, depth);
    ObeyIsWellStacked(m, CutOff(IfThenElse(m.st, argv, depth)), world);
  }

  /** nsh_parse, with the words of the line cut first. */
  method ParseLine(np: NshParser, text: string)
    requires np.Valid() && Words(text).Some?
    modifies np`np_ndx, np`np_fail, np`trace, np.np_st
    ensures np.Valid() && np.Model() == ParseText(old(np.Model()), text, np.np_st.Length, np.world)
  {
    hide Words, IfThenElse, ExpandAll, WellStacked;
    ghost var m, all := np.Model(), Words(text).value;
    var argv := FillArgv(text, MAX_ARGV + 1, np.np_fail, np.trace, np.world);
    FittingExpands(all, MAX_ARGV + 1, m.fail, m.trace, np.world);
    FirstWordsDecide(m.st, ExpandAll(all, m.fail, m.trace, np.world), np.np_st.Length);
    TextIsWellStacked(m, text, np.np_st.Length, np.world);
    var ok, cmd := np.DoIfThenElse(argv);
    if !ok {
      np.DoSaveResult(true);
      return;
    }
    var enabled := np.CmdEnabled();
    if cmd == [] || !enabled {
      return;
    }
    cmd := Fitting(cmd, MAX_ARGV);
    var failed := np.world.fails(np.trace, cmd);
    np.trace := np.trace + [cmd];
    np.DoSaveResult(failed);
  }

  /** A whole script. */
  method RunLines(np: NshParser, texts: seq<string>)
    requires np.Valid() && Readable(texts)
    modifies np`np_ndx, np`np_fail, np`trace, np.np_st
    ensures np.Valid() && np.Model() == RunTexts(old(np.Model()), texts, np.np_st.Length, np.world)
  {
    hide Words, ParseText, WellStacked;
    var i := 0;
    while i < |texts|
      invariant 0 <= i <= |texts| && np.Valid()
      invariant RunTexts(np.Model(), texts[i..], np.np_st.Length, np.world) == RunTexts(old(np.Model()), texts, np.np_st.Length, np.world)
    {
      ParseLine(np, texts[i]);
      i := i + 1;
    }
  }

  // ---------------------------------------------------------------------------------------
  // Programs as text
  // ---------------------------------------------------------------------------------------

  /** The program with each command cut off where argv[] ends. */
  function Clip(p: Prog): Prog {
    match p
    case Done => Done
    case Blank(next) => Blank(Clip(next))
    case Cmd(words, next) => Cmd(Fitting(words, MAX_ARGV), Clip(next))
    case If(cond, blanks, thn, hasElse, els, next) =>
      If(Fitting(cond, MAX_ARGV), blanks, Clip(thn), hasElse, if hasElse then Clip(els) else els, Clip(next))
  }

  function ClipLine(line: Line): Line {
    if line != [] && line[0] == Lit("if") then Keyword("if") + Fitting(line[1..], MAX_ARGV) else Fitting(line, MAX_ARGV)
  }

  function ClipLines(lines: seq<Line>): seq<Line> {
    seq(|lines|, i requires 0 <= i < |lines| => ClipLine(lines[i]))
  }

  /** The first word is no variable that could turn out to be a keyword. */
  predicate Plain(line: Line) {
    line == [] || line[0].Lit? || line[0].name == "?"
  }

  predicate AllPlain(lines: seq<Line>) {
    forall i | 0 <= i < |lines| :: Plain(lines[i])
  }

  lemma ClipMore(a: seq<Line>, b: seq<Line>)
    requires AllPlain(a) && AllPlain(b)
    ensures ClipLines(a + b) == ClipLines(a) + ClipLines(b) && AllPlain(a + b)
  {
    hide ClipLine;
  }

  lemma {:induction false} ClipBlanks(n: nat)
    ensures ClipLines(Blanks(n)) == Blanks(n) && AllPlain(Blanks(n))
  {
    if n > 0 {
      ClipBlanks(n - 1);
      ClipMore([[]], Blanks(n - 1));
      assert ClipLines([[]]) == [[]];
    }
  }

  lemma ClipNone()
    ensures ClipLines([]) == [] && AllPlain([])
  {
  }

  lemma ClipKeyword(s: string)
    ensures ClipLines([Keyword(s)]) == [Keyword(s)] && AllPlain([Keyword(s)])
  {
    assert ClipLine(Keyword(s)) == Keyword(s);
  }

  lemma ClipOne(line: Line)
    requires Plain(line)
    ensures ClipLines([line]) == [ClipLine(line)] && AllPlain([line])
  {
  }

  /** Cutting the lines of a program off is flattening the program cut off. */
  lemma {:induction false} ClipFlattens(p: Prog)
    requires WellFormed(p)
    ensures WellFormed(Clip(p)) && Depth(Clip(p)) == Depth(p)
    ensures ClipLines(Flatten(p)) == Flatten(Clip(p)) && AllPlain(Flatten(p))
    decreases p
  {
    match p
    case Done =>
    case Blank(next) =>
      ClipFlattens(next);
      ClipOne([]);
      ClipMore([[]], Flatten(next));
    case Cmd(words, next) =>
      ClipFlattens(next);
      ClipOne(words);
      ClipMore([words], Flatten(next));
    case If(cond, blanks, thn, hasElse, els, next) =>
      ClipFlattens(thn);
      ClipFlattens(next);
      if hasElse {
        ClipFlattens(els);
      }
      ClipIf(p);
  }

  lemma ClipIf(p: Prog)
    requires p.If? && AllPlain(Flatten(p.thn)) && AllPlain(Flatten(p.next)) && (p.hasElse ==> AllPlain(Flatten(p.els)))
    requires ClipLines(Flatten(p.thn)) == Flatten(Clip(p.thn)) && ClipLines(Flatten(p.next)) == Flatten(Clip(p.next))
    requires p.hasElse ==> ClipLines(Flatten(p.els)) == Flatten(Clip(p.els))
    ensures ClipLines(Flatten(p)) == Flatten(Clip(p)) && AllPlain(Flatten(p))
  {
    hide ClipLines, AllPlain, Blanks;
    var fi := [Keyword("fi")] + Flatten(p.next);
    var body := if p.hasElse then Flatten(p.els) else [];
    var el := ElseLines(p.hasElse, body);
    var afterThen := Flatten(p.thn) + (el + fi);
    var thn := [Keyword("then")] + afterThen;
    ClipKeyword("fi");
    ClipKeyword("then");
    ClipKeyword("else");
    ClipMore([Keyword("fi")], Flatten(p.next));
    if p.hasElse {
      ClipMore([Keyword("else")], body);
    } else {
      ClipNone();
    }
    ClipMore(el, fi);
    ClipMore(Flatten(p.thn), el + fi);
    ClipMore([Keyword("then")], afterThen);
    ClipBlanks(p.blanks);
    ClipMore(Blanks(p.blanks), thn);
    ClipOne(Keyword("if") + p.cond);
    ClipMore([Keyword("if") + p.cond], Blanks(p.blanks) + thn);
    assert (Keyword("if") + p.cond)[1..] == p.cond;
  }

  /** On a line whose first word cannot turn into a keyword, nsh_parse is the line machine on
      what is left of the line. */
  lemma TextIsStep(m: Machine, text: string, line: Line, depth: nat, world: World)
    requires Words(text) == Some(line) && Plain(line)
    ensures ParseText(m, text, depth, world) == Step(m, ClipLine(line), depth, world)
  {
    hide Words, Obey;
    var argv := ExpandAll(line, m.fail, m.trace, world);
    var clipped := ExpandAll(ClipLine(line), m.fail, m.trace, world);
    FittingExpands(line, MAX_ARGV, m.fail, m.trace, world);
    if line != [] && line[0] == Lit("if") {
      FittingExpands(line[1..], MAX_ARGV, m.fail, m.trace, world);
      assert argv[1..] == ExpandAll(line[1..], m.fail, m.trace, world);
      assert clipped[1..] == ExpandAll(Fitting(line[1..], MAX_ARGV), m.fail, m.trace, world);
    }
  }

  lemma {:induction false} TextsRun(m: Machine, texts: seq<string>, lines: seq<Line>, depth: nat, world: World)
    requires Reads(texts, lines) && AllPlain(lines)
    ensures Readable(texts) && RunTexts(m, texts, depth, world) == Run(m, ClipLines(lines), depth, world)
    decreases |texts|
  {
    hide Words, ParseText, Step, Plain, ClipLine;
    if texts != [] {
      TextIsStep(m, texts[0], lines[0], depth, world);
      TextsRun(Step(m, ClipLine(lines[0]), depth, world), texts[1..], lines[1..], depth, world);
      assert ClipLines(lines)[1..] == ClipLines(lines[1..]);
    }
  }

  /** Texts that read as the lines of a nested program run as the interpreter says of the program
      with its commands cut off where argv[] ends. */
  lemma TextsRunProgram(m: Machine, texts: seq<string>, p: Prog, depth: nat, world: World)
    requires Reads(texts, Flatten(p)) && WellFormed(p) && m.st.top.state != IF && |m.st.below| + 1 + Depth(p) <= depth
    ensures Readable(texts) && RunTexts(m, texts, depth, world) == Outcome(m, Clip(p), world)
  {
    hide Reads, AllPlain, Outcome, Run, RunTexts;
    ClipFlattens(p);
    TextsRun(m, texts, Flatten(p), depth, world);
    MachineRefinesInterpreter(m, Clip(p), depth, world);
  }

  function ShowLines(lines: seq<Line>): seq<string> {
    seq(|lines|, i requires 0 <= i < |lines| => ShowLine(lines[i]))
  }

  /** A nested program whose words are legible, written down line by line and read back by the
      shell, does what the interpreter says. */
  lemma WrittenProgramRuns(m: Machine, p: Prog, depth: nat, world: World)
    requires WellFormed(p) && m.st.top.state != IF && |m.st.below| + 1 + Depth(p) <= depth
    requires forall i | 0 <= i < |Flatten(p)| :: AllLegible(Flatten(p)[i])
    ensures Readable(ShowLines(Flatten(p)))
    ensures RunTexts(m, ShowLines(Flatten(p)), depth, world) == Outcome(m, Clip(p), world)
  {
    hide Words, AllLegible, Outcome, RunTexts, Flatten, ShowLine;
    var lines := Flatten(p);
    forall i | 0 <= i < |lines| ensures Words(ShowLines(lines)[i]) == Some(lines[i]) {
      WordsOfShow(lines[i]);
    }
    TextsRunProgram(m, ShowLines(lines), p, depth, world);
  }

  /** No command is longer than argv[]. */
  predicate Short(p: Prog) {
    match p
    case Done => true
    case Blank(next) => Short(next)
    case Cmd(words, next) => |words| <= MAX_ARGV && Short(next)
    case If(cond, _, thn, hasElse, els, next) =>
      |cond| <= MAX_ARGV && Short(thn) && (hasElse ==> Short(els)) && Short(next)
  }

  /** Nothing is cut off exactly when every command fits. */
  lemma {:induction false} ClipKeepsShort(p: Prog)
    ensures Clip(p) == p <==> Short(p)
  {
    match p
    case Done =>
    case Blank(next) => ClipKeepsShort(next);
    case Cmd(_, next) => ClipKeepsShort(next);
    case If(_, _, thn, hasElse, els, next) =>
      ClipKeepsShort(thn);
      ClipKeepsShort(next);
      if hasElse {
        ClipKeepsShort(els);
      }
  }
}
