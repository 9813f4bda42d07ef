/**
 The tokenizer and the argument half of the NuttShell line parser (apps/nshlib/nsh_parse.c),
 and a printer that it undoes.
 */
module NshTokens {
  import opened Common
  import opened NshScript

  /** g_delim. */
  predicate IsDelim(c: char) {
    c == ' ' || c == '\t' || c == '\n'
  }

  /** NSH_MAX_ARGUMENTS, and the slots of argv[] that the parser may fill. */
  const MAX_ARGUMENTS: nat := 6
  const MAX_ARGV: nat := MAX_ARGUMENTS + 4

  // ---------------------------------------------------------------------------------------
  // Tokens
  // ---------------------------------------------------------------------------------------

  /** The line from its first character that is no delimiter. */
  function SkipDelims(s: string): (r: string)
    ensures |r| <= |s| && r == s[|s| - |r|..]
    ensures r != "" ==> !IsDelim(r[0])
  {
    if s != "" && IsDelim(s[0]) then SkipDelims(s[1..]) else s
  }

  /** A character ends a token: the closing quote, or any delimiter. */
  predicate Ends(c: char, quoted: bool) {
    if quoted then c == '"' else IsDelim(c)
  }

  /** The first place at or after k where the token ends. */
  function TokenEnd(s: string, k: nat, quoted: bool): (e: nat)
    requires k <= |s|
    ensures k <= e <= |s|
    ensures e < |s| ==> Ends(s[e], quoted)
    ensures forall i | k <= i < e :: !Ends(s[i], quoted)
    decreases |s| - k
  {
    if k < |s| && !Ends(s[k], quoted) then TokenEnd(s, k + 1, quoted) else k
  }

  /** A quote as the last character of a line has nothing to open. */
  predicate NoLoneQuote(s: string) {
    SkipDelims(s) != "\""
  }

  /** What follows a token that ends at e: the character that ends it is consumed with it. */
  function Following(s: string, e: nat): string
    requires e <= |s|
  {
    if e < |s| then s[e + 1..] else ""
  }

  /** nsh_argument: the next word of what is left of the line, and what is left after it. */
  function Argument(s: string): (Option<Word>, string)
    requires NoLoneQuote(s)
  {
    var b := SkipDelims(s);
    if b == "" then (None, s)
    else if b[0] == '>' then
      if |b| > 1 && b[1] == '>' then (Some(Lit(">>")), b[2..]) else (Some(Lit(">")), b[1..])
    else if b[0] == '#' then (None, b)
    else FirstToken(b)
  }

  /** A token in quotes, or a bare one, which a dollar sign makes a reference. */
  function FirstToken(b: string): (r: (Option<Word>, string))
    requires b != "" && b != "\""
    ensures r.0.Some? && |r.1| < |b|
  {
    if b[0] == '"' then
      var body := b[1..];
      var e := TokenEnd(body, 1, true);
      (Some(Lit(body[..e])), Following(body, e))
    else
      var e := TokenEnd(b, 1, false);
      (Some(if b[0] == '$' then Dollar(b[1..e]) else Lit(b[..e])), Following(b, e))
  }

  /** A word always uses up part of the line; once there is none, there never is another. */
  lemma ArgumentAdvances(s: string)
    requires NoLoneQuote(s)
    ensures Argument(s).0.Some? ==> |Argument(s).1| < |s|
    ensures Argument(s).0.None? ==>
              NoLoneQuote(Argument(s).1) && Argument(Argument(s).1).0.None? && |Argument(s).1| <= |s|
  {
    hide SkipDelims, TokenEnd;
    SkipStops(SkipDelims(s));
  }

  lemma SkipStops(b: string)
    requires b == "" || !IsDelim(b[0])
    ensures SkipDelims(b) == b
  {
  }

  /** All the words of a line, or none at all if one of them is a lone quote. */
  function Words(s: string): Option<Line>
    decreases |s|
  {
    if !NoLoneQuote(s) then None
    else
      ArgumentAdvances(s);
      var (w, rest) := Argument(s);
      if w.None? then Some([])
      else
        var ws := Words(rest);
        if ws.None? then None else Some([w.value] + ws.value)
  }

  /** The first loop of nsh_argument. */
  method SkipFrom(line: string, save: nat) returns (pbegin: nat)
    requires save <= |line|
    ensures save <= pbegin <= |line| && line[pbegin..] == SkipDelims(line[save..])
  {
    hide SkipDelims;
    pbegin := save;
    while pbegin < |line| && IsDelim(line[pbegin])
      invariant save <= pbegin <= |line|
      invariant SkipDelims(line[save..]) == SkipDelims(line[pbegin..])
    {
      SkipOne(line, pbegin);
      pbegin := pbegin + 1;
    }
    SkipStops(line[pbegin..]);
  }

  lemma SkipOne(line: string, i: nat)
    requires i < |line| && IsDelim(line[i])
    ensures SkipDelims(line[i..]) == SkipDelims(line[i + 1..])
  {
    assert line[i..][1..] == line[i + 1..];
  }

  /** The second loop of nsh_argument: the first character of a token is never looked at. */
  method FindEnd(line: string, pbegin: nat, quoted: bool) returns (pend: nat)
    requires pbegin < |line|
    ensures pbegin < pend <= |line| && pend - pbegin == TokenEnd(line[pbegin..], 1, quoted)
  {
    pend := pbegin + 1;
    while pend < |line| && !Ends(line[pend], quoted)
      invariant pbegin + 1 <= pend <= |line|
      invariant TokenEnd(line[pbegin..], 1, quoted) == TokenEnd(line[pbegin..], pend - pbegin, quoted)
    {
      pend := pend + 1;
    }
  }

  /** nsh_argument, on a line and a position in it. */
  method NshArgument(line: string, save: nat) returns (w: Option<Word>, save': nat)
    requires save <= |line| && NoLoneQuote(line[save..])
    ensures save' <= |line| && Argument(line[save..]) == (w, line[save'..])
  {
    hide SkipDelims, FirstToken;
    var pbegin := SkipFrom(line, save);
    if pbegin == |line| {
      return None, save;
    }
    if line[pbegin] == '>' {
      if pbegin + 1 < |line| && line[pbegin + 1] == '>' {
        return Some(Lit(">>")), pbegin + 2;
      }
      return Some(Lit(">")), pbegin + 1;
    }
    if line[pbegin] == '#' {
      return None, pbegin;
    }
    w, save' := CutFirst(line, pbegin);
  }

  /** The last part of nsh_argument. */
  method CutFirst(line: string, first: nat) returns (w: Option<Word>, save': nat)
    requires first < |line| && line[first..] != "\""
    ensures save' <= |line| && FirstToken(line[first..]) == (w, line[save'..])
  {
    hide TokenEnd;
    var pbegin := first;
    var quoted := line[pbegin] == '"';
    if quoted {
      assert line[first..][1..] == line[first + 1..];
      pbegin := pbegin + 1;
    }
    var token;
    token, save' := CutToken(line, pbegin, quoted);
    w := Some(if token[0] == '$' && !quoted then Dollar(token[1..]) else Lit(token));
  }

  /** Cut the token that starts at pbegin out of the line, with the character that ends it. */
  method CutToken(line: string, pbegin: nat, quoted: bool) returns (token: string, pend: nat)
    requires pbegin < |line|
    ensures pend <= |line|
    ensures var body := line[pbegin..];
            var e := TokenEnd(body, 1, quoted);
            token == body[..e] && token[1..] == body[1..e] && line[pend..] == Following(body, e)
  {
    hide TokenEnd;
    pend := FindEnd(line, pbegin, quoted);
    token := line[pbegin..pend];
    if pend < |line| {
      pend := pend + 1;
    }
  }

  // ---------------------------------------------------------------------------------------
  // Arguments, redirection and background
  // ---------------------------------------------------------------------------------------

  datatype Redirect = NoRedirect | Truncate(file: string) | Append(file: string)

  /** What a command line asks for. */
  datatype Command = Command(args: Argv, redirect: Redirect, background: bool)

  /** The first argc entries of argv[] as nsh_parse reads them: a final & asks for background,
      a > or >> before the then last argument redirects the output to it. */
  function Decode(argv: Argv): Command {
    var bg := |argv| > 1 && argv[|argv| - 1] == "&";
    Redirected(if bg then argv[..|argv| - 1] else argv, bg)
  }

  function Redirected(rest: Argv, bg: bool): Command {
    var n := |rest|;
    if n > 2 && rest[n - 2] == ">" then Command(rest[..n - 2], Truncate(rest[n - 1]), bg)
    else if n > 2 && rest[n - 2] == ">>" then Command(rest[..n - 2], Append(rest[n - 1]), bg)
    else Command(rest, NoRedirect, bg)
  }

  /** The first words of a line, as many as there is room for. */
  function Fitting<T>(ws: seq<T>, room: nat): seq<T> {
    if |ws| > room then ws[..room] else ws
  }

  /** The argument half of nsh_parse: fill argv[] word by word, then read it from its end. */
  method ParseArguments(line: string, fail: bool, trace: Trace, world: World) returns (c: Command)
    requires Words(line).Some?
    ensures c == Decode(ExpandAll(Fitting(Words(line).value, MAX_ARGV), fail, trace, world))
  {
    hide Words, ExpandAll;
    var argv := FillArgv(line, MAX_ARGV, fail, trace, world);
    c := ReadArgv(argv);
  }

  method ReadArgv(argv: Argv) returns (c: Command)
    ensures c == Decode(argv)
  {
    var argc, bg, redirect := |argv|, false, NoRedirect;
    if argc > 1 && argv[argc - 1] == "&" {
      bg := true;
      argc := argc - 1;
    }
    if argc > 2 {
      if argv[argc - 2] == ">" {
        redirect := Truncate(argv[argc - 1]);
        argc := argc - 2;
      } else if argv[argc - 2] == ">>" {
        redirect := Append(argv[argc - 1]);
        argc := argc - 2;
      }
    }
    c := Command(argv[..argc], redirect, bg);
  }

  lemma WordsStep(s: string)
    requires Words(s).Some?
    ensures NoLoneQuote(s)
    ensures var (w, rest) := Argument(s);
            if w.None? then Words(s).value == []
            else Words(rest).Some? && Words(s).value == [w.value] + Words(rest).value
  {
  }

  /** The loop that fills argv[]. */
  method FillArgv(line: string, room: nat, fail: bool, trace: Trace, world: World) returns (argv: Argv)
    requires Words(line).Some?
    ensures argv == ExpandAll(Fitting(Words(line).value, room), fail, trace, world)
  {
    hide Words, Argument, NoLoneQuote, Expand;
    ghost var all := Words(line).value;
    var save: nat := 0;
    assert line[save..] == line;
    argv := [];
    while |argv| < room
      invariant save <= |line| && |argv| <= room && |argv| <= |all|
      invariant Words(line[save..]).Some? && all[|argv|..] == Words(line[save..]).value
      invariant argv == ExpandAll(all[..|argv|], fail, trace, world)
      decreases room - |argv|
    {
      WordsStep(line[save..]);
      var w, save' := NshArgument(line, save);
      if w.None? {
        assert all[..|argv|] == all;
        return;
      }
      assert all[|argv|] == w.value;
      argv, save := argv + [Expand(w.value, fail, trace, world)], save';
    }
  }

  // ---------------------------------------------------------------------------------------
  // Printing
  // ---------------------------------------------------------------------------------------

  /** A word that the tokenizer would not take as it stands. */
  predicate NeedsQuotes(w: string) {
    w != "" && (w[0] in {'>', '#', '"', '$'} || exists i | 0 <= i < |w| :: IsDelim(w[i]))
  }

  /** Words that can be written at all: there is no way to write an empty word, nor a quote
      after the first character of a word that needs quotes. */
  predicate Printable(w: string) {
    w != "" && (NeedsQuotes(w) ==> '"' !in w[1..])
  }

  function Quote(w: string): string {
    if NeedsQuotes(w) then "\"" + w + "\"" else w
  }

  /** The argv[] that a command stands for. */
  function Encode(c: Command): Argv {
    Foreground(c) + if c.background then ["&"] else []
  }

  /** All but the &. */
  function Foreground(c: Command): Argv {
    c.args + match c.redirect case NoRedirect => [] case Truncate(f) => [">", f] case Append(f) => [">>", f]
  }

  function QuoteAll(ws: Argv): seq<string> {
    seq(|ws|, i requires 0 <= i < |ws| => Quote(ws[i]))
  }

  /** The pieces of a printed line: the operators bare, everything else quoted as needed. */
  function Pieces(c: Command): seq<string> {
    QuoteAll(c.args)
    + (match c.redirect
       case NoRedirect => []
       case Truncate(f) => [">", Quote(f)]
       case Append(f) => [">>", Quote(f)])
    + if c.background then ["&"] else []
  }

  function Join(ts: seq<string>): string {
    if ts == [] then "" else if |ts| == 1 then ts[0] else ts[0] + (" " + Join(ts[1..]))
  }

  function Print(c: Command): string {
    Join(Pieces(c))
  }

  /** t is a piece of text that reads as the word w. */
  predicate ReadsAs(t: string, w: Word) {
    match w
    case Lit(s) => (t == s && IsOperator(s)) || (Printable(s) && t == Quote(s))
    case Dollar(name) => t == "$" + name && Undelimited(name)
  }

  predicate Undelimited(s: string) {
    forall i | 0 <= i < |s| :: !IsDelim(s[i])
  }

  lemma ArgumentSkips(s: string)
    requires s != "" && IsDelim(s[0])
    ensures NoLoneQuote(s) <==> NoLoneQuote(s[1..])
    ensures NoLoneQuote(s) ==>
              && Argument(s).0 == Argument(s[1..]).0
              && (Argument(s).0.Some? ==> Argument(s).1 == Argument(s[1..]).1)
  {
    assert SkipDelims(s) == SkipDelims(s[1..]);
    hide SkipDelims, TokenEnd;
  }

  lemma WordsSkip(s: string)
    requires s != "" && IsDelim(s[0])
    ensures Words(s) == Words(s[1..])
  {
    hide Argument, NoLoneQuote;
    ArgumentSkips(s);
  }

  lemma WordsOfNothing()
    ensures Words("") == Some([])
  {
  }

  lemma WordsCons(s: string, w: Word, rest: string)
    requires NoLoneQuote(s) && Argument(s) == (Some(w), rest)
    ensures Words(s) == match Words(rest) case None => None case Some(ws) => Some([w] + ws)
  {
  }

  lemma {:induction false} TokenEndIs(s: string, k: nat, quoted: bool, e: nat)
    requires k <= e <= |s| && (forall i | k <= i < e :: !Ends(s[i], quoted)) && (e < |s| ==> Ends(s[e], quoted))
    ensures TokenEnd(s, k, quoted) == e
    decreases e - k
  {
  }

  lemma QuotedPiece(w: string, rest: string)
    requires w != "" && '"' !in w[1..]
    ensures NoLoneQuote("\"" + w + "\"" + rest)
    ensures Argument("\"" + w + "\"" + rest) == (Some(Lit(w)), rest)
  {
    hide TokenEnd;
    var s := "\"" + w + "\"" + rest;
    SkipStops(s);
    hide SkipDelims;
    var body := s[1..];
    assert body == w + ("\"" + rest);
    assert forall i | 1 <= i < |w| :: w[i] == w[1..][i - 1];
    TokenEndIs(body, 1, true, |w|);
    assert body[..|w|] == w && body[|w| + 1..] == rest;
  }

  lemma BarePiece(w: string, rest: string)
    requires w != "" && Undelimited(w) && w[0] !in {'>', '#', '"'} && (rest == "" || rest[0] == ' ')
    ensures NoLoneQuote(w + rest)
    ensures Argument(w + rest) == (Some(if w[0] == '$' then Dollar(w[1..]) else Lit(w)), if rest == "" then "" else rest[1..])
  {
    hide TokenEnd;
    var s := w + rest;
    assert forall i | 0 <= i < |w| :: s[i] == w[i] && !IsDelim(w[i]);
    SkipStops(s);
    hide SkipDelims;
    TokenEndIs(s, 1, false, |w|);
    assert s[..|w|] == w && s[1..|w|] == w[1..];
    assert rest != "" ==> s[|w| + 1..] == rest[1..];
  }

  lemma OperatorPiece(w: string, rest: string)
    requires IsOperator(w) && (rest == "" || rest[0] == ' ')
    ensures NoLoneQuote(w + rest) && Argument(w + rest) == (Some(Lit(w)), rest)
  {
    hide TokenEnd, SkipDelims;
    var s := w + rest;
    SkipStops(s);
    assert s[0] == '>' && s[|w|..] == rest;
    if w == ">>" {
      assert s[1] == '>';
    } else if rest != "" {
      assert s[1] == ' ';
    }
  }

  /** The tokenizer takes exactly one piece off the front of a printed line. */
  lemma PieceIsOneWord(t: string, w: Word, rest: string)
    requires ReadsAs(t, w) && (rest == "" || rest[0] == ' ')
    ensures NoLoneQuote(t + rest)
    ensures Argument(t + rest).0 == Some(w)
    ensures Argument(t + rest).1 == rest || (rest != "" && Argument(t + rest).1 == rest[1..])
  {
    hide Argument, NoLoneQuote;
    match w
    case Lit(s) =>
      if t == s && IsOperator(s) {
        OperatorPiece(s, rest);
      } else if NeedsQuotes(s) {
        QuotedPiece(s, rest);
      } else {
        BarePiece(s, rest);
      }
    case Dollar(name) =>
      assert t[1..] == name;
      BarePiece(t, rest);
  }

  function Lits(ws: Argv): Line {
    seq(|ws|, i requires 0 <= i < |ws| => Lit(ws[i]))
  }

  /** The words of a printed line are the words that were printed. */
  lemma {:induction false} WordsOfJoin(ts: seq<string>, ws: Line)
    requires |ts| == |ws| && forall i | 0 <= i < |ts| :: ReadsAs(ts[i], ws[i])
    ensures Words(Join(ts)) == Some(ws)
    decreases |ts|
  {
    hide Argument, NoLoneQuote, ReadsAs, Words;
    if ts == [] {
      WordsOfNothing();
    } else {
      var rest := if |ts| == 1 then "" else " " + Join(ts[1..]);
      PieceIsOneWord(ts[0], ws[0], rest);
      WordsOfJoin(ts[1..], ws[1..]);
      if |ts| > 1 {
        WordsSkip(rest);
        assert rest[1..] == Join(ts[1..]);
      } else {
        assert ts[0] + rest == ts[0];
      }
      WordsCons(Join(ts), ws[0], Argument(Join(ts)).1);
      assert [ws[0]] + ws[1..] == ws;
    }
  }

  // ---------------------------------------------------------------------------------------
  // Parsing undoes printing
  // ---------------------------------------------------------------------------------------

  predicate AllPrintable(c: Command) {
    && (forall i | 0 <= i < |c.args| :: Printable(c.args[i]))
    && (c.redirect.NoRedirect? || Printable(c.redirect.file))
  }

  predicate IsOperator(s: string) {
    s == ">" || s == ">>"
  }

  /** No word stands where it would be taken for the & or for a redirection. */
  predicate Unambiguous(c: Command) {
    var n := |c.args|;
    && (n == 0 ==> c.redirect.NoRedirect? && !c.background)
    && (!c.background ==> if c.redirect.NoRedirect? then n > 1 ==> c.args[n - 1] != "&" else c.redirect.file != "&")
    && (c.redirect.NoRedirect? && n > 2 ==> !IsOperator(c.args[n - 2]))
  }

  lemma RedirectionReads(c: Command)
    ensures var n := |c.args|;
            Redirected(Foreground(c), c.background) == c <==>
              if c.redirect.NoRedirect? then n > 2 ==> !IsOperator(c.args[n - 2]) else n > 0
  {
    var core, n := Foreground(c), |c.args|;
    if c.redirect.NoRedirect? {
      assert core == c.args;
    } else {
      assert core[..n] == c.args;
    }
  }

  lemma BackgroundReads(core: Argv)
    ensures core != [] ==> Decode(core + ["&"]) == Redirected(core, true)
    ensures core == [] ==> !Decode(core + ["&"]).background
    ensures if |core| > 1 && core[|core| - 1] == "&" then Decode(core).background else Decode(core) == Redirected(core, false)
  {
    assert (core + ["&"])[..|core|] == core;
  }

  /** Reading argv[] from its end gives the command back exactly when it is unambiguous. */
  lemma DecodeUndoesEncode(c: Command)
    ensures Decode(Encode(c)) == c <==> Unambiguous(c)
  {
    hide Decode, Redirected;
    RedirectionReads(c);
    BackgroundReads(Foreground(c));
    assert Foreground(c) + [] == Foreground(c);
  }

  lemma PrintedWords(c: Command)
    requires AllPrintable(c)
    ensures Words(Print(c)) == Some(Lits(Encode(c)))
  {
    WordsOfJoin(Pieces(c), Lits(Encode(c)));
  }

  /** Parsing a printed command recovers its words, redirection and background flag, exactly
      when no word can be mistaken for an operator. */
  lemma ParseUndoesPrint(c: Command, fail: bool, trace: Trace, world: World)
    requires AllPrintable(c) && |Encode(c)| <= MAX_ARGV
    ensures Words(Print(c)).Some?
    ensures Decode(ExpandAll(Fitting(Words(Print(c)).value, MAX_ARGV), fail, trace, world)) == c <==> Unambiguous(c)
  {
    hide Words, Decode, Encode, Unambiguous, ExpandAll, Lits, AllPrintable;
    PrintedWords(c);
    LitsExpand(Encode(c), fail, trace, world);
    DecodeUndoesEncode(c);
  }

  lemma LitsExpand(ws: Argv, fail: bool, trace: Trace, world: World)
    ensures |Lits(ws)| == |ws| && ExpandAll(Lits(ws), fail, trace, world) == ws
  {
  }
}
