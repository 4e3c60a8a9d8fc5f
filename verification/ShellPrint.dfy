/** A printer for commands and the round trip: the parser of sh.c reads back what it prints. */
module ShellPrint {
  import opened ShellParse

  /** Print levels, from the tightest: parseexec, parsepipe, the `&` loop, parseline. */
  const EXEC := 0
  const PIPE := 1
  const BACK := 2
  const LINE := 3

  /** The level at which a command needs no parentheses. */
  function Own<T>(c: Cmd<T>): nat {
    match c
    case Exec(_) => EXEC
    case Redir(_, _, _, _) => EXEC
    case Pipe(_, _) => PIPE
    case Back(_) => BACK
    case List(_, _) => LINE
  }

  function PrintArgs(args: seq<string>): string {
    if args == [] then "" else " " + args[0] + PrintArgs(args[1..])
  }

  function PrintRedir(file: string, fd: int): string {
    (if fd == 0 then "<" else ">") + file
  }

  /** The text of a command where the parser expects level `k`: looser commands get parentheses. */
  function Print(c: Cmd<string>, k: nat): string
    requires k <= LINE
    decreases c, (k - Own(c)) % 4
  {
    if k == Own(c) then
      match c
      case Exec(args) => PrintArgs(args)
      case Redir(cmd, file, _, fd) => Print(cmd, EXEC) + PrintRedir(file, fd)
      case Pipe(l, r) => Print(l, EXEC) + "|" + Print(r, PIPE)
      case Back(cmd) => Print(cmd, BACK) + "&"
      case List(l, r) => Print(l, BACK) + ";" + Print(r, LINE)
    else if k == EXEC then "(" + Print(c, LINE) + ")"
    else Print(c, k - 1)
  }

  // ---------------------------------------------------------------- what can be printed

  predicate GoodWord(w: string) {
    w != "" && forall i :: 0 <= i < |w| ==> WordChar(w[i])
  }

  predicate GoodArgs(args: seq<string>) {
    forall i :: 0 <= i < |args| ==> GoodWord(args[i])
  }

  /** Words without separators, at most nine arguments, and the modes that the parser produces. */
  predicate WellFormed(c: Cmd<string>) {
    match c
    case Exec(args) => |args| < MAXARGS && GoodArgs(args)
    case Redir(cmd, file, mode, fd) =>
      WellFormed(cmd) && GoodWord(file) && CanonicalMode(mode, fd)
    case Pipe(l, r) => WellFormed(l) && WellFormed(r)
    case List(l, r) => WellFormed(l) && WellFormed(r)
    case Back(cmd) => WellFormed(cmd)
  }

  // ---------------------------------------------------------------- what a parsed command says

  function Slice(line: string, s: Span): string {
    if s.q <= s.eq <= |line| then line[s.q..s.eq] else ""
  }

  function Slices(line: string, args: seq<Span>): (r: seq<string>)
    ensures |r| == |args|
  {
    if args == [] then [] else Slices(line, args[..|args| - 1]) + [Slice(line, args[|args| - 1])]
  }

  function Text(line: string, c: Cmd<Span>): Cmd<string> {
    match c
    case Exec(args) => Exec(Slices(line, args))
    case Redir(cmd, file, mode, fd) => Redir(Text(line, cmd), Slice(line, file), mode, fd)
    case Pipe(l, r) => Pipe(Text(line, l), Text(line, r))
    case List(l, r) => List(Text(line, l), Text(line, r))
    case Back(cmd) => Back(Text(line, cmd))
  }

  function RedirTexts(line: string, rs: seq<Redirect<Span>>): (r: seq<Redirect<string>>)
    ensures |r| == |rs|
  {
    if rs == [] then [] else
    var x := rs[|rs| - 1];
    RedirTexts(line, rs[..|rs| - 1]) + [Redirect(Slice(line, x.file), x.mode, x.fd)]
  }

  lemma {:induction false} WrapText(line: string, c: Cmd<Span>, rs: seq<Redirect<Span>>)
    ensures Text(line, Wrap(c, rs)) == Wrap(Text(line, c), RedirTexts(line, rs))
  {
    if rs != [] {
      WrapText(line, c, rs[..|rs| - 1]);
      var texts := RedirTexts(line, rs);
      assert texts[..|texts| - 1] == RedirTexts(line, rs[..|rs| - 1]);
    }
  }

  // ---------------------------------------------------------------- places in the line

  predicate CharAt(line: string, p: nat, s: string, i: nat) {
    i < |s| && p + i < |line| && line[p + i] == s[i]
  }

  /** The text `s` stands in the line at `p`. */
  ghost predicate At(line: string, p: nat, s: string) {
    p + |s| <= |line| && forall i: nat :: i < |s| ==> CharAt(line, p, s, i)
  }

  lemma AtSplit(line: string, p: nat, a: string, b: string)
    requires At(line, p, a + b)
    ensures At(line, p, a) && At(line, p + |a|, b)
  {
    forall i: nat | i < |a| ensures CharAt(line, p, a, i) { assert CharAt(line, p, a + b, i); }
    var p' := p + |a|;
    forall i: nat | i < |b| ensures CharAt(line, p', b, i) { assert CharAt(line, p, a + b, |a| + i); }
  }

  lemma AtChar(line: string, p: nat, c: char)
    requires At(line, p, [c])
    ensures p < |line| && line[p] == c
  {
    assert CharAt(line, p, [c], 0);
  }

  /** What may follow a command of level `k`: the end, or a symbol that the parser leaves alone. */
  predicate Follow(line: string, e: nat, k: nat)
    requires e <= |line|
  {
    var s := Skip(line, e);
    || s == |line| || line[s] == ')' || (k <= BACK && line[s] == ';')
    || (k <= PIPE && line[s] == '&') || (k == EXEC && line[s] == '|')
  }

  lemma SymbolToken(line: string, p: nat, c: char)
    requires p < |line| && line[p] == c && (c == '|' || c == '&' || c == ';' || c == '(' || c == ')' || c == '<')
    ensures Skip(line, p) == p && GetToken(line, p) == Token(Symbol(c), Span(p, p + 1), Skip(line, p + 1))
  {
  }

  lemma {:induction false} WordEndIs(line: string, p: nat, w: string, i: nat)
    requires At(line, p, w) && GoodWord(w) && i <= |w| && (p + |w| < |line| ==> !WordChar(line[p + |w|]))
    ensures WordEnd(line, p + i) == p + |w|
    decreases |w| - i
  {
    if i < |w| {
      assert CharAt(line, p, w, i);
      WordEndIs(line, p, w, i + 1);
    }
  }

  lemma WordToken(line: string, p: nat, w: string)
    requires At(line, p, w) && GoodWord(w) && (p + |w| < |line| ==> !WordChar(line[p + |w|]))
    ensures p < |line| && WordChar(line[p]) && Skip(line, p) == p
    ensures GetToken(line, p) == Token(Word, Span(p, p + |w|), Skip(line, p + |w|))
    ensures Slice(line, Span(p, p + |w|)) == w
  {
    assert CharAt(line, p, w, 0);
    WordEndIs(line, p, w, 0);
    forall i: nat | i < |w| ensures line[p..p + |w|][i] == w[i] { assert CharAt(line, p, w, i); }
  }

  lemma {:induction false} SkipSkip(line: string, p: nat)
    requires p <= |line|
    ensures Skip(line, Skip(line, p)) == Skip(line, p)
  {
  }

  // ---------------------------------------------------------------- redirections and arguments

  function PrintRedirs(rs: seq<Redirect<string>>): string {
    if rs == [] then "" else PrintRedir(rs[0].file, rs[0].fd) + PrintRedirs(rs[1..])
  }

  predicate GoodRedirs(rs: seq<Redirect<string>>) {
    forall i :: 0 <= i < |rs| ==> GoodRedir(rs[i])
  }

  predicate GoodRedir(r: Redirect<string>) {
    GoodWord(r.file) && CanonicalMode(r.mode, r.fd)
  }

  /** Nothing at `e` prolongs a word or is a redirection. */
  predicate Stops(line: string, e: nat)
    requires e <= |line|
  {
    (e < |line| ==> !WordChar(line[e])) && !Peek(line, e, "<>")
  }

  lemma RedirStarts(line: string, p: nat, rs: seq<Redirect<string>>)
    requires At(line, p, PrintRedirs(rs)) && GoodRedirs(rs) && Stops(line, p + |PrintRedirs(rs)|)
    ensures p < |line| ==> !WordChar(line[p])
    ensures rs != [] ==> p < |line| && (line[p] == '<' || line[p] == '>')
  {
    if rs != [] {
      AtSplit(line, p, PrintRedir(rs[0].file, rs[0].fd), PrintRedirs(rs[1..]));
      AtSplit(line, p, if rs[0].fd == 0 then "<" else ">", rs[0].file);
      AtChar(line, p, if rs[0].fd == 0 then '<' else '>');
    }
  }

  /** One printed redirection, read from `q`. */
  lemma RedirTokens(line: string, q: nat, p: nat, r: Redirect<string>)
    requires q <= |line| && p <= |line| && Skip(line, q) == Skip(line, p) && GoodRedir(r)
    requires At(line, p, PrintRedir(r.file, r.fd))
    requires var e := p + |PrintRedir(r.file, r.fd)|; e < |line| ==> !WordChar(line[e])
    ensures Peek(line, q, "<>")
    ensures var e := p + |PrintRedir(r.file, r.fd)|; var t := GetToken(line, q); var f := GetToken(line, t.next);
            && f == Token(Word, Span(p + 1, e), Skip(line, e)) && Slice(line, f.at) == r.file
            && t.kind == Symbol(if r.fd == 0 then '<' else '>')
  {
    var c := if r.fd == 0 then '<' else '>';
    AtSplit(line, p, [c], r.file);
    AtChar(line, p, c);
    WordToken(line, p + 1, r.file);
    RedirToken(line, q, p, c);
  }

  lemma RedirToken(line: string, q: nat, p: nat, c: char)
    requires q <= |line| && p + 1 < |line| && Skip(line, q) == Skip(line, p)
    requires line[p] == c && (c == '<' || c == '>') && WordChar(line[p + 1])
    ensures Peek(line, q, "<>") && GetToken(line, q) == Token(Symbol(c), Span(p, p + 1), p + 1)
  {
  }

  lemma RedirTextsMore(line: string, got: seq<Redirect<Span>>, x: Redirect<Span>, rs: seq<Redirect<string>>)
    requires rs != [] && rs[0] == Redirect(Slice(line, x.file), x.mode, x.fd)
    ensures RedirTexts(line, got + [x]) + rs[1..] == RedirTexts(line, got) + rs
  {
    assert (got + [x])[..|got|] == got;
  }

  lemma RedirsUnfold(line: string, q: nat, got: seq<Redirect<Span>>, f: Token, mode: int, fd: int)
    requires q <= |line| && Peek(line, q, "<>") && f == GetToken(line, GetToken(line, q).next) && f.kind == Word
    requires CanonicalMode(mode, fd) && (GetToken(line, q).kind == Symbol('<') <==> fd == 0)
    ensures ParseRedirs(line, q, got) == ParseRedirs(line, f.next, got + [Redirect(f.at, mode, fd)])
  {
  }

  lemma RedirsSplit(line: string, p: nat, rs: seq<Redirect<string>>) returns (e: nat)
    requires p <= |line| && rs != []
    requires At(line, p, PrintRedirs(rs)) && GoodRedirs(rs) && Stops(line, p + |PrintRedirs(rs)|)
    ensures e == p + |PrintRedir(rs[0].file, rs[0].fd)| <= |line| && At(line, p, PrintRedir(rs[0].file, rs[0].fd))
    ensures At(line, e, PrintRedirs(rs[1..])) && e + |PrintRedirs(rs[1..])| == p + |PrintRedirs(rs)|
    ensures e < |line| ==> !WordChar(line[e])
  {
    e := p + |PrintRedir(rs[0].file, rs[0].fd)|;
    AtSplit(line, p, PrintRedir(rs[0].file, rs[0].fd), PrintRedirs(rs[1..]));
    RedirStarts(line, e, rs[1..]);
  }

  /** parseredirs reads the first of some printed redirections. */
  lemma RedirsStep(line: string, q: nat, p: nat, rs: seq<Redirect<string>>, got: seq<Redirect<Span>>)
    returns (e: nat, x: Redirect<Span>)
    requires q <= |line| && p <= |line| && Skip(line, q) == Skip(line, p) && rs != []
    requires At(line, p, PrintRedirs(rs)) && GoodRedirs(rs) && Stops(line, p + |PrintRedirs(rs)|)
    ensures p < e <= |line| && At(line, e, PrintRedirs(rs[1..])) && e + |PrintRedirs(rs[1..])| == p + |PrintRedirs(rs)|
    ensures rs[0] == Redirect(Slice(line, x.file), x.mode, x.fd)
    ensures ParseRedirs(line, q, got) == ParseRedirs(line, Skip(line, e), got + [x])
  {
    e := RedirsSplit(line, p, rs);
    RedirTokens(line, q, p, rs[0]);
    var f := GetToken(line, GetToken(line, q).next);
    RedirsUnfold(line, q, got, f, rs[0].mode, rs[0].fd);
    x := Redirect(f.at, rs[0].mode, rs[0].fd);
  }

  /** parseredirs from `q` on, with `got` before, reads `rs` and stops at `e`. */
  ghost predicate ReadsRedirs(line: string, q: nat, got: seq<Redirect<Span>>, rs: seq<Redirect<string>>, e: nat)
    requires q <= |line|
  {
    var r := ParseRedirs(line, q, got);
    r.Ok? && r.pos == Skip(line, e) && RedirTexts(line, r.value) == RedirTexts(line, got) + rs
  }

  lemma NoRedirs(line: string, q: nat, p: nat, got: seq<Redirect<Span>>)
    requires q <= |line| && p <= |line| && Skip(line, q) == Skip(line, p) && !Peek(line, p, "<>")
    ensures ParseRedirs(line, q, got) == Ok(got, Skip(line, p)) && ReadsRedirs(line, q, got, [], p)
  {
    assert RedirTexts(line, got) + [] == RedirTexts(line, got);
  }

  lemma {:induction false} RedirsParse(line: string, q: nat, p: nat, rs: seq<Redirect<string>>,
                                       got: seq<Redirect<Span>>, e: nat)
    requires q <= |line| && p <= |line| && Skip(line, q) == Skip(line, p)
    requires At(line, p, PrintRedirs(rs)) && e == p + |PrintRedirs(rs)| && GoodRedirs(rs) && Stops(line, e)
    ensures ReadsRedirs(line, q, got, rs, e)
    decreases |rs|
  {
    if rs == [] {
      NoRedirs(line, q, p, got);
    } else {
      var e1, x := RedirsStep(line, q, p, rs, got);
      SkipSkip(line, e1);
      RedirsParse(line, Skip(line, e1), e1, rs[1..], got + [x], e);
      RedirTextsMore(line, got, x, rs);
    }
  }

  lemma FollowStops(line: string, e: nat)
    requires e <= |line| && Follow(line, e, EXEC)
    ensures Stops(line, e) && (Skip(line, e) < |line| <==> Peek(line, e, "|)&;")) && !Peek(line, e, "(")
  {
  }

  /** parseexec's argument loop from `q` on reads `args` and `rs`, and stops at `e`. */
  ghost predicate ReadsArgs(line: string, q: nat, got: seq<Span>, gotRs: seq<Redirect<Span>>, args: seq<string>,
                            rs: seq<Redirect<string>>, e: nat)
    requires q <= |line|
  {
    var r := ParseArgs(line, q, got, gotRs);
    r.Ok? && r.pos == Skip(line, e) &&
    Text(line, r.value) == Wrap(Exec(Slices(line, got) + args), RedirTexts(line, gotRs) + rs)
  }

  lemma ArgsEnd(line: string, q: nat, e: nat, got: seq<Span>, gotRs: seq<Redirect<Span>>)
    requires q <= |line| && e <= |line| && Skip(line, q) == Skip(line, e) && Follow(line, e, EXEC)
    ensures ReadsArgs(line, q, got, gotRs, [], [], e)
  {
    FollowStops(line, e);
    WrapText(line, Exec(got), gotRs);
    assert Slices(line, got) + [] == Slices(line, got);
    assert RedirTexts(line, gotRs) + [] == RedirTexts(line, gotRs);
    SkipSkip(line, q);
  }

  /** The first printed argument is the next token. */
  lemma ArgToken(line: string, q: nat, p: nat, w: string)
    requires q <= |line| && p <= |line| && Skip(line, q) == Skip(line, p) && GoodWord(w)
    requires At(line, p, " " + w) && (p + 1 + |w| < |line| ==> !WordChar(line[p + 1 + |w|]))
    ensures !Peek(line, q, "|)&;") && !Peek(line, q, "(") && !Peek(line, q, "<>")
    ensures GetToken(line, q) == Token(Word, Span(p + 1, p + 1 + |w|), Skip(line, p + 1 + |w|))
    ensures Slice(line, Span(p + 1, p + 1 + |w|)) == w
  {
    AtSplit(line, p, " ", w);
    AtChar(line, p, ' ');
    WordToken(line, p + 1, w);
  }

  lemma SlicesMore(line: string, got: seq<Span>, s: Span, args: seq<string>)
    requires args != [] && args[0] == Slice(line, s)
    ensures Slices(line, got + [s]) + args[1..] == Slices(line, got) + args
  {
    assert (got + [s])[..|got|] == got;
  }

  /** What follows an argument: a blank, a redirection, or whatever follows the command. */
  lemma ArgRest(line: string, p: nat, args: seq<string>, rs: seq<Redirect<string>>, e: nat)
    requires At(line, p, PrintArgs(args) + PrintRedirs(rs)) && e == p + |PrintArgs(args)| + |PrintRedirs(rs)|
    requires GoodArgs(args) && GoodRedirs(rs) && Follow(line, e, EXEC)
    ensures p < |line| ==> !WordChar(line[p])
    ensures args != [] ==> !Peek(line, p, "<>")
    ensures args == [] ==> At(line, p, PrintRedirs(rs)) && Stops(line, e)
  {
    FollowStops(line, e);
    AtSplit(line, p, PrintArgs(args), PrintRedirs(rs));
    if args == [] {
      RedirStarts(line, p, rs);
    } else {
      AtSplit(line, p, " " + args[0], PrintArgs(args[1..]));
      AtSplit(line, p, " ", args[0]);
      AtChar(line, p, ' ');
      assert CharAt(line, p + 1, args[0], 0);
    }
  }

  lemma ArgSplit(line: string, p: nat, args: seq<string>, tail: string)
    requires args != [] && At(line, p, PrintArgs(args) + tail)
    ensures At(line, p, " " + args[0]) && At(line, p + 1 + |args[0]|, PrintArgs(args[1..]) + tail)
    ensures 1 + |args[0]| + |PrintArgs(args[1..])| == |PrintArgs(args)|
  {
    assert PrintArgs(args) + tail == " " + args[0] + (PrintArgs(args[1..]) + tail);
    AtSplit(line, p, " " + args[0], PrintArgs(args[1..]) + tail);
  }

  /** The loop reads the first of some printed arguments. */
  lemma ArgStep(line: string, q: nat, p: nat, args: seq<string>, rs: seq<Redirect<string>>, e: nat)
    returns (s: Span, p1: nat)
    requires q <= |line| && p <= |line| && Skip(line, q) == Skip(line, p) && args != []
    requires At(line, p, PrintArgs(args) + PrintRedirs(rs)) && e == p + |PrintArgs(args)| + |PrintRedirs(rs)|
    requires GoodArgs(args) && GoodRedirs(rs) && Follow(line, e, EXEC)
    ensures p1 <= |line| && s.eq == p1 && Slice(line, s) == args[0]
    ensures !Peek(line, q, "|)&;") && !Peek(line, q, "(") && !Peek(line, q, "<>")
    ensures GetToken(line, q) == Token(Word, s, Skip(line, p1))
    ensures At(line, p1, PrintArgs(args[1..]) + PrintRedirs(rs)) && e == p1 + |PrintArgs(args[1..])| + |PrintRedirs(rs)|
    ensures if args[1..] == [] then At(line, p1, PrintRedirs(rs)) && Stops(line, e) else !Peek(line, p1, "<>")
  {
    p1 := p + 1 + |args[0]|;
    s := Span(p + 1, p1);
    ArgSplit(line, p, args, PrintRedirs(rs));
    ArgRest(line, p1, args[1..], rs, e);
    ArgToken(line, q, p, args[0]);
  }

  lemma {:induction false} ArgsParse(line: string, q: nat, p: nat, args: seq<string>, rs: seq<Redirect<string>>,
                                     got: seq<Span>, gotRs: seq<Redirect<Span>>, e: nat)
    requires q <= |line| && p <= |line| && Skip(line, q) == Skip(line, p) && args != []
    requires At(line, p, PrintArgs(args) + PrintRedirs(rs)) && e == p + |PrintArgs(args)| + |PrintRedirs(rs)|
    requires GoodArgs(args) && GoodRedirs(rs) && Follow(line, e, EXEC) && |got| + |args| < MAXARGS
    ensures ReadsArgs(line, q, got, gotRs, args, rs, e)
    decreases |args|
  {
    var s, p1 := ArgStep(line, q, p, args, rs, e);
    SkipSkip(line, p1);
    SlicesMore(line, got, s, args);
    if args[1..] == [] {
      LastArg(line, q, p1, args, rs, got, gotRs, s, e);
    } else {
      NoRedirs(line, Skip(line, p1), p1, gotRs);
      ArgsParse(line, Skip(line, p1), p1, args[1..], rs, got + [s], gotRs, e);
      ArgsMore(line, q, Skip(line, p1), args, rs, got, gotRs, s, e);
    }
  }

  lemma LastArg(line: string, q: nat, p1: nat, args: seq<string>, rs: seq<Redirect<string>>, got: seq<Span>,
                gotRs: seq<Redirect<Span>>, s: Span, e: nat)
    requires q <= |line| && p1 <= |line| && |args| == 1 && Slice(line, s) == args[0] && |got| + 1 < MAXARGS
    requires !Peek(line, q, "|)&;") && GetToken(line, q) == Token(Word, s, Skip(line, p1))
    requires At(line, p1, PrintRedirs(rs)) && e == p1 + |PrintRedirs(rs)| && GoodRedirs(rs) && Stops(line, e)
    requires Follow(line, e, EXEC)
    ensures ReadsArgs(line, q, got, gotRs, args, rs, e)
  {
    SkipSkip(line, p1);
    RedirsParse(line, Skip(line, p1), p1, rs, gotRs, e);
    var r := ParseRedirs(line, Skip(line, p1), gotRs);
    SkipSkip(line, e);
    ArgsEnd(line, r.pos, e, got + [s], r.value);
    SlicesMore(line, got, s, args);
    ArgsLast(line, q, args, rs, got, gotRs, s, e);
  }

  lemma ArgsMore(line: string, q: nat, q1: nat, args: seq<string>, rs: seq<Redirect<string>>, got: seq<Span>,
                 gotRs: seq<Redirect<Span>>, s: Span, e: nat)
    requires q <= |line| && q1 <= |line| && args != [] && |got| + 1 < MAXARGS
    requires Slices(line, got + [s]) + args[1..] == Slices(line, got) + args
    requires !Peek(line, q, "|)&;") && GetToken(line, q) == Token(Word, s, q1)
    requires ParseRedirs(line, q1, gotRs) == Ok(gotRs, q1)
    requires ReadsArgs(line, q1, got + [s], gotRs, args[1..], rs, e)
    ensures ReadsArgs(line, q, got, gotRs, args, rs, e)
  {
  }

  lemma ArgsLast(line: string, q: nat, args: seq<string>, rs: seq<Redirect<string>>, got: seq<Span>,
                 gotRs: seq<Redirect<Span>>, s: Span, e: nat)
    requires q <= |line| && |args| == 1 && Slices(line, got + [s]) + [] == Slices(line, got) + args
    requires |got| + 1 < MAXARGS
    requires !Peek(line, q, "|)&;") && GetToken(line, q).kind == Word && GetToken(line, q).at == s
    requires ReadsRedirs(line, GetToken(line, q).next, gotRs, rs, e)
    requires var r := ParseRedirs(line, GetToken(line, q).next, gotRs);
             ReadsArgs(line, r.pos, got + [s], r.value, [], [], e)
    ensures ReadsArgs(line, q, got, gotRs, args, rs, e)
  {
    var r := ParseRedirs(line, GetToken(line, q).next, gotRs);
    assert RedirTexts(line, r.value) + [] == RedirTexts(line, r.value);
  }

  // ---------------------------------------------------------------- levels

  /** parseline up to its test for `;`. */
  function ParseBackLevel(line: string, q: nat): (r: Result<Cmd<Span>>)
    requires q <= |line|
    ensures r.Ok? ==> q <= r.pos <= |line|
  {
    var p := ParsePipe(line, q);
    if p.Err? then p else ParseBacks(line, p.pos, p.value)
  }

  function ParseLevel(line: string, q: nat, k: nat): Result<Cmd<Span>>
    requires q <= |line| && k <= LINE
  {
    if k == EXEC then ParseExec(line, q) else if k == PIPE then ParsePipe(line, q)
    else if k == BACK then ParseBackLevel(line, q) else ParseLine(line, q)
  }

  /** Level `k` of the parser from `q` on reads `c` and stops at `e`. */
  ghost predicate Reads(line: string, q: nat, k: nat, c: Cmd<string>, e: nat)
    requires q <= |line| && k <= LINE
  {
    var r := ParseLevel(line, q, k);
    r.Ok? && r.pos == Skip(line, e) && Text(line, r.value) == c
  }

  /** A command without its redirections, and those, innermost first. */
  function Base(c: Cmd<string>): (b: Cmd<string>)
    ensures !b.Redir?
  {
    if c.Redir? then Base(c.cmd) else c
  }

  function Redirs(c: Cmd<string>): seq<Redirect<string>> {
    if c.Redir? then Redirs(c.cmd) + [Redirect(c.file, c.mode, c.fd)] else []
  }

  function Size(c: Cmd<string>): nat {
    match c
    case Exec(_) => 1
    case Redir(cmd, _, _, _) => 1 + Size(cmd)
    case Pipe(l, r) => 1 + Size(l) + Size(r)
    case List(l, r) => 1 + Size(l) + Size(r)
    case Back(cmd) => 1 + Size(cmd)
  }

  lemma {:induction false} PrintRedirsLast(rs: seq<Redirect<string>>, r: Redirect<string>)
    ensures PrintRedirs(rs + [r]) == PrintRedirs(rs) + PrintRedir(r.file, r.fd)
  {
    if rs != [] {
      PrintRedirsLast(rs[1..], r);
      assert (rs + [r])[1..] == rs[1..] + [r];
    }
  }

  lemma {:induction false} BaseRedirs(c: Cmd<string>)
    requires WellFormed(c)
    ensures c == Wrap(Base(c), Redirs(c)) && WellFormed(Base(c)) && GoodRedirs(Redirs(c))
    ensures Size(Base(c)) <= Size(c) && (c.Redir? ==> Size(Base(c)) < Size(c))
    ensures Print(c, EXEC) == Print(Base(c), EXEC) + PrintRedirs(Redirs(c))
    decreases c
  {
    if c.Redir? {
      BaseRedirs(c.cmd);
      var r := Redirect(c.file, c.mode, c.fd);
      PrintRedirsLast(Redirs(c.cmd), r);
      assert (Redirs(c.cmd) + [r])[..|Redirs(c.cmd)|] == Redirs(c.cmd);
    } else {
      assert Print(c, EXEC) + "" == Print(c, EXEC);
    }
  }

  lemma ExecReads(line: string, q: nat, q1: nat, gotRs: seq<Redirect<Span>>, args: seq<string>,
                  rs: seq<Redirect<string>>, e: nat, none: seq<Span>)
    requires none == [] && q <= |line| && q1 <= |line| && !Peek(line, q, "(")
    requires ParseRedirs(line, q, []) == Ok(gotRs, q1)
    requires ReadsArgs(line, q1, none, gotRs, args, rs, e)
    ensures Reads(line, q, EXEC, Wrap(Exec(args), RedirTexts(line, gotRs) + rs), e)
  {
    assert Slices(line, none) + args == args;
  }

  lemma SimpleParses(line: string, q: nat, p: nat, args: seq<string>, rs: seq<Redirect<string>>, e: nat,
                     none: seq<Span>)
    requires q <= |line| && p <= |line| && Skip(line, q) == Skip(line, p) && none == []
    requires At(line, p, PrintArgs(args) + PrintRedirs(rs)) && e == p + |PrintArgs(args)| + |PrintRedirs(rs)|
    requires GoodArgs(args) && GoodRedirs(rs) && Follow(line, e, EXEC) && |args| < MAXARGS
    ensures Reads(line, q, EXEC, Wrap(Exec(args), rs), e)
  {
    if args == [] {
      AtSplit(line, p, PrintArgs(args), PrintRedirs(rs));
      OnlyRedirs(line, q, p, rs, e, none, []);
    } else {
      var s, p1 := ArgStep(line, q, p, args, rs, e);
      NoRedirs(line, q, p, []);
      SkipSkip(line, p);
      ArgsParse(line, Skip(line, p), p, args, rs, none, [], e);
      ExecReads(line, q, Skip(line, p), [], args, rs, e, none);
      assert RedirTexts(line, []) + rs == rs;
    }
  }

  lemma OnlyRedirs(line: string, q: nat, p: nat, rs: seq<Redirect<string>>, e: nat, none: seq<Span>,
                   noRs: seq<Redirect<Span>>)
    requires q <= |line| && p <= |line| && Skip(line, q) == Skip(line, p) && none == [] && noRs == []
    requires At(line, p, PrintRedirs(rs)) && e == p + |PrintRedirs(rs)| && GoodRedirs(rs) && Follow(line, e, EXEC)
    ensures Reads(line, q, EXEC, Wrap(Exec([]), rs), e)
  {
    FollowStops(line, e);
    RedirStarts(line, p, rs);
    RedirsParse(line, q, p, rs, noRs, e);
    var r := ParseRedirs(line, q, noRs);
    SkipSkip(line, e);
    ArgsEnd(line, r.pos, e, none, r.value);
    ExecReads(line, q, r.pos, r.value, [], [], e, none);
    assert RedirTexts(line, noRs) + rs == rs && RedirTexts(line, r.value) + [] == RedirTexts(line, r.value);
  }

  // ---------------------------------------------------------------- commands in parentheses

  lemma GroupUnfold(line: string, q: nat, inner: Result<Cmd<Span>>, rs: Result<seq<Redirect<Span>>>)
    requires q <= |line| && Peek(line, q, "(") && inner.Ok? && inner == ParseLine(line, GetToken(line, q).next)
    requires Peek(line, inner.pos, ")") && rs.Ok? && rs == ParseRedirs(line, GetToken(line, inner.pos).next, [])
    ensures ParseExec(line, q) == Ok(Wrap(inner.value, rs.value), rs.pos)
  {
  }

  lemma GroupTokens(line: string, q: nat, p: nat, e1: nat)
    requires q <= |line| && p < e1 < |line| && Skip(line, q) == Skip(line, p) && line[p] == '(' && line[e1] == ')'
    ensures Peek(line, q, "(") && GetToken(line, q).next == Skip(line, p + 1)
    ensures Skip(line, e1) == e1 && Peek(line, e1, ")") && GetToken(line, e1).next == Skip(line, e1 + 1)
  {
    SymbolToken(line, p, '(');
    SymbolToken(line, e1, ')');
  }

  lemma GroupParses(line: string, q: nat, p: nat, c: Cmd<string>, rs: seq<Redirect<string>>, e1: nat, e: nat,
                    none: seq<Redirect<Span>>)
    requires q <= |line| && p < e1 < |line| && e <= |line| && Skip(line, q) == Skip(line, p) && none == []
    requires line[p] == '(' && line[e1] == ')' && Reads(line, Skip(line, p + 1), LINE, c, e1)
    requires At(line, e1 + 1, PrintRedirs(rs)) && e == e1 + 1 + |PrintRedirs(rs)| && GoodRedirs(rs)
    requires Follow(line, e, EXEC)
    ensures Reads(line, q, EXEC, Wrap(c, rs), e)
  {
    GroupTokens(line, q, p, e1);
    FollowStops(line, e);
    SkipSkip(line, e1 + 1);
    RedirsParse(line, Skip(line, e1 + 1), e1 + 1, rs, none, e);
    var inner := ParseLine(line, Skip(line, p + 1));
    var rr := ParseRedirs(line, Skip(line, e1 + 1), none);
    GroupUnfold(line, q, inner, rr);
    WrapText(line, inner.value, rr.value);
    assert RedirTexts(line, none) + rs == rs;
  }

  // ---------------------------------------------------------------- pipes, background commands, lists

  lemma PipeParses(line: string, q: nat, l: Cmd<string>, r: Cmd<string>, e1: nat, e: nat)
    requires q <= |line| && e1 < |line| && line[e1] == '|'
    requires Reads(line, q, EXEC, l, e1) && Reads(line, Skip(line, e1 + 1), PIPE, r, e)
    ensures Reads(line, q, PIPE, Pipe(l, r), e)
  {
    SymbolToken(line, e1, '|');
  }

  lemma NoPipe(line: string, q: nat, c: Cmd<string>, e: nat)
    requires q <= |line| && e <= |line| && Reads(line, q, EXEC, c, e) && Follow(line, e, PIPE)
    ensures Reads(line, q, PIPE, c, e)
  {
    SkipSkip(line, e);
  }

  function Backs<T>(c: Cmd<T>, n: nat): Cmd<T>
    decreases n
  {
    if n == 0 then c else Backs(Back(c), n - 1)
  }

  function Amps(n: nat): (r: string)
    ensures |r| == n
  {
    if n == 0 then "" else "&" + Amps(n - 1)
  }

  lemma {:induction false} BacksText(line: string, c: Cmd<Span>, n: nat)
    ensures Text(line, Backs(c, n)) == Backs(Text(line, c), n)
    decreases n
  {
    if n > 0 { BacksText(line, Back(c), n - 1); }
  }

  lemma {:induction false} BacksParse(line: string, q: nat, p: nat, n: nat, c: Cmd<Span>)
    requires q <= |line| && p <= |line| && Skip(line, q) == Skip(line, p) && At(line, p, Amps(n))
    requires !Peek(line, p + n, "&")
    ensures ParseBacks(line, q, c) == Ok(Backs(c, n), Skip(line, p + n))
    decreases n
  {
    if n > 0 {
      AtSplit(line, p, "&", Amps(n - 1));
      AtChar(line, p, '&');
      SymbolToken(line, p, '&');
      SkipSkip(line, p + 1);
      BacksParse(line, Skip(line, p + 1), p + 1, n - 1, Back(c));
    }
  }

  /** A command without the `&`s around it, and their number. */
  function Inner(c: Cmd<string>): Cmd<string> {
    if c.Back? then Inner(c.cmd) else c
  }

  function Depth(c: Cmd<string>): nat {
    if c.Back? then Depth(c.cmd) + 1 else 0
  }

  lemma {:induction false} BacksOut<T>(c: Cmd<T>, n: nat)
    ensures Backs(c, n + 1) == Back(Backs(c, n))
    decreases n
  {
    if n > 0 { BacksOut(Back(c), n - 1); }
  }

  lemma {:induction false} AmpsOut(n: nat)
    ensures Amps(n) + "&" == Amps(n + 1)
  {
    if n > 0 {
      AmpsOut(n - 1);
      assert Amps(n) + "&" == "&" + (Amps(n - 1) + "&");
    }
  }

  lemma {:induction false} InnerDepth(c: Cmd<string>)
    requires WellFormed(c)
    ensures c == Backs(Inner(c), Depth(c)) && WellFormed(Inner(c)) && !Inner(c).Back?
    ensures Size(Inner(c)) <= Size(c) && (c.Back? ==> Size(Inner(c)) < Size(c))
    ensures Print(c, BACK) == Print(Inner(c), PIPE) + Amps(Depth(c))
    decreases c
  {
    if c.Back? {
      InnerDepth(c.cmd);
      BacksOut(Inner(c), Depth(c.cmd));
      AmpsOut(Depth(c.cmd));
      assert Print(Inner(c), PIPE) + Amps(Depth(c.cmd)) + "&" == Print(Inner(c), PIPE) + (Amps(Depth(c.cmd)) + "&");
    } else {
      assert Print(c, PIPE) + "" == Print(c, PIPE);
    }
  }

  lemma BackParses(line: string, q: nat, x: Cmd<string>, n: nat, e1: nat)
    requires q <= |line| && e1 + n <= |line| && Reads(line, q, PIPE, x, e1) && At(line, e1, Amps(n))
    requires !Peek(line, e1 + n, "&")
    ensures Reads(line, q, BACK, Backs(x, n), e1 + n)
  {
    var r := ParsePipe(line, q);
    SkipSkip(line, e1);
    BacksParse(line, r.pos, e1, n, r.value);
    BacksText(line, r.value, n);
  }

  lemma ListParses(line: string, q: nat, l: Cmd<string>, r: Cmd<string>, e1: nat, e: nat)
    requires q <= |line| && e1 < |line| && line[e1] == ';'
    requires Reads(line, q, BACK, l, e1) && Reads(line, Skip(line, e1 + 1), LINE, r, e)
    ensures Reads(line, q, LINE, List(l, r), e)
  {
    SymbolToken(line, e1, ';');
  }

  lemma NoList(line: string, q: nat, c: Cmd<string>, e: nat)
    requires q <= |line| && e <= |line| && Reads(line, q, BACK, c, e) && Follow(line, e, LINE)
    ensures Reads(line, q, LINE, c, e)
  {
    SkipSkip(line, e);
  }

  // ---------------------------------------------------------------- the round trip

  lemma AtBinary(line: string, p: nat, a: string, sep: char, b: string)
    requires At(line, p, a + [sep] + b)
    ensures At(line, p, a) && p + |a| < |line| && line[p + |a|] == sep && At(line, p + |a| + 1, b)
  {
    AtSplit(line, p, a + [sep], b);
    AtSplit(line, p, a, [sep]);
    AtChar(line, p + |a|, sep);
  }

  lemma AtGroup(line: string, p: nat, a: string, b: string)
    requires At(line, p, "(" + a + ")" + b)
    ensures p + |a| + 1 < |line| && line[p] == '(' && line[p + |a| + 1] == ')' && At(line, p + 1, a)
    ensures At(line, p + |a| + 2, b)
  {
    AtSplit(line, p, "(" + a + ")", b);
    AtSplit(line, p, "(" + a, ")");
    AtSplit(line, p, "(", a);
    AtChar(line, p, '(');
    AtChar(line, p + |a| + 1, ')');
  }

  lemma FollowLooser(line: string, e: nat, k: nat, k': nat)
    requires e <= |line| && k' <= k <= LINE && Follow(line, e, k)
    ensures Follow(line, e, k') && (k >= BACK ==> !Peek(line, e, "&"))
  {
  }

  lemma FollowSymbol(line: string, e: nat, k: nat)
    requires e < |line| && k <= LINE
    requires || line[e] == ')' || (k <= BACK && line[e] == ';')
             || (k <= PIPE && line[e] == '&') || (k == EXEC && line[e] == '|')
    ensures Follow(line, e, k)
  {
  }

  /** The text of `c` at level `k` stands in the line from `p` to `e`. */
  ghost predicate Stands(line: string, p: nat, c: Cmd<string>, k: nat, e: nat)
    requires k <= LINE
  {
    At(line, p, Print(c, k)) && e == p + |Print(c, k)|
  }

  /** Wherever a printed command stands in a line, followed by something that cannot belong to it,
      the parser reads exactly that command. */
  lemma {:induction false} Parses(line: string, q: nat, p: nat, c: Cmd<string>, k: nat, e: nat)
    requires q <= |line| && p <= |line| && Skip(line, q) == Skip(line, p) && k <= LINE && WellFormed(c)
    requires Stands(line, p, c, k, e) && Follow(line, e, k)
    ensures Reads(line, q, k, c, e)
    decreases Size(c), (k - Own(c)) % 4, 1
  {
    if k == EXEC {
      ParsesExec(line, q, p, c, e);
    } else if k == BACK {
      ParsesBack(line, q, p, c, e);
    } else if k == Own(c) {
      var l, r := c.left, c.right;
      if k == PIPE {
        var e1 := ParsesParts(line, q, p, l, r, Print(l, EXEC), '|', Print(r, PIPE), EXEC, PIPE, e);
        PipeParses(line, q, l, r, e1, e);
      } else {
        var e1 := ParsesParts(line, q, p, l, r, Print(l, BACK), ';', Print(r, LINE), BACK, LINE, e);
        ListParses(line, q, l, r, e1, e);
      }
    } else {
      FollowLooser(line, e, k, k - 1);
      Parses(line, q, p, c, k - 1, e);
      if k == PIPE { NoPipe(line, q, c, e); } else { NoList(line, q, c, e); }
    }
  }

  lemma {:induction false} ParsesExec(line: string, q: nat, p: nat, c: Cmd<string>, e: nat)
    requires q <= |line| && p <= |line| && Skip(line, q) == Skip(line, p) && WellFormed(c)
    requires Stands(line, p, c, EXEC, e) && Follow(line, e, EXEC)
    ensures Reads(line, q, EXEC, c, e)
    decreases Size(c), (EXEC - Own(c)) % 4, 0
  {
    if Base(c).Exec? {
      ParsesSimple(line, q, p, c, e);
    } else {
      var e1 := GroupStands(line, p, c, e);
      Parses(line, Skip(line, p + 1), p + 1, Base(c), LINE, e1);
      GroupParses(line, q, p, Base(c), Redirs(c), e1, e, []);
    }
  }

  /** A command with arguments and redirections only. */
  lemma ParsesSimple(line: string, q: nat, p: nat, c: Cmd<string>, e: nat)
    requires q <= |line| && p <= |line| && Skip(line, q) == Skip(line, p) && WellFormed(c) && Base(c).Exec?
    requires Stands(line, p, c, EXEC, e) && Follow(line, e, EXEC)
    ensures Reads(line, q, EXEC, c, e)
  {
    BaseRedirs(c);
    SimpleParses(line, q, p, Base(c).args, Redirs(c), e, []);
  }

  /** Where the parts of a command in parentheses stand; `e1` is the closing one. */
  lemma GroupStands(line: string, p: nat, c: Cmd<string>, e: nat) returns (e1: nat)
    requires p <= |line| && WellFormed(c) && !Base(c).Exec? && Stands(line, p, c, EXEC, e)
    ensures p < e1 < |line| && line[p] == '(' && line[e1] == ')' && Stands(line, p + 1, Base(c), LINE, e1)
    ensures At(line, e1 + 1, PrintRedirs(Redirs(c))) && e == e1 + 1 + |PrintRedirs(Redirs(c))|
    ensures Follow(line, e1, LINE) && Skip(line, Skip(line, p + 1)) == Skip(line, p + 1)
    ensures c == Wrap(Base(c), Redirs(c)) && GoodRedirs(Redirs(c)) && WellFormed(Base(c)) && Size(Base(c)) <= Size(c)
    ensures Own(c) == EXEC ==> Size(Base(c)) < Size(c)
  {
    BaseRedirs(c);
    var text := Print(Base(c), LINE);
    e1 := p + |text| + 1;
    GroupPlaces(line, p, Base(c), text, Redirs(c), e);
  }

  lemma GroupPlaces(line: string, p: nat, base: Cmd<string>, text: string, rs: seq<Redirect<string>>, e: nat)
    requires !base.Exec? && !base.Redir? && text == Print(base, LINE)
    requires At(line, p, Print(base, EXEC) + PrintRedirs(rs)) && e == p + |Print(base, EXEC) + PrintRedirs(rs)|
    ensures p + |text| + 1 < |line| && line[p] == '(' && line[p + |text| + 1] == ')' && At(line, p + 1, text)
    ensures At(line, p + |text| + 2, PrintRedirs(rs)) && e == p + |text| + 2 + |PrintRedirs(rs)|
    ensures Follow(line, p + |text| + 1, LINE) && Skip(line, Skip(line, p + 1)) == Skip(line, p + 1)
  {
    AtGroup(line, p, text, PrintRedirs(rs));
    FollowSymbol(line, p + |text| + 1, LINE);
    SkipSkip(line, p + 1);
  }

  lemma {:induction false} ParsesBack(line: string, q: nat, p: nat, c: Cmd<string>, e: nat)
    requires q <= |line| && p <= |line| && Skip(line, q) == Skip(line, p) && WellFormed(c)
    requires Stands(line, p, c, BACK, e) && Follow(line, e, BACK)
    ensures Reads(line, q, BACK, c, e)
    decreases Size(c), (BACK - Own(c)) % 4, 0
  {
    InnerDepth(c);
    var x, n := Inner(c), Depth(c);
    var e1 := p + |Print(x, PIPE)|;
    AtSplit(line, p, Print(x, PIPE), Amps(n));
    FollowLooser(line, e, BACK, PIPE);
    FollowAmps(line, e1, n);
    Parses(line, q, p, x, PIPE, e1);
    BackParses(line, q, x, n, e1);
  }

  lemma FollowAmps(line: string, e: nat, n: nat)
    requires At(line, e, Amps(n)) && Follow(line, e + n, PIPE)
    ensures Follow(line, e, PIPE)
  {
    if n > 0 {
      AtSplit(line, e, "&", Amps(n - 1));
      AtChar(line, e, '&');
      FollowSymbol(line, e, PIPE);
    }
  }

  /** Where the parts of a printed pipe or list stand. */
  lemma BinaryPlaces(line: string, p: nat, l: string, sep: char, r: string, lk: nat) returns (e1: nat)
    requires At(line, p, l + [sep] + r) && lk <= LINE && ((sep == '|' && lk == EXEC) || (sep == ';' && lk == BACK))
    ensures e1 == p + |l| < |line| && line[e1] == sep && At(line, p, l) && At(line, e1 + 1, r)
    ensures Follow(line, e1, lk) && Skip(line, Skip(line, e1 + 1)) == Skip(line, e1 + 1)
  {
    AtBinary(line, p, l, sep, r);
    e1 := p + |l|;
    FollowSymbol(line, e1, lk);
    SkipSkip(line, e1 + 1);
  }

  /** Both parts of a printed pipe or list are read. */
  lemma {:induction false} ParsesParts(line: string, q: nat, p: nat, l: Cmd<string>, r: Cmd<string>, lt: string,
                                       sep: char, rt: string, lk: nat, rk: nat, e: nat) returns (e1: nat)
    requires q <= |line| && p <= |line| && Skip(line, q) == Skip(line, p) && WellFormed(l) && WellFormed(r)
    requires lk <= LINE && rk <= LINE && ((sep == '|' && lk == EXEC) || (sep == ';' && lk == BACK))
    requires lt == Print(l, lk) && rt == Print(r, rk)
    requires At(line, p, lt + [sep] + rt) && e == p + |lt| + 1 + |rt| && Follow(line, e, rk)
    ensures e1 < |line| && line[e1] == sep && Reads(line, q, lk, l, e1) && Reads(line, Skip(line, e1 + 1), rk, r, e)
    decreases 1 + Size(l) + Size(r), 0, 0
  {
    e1 := BinaryPlaces(line, p, lt, sep, rt, lk);
    Parses(line, q, p, l, lk, e1);
    Parses(line, Skip(line, e1 + 1), e1 + 1, r, rk, e);
  }

  /** Parsing a printed command gives that command back. */
  lemma RoundTrip(c: Cmd<string>)
    requires WellFormed(c)
    ensures var line := Print(c, LINE); var r := ParseCmd(line); r.Ok? && Text(line, r.value) == c
  {
    var line := Print(c, LINE);
    forall i: nat | i < |line| ensures CharAt(line, 0, line, i) { }
    Parses(line, 0, 0, c, LINE, |line|);
  }

  lemma SliceGood(line: string, s: Span)
    requires IsWord(line, s)
    ensures GoodWord(Slice(line, s))
  {
    var w := Slice(line, s);
    forall i | 0 <= i < |w| ensures WordChar(w[i]) { assert w[i] == line[s.q + i]; }
  }

  lemma {:induction false} SlicesGood(line: string, args: seq<Span>)
    requires forall i :: 0 <= i < |args| ==> IsWord(line, args[i])
    ensures GoodArgs(Slices(line, args))
  {
    if args != [] {
      SlicesGood(line, args[..|args| - 1]);
      SliceGood(line, args[|args| - 1]);
    }
  }

  lemma {:induction false} TextWellFormed(line: string, c: Cmd<Span>)
    requires Words(line, c)
    ensures WellFormed(Text(line, c))
    decreases c
  {
    match c
    case Exec(args) => SlicesGood(line, args);
    case Redir(cmd, file, _, _) => TextWellFormed(line, cmd); SliceGood(line, file);
    case Pipe(l, r) => TextWellFormed(line, l); TextWellFormed(line, r);
    case List(l, r) => TextWellFormed(line, l); TextWellFormed(line, r);
    case Back(cmd) => TextWellFormed(line, cmd);
  }

  /** The well-formed commands are exactly those that parsing can give: whatever line parses, its
      command prints to a line that parses to the same command. */
  lemma ParsedPrintsBack(line: string)
    requires ParseCmd(line).Ok?
    ensures var c := Text(line, ParseCmd(line).value);
            WellFormed(c) && var r := ParseCmd(Print(c, LINE)); r.Ok? && Text(Print(c, LINE), r.value) == c
  {
    LineWords(line, 0);
    TextWellFormed(line, ParseCmd(line).value);
    RoundTrip(Text(line, ParseCmd(line).value));
  }
}
