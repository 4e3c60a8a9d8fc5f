/** The parser of sh.c: functions from a line and a position to a command and the next position.
    A line has no NUL; the code sees one at its end.
 */
module ShellParse {

  const MAXARGS := 10
  const O_RDONLY := 0
  const O_CREATE_WRONLY := 0x201

  /** A command over words of type T: strings, or places in the line. */
  datatype Cmd<T> =
    | Exec(args: seq<T>)
    | Redir(cmd: Cmd<T>, file: T, mode: int, fd: int)
    | Pipe(left: Cmd<T>, right: Cmd<T>)
    | List(left: Cmd<T>, right: Cmd<T>)
    | Back(cmd: Cmd<T>)

  /** A word from `q` up to `eq`. */
  datatype Span = Span(q: nat, eq: nat)

  datatype Redirect<T> = Redirect(file: T, mode: int, fd: int)

  datatype Error = MissingFile | Syntax | TooManyArgs | MissingParen | Leftovers

  datatype Result<T> = Ok(value: T, pos: nat) | Err(error: Error)

  // ---------------------------------------------------------------- characters and tokens

  predicate Ws(c: char) {
    c == ' ' || c == '\t' || c == '\r' || c == '\n' || c == '\U{B}'
  }

  predicate Sym(c: char) {
    c == '<' || c == '|' || c == '>' || c == '&' || c == ';' || c == '(' || c == ')'
  }

  predicate WordChar(c: char) {
    !Ws(c) && !Sym(c)
  }

  /** The first position from `i` on that is not white space. */
  function Skip(line: string, i: nat): (r: nat)
    ensures i <= |line| ==> i <= r <= |line|
    ensures r < |line| ==> !Ws(line[r])
    ensures i < |line| && !Ws(line[i]) ==> r == i
    decreases |line| - i
  {
    if i < |line| && Ws(line[i]) then Skip(line, i + 1) else i
  }

  /** The end of the word at `i`. */
  function WordEnd(line: string, i: nat): (r: nat)
    ensures i <= |line| ==> i <= r <= |line|
    ensures r < |line| ==> !WordChar(line[r])
    ensures forall k :: i <= k < r && k < |line| ==> WordChar(line[k])
    decreases |line| - i
  {
    if i < |line| && WordChar(line[i]) then WordEnd(line, i + 1) else i
  }

  datatype Kind = End | Symbol(c: char) | Append | Word

  /** A token, its place, and where the next one starts. */
  datatype Token = Token(kind: Kind, at: Span, next: nat)

  function GetToken(line: string, pos: nat): (t: Token)
    requires pos <= |line|
    ensures pos <= t.at.q <= t.at.eq <= t.next <= |line| && (t.kind != End ==> t.at.q < t.at.eq)
  {
    var s := Skip(line, pos);
    if s == |line| then Token(End, Span(s, s), s)
    else if line[s] == '>' then
      if s + 1 < |line| && line[s + 1] == '>' then Token(Append, Span(s, s + 2), Skip(line, s + 2))
      else Token(Symbol('>'), Span(s, s + 1), Skip(line, s + 1))
    else if Sym(line[s]) then Token(Symbol(line[s]), Span(s, s + 1), Skip(line, s + 1))
    else Token(Word, Span(s, WordEnd(line, s)), Skip(line, WordEnd(line, s)))
  }

  /** peek: the next character that is not white space is one of `toks`. */
  predicate Peek(line: string, pos: nat, toks: string)
    requires pos <= |line|
  {
    var s := Skip(line, pos);
    s < |line| && line[s] in toks
  }

  // ---------------------------------------------------------------- the grammar

  /** Redirections around a command, the first one innermost. */
  function Wrap<T>(cmd: Cmd<T>, rs: seq<Redirect<T>>): Cmd<T> {
    if rs == [] then cmd else
    var r := rs[|rs| - 1];
    Redir(Wrap(cmd, rs[..|rs| - 1]), r.file, r.mode, r.fd)
  }

  /** parseredirs: the redirections found, after those in `rs`. */
  function ParseRedirs(line: string, pos: nat, rs: seq<Redirect<Span>>): (r: Result<seq<Redirect<Span>>>)
    requires pos <= |line|
    ensures r.Ok? ==> pos <= r.pos <= |line|
    decreases |line| - pos
  {
    if !Peek(line, pos, "<>") then Ok(rs, Skip(line, pos)) else
    var t := GetToken(line, pos);
    var f := GetToken(line, t.next);
    if f.kind != Word then Err(MissingFile) else
    var redir := if t.kind == Symbol('<') then Redirect(f.at, O_RDONLY, 0) else Redirect(f.at, O_CREATE_WRONLY, 1);
    ParseRedirs(line, f.next, rs + [redir])
  }

  /** The argument loop of parseexec. */
  function ParseArgs(line: string, pos: nat, args: seq<Span>, rs: seq<Redirect<Span>>): (r: Result<Cmd<Span>>)
    requires pos <= |line|
    ensures r.Ok? ==> pos <= r.pos <= |line|
    decreases |line| - pos
  {
    if Peek(line, pos, "|)&;") then Ok(Wrap(Exec(args), rs), Skip(line, pos)) else
    var t := GetToken(line, pos);
    if t.kind == End then Ok(Wrap(Exec(args), rs), t.next)
    else if t.kind != Word then Err(Syntax)
    else if |args| + 1 >= MAXARGS then Err(TooManyArgs)
    else
      var r := ParseRedirs(line, t.next, rs);
      if r.Err? then Err(r.error) else ParseArgs(line, r.pos, args + [t.at], r.value)
  }

  /** parseexec, and parseblock for a command in parentheses. */
  function ParseExec(line: string, pos: nat): (r: Result<Cmd<Span>>)
    requires pos <= |line|
    ensures r.Ok? ==> pos <= r.pos <= |line|
    decreases |line| - pos, 0
  {
    if !Peek(line, pos, "(") then
      var r := ParseRedirs(line, pos, []);
      if r.Err? then Err(r.error) else ParseArgs(line, r.pos, [], r.value)
    else
      var r := ParseLine(line, GetToken(line, pos).next);
      if r.Err? then r
      else if !Peek(line, r.pos, ")") then Err(MissingParen)
      else
        var rs := ParseRedirs(line, GetToken(line, r.pos).next, []);
        if rs.Err? then Err(rs.error) else Ok(Wrap(r.value, rs.value), rs.pos)
  }

  function ParsePipe(line: string, pos: nat): (r: Result<Cmd<Span>>)
    requires pos <= |line|
    ensures r.Ok? ==> pos <= r.pos <= |line|
    decreases |line| - pos, 1
  {
    var l := ParseExec(line, pos);
    if l.Err? then l
    else if !Peek(line, l.pos, "|") then Ok(l.value, Skip(line, l.pos))
    else
      var r := ParsePipe(line, GetToken(line, l.pos).next);
      if r.Err? then r else Ok(Pipe(l.value, r.value), r.pos)
  }

  /** The loop over `&` in parseline. */
  function ParseBacks(line: string, pos: nat, cmd: Cmd<Span>): (r: Result<Cmd<Span>>)
    requires pos <= |line|
    ensures r.Ok? && pos <= r.pos <= |line|
    decreases |line| - pos
  {
    if Peek(line, pos, "&") then ParseBacks(line, GetToken(line, pos).next, Back(cmd)) else Ok(cmd, Skip(line, pos))
  }

  function ParseLine(line: string, pos: nat): (r: Result<Cmd<Span>>)
    requires pos <= |line|
    ensures r.Ok? ==> pos <= r.pos <= |line|
    decreases |line| - pos, 2
  {
    var p := ParsePipe(line, pos);
    if p.Err? then p else
    var l := ParseBacks(line, p.pos, p.value);
    if !Peek(line, l.pos, ";") then Ok(l.value, Skip(line, l.pos))
    else
      var r := ParseLine(line, GetToken(line, l.pos).next);
      if r.Err? then r else Ok(List(l.value, r.value), r.pos)
  }

  /** parsecmd, before nulterminate. */
  function ParseCmd(line: string): Result<Cmd<Span>> {
    var r := ParseLine(line, 0);
    if r.Ok? && Skip(line, r.pos) != |line| then Err(Leftovers) else r
  }

  // ---------------------------------------------------------------- every word is a maximal run

  /** A non-empty run of word characters that ends at a white space, a symbol or the end. */
  ghost predicate IsWord(line: string, s: Span) {
    && s.q < s.eq <= |line| && (forall k :: s.q <= k < s.eq ==> WordChar(line[k]))
    && (s.eq < |line| ==> !WordChar(line[s.eq]))
  }

  predicate CanonicalMode(mode: int, fd: int) {
    (mode == O_RDONLY && fd == 0) || (mode == O_CREATE_WRONLY && fd == 1)
  }

  /** The words of a command are words of the line, at most nine arguments each, and its
      redirections have one of the two modes. */
  ghost predicate Words(line: string, c: Cmd<Span>) {
    match c
    case Exec(args) => |args| < MAXARGS && forall i :: 0 <= i < |args| ==> IsWord(line, args[i])
    case Redir(cmd, file, mode, fd) => Words(line, cmd) && IsWord(line, file) && CanonicalMode(mode, fd)
    case Pipe(l, r) => Words(line, l) && Words(line, r)
    case List(l, r) => Words(line, l) && Words(line, r)
    case Back(cmd) => Words(line, cmd)
  }

  ghost predicate FileWords(line: string, rs: seq<Redirect<Span>>) {
    forall i :: 0 <= i < |rs| ==> IsWord(line, rs[i].file) && CanonicalMode(rs[i].mode, rs[i].fd)
  }

  lemma TokenIsWord(line: string, pos: nat)
    requires pos <= |line| && GetToken(line, pos).kind == Word
    ensures IsWord(line, GetToken(line, pos).at)
  {
  }

  lemma {:induction false} WrapWords(line: string, c: Cmd<Span>, rs: seq<Redirect<Span>>)
    requires Words(line, c) && FileWords(line, rs)
    ensures Words(line, Wrap(c, rs))
  {
    if rs != [] { WrapWords(line, c, rs[..|rs| - 1]); }
  }

  lemma {:induction false} RedirsWords(line: string, pos: nat, rs: seq<Redirect<Span>>)
    requires pos <= |line| && FileWords(line, rs)
    ensures var r := ParseRedirs(line, pos, rs); r.Ok? ==> FileWords(line, r.value)
    decreases |line| - pos
  {
    if Peek(line, pos, "<>") {
      var t := GetToken(line, pos);
      var f := GetToken(line, t.next);
      if f.kind == Word {
        TokenIsWord(line, t.next);
        var redir := if t.kind == Symbol('<') then Redirect(f.at, O_RDONLY, 0) else Redirect(f.at, O_CREATE_WRONLY, 1);
        RedirsWords(line, f.next, rs + [redir]);
      }
    }
  }

  lemma {:induction false} ArgsWords(line: string, pos: nat, args: seq<Span>, rs: seq<Redirect<Span>>)
    requires pos <= |line| && FileWords(line, rs) && Words(line, Exec(args))
    ensures var r := ParseArgs(line, pos, args, rs); r.Ok? ==> Words(line, r.value)
    decreases |line| - pos
  {
    WrapWords(line, Exec(args), rs);
    if !Peek(line, pos, "|)&;") {
      var t := GetToken(line, pos);
      if t.kind == Word && |args| + 1 < MAXARGS {
        TokenIsWord(line, pos);
        RedirsWords(line, t.next, rs);
        var r := ParseRedirs(line, t.next, rs);
        if r.Ok? { ArgsWords(line, r.pos, args + [t.at], r.value); }
      }
    }
  }

  lemma {:induction false} ExecWords(line: string, pos: nat)
    requires pos <= |line|
    ensures var r := ParseExec(line, pos); r.Ok? ==> Words(line, r.value)
    decreases |line| - pos, 0
  {
    if !Peek(line, pos, "(") {
      RedirsWords(line, pos, []);
      var r := ParseRedirs(line, pos, []);
      if r.Ok? { ArgsWords(line, r.pos, [], r.value); }
    } else {
      LineWords(line, GetToken(line, pos).next);
      var r := ParseLine(line, GetToken(line, pos).next);
      if r.Ok? && Peek(line, r.pos, ")") {
        RedirsWords(line, GetToken(line, r.pos).next, []);
        var rs := ParseRedirs(line, GetToken(line, r.pos).next, []);
        if rs.Ok? { WrapWords(line, r.value, rs.value); }
      }
    }
  }

  lemma {:induction false} PipeWords(line: string, pos: nat)
    requires pos <= |line|
    ensures var r := ParsePipe(line, pos); r.Ok? ==> Words(line, r.value)
    decreases |line| - pos, 1
  {
    ExecWords(line, pos);
    var l := ParseExec(line, pos);
    if l.Ok? && Peek(line, l.pos, "|") { PipeWords(line, GetToken(line, l.pos).next); }
  }

  lemma {:induction false} BacksWords(line: string, pos: nat, cmd: Cmd<Span>)
    requires pos <= |line| && Words(line, cmd)
    ensures Words(line, ParseBacks(line, pos, cmd).value)
    decreases |line| - pos
  {
    if Peek(line, pos, "&") { BacksWords(line, GetToken(line, pos).next, Back(cmd)); }
  }

  /** Every word of a parsed command is a whole word of the line. */
  lemma {:induction false} LineWords(line: string, pos: nat)
    requires pos <= |line|
    ensures var r := ParseLine(line, pos); r.Ok? ==> Words(line, r.value)
    decreases |line| - pos, 2
  {
    PipeWords(line, pos);
    var p := ParsePipe(line, pos);
    if p.Ok? {
      BacksWords(line, p.pos, p.value);
      var l := ParseBacks(line, p.pos, p.value);
      if Peek(line, l.pos, ";") { LineWords(line, GetToken(line, l.pos).next); }
    }
  }
}
