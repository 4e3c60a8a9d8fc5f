/** What the parser of sh.c accepts: the tokens of a line, a grammar over them, and the proof that
    parsing a line gives a command if and only if the grammar derives it from the line's tokens.
 */
module ShellGrammar {
  import opened ShellParse

  // ---------------------------------------------------------------- tokens

  const WHITESPACE := " \t\r\n\U{B}"
  const SYMBOLS := "<|>&;()"

  lemma Characters(c: char)
    ensures (Ws(c) <==> c in WHITESPACE) && (Sym(c) <==> c in SYMBOLS) && !(Ws(c) && Sym(c))
  {
  }

  datatype Tok = Tok(kind: Kind, at: Span)

  /** White space from `a` up to `b`. */
  ghost predicate Blank(line: string, a: nat, b: nat) {
    a <= b <= |line| && forall k :: a <= k < b ==> line[k] in WHITESPACE
  }

  predicate Doubled(line: string, s: nat) {
    s + 1 < |line| && line[s] == '>' && line[s + 1] == '>'
  }

  /** A token of the line: `>>`, another symbol, or a longest run of other characters. */
  ghost predicate IsToken(line: string, t: Tok) {
    var s, e := t.at.q, t.at.eq;
    && s < e <= |line|
    && match t.kind
       case End => false
       case Append => Doubled(line, s) && e == s + 2
       case Symbol(c) => c == line[s] && c in SYMBOLS && !Doubled(line, s) && e == s + 1
       case Word =>
         && (forall k :: s <= k < e ==> line[k] !in WHITESPACE && line[k] !in SYMBOLS)
         && (e < |line| ==> line[e] in WHITESPACE || line[e] in SYMBOLS)
  }

  /** Where token `i` starts, or the line ends. */
  function Start(line: string, ts: seq<Tok>, i: nat): nat {
    if i < |ts| then ts[i].at.q else |line|
  }

  ghost predicate TokAt(line: string, ts: seq<Tok>, i: nat) {
    i < |ts| ==> IsToken(line, ts[i]) && Blank(line, ts[i].at.eq, Start(line, ts, i + 1))
  }

  /** The tokens of a line: between them, before and behind there is only white space. */
  ghost predicate Lexed(line: string, ts: seq<Tok>) {
    Blank(line, 0, Start(line, ts, 0)) && forall i: nat :: TokAt(line, ts, i)
  }

  lemma {:induction false} SkipBlank(line: string, a: nat, b: nat)
    requires Blank(line, a, b) && (b < |line| ==> line[b] !in WHITESPACE)
    ensures Skip(line, a) == b
    decreases b - a
  {
    if a < b {
      Characters(line[a]);
      SkipBlank(line, a + 1, b);
    } else if b < |line| {
      Characters(line[b]);
    }
  }

  lemma {:induction false} BlankSkip(line: string, a: nat)
    requires a <= |line|
    ensures Blank(line, a, Skip(line, a))
    decreases |line| - a
  {
    if a < |line| && Ws(line[a]) {
      Characters(line[a]);
      BlankSkip(line, a + 1);
    }
  }

  /** What gettoken answers on every line: the token that starts at the first character that is not
      white space, or the end; then it skips white space. */
  lemma TokenLaw(line: string, pos: nat)
    requires pos <= |line|
    ensures var t := GetToken(line, pos);
            && Blank(line, pos, t.at.q) && (t.kind == End <==> t.at.q == |line|)
            && (t.kind != End ==> IsToken(line, Tok(t.kind, t.at)))
            && Blank(line, t.at.eq, t.next) && (t.next < |line| ==> line[t.next] !in WHITESPACE)
  {
    var t := GetToken(line, pos);
    var s := Skip(line, pos);
    BlankSkip(line, pos);
    BlankSkip(line, t.at.eq);
    if t.next < |line| { Characters(line[t.next]); }
    if s < |line| {
      Characters(line[s]);
      if t.kind == Word {
        forall k | s <= k < t.at.eq ensures line[k] !in WHITESPACE && line[k] !in SYMBOLS { Characters(line[k]); }
        if t.at.eq < |line| { Characters(line[t.at.eq]); }
      }
    }
  }

  /** Two tokens that start at the same place are the same. */
  lemma TokenUnique(line: string, t: Tok, t': Tok)
    requires IsToken(line, t) && IsToken(line, t') && t.at.q == t'.at.q
    ensures t == t'
  {
  }

  // ---------------------------------------------------------------- every line has its tokens

  function Tokens(line: string, pos: nat): seq<Tok>
    requires pos <= |line|
    decreases |line| - pos
  {
    var t := GetToken(line, pos);
    if t.kind == End then [] else [Tok(t.kind, t.at)] + Tokens(line, t.next)
  }

  lemma {:induction false} TokensFrom(line: string, pos: nat)
    requires pos <= |line|
    ensures var ts := Tokens(line, pos); Blank(line, pos, Start(line, ts, 0)) && forall i: nat :: TokAt(line, ts, i)
    decreases |line| - pos
  {
    TokenLaw(line, pos);
    var t, ts := GetToken(line, pos), Tokens(line, pos);
    if t.kind != End {
      TokensFrom(line, t.next);
      var rest := Tokens(line, t.next);
      BlankOn(line, t.at.eq, t.next, Start(line, rest, 0));
      forall i: nat ensures TokAt(line, ts, i) { if i > 0 { assert TokAt(line, rest, i - 1); } }
    }
  }

  lemma BlankOn(line: string, a: nat, b: nat, c: nat)
    requires Blank(line, a, b) && Blank(line, b, c)
    ensures Blank(line, a, c)
  {
  }

  lemma LexExists(line: string) returns (ts: seq<Tok>)
    ensures Lexed(line, ts)
  {
    ts := Tokens(line, 0);
    TokensFrom(line, 0);
  }

  /** And no others. */
  lemma {:induction false} LexUnique(line: string, ts: seq<Tok>, ts': seq<Tok>, i: nat)
    requires Lexed(line, ts) && Lexed(line, ts') && i <= |ts| && i <= |ts'|
    ensures forall j: nat :: j < i ==> ts[j] == ts'[j]
    ensures Start(line, ts, i) == Start(line, ts', i) && (i == |ts| <==> i == |ts'|)
  {
    if i > 0 {
      LexUnique(line, ts, ts', i - 1);
      assert TokAt(line, ts, i - 1) && TokAt(line, ts', i - 1);
      TokenUnique(line, ts[i - 1], ts'[i - 1]);
    }
    StartIs(line, ts, i);
    StartIs(line, ts', i);
    if i > 0 {
      SkipBlank(line, ts[i - 1].at.eq, Start(line, ts, i));
      SkipBlank(line, ts'[i - 1].at.eq, Start(line, ts', i));
    } else {
      SkipBlank(line, 0, Start(line, ts, 0));
      SkipBlank(line, 0, Start(line, ts', 0));
    }
  }

  lemma StartIs(line: string, ts: seq<Tok>, i: nat)
    requires Lexed(line, ts) && i <= |ts|
    ensures Start(line, ts, i) <= |line| && (Start(line, ts, i) == |line| <==> i == |ts|)
    ensures Start(line, ts, i) < |line| ==> line[Start(line, ts, i)] !in WHITESPACE
  {
    if i < |ts| { assert TokAt(line, ts, i); }
  }

  // ---------------------------------------------------------------- positions and tokens

  /** At position `p` of the line the next token is token `i`. */
  ghost predicate AtTok(line: string, ts: seq<Tok>, p: nat, i: nat) {
    p <= |line| && i <= |ts| && Skip(line, p) == Start(line, ts, i)
  }

  predicate IsSym(ts: seq<Tok>, i: nat, c: char) {
    i < |ts| && ts[i].kind == Symbol(c)
  }

  predicate IsWordTok(ts: seq<Tok>, i: nat) {
    i < |ts| && ts[i].kind == Word
  }

  /** A redirection operator. */
  predicate IsOp(ts: seq<Tok>, i: nat) {
    i < |ts| && (ts[i].kind == Symbol('<') || ts[i].kind == Symbol('>') || ts[i].kind == Append)
  }

  lemma GetTokenAt(line: string, ts: seq<Tok>, p: nat, i: nat)
    requires Lexed(line, ts) && AtTok(line, ts, p, i)
    ensures var t := GetToken(line, p);
            if i == |ts| then t.kind == End && AtTok(line, ts, t.next, i)
            else t.kind == ts[i].kind && t.at == ts[i].at && AtTok(line, ts, t.next, i + 1)
  {
    TokenLaw(line, p);
    StartIs(line, ts, i);
    var t := GetToken(line, p);
    if i < |ts| {
      assert TokAt(line, ts, i);
      TokenUnique(line, Tok(t.kind, t.at), ts[i]);
      StartIs(line, ts, i + 1);
      SkipBlank(line, t.at.eq, Start(line, ts, i + 1));
      SkipBlank(line, t.at.eq, t.next);
      SkipBlank(line, t.next, t.next);
    } else {
      SkipBlank(line, t.next, t.next);
    }
  }

  /** The first character of a token. */
  predicate StartsWith(ts: seq<Tok>, i: nat, c: char) {
    i < |ts| && (ts[i].kind == Symbol(c) || (ts[i].kind == Append && c == '>'))
  }

  lemma PeekAt(line: string, ts: seq<Tok>, p: nat, i: nat, toks: string)
    requires Lexed(line, ts) && AtTok(line, ts, p, i) && forall k :: 0 <= k < |toks| ==> toks[k] in SYMBOLS
    ensures Peek(line, p, toks) <==> exists k :: 0 <= k < |toks| && StartsWith(ts, i, toks[k])
  {
    StartIs(line, ts, i);
    if i < |ts| {
      assert TokAt(line, ts, i);
      var c := line[ts[i].at.q];
      assert forall k :: 0 <= k < |toks| ==> (StartsWith(ts, i, toks[k]) <==> toks[k] == c && ts[i].kind != Word);
    }
  }

  lemma PeekOne(line: string, ts: seq<Tok>, p: nat, i: nat, c: char)
    requires Lexed(line, ts) && AtTok(line, ts, p, i) && c in SYMBOLS && c != '>'
    ensures Peek(line, p, [c]) <==> IsSym(ts, i, c)
  {
    PeekAt(line, ts, p, i, [c]);
    if IsSym(ts, i, c) { assert StartsWith(ts, i, [c][0]); }
  }

  lemma PeekOps(line: string, ts: seq<Tok>, p: nat, i: nat)
    requires Lexed(line, ts) && AtTok(line, ts, p, i)
    ensures Peek(line, p, "<>") <==> IsOp(ts, i)
  {
    PeekAt(line, ts, p, i, "<>");
    if IsOp(ts, i) {
      assert StartsWith(ts, i, "<>"[if ts[i].kind == Symbol('<') then 0 else 1]);
    }
  }

  /** A token that ends a simple command, or the end. */
  predicate Stops(ts: seq<Tok>, i: nat) {
    i == |ts| || IsSym(ts, i, '|') || IsSym(ts, i, ')') || IsSym(ts, i, '&') || IsSym(ts, i, ';')
  }

  lemma PeekStops(line: string, ts: seq<Tok>, p: nat, i: nat)
    requires Lexed(line, ts) && AtTok(line, ts, p, i)
    ensures Peek(line, p, "|)&;") <==> i < |ts| && Stops(ts, i)
  {
    var toks := "|)&;";
    PeekAt(line, ts, p, i, toks);
    assert toks[0] == '|' && toks[1] == ')' && toks[2] == '&' && toks[3] == ';';
    if i < |ts| && Stops(ts, i) {
      assert StartsWith(ts, i, toks[0]) || StartsWith(ts, i, toks[1]) || StartsWith(ts, i, toks[2]) ||
             StartsWith(ts, i, toks[3]);
    }
  }

  lemma LexedOnce(line: string, ts: seq<Tok>, ts': seq<Tok>)
    requires Lexed(line, ts) && Lexed(line, ts')
    ensures ts == ts'
  {
    LexUnique(line, ts, ts', if |ts| < |ts'| then |ts| else |ts'|);
  }

  // ---------------------------------------------------------------- the grammar

  /** Tokens i.. up to j are words and redirections, in any order. */
  predicate Simple(ts: seq<Tok>, i: nat, j: nat)
    decreases j - i
  {
    i <= j <= |ts| &&
    (i == j || (IsWordTok(ts, i) && Simple(ts, i + 1, j)) ||
     (IsOp(ts, i) && IsWordTok(ts, i + 1) && i + 2 <= j && Simple(ts, i + 2, j)))
  }

  /** The words among them that are not file names. */
  function Args(ts: seq<Tok>, i: nat, j: nat): seq<Span>
    requires Simple(ts, i, j)
    decreases j - i
  {
    if i == j then [] else if IsWordTok(ts, i) then [ts[i].at] + Args(ts, i + 1, j) else Args(ts, i + 2, j)
  }

  /** `< f` reads f as descriptor 0; `> f` and `>> f` write f as descriptor 1, and create it. */
  function RedirOf(ts: seq<Tok>, i: nat): Redirect<Span>
    requires IsOp(ts, i) && IsWordTok(ts, i + 1)
  {
    if ts[i].kind == Symbol('<') then Redirect(ts[i + 1].at, O_RDONLY, 0)
    else Redirect(ts[i + 1].at, O_CREATE_WRONLY, 1)
  }

  function Redirs(ts: seq<Tok>, i: nat, j: nat): seq<Redirect<Span>>
    requires Simple(ts, i, j)
    decreases j - i
  {
    if i == j then [] else if IsWordTok(ts, i) then Redirs(ts, i + 1, j)
    else [RedirOf(ts, i)] + Redirs(ts, i + 2, j)
  }

  /** Redirections only. */
  predicate OnlyRedirs(ts: seq<Tok>, i: nat, j: nat) {
    Simple(ts, i, j) && Args(ts, i, j) == []
  }

  function Backs(c: Cmd<Span>, k: nat): Cmd<Span> {
    if k == 0 then c else Back(Backs(c, k - 1))
  }

  predicate Amps(ts: seq<Tok>, i: nat, j: nat) {
    i <= j <= |ts| && forall k: nat :: i <= k < j ==> IsSym(ts, k, '&')
  }

  /** exec := { word | redir }, at most nine words, or ( line ) { redir } */
  ghost predicate ExecG(ts: seq<Tok>, i: nat, j: nat, c: Cmd<Span>)
    decreases j - i, 0
  {
    || (Simple(ts, i, j) && |Args(ts, i, j)| < MAXARGS && c == Wrap(Exec(Args(ts, i, j)), Redirs(ts, i, j)))
    || exists m: nat, c1 :: i < m < j && GroupG(ts, i, m, j, c1, c)
  }

  ghost predicate GroupG(ts: seq<Tok>, i: nat, m: nat, j: nat, c1: Cmd<Span>, c: Cmd<Span>)
    requires i < m < j
    decreases j - i, 0, 0
  {
    && IsSym(ts, i, '(') && LineG(ts, i + 1, m, c1) && IsSym(ts, m, ')')
    && OnlyRedirs(ts, m + 1, j) && c == Wrap(c1, Redirs(ts, m + 1, j))
  }

  /** pipe := exec [ | pipe ] */
  ghost predicate PipeG(ts: seq<Tok>, i: nat, j: nat, c: Cmd<Span>)
    decreases j - i, 1
  {
    ExecG(ts, i, j, c) || (c.Pipe? && exists m: nat :: i <= m < j && BarG(ts, i, m, j, c.left, c.right))
  }

  ghost predicate BarG(ts: seq<Tok>, i: nat, m: nat, j: nat, l: Cmd<Span>, r: Cmd<Span>)
    requires i <= m < j
    decreases j - i, 1, 0
  {
    ExecG(ts, i, m, l) && IsSym(ts, m, '|') && PipeG(ts, m + 1, j, r)
  }

  /** line := pipe { & } [ ; line ] */
  ghost predicate LineG(ts: seq<Tok>, i: nat, j: nat, c: Cmd<Span>)
    decreases j - i, 2
  {
    exists n: nat, e: nat, c0 :: i <= n <= e <= j && PartG(ts, i, n, e, j, c0, c)
  }

  ghost predicate PartG(ts: seq<Tok>, i: nat, n: nat, e: nat, j: nat, c0: Cmd<Span>, c: Cmd<Span>)
    requires i <= n <= e <= j
    decreases j - i, 2, 0
  {
    && PipeG(ts, i, n, c0) && Amps(ts, n, e)
    && ((e == j && c == Backs(c0, e - n)) ||
        (e < j && IsSym(ts, e, ';') && c.List? && c.left == Backs(c0, e - n) && LineG(ts, e + 1, j, c.right)))
  }

  // ---------------------------------------------------------------- the parser on tokens

  function ReadRedirs(ts: seq<Tok>, i: nat, rs: seq<Redirect<Span>>): (r: Result<seq<Redirect<Span>>>)
    requires i <= |ts|
    ensures r.Ok? ==> i <= r.pos <= |ts|
    decreases |ts| - i
  {
    if !IsOp(ts, i) then Ok(rs, i)
    else if !IsWordTok(ts, i + 1) then Err(MissingFile)
    else ReadRedirs(ts, i + 2, rs + [RedirOf(ts, i)])
  }

  function ReadArgs(ts: seq<Tok>, i: nat, args: seq<Span>, rs: seq<Redirect<Span>>): (r: Result<Cmd<Span>>)
    requires i <= |ts|
    ensures r.Ok? ==> i <= r.pos <= |ts|
    decreases |ts| - i, 0
  {
    if Stops(ts, i) then Ok(Wrap(Exec(args), rs), i)
    else if !IsWordTok(ts, i) then Err(Syntax)
    else if |args| + 1 >= MAXARGS then Err(TooManyArgs)
    else ReadSimple(ts, i + 1, args + [ts[i].at], rs)
  }

  /** Redirections, then words each with redirections behind it. */
  function ReadSimple(ts: seq<Tok>, i: nat, args: seq<Span>, rs: seq<Redirect<Span>>): (r: Result<Cmd<Span>>)
    requires i <= |ts|
    ensures r.Ok? ==> i <= r.pos <= |ts|
    decreases |ts| - i, 1
  {
    var r := ReadRedirs(ts, i, rs);
    if r.Err? then Err(r.error) else ReadArgs(ts, r.pos, args, r.value)
  }

  /** Behind the line in parentheses: `)` and redirections. */
  function ReadClosed(ts: seq<Tok>, i: nat, r: Result<Cmd<Span>>): (r': Result<Cmd<Span>>)
    requires r.Ok? ==> i <= r.pos <= |ts|
    ensures r'.Ok? ==> i <= r'.pos <= |ts|
  {
    if r.Err? then r
    else if !IsSym(ts, r.pos, ')') then Err(MissingParen)
    else
      var rs := ReadRedirs(ts, r.pos + 1, []);
      if rs.Err? then Err(rs.error) else Ok(Wrap(r.value, rs.value), rs.pos)
  }

  function ReadExec(ts: seq<Tok>, i: nat): (r: Result<Cmd<Span>>)
    requires i <= |ts|
    ensures r.Ok? ==> i <= r.pos <= |ts|
    decreases |ts| - i, 0
  {
    if !IsSym(ts, i, '(') then ReadSimple(ts, i, [], []) else
    ReadClosed(ts, i, ReadLine(ts, i + 1))
  }

  function ReadPipe(ts: seq<Tok>, i: nat): (r: Result<Cmd<Span>>)
    requires i <= |ts|
    ensures r.Ok? ==> i <= r.pos <= |ts|
    decreases |ts| - i, 1
  {
    var l := ReadExec(ts, i);
    if l.Err? || !IsSym(ts, l.pos, '|') then l else
    var r := ReadPipe(ts, l.pos + 1);
    if r.Err? then r else Ok(Pipe(l.value, r.value), r.pos)
  }

  function ReadBacks(ts: seq<Tok>, i: nat, c: Cmd<Span>): (r: Result<Cmd<Span>>)
    requires i <= |ts|
    ensures r.Ok? && i <= r.pos <= |ts|
    decreases |ts| - i
  {
    if IsSym(ts, i, '&') then ReadBacks(ts, i + 1, Back(c)) else Ok(c, i)
  }

  function ReadLine(ts: seq<Tok>, i: nat): (r: Result<Cmd<Span>>)
    requires i <= |ts|
    ensures r.Ok? ==> i <= r.pos <= |ts|
    decreases |ts| - i, 2
  {
    var p := ReadPipe(ts, i);
    if p.Err? then p else
    var l := ReadBacks(ts, p.pos, p.value);
    if !IsSym(ts, l.pos, ';') then l else
    var r := ReadLine(ts, l.pos + 1);
    if r.Err? then r else Ok(List(l.value, r.value), r.pos)
  }

  // ---------------------------------------------------------------- it does what the parser does

  /** The same answer, one at a position of the line and one at a token. */
  ghost predicate Same<T>(line: string, ts: seq<Tok>, a: Result<T>, b: Result<T>) {
    if a.Ok? then b.Ok? && a.value == b.value && AtTok(line, ts, a.pos, b.pos) else b == a
  }

  lemma SkipAt(line: string, ts: seq<Tok>, p: nat, i: nat)
    requires Lexed(line, ts) && AtTok(line, ts, p, i)
    ensures AtTok(line, ts, Skip(line, p), i)
  {
    StartIs(line, ts, i);
    SkipBlank(line, Skip(line, p), Skip(line, p));
  }

  ghost predicate RedirsSame(line: string, ts: seq<Tok>, p: nat, i: nat, rs: seq<Redirect<Span>>)
    requires p <= |line| && i <= |ts|
  {
    Same(line, ts, ParseRedirs(line, p, rs), ReadRedirs(ts, i, rs))
  }

  lemma {:induction false} RedirsMirror(line: string, ts: seq<Tok>, p: nat, i: nat, rs: seq<Redirect<Span>>)
    requires Lexed(line, ts) && AtTok(line, ts, p, i)
    ensures RedirsSame(line, ts, p, i, rs)
    decreases |line| - p
  {
    PeekOps(line, ts, p, i);
    if IsOp(ts, i) {
      GetTokenAt(line, ts, p, i);
      var t := GetToken(line, p);
      GetTokenAt(line, ts, t.next, i + 1);
      if IsWordTok(ts, i + 1) {
        RedirsMirror(line, ts, GetToken(line, t.next).next, i + 2, rs + [RedirOf(ts, i)]);
      }
    } else {
      SkipAt(line, ts, p, i);
    }
  }

  /** The argument loop of parseexec with the redirections before it. */
  function ParseSimple(line: string, p: nat, args: seq<Span>, rs: seq<Redirect<Span>>): Result<Cmd<Span>>
    requires p <= |line|
  {
    var r := ParseRedirs(line, p, rs);
    if r.Err? then Err(r.error) else ParseArgs(line, r.pos, args, r.value)
  }

  lemma {:induction false} ArgsMirror(line: string, ts: seq<Tok>, p: nat, i: nat, args: seq<Span>,
                                    rs: seq<Redirect<Span>>)
    requires Lexed(line, ts) && AtTok(line, ts, p, i)
    ensures Same(line, ts, ParseArgs(line, p, args, rs), ReadArgs(ts, i, args, rs))
    decreases |line| - p, 0
  {
    PeekStops(line, ts, p, i);
    GetTokenAt(line, ts, p, i);
    assert TokAt(line, ts, i);
    if Stops(ts, i) {
      SkipAt(line, ts, p, i);
    } else if IsWordTok(ts, i) && |args| + 1 < MAXARGS {
      SimpleMirror(line, ts, GetToken(line, p).next, i + 1, args + [ts[i].at], rs);
    }
  }

  lemma {:induction false} SimpleMirror(line: string, ts: seq<Tok>, p: nat, i: nat, args: seq<Span>,
                                      rs: seq<Redirect<Span>>)
    requires Lexed(line, ts) && AtTok(line, ts, p, i)
    ensures Same(line, ts, ParseSimple(line, p, args, rs), ReadSimple(ts, i, args, rs))
    decreases |line| - p, 1
  {
    RedirsMirror(line, ts, p, i, rs);
    var r, r' := ParseRedirs(line, p, rs), ReadRedirs(ts, i, rs);
    if r.Ok? { ArgsMirror(line, ts, r.pos, r'.pos, args, r.value); }
  }

  /** The end of parseblock. */
  function ParseClosed(line: string, r: Result<Cmd<Span>>): Result<Cmd<Span>>
    requires r.Ok? ==> r.pos <= |line|
  {
    if r.Err? then r
    else if !Peek(line, r.pos, ")") then Err(MissingParen)
    else
      var rs := ParseRedirs(line, GetToken(line, r.pos).next, []);
      if rs.Err? then Err(rs.error) else Ok(Wrap(r.value, rs.value), rs.pos)
  }

  lemma GroupUnfold(line: string, p: nat, r: Result<Cmd<Span>>)
    requires p <= |line| && Peek(line, p, "(") && r == ParseLine(line, GetToken(line, p).next)
    ensures ParseExec(line, p) == ParseClosed(line, r)
  {
  }

  lemma ClosedMirror(line: string, ts: seq<Tok>, i: nat, r: Result<Cmd<Span>>, r': Result<Cmd<Span>>)
    requires Lexed(line, ts) && Same(line, ts, r, r') && (r'.Ok? ==> i <= r'.pos)
    ensures Same(line, ts, ParseClosed(line, r), ReadClosed(ts, i, r'))
  {
    if r.Ok? {
      PeekOne(line, ts, r.pos, r'.pos, ')');
      if IsSym(ts, r'.pos, ')') {
        GetTokenAt(line, ts, r.pos, r'.pos);
        var q := GetToken(line, r.pos).next;
        RedirsMirror(line, ts, q, r'.pos + 1, []);
        ClosedOk(line, r, ParseRedirs(line, q, []));
      }
    }
  }

  lemma ClosedOk(line: string, r: Result<Cmd<Span>>, rs: Result<seq<Redirect<Span>>>)
    requires r.Ok? && r.pos <= |line| && Peek(line, r.pos, ")")
    requires rs == ParseRedirs(line, GetToken(line, r.pos).next, [])
    ensures ParseClosed(line, r) == if rs.Err? then Err(rs.error) else Ok(Wrap(r.value, rs.value), rs.pos)
  {
  }

  ghost predicate ExecSame(line: string, ts: seq<Tok>, p: nat, i: nat)
    requires p <= |line| && i <= |ts|
  {
    Same(line, ts, ParseExec(line, p), ReadExec(ts, i))
  }

  ghost predicate PipeSame(line: string, ts: seq<Tok>, p: nat, i: nat)
    requires p <= |line| && i <= |ts|
  {
    Same(line, ts, ParsePipe(line, p), ReadPipe(ts, i))
  }

  ghost predicate LineSame(line: string, ts: seq<Tok>, p: nat, i: nat)
    requires p <= |line| && i <= |ts|
  {
    Same(line, ts, ParseLine(line, p), ReadLine(ts, i))
  }

  lemma {:induction false} ExecMirror(line: string, ts: seq<Tok>, p: nat, i: nat)
    requires Lexed(line, ts) && AtTok(line, ts, p, i)
    ensures ExecSame(line, ts, p, i)
    decreases |line| - p, 0
  {
    PeekOne(line, ts, p, i, '(');
    if !IsSym(ts, i, '(') {
      SimpleMirror(line, ts, p, i, [], []);
    } else {
      GetTokenAt(line, ts, p, i);
      var q := GetToken(line, p).next;
      LineMirror(line, ts, q, i + 1);
      ClosedMirror(line, ts, i, ParseLine(line, q), ReadLine(ts, i + 1));
      GroupUnfold(line, p, ParseLine(line, q));
    }
  }

  /** A command and the one behind the `|` or `;` that follows it. */
  function Joined(l: Cmd<Span>, r: Result<Cmd<Span>>, pipe: bool): Result<Cmd<Span>> {
    if r.Err? then r else Ok(if pipe then Pipe(l, r.value) else List(l, r.value), r.pos)
  }

  /** parsepipe behind its first command. */
  function ParseBar(line: string, l: Result<Cmd<Span>>): Result<Cmd<Span>>
    requires l.Ok? ==> l.pos <= |line|
  {
    if l.Err? then l
    else if !Peek(line, l.pos, "|") then Ok(l.value, Skip(line, l.pos))
    else Joined(l.value, ParsePipe(line, GetToken(line, l.pos).next), true)
  }

  function ReadBar(ts: seq<Tok>, l: Result<Cmd<Span>>): Result<Cmd<Span>>
    requires l.Ok? ==> l.pos <= |ts|
  {
    if l.Err? || !IsSym(ts, l.pos, '|') then l else Joined(l.value, ReadPipe(ts, l.pos + 1), true)
  }

  lemma PipeUnfold(line: string, p: nat, l: Result<Cmd<Span>>)
    requires p <= |line| && l == ParseExec(line, p)
    ensures ParsePipe(line, p) == ParseBar(line, l)
  {
  }

  lemma PipeOn(ts: seq<Tok>, i: nat, l: Result<Cmd<Span>>)
    requires i <= |ts| && l == ReadExec(ts, i)
    ensures ReadPipe(ts, i) == ReadBar(ts, l)
  {
  }

  lemma {:induction false} PipeMirror(line: string, ts: seq<Tok>, p: nat, i: nat)
    requires Lexed(line, ts) && AtTok(line, ts, p, i)
    ensures PipeSame(line, ts, p, i)
    decreases |line| - p, 2
  {
    ExecMirror(line, ts, p, i);
    BarMirror(line, ts, p, ParseExec(line, p), ReadExec(ts, i));
    PipeUnfold(line, p, ParseExec(line, p));
    PipeOn(ts, i, ReadExec(ts, i));
  }

  lemma {:induction false} BarMirror(line: string, ts: seq<Tok>, p: nat, l: Result<Cmd<Span>>, l': Result<Cmd<Span>>)
    requires Lexed(line, ts) && p <= |line| && Same(line, ts, l, l') && (l.Ok? ==> p <= l.pos)
    ensures Same(line, ts, ParseBar(line, l), ReadBar(ts, l'))
    decreases |line| - p, 1
  {
    if l.Ok? {
      PeekOne(line, ts, l.pos, l'.pos, '|');
      if IsSym(ts, l'.pos, '|') {
        GetTokenAt(line, ts, l.pos, l'.pos);
        PipeMirror(line, ts, GetToken(line, l.pos).next, l'.pos + 1);
      } else {
        SkipAt(line, ts, l.pos, l'.pos);
      }
    }
  }

  lemma {:induction false} BacksMirror(line: string, ts: seq<Tok>, p: nat, i: nat, c: Cmd<Span>)
    requires Lexed(line, ts) && AtTok(line, ts, p, i)
    ensures Same(line, ts, ParseBacks(line, p, c), ReadBacks(ts, i, c))
    decreases |line| - p
  {
    PeekOne(line, ts, p, i, '&');
    if IsSym(ts, i, '&') {
      GetTokenAt(line, ts, p, i);
      BacksMirror(line, ts, GetToken(line, p).next, i + 1, Back(c));
    } else {
      SkipAt(line, ts, p, i);
    }
  }

  lemma {:induction false} LineMirror(line: string, ts: seq<Tok>, p: nat, i: nat)
    requires Lexed(line, ts) && AtTok(line, ts, p, i)
    ensures LineSame(line, ts, p, i)
    decreases |line| - p, 3
  {
    PipeMirror(line, ts, p, i);
    var a, a' := ParsePipe(line, p), ReadPipe(ts, i);
    if a.Ok? {
      BacksMirror(line, ts, a.pos, a'.pos, a.value);
      var l, l' := ParseBacks(line, a.pos, a.value), ReadBacks(ts, a'.pos, a.value);
      PeekOne(line, ts, l.pos, l'.pos, ';');
      if IsSym(ts, l'.pos, ';') {
        GetTokenAt(line, ts, l.pos, l'.pos);
        var q := GetToken(line, l.pos).next;
        LineMirror(line, ts, q, l'.pos + 1);
        LineUnfold(line, p, a, l, ParseLine(line, q));
        LineOn(ts, i, a', l', ReadLine(ts, l'.pos + 1));
      } else {
        SkipAt(line, ts, l.pos, l'.pos);
      }
    }
  }

  lemma LineUnfold(line: string, p: nat, a: Result<Cmd<Span>>, l: Result<Cmd<Span>>, r: Result<Cmd<Span>>)
    requires p <= |line| && a == ParsePipe(line, p) && a.Ok? && l == ParseBacks(line, a.pos, a.value)
    requires Peek(line, l.pos, ";") && r == ParseLine(line, GetToken(line, l.pos).next)
    ensures ParseLine(line, p) == Joined(l.value, r, false)
  {
  }

  lemma LineOn(ts: seq<Tok>, i: nat, a: Result<Cmd<Span>>, l: Result<Cmd<Span>>, r: Result<Cmd<Span>>)
    requires i <= |ts| && a == ReadPipe(ts, i) && a.Ok? && l == ReadBacks(ts, a.pos, a.value)
    requires IsSym(ts, l.pos, ';') && r == ReadLine(ts, l.pos + 1)
    ensures ReadLine(ts, i) == Joined(l.value, r, false)
  {
  }

  // ---------------------------------------------------------------- it reads what the grammar derives

  lemma {:induction false} RedirsIff(ts: seq<Tok>, i: nat, j: nat, rs: seq<Redirect<Span>>)
    requires i <= |ts|
    ensures var r := ReadRedirs(ts, i, rs);
            r.Ok? && r.pos == j <==> OnlyRedirs(ts, i, j) && !IsOp(ts, j)
    ensures OnlyRedirs(ts, i, j) && !IsOp(ts, j) ==> ReadRedirs(ts, i, rs).value == rs + Redirs(ts, i, j)
    decreases |ts| - i
  {
    if IsOp(ts, i) && IsWordTok(ts, i + 1) {
      RedirsIff(ts, i + 2, j, rs + [RedirOf(ts, i)]);
    }
  }

  /** One step of the loop over words and redirections. */
  lemma SimpleStep(ts: seq<Tok>, i: nat, args: seq<Span>, rs: seq<Redirect<Span>>)
    requires i <= |ts| && |args| < MAXARGS
    ensures var r := ReadSimple(ts, i, args, rs);
            if Stops(ts, i) then r == Ok(Wrap(Exec(args), rs), i)
            else if IsWordTok(ts, i) && |args| + 1 < MAXARGS then r == ReadSimple(ts, i + 1, args + [ts[i].at], rs)
            else if IsOp(ts, i) && IsWordTok(ts, i + 1) then r == ReadSimple(ts, i + 2, args, rs + [RedirOf(ts, i)])
            else r.Err?
  {
  }

  /** The command that the words and redirections i.. up to j make, behind those read before. */
  ghost predicate SimpleOf(ts: seq<Tok>, i: nat, j: nat, args: seq<Span>, rs: seq<Redirect<Span>>, c: Cmd<Span>) {
    && Simple(ts, i, j) && |args| + |Args(ts, i, j)| < MAXARGS
    && c == Wrap(Exec(args + Args(ts, i, j)), rs + Redirs(ts, i, j))
  }

  lemma SimpleNone(ts: seq<Tok>, i: nat, j: nat, args: seq<Span>, rs: seq<Redirect<Span>>, c: Cmd<Span>)
    requires i <= |ts| && |args| < MAXARGS && Stops(ts, i)
    ensures SimpleOf(ts, i, j, args, rs, c) <==> i == j && c == Wrap(Exec(args), rs)
  {
    if i == j { assert args + Args(ts, i, j) == args && rs + Redirs(ts, i, j) == rs; }
  }

  lemma SimpleWord(ts: seq<Tok>, i: nat, j: nat, args: seq<Span>, rs: seq<Redirect<Span>>, c: Cmd<Span>)
    requires IsWordTok(ts, i) && i != j
    ensures SimpleOf(ts, i, j, args, rs, c) <==> SimpleOf(ts, i + 1, j, args + [ts[i].at], rs, c)
    ensures SimpleOf(ts, i, j, args, rs, c) ==> |args| + 1 < MAXARGS
  {
    if Simple(ts, i + 1, j) {
      assert args + Args(ts, i, j) == args + [ts[i].at] + Args(ts, i + 1, j);
    }
  }

  lemma SimpleRedir(ts: seq<Tok>, i: nat, j: nat, args: seq<Span>, rs: seq<Redirect<Span>>, c: Cmd<Span>)
    requires IsOp(ts, i) && IsWordTok(ts, i + 1) && i != j
    ensures SimpleOf(ts, i, j, args, rs, c) <==> SimpleOf(ts, i + 2, j, args, rs + [RedirOf(ts, i)], c)
  {
    if Simple(ts, i + 2, j) {
      assert rs + Redirs(ts, i, j) == rs + [RedirOf(ts, i)] + Redirs(ts, i + 2, j);
    }
  }

  lemma {:induction false} SimpleIff(ts: seq<Tok>, i: nat, j: nat, args: seq<Span>, rs: seq<Redirect<Span>>,
                                     c: Cmd<Span>)
    requires i <= |ts| && |args| < MAXARGS
    ensures ReadSimple(ts, i, args, rs) == Ok(c, j) <==> SimpleOf(ts, i, j, args, rs, c) && Stops(ts, j)
    decreases |ts| - i
  {
    SimpleStep(ts, i, args, rs);
    if Stops(ts, i) {
      SimpleNone(ts, i, j, args, rs, c);
    } else if i != j {
      if IsWordTok(ts, i) {
        SimpleWord(ts, i, j, args, rs, c);
        if |args| + 1 < MAXARGS { SimpleIff(ts, i + 1, j, args + [ts[i].at], rs, c); }
      } else if IsOp(ts, i) && IsWordTok(ts, i + 1) {
        SimpleRedir(ts, i, j, args, rs, c);
        SimpleIff(ts, i + 2, j, args, rs + [RedirOf(ts, i)], c);
      }
    }
  }

  /** Where a line can end: `)` or the end of the tokens. */
  predicate Closes(ts: seq<Tok>, j: nat) {
    j == |ts| || IsSym(ts, j, ')')
  }

  /** Where a pipeline can end. */
  predicate PipeStops(ts: seq<Tok>, j: nat) {
    Closes(ts, j) || IsSym(ts, j, '&') || IsSym(ts, j, ';')
  }

  ghost predicate ExecReads(ts: seq<Tok>, i: nat, j: nat, c: Cmd<Span>)
    requires i <= |ts|
  {
    ReadExec(ts, i) == Ok(c, j)
  }

  ghost predicate PipeReads(ts: seq<Tok>, i: nat, j: nat, c: Cmd<Span>)
    requires i <= |ts|
  {
    ReadPipe(ts, i) == Ok(c, j)
  }

  ghost predicate LineReads(ts: seq<Tok>, i: nat, j: nat, c: Cmd<Span>)
    requires i <= |ts|
  {
    ReadLine(ts, i) == Ok(c, j)
  }

  lemma {:induction false} ExecSound(ts: seq<Tok>, i: nat, j: nat, c: Cmd<Span>)
    requires i <= |ts| && ExecReads(ts, i, j, c) && Stops(ts, j)
    ensures ExecG(ts, i, j, c)
    decreases |ts| - i, 0
  {
    if IsSym(ts, i, '(') {
      var r := ReadLine(ts, i + 1);
      LineSound(ts, i + 1, r.pos, r.value);
      GroupSound(ts, i, j, r, c);
    } else {
      SimpleIff(ts, i, j, [], [], c);
      ExecSimple(ts, i, j, c);
    }
  }

  lemma ExecSimple(ts: seq<Tok>, i: nat, j: nat, c: Cmd<Span>)
    requires SimpleOf(ts, i, j, [], [], c)
    ensures ExecG(ts, i, j, c)
  {
    assert [] + Args(ts, i, j) == Args(ts, i, j) && [] + Redirs(ts, i, j) == Redirs(ts, i, j);
  }

  lemma GroupSound(ts: seq<Tok>, i: nat, j: nat, r: Result<Cmd<Span>>, c: Cmd<Span>)
    requires IsSym(ts, i, '(') && r.Ok? && i < r.pos <= |ts| && LineG(ts, i + 1, r.pos, r.value)
    requires ReadClosed(ts, i, r) == Ok(c, j)
    ensures ExecG(ts, i, j, c)
  {
    RedirsIff(ts, r.pos + 1, j, []);
    assert [] + Redirs(ts, r.pos + 1, j) == Redirs(ts, r.pos + 1, j);
    assert GroupG(ts, i, r.pos, j, r.value, c);
  }

  lemma {:induction false} PipeSound(ts: seq<Tok>, i: nat, j: nat, c: Cmd<Span>)
    requires i <= |ts| && PipeReads(ts, i, j, c) && PipeStops(ts, j)
    ensures PipeG(ts, i, j, c)
    decreases |ts| - i, 1
  {
    var l := ReadExec(ts, i);
    ExecSound(ts, i, l.pos, l.value);
    if IsSym(ts, l.pos, '|') {
      var r := ReadPipe(ts, l.pos + 1);
      PipeSound(ts, l.pos + 1, j, r.value);
      BarSound(ts, i, l.pos, j, l.value, r.value);
    }
  }

  lemma BarSound(ts: seq<Tok>, i: nat, m: nat, j: nat, l: Cmd<Span>, r: Cmd<Span>)
    requires i <= m < j && BarG(ts, i, m, j, l, r)
    ensures PipeG(ts, i, j, Pipe(l, r))
  {
    var c := Pipe(l, r);
    assert BarG(ts, i, m, j, c.left, c.right);
  }

  lemma {:induction false} BacksIff(ts: seq<Tok>, n: nat, e: nat, c: Cmd<Span>, k: nat)
    requires n <= |ts|
    ensures var r := ReadBacks(ts, n, Backs(c, k));
            && (r.pos == e <==> Amps(ts, n, e) && !IsSym(ts, e, '&'))
            && r.value == Backs(c, k + r.pos - n)
    decreases |ts| - n
  {
    if IsSym(ts, n, '&') {
      BacksIff(ts, n + 1, e, c, k + 1);
      assert Backs(c, k + 1) == Back(Backs(c, k));
    }
  }

  /** The loop over `&` at the end of a pipeline. */
  lemma BacksRead(ts: seq<Tok>, n: nat, e: nat, c: Cmd<Span>)
    requires n <= |ts|
    ensures var r := ReadBacks(ts, n, c);
            (r.pos == e <==> Amps(ts, n, e) && !IsSym(ts, e, '&')) && r.value == Backs(c, r.pos - n)
  {
    BacksIff(ts, n, e, c, 0);
  }

  lemma {:induction false} LineSound(ts: seq<Tok>, i: nat, j: nat, c: Cmd<Span>)
    requires i <= |ts| && LineReads(ts, i, j, c) && Closes(ts, j)
    ensures LineG(ts, i, j, c)
    decreases |ts| - i, 2
  {
    var p := ReadPipe(ts, i);
    var l := ReadBacks(ts, p.pos, p.value);
    BacksRead(ts, p.pos, l.pos, p.value);
    if IsSym(ts, l.pos, ';') {
      var r := ReadLine(ts, l.pos + 1);
      LineSound(ts, l.pos + 1, j, r.value);
    }
    AmpsStop(ts, p.pos, l.pos, j);
    PipeSound(ts, i, p.pos, p.value);
    PartSound(ts, i, p.pos, l.pos, j, p.value, c);
  }

  lemma AmpsStop(ts: seq<Tok>, n: nat, e: nat, j: nat)
    requires Amps(ts, n, e) && ((e == j && Closes(ts, j)) || IsSym(ts, e, ';'))
    ensures PipeStops(ts, n) && !IsSym(ts, e, '&')
  {
    if n < e { assert IsSym(ts, n, '&'); }
  }

  lemma PartSound(ts: seq<Tok>, i: nat, n: nat, e: nat, j: nat, c0: Cmd<Span>, c: Cmd<Span>)
    requires i <= n <= e <= j && PartG(ts, i, n, e, j, c0, c)
    ensures LineG(ts, i, j, c)
  {
  }

  lemma {:induction false} ExecComplete(ts: seq<Tok>, i: nat, j: nat, c: Cmd<Span>)
    requires i <= |ts| && ExecG(ts, i, j, c) && Stops(ts, j)
    ensures ExecReads(ts, i, j, c)
    decreases |ts| - i, 0
  {
    if IsSym(ts, i, '(') {
      var m: nat, c1 :| i < m < j && GroupG(ts, i, m, j, c1, c);
      LineComplete(ts, i + 1, m, c1);
      GroupComplete(ts, i, m, j, c1, c);
    } else {
      assert [] + Args(ts, i, j) == Args(ts, i, j) && [] + Redirs(ts, i, j) == Redirs(ts, i, j);
      SimpleIff(ts, i, j, [], [], c);
    }
  }

  lemma GroupComplete(ts: seq<Tok>, i: nat, m: nat, j: nat, c1: Cmd<Span>, c: Cmd<Span>)
    requires i < m < j && GroupG(ts, i, m, j, c1, c) && LineReads(ts, i + 1, m, c1) && Stops(ts, j)
    ensures ExecReads(ts, i, j, c)
  {
    ClosedReads(ts, i, m, j, c1);
    ExecClosed(ts, i, Ok(c1, m));
  }

  lemma ClosedReads(ts: seq<Tok>, i: nat, m: nat, j: nat, c: Cmd<Span>)
    requires i < m < j && IsSym(ts, m, ')') && OnlyRedirs(ts, m + 1, j) && Stops(ts, j)
    ensures ReadClosed(ts, i, Ok(c, m)) == Ok(Wrap(c, Redirs(ts, m + 1, j)), j)
  {
    RedirsIff(ts, m + 1, j, []);
    assert [] + Redirs(ts, m + 1, j) == Redirs(ts, m + 1, j);
  }

  lemma ExecClosed(ts: seq<Tok>, i: nat, r: Result<Cmd<Span>>)
    requires IsSym(ts, i, '(') && ReadLine(ts, i + 1) == r
    ensures ReadExec(ts, i) == ReadClosed(ts, i, r)
  {
  }

  lemma {:induction false} PipeComplete(ts: seq<Tok>, i: nat, j: nat, c: Cmd<Span>)
    requires i <= |ts| && PipeG(ts, i, j, c) && PipeStops(ts, j)
    ensures PipeReads(ts, i, j, c)
    decreases |ts| - i, 1
  {
    if ExecG(ts, i, j, c) {
      ExecComplete(ts, i, j, c);
    } else {
      var m: nat :| i <= m < j && BarG(ts, i, m, j, c.left, c.right);
      ExecComplete(ts, i, m, c.left);
      PipeComplete(ts, m + 1, j, c.right);
    }
  }

  lemma {:induction false} LineComplete(ts: seq<Tok>, i: nat, j: nat, c: Cmd<Span>)
    requires i <= |ts| && LineG(ts, i, j, c) && Closes(ts, j)
    ensures LineReads(ts, i, j, c)
    decreases |ts| - i, 2
  {
    var n: nat, e: nat, c0 :| i <= n <= e <= j && PartG(ts, i, n, e, j, c0, c);
    AmpsStop(ts, n, e, j);
    PipeComplete(ts, i, n, c0);
    BacksRead(ts, n, e, c0);
    if e < j { LineComplete(ts, e + 1, j, c.right); }
    PartComplete(ts, i, n, e, j, c0, c);
  }

  lemma PartComplete(ts: seq<Tok>, i: nat, n: nat, e: nat, j: nat, c0: Cmd<Span>, c: Cmd<Span>)
    requires i <= n <= e <= j <= |ts| && PipeReads(ts, i, n, c0) && ReadBacks(ts, n, c0) == Ok(Backs(c0, e - n), e)
    requires if e == j then c == Backs(c0, e - n) && Closes(ts, j)
             else IsSym(ts, e, ';') && c.List? && c.left == Backs(c0, e - n) && LineReads(ts, e + 1, j, c.right)
    ensures LineReads(ts, i, j, c)
  {
  }

  // ---------------------------------------------------------------- parsecmd

  /** On every line, parsecmd succeeds with a command if and only if the grammar derives that command
      from all tokens of the line. */
  lemma ParseCmdIff(line: string, ts: seq<Tok>, c: Cmd<Span>)
    requires Lexed(line, ts)
    ensures ParseCmd(line).Ok? && ParseCmd(line).value == c <==> LineG(ts, 0, |ts|, c)
  {
    StartIs(line, ts, 0);
    SkipBlank(line, 0, Start(line, ts, 0));
    LineMirror(line, ts, 0, 0);
    var r, r' := ParseLine(line, 0), ReadLine(ts, 0);
    if r.Ok? { StartIs(line, ts, r'.pos); }
    if r'.Ok? && r'.pos == |ts| { LineSound(ts, 0, |ts|, r'.value); }
    if LineG(ts, 0, |ts|, c) { LineComplete(ts, 0, |ts|, c); }
  }

  /** No line has two meanings. */
  lemma Unambiguous(line: string, ts: seq<Tok>, c: Cmd<Span>, c': Cmd<Span>)
    requires Lexed(line, ts) && LineG(ts, 0, |ts|, c) && LineG(ts, 0, |ts|, c')
    ensures c == c'
  {
    ParseCmdIff(line, ts, c);
    ParseCmdIff(line, ts, c');
  }
}
