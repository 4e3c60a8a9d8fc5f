/** nulterminate of sh.c: words become strings by storing NULs into the line they point into. */
module ShellTerminate {
  import opened ShellParse

  const NUL := '\0'

  /** The word `s` occurs in the command. */
  predicate HasWord(c: Cmd<Span>, s: Span) {
    match c
    case Exec(args) => s in args
    case Redir(cmd, file, _, _) => s == file || HasWord(cmd, s)
    case Pipe(l, r) => HasWord(l, s) || HasWord(r, s)
    case List(l, r) => HasWord(l, s) || HasWord(r, s)
    case Back(cmd) => HasWord(cmd, s)
  }

  /** A word of the command ends at `k`. */
  ghost predicate IsEnd(c: Cmd<Span>, k: nat) {
    match c
    case Exec(args) => EndsIn(args, k)
    case Redir(cmd, file, _, _) => file.eq == k || IsEnd(cmd, k)
    case Pipe(l, r) => IsEnd(l, k) || IsEnd(r, k)
    case List(l, r) => IsEnd(l, k) || IsEnd(r, k)
    case Back(cmd) => IsEnd(cmd, k)
  }

  ghost predicate EndsIn(args: seq<Span>, k: nat) {
    exists i :: 0 <= i < |args| && args[i].eq == k
  }

  /** The string that C code reads from position `q` on. */
  function CString(buf: seq<char>, q: nat): string
    decreases |buf| - q
  {
    if q < |buf| && buf[q] != NUL then [buf[q]] + CString(buf, q + 1) else ""
  }

  /** The buffer with NULs at the word ends of the command. */
  ghost predicate Terminated(before: seq<char>, after: seq<char>, c: Cmd<Span>) {
    |after| == |before| && forall k: nat :: k < |after| ==> after[k] == if IsEnd(c, k) then NUL else before[k]
  }

  method Nulterminate(buf: array<char>, c: Cmd<Span>, ghost line: string)
    requires Words(line, c) && buf.Length == |line| + 1
    modifies buf
    ensures Terminated(old(buf[..]), buf[..], c)
    decreases c
  {
    match c
    case Exec(args) =>
      var i := 0;
      while i < |args|
        invariant 0 <= i <= |args|
        invariant forall k: nat :: k < buf.Length ==> buf[k] == if EndsIn(args[..i], k) then NUL else old(buf[k])
      {
        buf[args[i].eq] := NUL;
        i := i + 1;
        forall k: nat ensures EndsIn(args[..i], k) <==> EndsIn(args[..i - 1], k) || args[i - 1].eq == k {
          assert args[..i][i - 1] == args[i - 1];
          if EndsIn(args[..i - 1], k) {
            var j :| 0 <= j < i - 1 && args[..i - 1][j].eq == k;
            assert args[..i][j].eq == k;
          }
        }
      }
      assert args[..i] == args;
    case Redir(cmd, file, _, _) =>
      Nulterminate(buf, cmd, line);
      buf[file.eq] := NUL;
    case Pipe(l, r) =>
      Nulterminate(buf, l, line);
      Nulterminate(buf, r, line);
    case List(l, r) =>
      Nulterminate(buf, l, line);
      Nulterminate(buf, r, line);
    case Back(cmd) =>
      Nulterminate(buf, cmd, line);
  }

  lemma {:induction false} EndIsNoWordChar(line: string, c: Cmd<Span>, k: nat)
    requires Words(line, c) && IsEnd(c, k)
    ensures k <= |line| && (k < |line| ==> !WordChar(line[k]))
    decreases c
  {
    match c
    case Exec(args) =>
    case Redir(cmd, file, _, _) => if file.eq != k { EndIsNoWordChar(line, cmd, k); }
    case Pipe(l, r) => if IsEnd(l, k) { EndIsNoWordChar(line, l, k); } else { EndIsNoWordChar(line, r, k); }
    case List(l, r) => if IsEnd(l, k) { EndIsNoWordChar(line, l, k); } else { EndIsNoWordChar(line, r, k); }
    case Back(cmd) => EndIsNoWordChar(line, cmd, k);
  }

  lemma {:induction false} WordOf(line: string, c: Cmd<Span>, s: Span)
    requires Words(line, c) && HasWord(c, s)
    ensures IsWord(line, s) && IsEnd(c, s.eq)
    decreases c
  {
    match c
    case Exec(args) => var i :| 0 <= i < |args| && args[i] == s;
    case Redir(cmd, file, _, _) => if file != s { WordOf(line, cmd, s); }
    case Pipe(l, r) => if HasWord(l, s) { WordOf(line, l, s); } else { WordOf(line, r, s); }
    case List(l, r) => if HasWord(l, s) { WordOf(line, l, s); } else { WordOf(line, r, s); }
    case Back(cmd) => WordOf(line, cmd, s);
  }

  lemma {:induction false} ReadsTo(buf: seq<char>, line: string, q: nat, e: nat)
    requires q <= e <= |line| && e < |buf| && buf[e] == NUL
    requires forall k :: q <= k < e ==> buf[k] == line[k] && line[k] != NUL
    ensures CString(buf, q) == line[q..e]
    decreases e - q
  {
    if q < e {
      ReadsTo(buf, line, q + 1, e);
      assert line[q..e] == [line[q]] + line[q + 1..e];
    }
  }

  /** After parsing and termination every argument and file name reads as its word of the original
      line: no word ends inside another. */
  lemma ReadsAsWord(line: string, c: Cmd<Span>, after: seq<char>, s: Span)
    requires NUL !in line && Words(line, c) && HasWord(c, s) && Terminated(line + [NUL], after, c)
    ensures s.q < s.eq <= |line| && CString(after, s.q) == line[s.q..s.eq]
  {
    WordOf(line, c, s);
    forall k: nat | s.q <= k < s.eq ensures after[k] == line[k] && line[k] != NUL {
      if IsEnd(c, k) { EndIsNoWordChar(line, c, k); }
    }
    ReadsTo(after, line, s.q, s.eq);
  }

  /** parsecmd on a line in a buffer: the parsed command, whose words are now strings in it. */
  method Parsecmd(buf: array<char>, line: string) returns (r: Result<Cmd<Span>>)
    requires NUL !in line && buf[..] == line + [NUL]
    modifies buf
    ensures r == ParseCmd(line)
    ensures r.Ok? ==> forall s: Span :: HasWord(r.value, s) ==>
              s.q < s.eq <= |line| && CString(buf[..], s.q) == line[s.q..s.eq]
  {
    r := ParseCmd(line);
    if r.Ok? {
      LineWords(line, 0);
      Nulterminate(buf, r.value, line);
      forall s: Span | HasWord(r.value, s) ensures s.q < s.eq <= |line| && CString(buf[..], s.q) == line[s.q..s.eq] {
        ReadsAsWord(line, r.value, buf[..], s);
      }
    }
  }
}
