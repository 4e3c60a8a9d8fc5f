/** Log space and buffers: what begin_op's admission test guarantees to log_write and to commit, and
    exactly which disk layouts it is too weak for.
 */
module LogSpace {
  import opened Params
  import opened Sets
  import opened RedoLog
  import opened GroupCommit
  import B = BufferCache

  // ---------------------------------------------------------------- log_write's panic, state by state

  /** An operation within its bound meets the size panic on a block it has not logged before exactly
      when every data block of the log is taken; begin_op's test, which knows only LOGSIZE, rules
      this out if and only if the log is larger than LOGSIZE. */
  lemma NewBlockPanics(lay: Layout, s: State, p: nat, b: int)
    requires Inv(lay, s) && MayLog(lay, s, p, b) && b !in s.ops[p].used
    ensures LogPanics(lay, s) <==> |s.log.lh| == lay.size - 1
    ensures LogPanics(lay, s) ==> lay.size <= LOGSIZE
  {
    OpsBounded(s);
    OneOfMany(s.ops, p);
  }

  /** The most blocks that log_write accepts. */
  function Capacity(lay: Layout): int {
    if lay.size <= LOGSIZE then lay.size - 1 else LOGSIZE
  }

  /** log_write tests for a full log before it looks for the block, so it panics on any block, new
      or already logged, exactly when the capacity is used up.  If that is LOGSIZE, then every
      active operation has spent its credit on blocks of its own. */
  lemma PanicsIffFull(lay: Layout, s: State, p: nat, b: int)
    requires Inv(lay, s) && MayLog(lay, s, p, b)
    ensures LogPanics(lay, s) <==> |s.log.lh| == Capacity(lay)
    ensures |s.log.lh| == LOGSIZE ==> b in s.ops[p].used
    ensures |s.log.lh| == LOGSIZE ==> forall q: nat :: IsActive(s, q) ==> |s.ops[q].used| == MAXOPBLOCKS
  {
    OpsBounded(s);
    CreditBounds(s.ops);
    OneOfMany(s.ops, p);
    if |s.log.lh| == LOGSIZE {
      forall q: nat | IsActive(s, q) ensures |s.ops[q].used| == MAXOPBLOCKS { OneOfMany(s.ops, q); }
    }
  }

  // ---------------------------------------------------------------- bget's panic in commit

  ghost function Pins(l: Log): set<int> {
    set b | b in l.cache && l.cache[b].dirty
  }

  /** bget's panic when no process holds a buffer: the block is not cached and all NBUF buffers are
      pinned. */
  ghost predicate NoBuffer(l: Log, b: int) {
    b !in l.cache && |Pins(l)| >= NBUF
  }

  /** The block that commit's next bread asks for. */
  function NextRead(lay: Layout, l: Log): int
    requires l.Committing()
  {
    if l.phase.k < |l.lh| then lay.start + 1 + l.phase.k else lay.start
  }

  ghost function Elems(s: seq<int>): set<int> {
    set b | b in s
  }

  lemma {:induction false} DistinctCard(s: seq<int>, n: nat)
    requires n <= |s| && forall i :: 0 <= i < |s| ==> Slot(s, s[i]) == i
    ensures |Elems(s[..n])| == n
  {
    if n > 0 {
      DistinctCard(s, n - 1);
      assert s[..n] == s[..n - 1] + [s[n - 1]];
      assert Elems(s[..n]) == Elems(s[..n - 1]) + {s[n - 1]};
      forall i | 0 <= i < n - 1 ensures s[i] != s[n - 1] { assert Slot(s, s[i]) == i; }
    }
  }

  /** The pinned buffers are those of the transaction, until they are installed. */
  lemma PinsListed(lay: Layout, l: Log)
    requires LogInv(lay, l)
    ensures |Pins(l)| <= |l.lh|
    ensures !l.phase.Installing? ==> |Pins(l)| == |l.lh| && forall i :: 0 <= i < |l.lh| ==> l.lh[i] in l.cache
  {
    var listed := Elems(l.lh);
    DistinctCard(l.lh, |l.lh|);
    assert l.lh[..|l.lh|] == l.lh;
    forall b | b in Pins(l) ensures b in listed { assert CacheAt(lay, l, b); }
    SubsetCard(Pins(l), listed);
    if !l.phase.Installing? {
      forall i: nat | i < |l.lh| ensures l.lh[i] in Pins(l) { assert CopyAt(lay, l, i); }
      assert Pins(l) == listed;
    }
  }

  /** Commit finds a buffer for the next block of the log if and only if fewer than NBUF blocks are
      logged: a transaction of LOGSIZE blocks, which begin_op admits, pins every buffer. */
  lemma CommitFindsBuffer(lay: Layout, s: State)
    requires Inv(lay, s) && s.log.Committing() && s.log.lh != [] && |s.log.cache| <= NBUF
    ensures s.log.phase.Logging? ==> (NoBuffer(s.log, NextRead(lay, s.log)) <==> |s.log.lh| == NBUF)
    ensures |s.log.lh| < NBUF ==> !NoBuffer(s.log, NextRead(lay, s.log))
  {
    PinsListed(lay, s.log);
    if s.log.phase.Logging? && |s.log.lh| == NBUF {
      var b := NextRead(lay, s.log);
      SubsetCard(Pins(s.log), s.log.cache.Keys);
      if b in s.log.cache {
        assert CacheAt(lay, s.log, b);
        SubsetCard(Pins(s.log) + {b}, s.log.cache.Keys);
      }
    }
  }

  /** The buffers of bio.c, none of them held by a process, cache what the log's cache does. */
  ghost predicate SameCache(bufs: seq<B.Buf>, l: Log) {
    && |bufs| == NBUF && (forall c: nat :: B.KeyAt(bufs, c))
    && (forall c: nat :: c < |bufs| ==> bufs[c].refcnt == 0 && (bufs[c].dirty ==> bufs[c].dev == 1))
    && (forall b :: b in l.cache <==> exists c: nat :: c < |bufs| && B.Caches(bufs[c], 1, b))
    && (forall b :: b in Pins(l) <==> exists c: nat :: c < |bufs| && B.Caches(bufs[c], 1, b) && bufs[c].dirty)
  }

  /** The blocks of the dirty ones among the first n buffers. */
  ghost function DirtyBlocks(bufs: seq<B.Buf>, n: nat): set<int>
    requires n <= |bufs|
  {
    set c: nat | c < n && bufs[c].dirty :: bufs[c].blockno
  }

  lemma {:induction false} DirtyCard(bufs: seq<B.Buf>, n: nat)
    requires n <= |bufs| && (forall c: nat :: B.KeyAt(bufs, c))
    requires forall c: nat :: c < |bufs| && bufs[c].dirty ==> bufs[c].dev == 1
    ensures |DirtyBlocks(bufs, n)| <= n
    ensures |DirtyBlocks(bufs, n)| == n <==> forall c: nat :: c < n ==> bufs[c].dirty
  {
    if n > 0 {
      DirtyCard(bufs, n - 1);
      var a := DirtyBlocks(bufs, n - 1);
      assert DirtyBlocks(bufs, n) == if bufs[n - 1].dirty then a + {bufs[n - 1].blockno} else a;
      if bufs[n - 1].dirty {
        forall c: nat | c < n - 1 && bufs[c].dirty ensures bufs[c].blockno != bufs[n - 1].blockno {
          assert B.KeyAt(bufs, c) && (B.SameKey(bufs[c], bufs[n - 1]) <==> bufs[c].blockno == bufs[n - 1].blockno);
        }
      }
    }
  }

  /** The panic condition that BufferCache proves for bget, every buffer in use or dirty and none of
      them for the block, is `NoBuffer`. */
  lemma BgetPanics(bufs: seq<B.Buf>, l: Log, b: int)
    requires SameCache(bufs, l)
    ensures NoBuffer(l, b) <==> forall c: nat :: c < |bufs| ==> !B.Caches(bufs[c], 1, b) && !B.Unused(bufs[c])
  {
    DirtyCard(bufs, |bufs|);
    var blocks := DirtyBlocks(bufs, |bufs|);
    forall b | b in Pins(l) ensures b in blocks {
      var c: nat :| c < |bufs| && B.Caches(bufs[c], 1, b) && bufs[c].dirty;
    }
    forall b | b in blocks ensures b in Pins(l) {
      var c: nat :| c < |bufs| && bufs[c].dirty && bufs[c].blockno == b;
      assert B.Caches(bufs[c], 1, b);
    }
    assert Pins(l) == blocks;
  }

  // ---------------------------------------------------------------- runs that fill the log

  /** The i-th home block. */
  function HomeNo(lay: Layout, i: int): int {
    if i < lay.start then i else i + lay.size
  }

  /** How many home blocks there are. */
  function NHomes(lay: Layout): int {
    lay.nblocks - lay.size
  }

  /** How many of the first k blocks the p-th operation logs, when each logs ten in turn. */
  function Share(k: int, p: int): nat {
    if k < 10 * p then 0 else if k < 10 * p + 10 then k - 10 * p else 10
  }

  /** The p-th operation has logged its share of the first k home blocks. */
  ghost predicate OpFilled(lay: Layout, ops: seq<Op>, k: nat, p: nat) {
    && p < |ops| && ops[p].Active? && |ops[p].used| == Share(k, p)
    && forall i: nat :: HomeNo(lay, i) in ops[p].used <==> 10 * p <= i < 10 * p + Share(k, p)
  }

  /** Three operations have logged the first k home blocks, ten each in turn, and nothing else is
      cached. */
  ghost predicate Filled(lay: Layout, s: State, k: nat) {
    && HeaderInv(lay, s.log) && s.log.phase.Running? && s.outstanding == 3 && |s.ops| == 3
    && |s.log.lh| == k == |s.log.cache| && (forall i: nat :: i < k ==> s.log.lh[i] == HomeNo(lay, i))
    && (forall i: nat :: HomeNo(lay, i) in s.log.cache ==> i < k)
    && OpFilled(lay, s.ops, k, 0) && OpFilled(lay, s.ops, k, 1) && OpFilled(lay, s.ops, k, 2)
  }

  /** A run of a machine with NBUF buffers. */
  ghost predicate BoundedRun(lay: Layout, ss: seq<State>, steps: seq<Step>) {
    Run(lay, ss, steps) && forall i :: 0 <= i < |ss| ==> |ss[i].log.cache| <= NBUF
  }

  lemma Extend(lay: Layout, ss: seq<State>, steps: seq<Step>, step: Step)
    returns (ss': seq<State>, steps': seq<Step>)
    requires BoundedRun(lay, ss, steps) && HeaderInv(lay, ss[|ss| - 1].log) && Enabled(lay, ss[|ss| - 1], step)
    requires |Next(lay, ss[|ss| - 1], step).log.cache| <= NBUF
    ensures BoundedRun(lay, ss', steps') && ss'[|ss'| - 1] == Next(lay, ss[|ss| - 1], step)
    ensures Inv(lay, ss'[|ss'| - 1])
  {
    RunInv(lay, ss, steps, |ss| - 1);
    NextInv(lay, ss[|ss| - 1], step);
    ss', steps' := ss + [Next(lay, ss[|ss| - 1], step)], steps + [step];
    forall i | 0 <= i < |steps'| ensures Takes(lay, ss'[i], steps'[i], ss'[i + 1]) {
      if i < |steps| { assert Takes(lay, ss[i], steps[i], ss[i + 1]); }
    }
  }

  /** Recovery of an empty log; its header is recycled. */
  lemma Boot(lay: Layout) returns (ss: seq<State>, steps: seq<Step>)
    requires lay.Valid()
    ensures BoundedRun(lay, ss, steps) && HeaderInv(lay, ss[|ss| - 1].log)
    ensures var s := ss[|ss| - 1];
            && s.log.phase.Running? && s.log.lh == [] && s.log.cache == map[]
            && s.ops == [Idle, Idle, Idle] && s.outstanding == 0
  {
    var zero: Block := Block(seq(WORDS, _ => 0));
    var log := Log(seq(lay.nblocks, _ => zero), map[], [], Installing(0, true));
    ss, steps := [State(log, [Idle, Idle, Idle], 0)], [];
    assert Listed(zero) == [];
    ss, steps := Extend(lay, ss, steps, Recover);
    ss, steps := Extend(lay, ss, steps, Recycle(lay.start));
    assert ss[|ss| - 1].log.cache == map[];
  }

  lemma StartThree(lay: Layout) returns (ss: seq<State>, steps: seq<Step>)
    requires lay.Valid()
    ensures BoundedRun(lay, ss, steps) && Filled(lay, ss[|ss| - 1], 0)
  {
    ss, steps := Boot(lay);
    ss, steps := Extend(lay, ss, steps, BeginOp(0));
    ss, steps := Extend(lay, ss, steps, BeginOp(1));
    ss, steps := Extend(lay, ss, steps, BeginOp(2));
  }

  /** Operation `q` logs home block number `k`. */
  lemma FillOp(lay: Layout, ops: seq<Op>, q: nat, k: nat, p: nat)
    requires q == k / 10 && q < |ops| && OpFilled(lay, ops, k, p) && OpFilled(lay, ops, k, q)
    ensures HomeNo(lay, k) !in ops[q].used && |ops[q].used| < MAXOPBLOCKS
    ensures OpFilled(lay, ops[q := Active(ops[q].used + {HomeNo(lay, k)})], k + 1, p)
  {
  }

  lemma FillCache(lay: Layout, l: Log, k: nat, data: Block)
    requires |l.lh| == k == |l.cache| && (forall i: nat :: i < k ==> l.lh[i] == HomeNo(lay, i))
    requires forall i: nat :: HomeNo(lay, i) in l.cache ==> i < k
    ensures var l' := Append(l, HomeNo(lay, k), data);
            && |l'.lh| == k + 1 == |l'.cache| && (forall i: nat :: i < k + 1 ==> l'.lh[i] == HomeNo(lay, i))
            && forall i: nat :: HomeNo(lay, i) in l'.cache ==> i < k + 1
  {
    assert HomeNo(lay, k) !in l.lh;
  }

  lemma FillOne(lay: Layout, s: State, q: nat, k: nat, data: Block)
    requires lay.Valid() && k < Capacity(lay) && k < NHomes(lay) && q == k / 10 && Filled(lay, s, k)
    ensures Enabled(lay, s, LogWrite(q, HomeNo(lay, k), data))
    ensures Filled(lay, Next(lay, s, LogWrite(q, HomeNo(lay, k), data)), k + 1)
  {
    FillOp(lay, s.ops, q, k, 0);
    FillOp(lay, s.ops, q, k, 1);
    FillOp(lay, s.ops, q, k, 2);
    FillCache(lay, s.log, k, data);
    AppendHeader(lay, s.log, HomeNo(lay, k), data);
  }

  lemma {:induction false} FillLog(lay: Layout, k: nat) returns (ss: seq<State>, steps: seq<Step>)
    requires lay.Valid() && k <= Capacity(lay) && k <= NHomes(lay)
    ensures BoundedRun(lay, ss, steps) && Filled(lay, ss[|ss| - 1], k)
  {
    if k == 0 {
      ss, steps := StartThree(lay);
    } else {
      ss, steps := FillLog(lay, k - 1);
      var q, data := (k - 1) / 10, Block(seq(WORDS, _ => 0));
      FillOne(lay, ss[|ss| - 1], q, k - 1, data);
      ss, steps := Extend(lay, ss, steps, LogWrite(q, HomeNo(lay, k - 1), data));
    }
  }

  // ---------------------------------------------------------------- which layouts panic

  /** At most as many distinct home blocks are listed as there are. */
  lemma ListFits(lay: Layout, lh: seq<int>)
    requires lay.Valid() && ValidList(lay, lh)
    ensures |lh| <= NHomes(lay)
  {
    DistinctCard(lh, |lh|);
    assert lh[..|lh|] == lh;
    HomesCard(lay, lay.nblocks);
    SubsetCard(Elems(lh), set b: int | 0 <= b < lay.nblocks && lay.Home(b));
  }

  lemma {:induction false} HomesCard(lay: Layout, n: nat)
    requires lay.Valid() && n <= lay.nblocks
    ensures |set b: int | 0 <= b < n && lay.Home(b)| ==
            if n <= lay.start then n else if n <= lay.start + lay.size then lay.start else n - lay.size
  {
    if n == 0 {
      assert (set b: int | 0 <= b < n && lay.Home(b)) == {};
    } else {
      HomesCard(lay, n - 1);
      var a, a' := set b: int | 0 <= b < n - 1 && lay.Home(b), set b: int | 0 <= b < n && lay.Home(b);
      assert a' == if lay.Home(n - 1) then a + {n - 1} else a;
    }
  }

  /** A run ends where process `p` meets the size panic on block `b`, which its operation has not
      logged before if `isNew`, and has if not. */
  ghost predicate PanicsAt(lay: Layout, ss: seq<State>, steps: seq<Step>, p: nat, b: int, isNew: bool) {
    && BoundedRun(lay, ss, steps)
    && var s := ss[|ss| - 1]; MayLog(lay, s, p, b) && (b !in s.ops[p].used <==> isNew) && LogPanics(lay, s)
  }

  ghost predicate CanPanic(lay: Layout, isNew: bool) {
    exists ss, steps, p, b :: PanicsAt(lay, ss, steps, p, b, isNew)
  }

  /** A run that uses up the capacity, and the operation that then panics. */
  lemma PanicRun(lay: Layout, isNew: bool)
    requires lay.Valid() && Capacity(lay) <= NHomes(lay) && NHomes(lay) >= 1
    requires if isNew then lay.size <= LOGSIZE else lay.size > 1
    ensures CanPanic(lay, isNew)
  {
    var k := Capacity(lay);
    var ss, steps := FillLog(lay, k);
    var s := ss[|ss| - 1];
    if !isNew {
      assert PanicsAt(lay, ss, steps, 0, HomeNo(lay, 0), isNew);
    } else if k < NHomes(lay) {
      assert OpFilled(lay, s.ops, k, k / 10);
      assert PanicsAt(lay, ss, steps, k / 10, HomeNo(lay, k), isNew);
    } else {
      var p := if k < 10 then 1 else k / 10;
      assert OpFilled(lay, s.ops, k, p);
      assert PanicsAt(lay, ss, steps, p, HomeNo(lay, 0), isNew);
    }
  }

  /** The size panic on a new block of an operation within its bound is reachable if and only if the
      log has at most LOGSIZE blocks, as the one that mkfs makes, and there are home blocks enough
      to fill it. */
  lemma NewBlockPanicIff(lay: Layout)
    requires lay.Valid()
    ensures CanPanic(lay, true) <==> lay.size <= LOGSIZE && 1 <= NHomes(lay) && lay.size - 1 <= NHomes(lay)
  {
    if CanPanic(lay, true) {
      var ss: seq<State>, steps, p: nat, b :| PanicsAt(lay, ss, steps, p, b, true);
      RunInv(lay, ss, steps, |ss| - 1);
      NewBlockPanics(lay, ss[|ss| - 1], p, b);
      ListFits(lay, ss[|ss| - 1].log.lh);
    } else if lay.size <= LOGSIZE && 1 <= NHomes(lay) && lay.size - 1 <= NHomes(lay) {
      PanicRun(lay, true);
    }
  }

  /** The panic on a block that the operation has logged already is reachable on every log that has
      data blocks, if there are home blocks enough to use up its capacity. */
  lemma LoggedBlockPanicIff(lay: Layout)
    requires lay.Valid()
    ensures CanPanic(lay, false) <==> 1 <= Capacity(lay) <= NHomes(lay)
  {
    if CanPanic(lay, false) {
      var ss: seq<State>, steps, p: nat, b :| PanicsAt(lay, ss, steps, p, b, false);
      RunInv(lay, ss, steps, |ss| - 1);
      var s := ss[|ss| - 1];
      PanicsIffFull(lay, s, p, b);
      ListFits(lay, s.log.lh);
      assert OpOk(s.log.lh, s.ops[p]);
    } else if 1 <= Capacity(lay) <= NHomes(lay) {
      PanicRun(lay, false);
    }
  }

  /** A run ends in a commit that finds no buffer. */
  ghost predicate StuckAt(lay: Layout, ss: seq<State>, steps: seq<Step>) {
    && BoundedRun(lay, ss, steps)
    && var l := ss[|ss| - 1].log; l.Committing() && l.lh != [] && NoBuffer(l, NextRead(lay, l))
  }

  ghost predicate CanStick(lay: Layout) {
    exists ss, steps :: StuckAt(lay, ss, steps)
  }

  lemma StuckRun(lay: Layout)
    requires lay.Valid() && lay.size > LOGSIZE && LOGSIZE <= NHomes(lay)
    ensures CanStick(lay)
  {
    var ss, steps := FillLog(lay, LOGSIZE);
    ss, steps := Extend(lay, ss, steps, EndOp(0));
    ss, steps := Extend(lay, ss, steps, EndOp(1));
    ss, steps := Extend(lay, ss, steps, EndOp(2));
    CommitFindsBuffer(lay, ss[|ss| - 1]);
    assert StuckAt(lay, ss, steps);
  }

  /** The panic in commit is reachable if and only if the log has more than LOGSIZE blocks.  So with
      LOGSIZE home blocks or more, every log size has a run within all bounds that panics: in
      log_write on a new block if the log is small, in commit if it is large. */
  lemma CommitPanicIff(lay: Layout)
    requires lay.Valid()
    ensures CanStick(lay) <==> lay.size > LOGSIZE && LOGSIZE <= NHomes(lay)
    ensures LOGSIZE <= NHomes(lay) ==> (CanStick(lay) <==> !CanPanic(lay, true))
  {
    if CanStick(lay) {
      var ss: seq<State>, steps :| StuckAt(lay, ss, steps);
      RunInv(lay, ss, steps, |ss| - 1);
      CommitFindsBuffer(lay, ss[|ss| - 1]);
      ListFits(lay, ss[|ss| - 1].log.lh);
    } else if lay.size > LOGSIZE && LOGSIZE <= NHomes(lay) {
      StuckRun(lay);
    }
    NewBlockPanicIff(lay);
  }
}
