/** The redo log of log.c over the buffer cache of bio.c and the memory disk of memide.c,
    as a machine whose steps are single-block disk writes and cache operations.
 */
module RedoLog {
  import opened Params

  const LOGSIZE := 3 * MAXOPBLOCKS
  const WORDS := 128  // 32-bit words in a block of BSIZE bytes

  datatype Block = Block(w: seq<int>)
  type Disk = seq<Block>

  /** Where the log area lies: `start` holds the header, the rest of the `size` blocks hold data. */
  datatype Layout = Layout(start: nat, size: nat, nblocks: nat) {
    predicate Valid() {
      1 <= size && start + size <= nblocks
    }

    predicate Home(b: int) {
      0 <= b < nblocks && !(start <= b < start + size)
    }

    function Homes(): (r: set<int>)
      ensures forall b :: b in r <==> Home(b)
    {
      set b: int | 0 <= b < nblocks && Home(b)
    }
  }

  // ---------------------------------------------------------------- the header block

  /** The position of `b` in the list, or the list's length. */
  ghost function Slot(lh: seq<int>, b: int): (i: nat)
    ensures if b in lh then i < |lh| && lh[i] == b else i == |lh|
  {
    if b in lh then var i: nat :| i < |lh| && lh[i] == b; i else |lh|
  }

  /** A list of block numbers that fits the log and names distinct home blocks. */
  ghost predicate ValidList(lay: Layout, lh: seq<int>) {
    && |lh| <= LOGSIZE && |lh| < lay.size
    && forall i :: 0 <= i < |lh| ==> lay.Home(lh[i]) && Slot(lh, lh[i]) == i
  }

  predicate ValidHeader(h: Block) {
    |h.w| == WORDS && 0 <= h.w[0] < WORDS
  }

  /** The header as read_head sees it: word 0 counts the block numbers that follow. */
  function Listed(h: Block): (lh: seq<int>)
    requires ValidHeader(h)
  {
    h.w[1..1 + h.w[0]]
  }

  /** The header as write_head leaves it: entries past the count keep their old words. */
  function WithList(h: Block, lh: seq<int>): (r: Block)
    requires ValidHeader(h) && |lh| < WORDS
    ensures ValidHeader(r) && Listed(r) == lh
  {
    Block([|lh|] + lh + h.w[1 + |lh|..])
  }

  ghost predicate ValidDisk(lay: Layout, disk: Disk) {
    && lay.Valid() && |disk| == lay.nblocks
    && ValidHeader(disk[lay.start])
    && ValidList(lay, Listed(disk[lay.start]))
  }

  /** The content that recovery gives home block `b`: its log copy if the header lists it. */
  ghost function DurableAt(lay: Layout, disk: Disk, b: int): Block
    requires ValidDisk(lay, disk) && lay.Home(b)
  {
    var lh := Listed(disk[lay.start]);
    if b in lh then disk[lay.start + 1 + Slot(lh, b)] else disk[b]
  }

  ghost function Durable(lay: Layout, disk: Disk): map<int, Block>
    requires ValidDisk(lay, disk)
  {
    map b: int | b in lay.Homes() :: DurableAt(lay, disk, b)
  }

  // ---------------------------------------------------------------- disk, cache and transaction

  datatype Buf = Buf(data: Block, dirty: bool)

  /** `Logging(k)` has written k log blocks; `Installing(k, _)` has copied k of them home. */
  datatype Phase = Running | Logging(k: nat) | Installing(k: nat, recovering: bool)

  datatype Log = Log(disk: Disk, cache: map<int, Buf>, lh: seq<int>, phase: Phase) {
    predicate Recovering() {
      phase.Installing? && phase.recovering
    }

    predicate Committing() {
      phase.Logging? || (phase.Installing? && !phase.recovering)
    }
  }

  /** What bread returns for block `b`. */
  function View(l: Log, b: int): Block
    requires 0 <= b < |l.disk|
  {
    if b in l.cache then l.cache[b].data else l.disk[b]
  }

  /** The state after bread has cached block `b`. */
  function Fill(l: Log, b: int): Log
    requires 0 <= b < |l.disk|
  {
    if b in l.cache then l else l.(cache := l.cache[b := Buf(l.disk[b], false)])
  }

  /** bget recycles the buffer of block `b`. */
  function Evict(l: Log, b: int): Log {
    l.(cache := l.cache - {b})
  }

  /** bwrite: one disk write, which clears the dirty flag. */
  function Write(l: Log, b: int, data: Block): Log
    requires 0 <= b < |l.disk|
  {
    l.(disk := l.disk[b := data], cache := l.cache[b := Buf(data, false)])
  }

  /** log_write: record the block number once and pin the buffer. */
  function Append(l: Log, b: int, data: Block): Log {
    l.(lh := if b in l.lh then l.lh else l.lh + [b], cache := l.cache[b := Buf(data, true)])
  }

  /** commit up to its header write: log blocks from the cache, then the header. */
  function LogStep(lay: Layout, l: Log): Log
    requires HeaderInv(lay, l) && l.phase.Logging?
  {
    var k := l.phase.k;
    if l.lh == [] then l.(phase := Running)
    else if k < |l.lh| then Write(l, lay.start + 1 + k, View(l, l.lh[k])).(phase := Logging(k + 1))
    else Write(l, lay.start, WithList(l.disk[lay.start], l.lh)).(phase := Installing(0, false))
  }

  /** install_trans, then the erasing header write: the second half of commit and of recovery. */
  function InstallStep(lay: Layout, l: Log): Log
    requires HeaderInv(lay, l) && l.phase.Installing?
  {
    var k := l.phase.k;
    if k < |l.lh| then
      Write(l, l.lh[k], l.disk[lay.start + 1 + k]).(phase := Installing(k + 1, l.phase.recovering))
    else
      Write(l, lay.start, WithList(l.disk[lay.start], [])).(lh := [], phase := Running)
  }

  /** Power loss, and read_head at the start of recover_from_log. */
  function Reboot(lay: Layout, disk: Disk): Log
    requires ValidDisk(lay, disk)
  {
    Log(disk, map[], Listed(disk[lay.start]), Installing(0, true))
  }

  // ---------------------------------------------------------------- the invariant

  /** The on-disk header lists the transaction exactly from its commit to its erasure. */
  ghost predicate HeaderInv(lay: Layout, l: Log) {
    ValidDisk(lay, l.disk) && ValidList(lay, l.lh) &&
    var listed := Listed(l.disk[lay.start]);
    match l.phase
    case Running => listed == []
    case Logging(k) => k <= |l.lh| && listed == []
    case Installing(k, _) => k <= |l.lh| && listed == l.lh
  }

  ghost predicate Pinned(l: Log, b: int) {
    b in l.cache && l.cache[b].dirty
  }

  /** A clean buffer equals its disk block, and only blocks of the transaction are pinned. */
  ghost predicate CacheAt(lay: Layout, l: Log, b: int)
    requires HeaderInv(lay, l) && b in l.cache
  {
    && 0 <= b < lay.nblocks
    && if l.cache[b].dirty then b in l.lh && !l.Recovering() else l.cache[b].data == l.disk[b]
  }

  /** A block of the transaction stays pinned until it is installed; its log copy, once written,
      equals the buffer, and once installed, the home block. */
  ghost predicate CopyAt(lay: Layout, l: Log, i: nat)
    requires HeaderInv(lay, l) && i < |l.lh|
  {
    match l.phase
    case Running => Pinned(l, l.lh[i])
    case Logging(k) => Pinned(l, l.lh[i]) && (i < k ==> l.disk[lay.start + 1 + i] == l.cache[l.lh[i]].data)
    case Installing(k, recovering) =>
      if i < k then l.disk[l.lh[i]] == l.disk[lay.start + 1 + i] && !Pinned(l, l.lh[i])
      else recovering || (Pinned(l, l.lh[i]) && l.disk[lay.start + 1 + i] == l.cache[l.lh[i]].data)
  }

  ghost predicate LogInv(lay: Layout, l: Log) {
    && HeaderInv(lay, l)
    && (forall b {:trigger CacheAt(lay, l, b)} :: b in l.cache ==> CacheAt(lay, l, b))
    && (forall i: nat :: i < |l.lh| ==> CopyAt(lay, l, i))
  }

  // ---------------------------------------------------------------- every step keeps it

  lemma AppendHeader(lay: Layout, l: Log, b: int, data: Block)
    requires HeaderInv(lay, l) && l.phase.Running? && lay.Home(b) && |l.lh| < LOGSIZE && |l.lh| < lay.size - 1
    ensures HeaderInv(lay, Append(l, b, data))
  {
    if b !in l.lh {
      var lh := l.lh + [b];
      forall i | 0 <= i < |lh| ensures lay.Home(lh[i]) && Slot(lh, lh[i]) == i {
        var j := Slot(lh, lh[i]);
        assert lh[i] in lh && lh[j] == lh[i];
        if i < |l.lh| && j < |l.lh| { assert l.lh[i] == l.lh[j]; }
      }
    }
  }

  lemma AppendInv(lay: Layout, l: Log, b: int, data: Block)
    requires LogInv(lay, l) && l.phase.Running? && lay.Home(b) && |l.lh| < LOGSIZE && |l.lh| < lay.size - 1
    ensures LogInv(lay, Append(l, b, data))
  {
    var l' := Append(l, b, data);
    AppendHeader(lay, l, b, data);
    forall c | c in l'.cache ensures CacheAt(lay, l', c) { if c != b { assert CacheAt(lay, l, c); } }
    forall i: nat | i < |l'.lh| ensures CopyAt(lay, l', i) { if i < |l.lh| { assert CopyAt(lay, l, i); } }
  }

  lemma FillInv(lay: Layout, l: Log, b: int)
    requires LogInv(lay, l) && 0 <= b < lay.nblocks
    ensures LogInv(lay, Fill(l, b))
  {
    var l' := Fill(l, b);
    forall c | c in l'.cache ensures CacheAt(lay, l', c) { if c in l.cache { assert CacheAt(lay, l, c); } }
    forall i: nat | i < |l.lh| ensures CopyAt(lay, l', i) { assert CopyAt(lay, l, i); }
  }

  lemma EvictInv(lay: Layout, l: Log, b: int)
    requires LogInv(lay, l) && !Pinned(l, b)
    ensures LogInv(lay, Evict(l, b))
  {
    var l' := Evict(l, b);
    forall c | c in l'.cache ensures CacheAt(lay, l', c) { assert CacheAt(lay, l, c); }
    forall i: nat | i < |l.lh| ensures CopyAt(lay, l', i) { assert CopyAt(lay, l, i); }
  }

  lemma LogStepInv(lay: Layout, l: Log)
    requires LogInv(lay, l) && l.phase.Logging?
    ensures LogInv(lay, LogStep(lay, l))
  {
    var l' := LogStep(lay, l);
    if l.phase.k < |l.lh| { assert CopyAt(lay, l, l.phase.k); }
    forall c | c in l'.cache ensures CacheAt(lay, l', c) { if c in l.cache { assert CacheAt(lay, l, c); } }
    forall i: nat | i < |l.lh| ensures CopyAt(lay, l', i) { assert CopyAt(lay, l, i); }
  }

  lemma InstallStepHeader(lay: Layout, l: Log)
    requires HeaderInv(lay, l) && l.phase.Installing?
    ensures HeaderInv(lay, InstallStep(lay, l))
  {
  }

  lemma InstallStepCache(lay: Layout, l: Log, c: int)
    requires LogInv(lay, l) && l.phase.Installing? && HeaderInv(lay, InstallStep(lay, l))
    requires c in InstallStep(lay, l).cache
    ensures CacheAt(lay, InstallStep(lay, l), c)
  {
    if c in l.cache {
      assert CacheAt(lay, l, c);
      if c in l.lh { assert CopyAt(lay, l, Slot(l.lh, c)); }
    }
  }

  /** Block `i` of the list when block `k` has been installed. */
  ghost predicate Installed(lay: Layout, l: Log, l': Log, k: nat, i: nat)
    requires HeaderInv(lay, l) && k < |l.lh| && i < |l.lh|
  {
    && |l'.disk| == |l.disk| && l'.disk[lay.start + 1 + i] == l.disk[lay.start + 1 + i]
    && if i == k then l'.disk[l.lh[i]] == l.disk[lay.start + 1 + i] && !Pinned(l', l.lh[i])
       else && l'.disk[l.lh[i]] == l.disk[l.lh[i]] && (l.lh[i] in l'.cache <==> l.lh[i] in l.cache)
            && (l.lh[i] in l.cache ==> l'.cache[l.lh[i]] == l.cache[l.lh[i]])
  }

  /** Installing leaves the log copies and the other listed blocks alone. */
  lemma InstallWrites(lay: Layout, l: Log, k: nat, i: nat)
    requires HeaderInv(lay, l) && k < |l.lh| && i < |l.lh|
    ensures 0 <= l.lh[k] < |l.disk| && Installed(lay, l, Write(l, l.lh[k], l.disk[lay.start + 1 + k]), k, i)
  {
    assert Slot(l.lh, l.lh[i]) == i && Slot(l.lh, l.lh[k]) == k;
  }

  lemma InstallStepCopy(lay: Layout, l: Log, l': Log, i: nat)
    requires HeaderInv(lay, l) && l.phase.Installing? && l.phase.k < |l.lh| && i < |l.lh| && CopyAt(lay, l, i)
    requires HeaderInv(lay, l') && l'.lh == l.lh && l'.phase == Installing(l.phase.k + 1, l.phase.recovering)
    requires Installed(lay, l, l', l.phase.k, i)
    ensures CopyAt(lay, l', i)
  {
  }

  lemma InstallStepInv(lay: Layout, l: Log)
    requires LogInv(lay, l) && l.phase.Installing?
    ensures LogInv(lay, InstallStep(lay, l))
  {
    InstallStepHeader(lay, l);
    var l' := InstallStep(lay, l);
    forall c | c in l'.cache ensures CacheAt(lay, l', c) { InstallStepCache(lay, l, c); }
    forall i: nat | i < |l'.lh| ensures CopyAt(lay, l', i) {
      assert CopyAt(lay, l, i);
      InstallWrites(lay, l, l.phase.k, i);
      InstallStepCopy(lay, l, l', i);
    }
  }

  lemma RebootInv(lay: Layout, disk: Disk)
    requires ValidDisk(lay, disk)
    ensures LogInv(lay, Reboot(lay, disk))
  {
  }

  // ---------------------------------------------------------------- durable and current contents

  /** Home block `b` as file-system operations see it; recovery runs before any of them. */
  ghost function CurrentAt(lay: Layout, l: Log, b: int): Block
    requires HeaderInv(lay, l) && lay.Home(b)
  {
    if l.Recovering() then DurableAt(lay, l.disk, b) else View(l, b)
  }

  ghost function Current(lay: Layout, l: Log): map<int, Block>
    requires HeaderInv(lay, l)
  {
    map b: int | b in lay.Homes() :: CurrentAt(lay, l, b)
  }

  /** The header write of a non-empty transaction. */
  predicate AtCommitPoint(l: Log) {
    l.phase.Logging? && l.phase.k == |l.lh| && l.lh != []
  }

  /** Writing a log block while the header lists nothing changes no durable block. */
  lemma CopyDurable(lay: Layout, disk: Disk, i: nat, data: Block, b: int)
    requires ValidDisk(lay, disk) && Listed(disk[lay.start]) == [] && i + 1 < lay.size && lay.Home(b)
    ensures var disk' := disk[lay.start + 1 + i := data];
            ValidDisk(lay, disk') && DurableAt(lay, disk', b) == DurableAt(lay, disk, b)
  {
  }

  /** Writing the header makes the log copies of the listed blocks durable. */
  lemma HeaderDurable(lay: Layout, disk: Disk, lh: seq<int>, b: int)
    requires ValidDisk(lay, disk) && ValidList(lay, lh) && lay.Home(b)
    ensures var disk' := disk[lay.start := WithList(disk[lay.start], lh)];
            ValidDisk(lay, disk') &&
            DurableAt(lay, disk', b) == if b in lh then disk[lay.start + 1 + Slot(lh, b)] else disk[b]
  {
  }

  lemma WriteView(l: Log, a: int, data: Block, b: int)
    requires 0 <= a < |l.disk| && 0 <= b < |l.disk| && a != b
    ensures View(Write(l, a, data), b) == View(l, b)
  {
  }

  lemma LogStepCurrent(lay: Layout, l: Log, b: int)
    requires HeaderInv(lay, l) && l.phase.Logging? && HeaderInv(lay, LogStep(lay, l)) && lay.Home(b)
    ensures CurrentAt(lay, LogStep(lay, l), b) == CurrentAt(lay, l, b) == View(l, b)
  {
    if l.phase.k < |l.lh| {
      WriteView(l, lay.start + 1 + l.phase.k, View(l, l.lh[l.phase.k]), b);
    } else if l.lh != [] {
      WriteView(l, lay.start, WithList(l.disk[lay.start], l.lh), b);
    }
  }

  /** When all log blocks are written, they and the rest of the disk hold what is read. */
  lemma AllLogged(lay: Layout, l: Log, b: int)
    requires LogInv(lay, l) && AtCommitPoint(l) && lay.Home(b)
    ensures View(l, b) == if b in l.lh then l.disk[lay.start + 1 + Slot(l.lh, b)] else l.disk[b]
  {
    if b in l.lh { assert CopyAt(lay, l, Slot(l.lh, b)); }
    if b in l.cache { assert CacheAt(lay, l, b); }
  }

  lemma LogStepDurable(lay: Layout, l: Log, b: int)
    requires HeaderInv(lay, l) && l.phase.Logging? && HeaderInv(lay, LogStep(lay, l)) && lay.Home(b)
    requires AtCommitPoint(l) ==> View(l, b) == if b in l.lh then l.disk[lay.start + 1 + Slot(l.lh, b)] else l.disk[b]
    ensures DurableAt(lay, LogStep(lay, l).disk, b) ==
            if AtCommitPoint(l) then View(l, b) else DurableAt(lay, l.disk, b)
  {
    if l.phase.k < |l.lh| {
      CopyDurable(lay, l.disk, l.phase.k, View(l, l.lh[l.phase.k]), b);
    } else if l.lh != [] {
      HeaderDurable(lay, l.disk, l.lh, b);
    }
  }

  /** Only the header write changes what a crash would leave, and it does so all at once. */
  lemma LogStepContents(lay: Layout, l: Log)
    requires LogInv(lay, l) && l.phase.Logging?
    ensures LogInv(lay, LogStep(lay, l)) && Current(lay, LogStep(lay, l)) == Current(lay, l)
    ensures Durable(lay, LogStep(lay, l).disk) ==
            if AtCommitPoint(l) then Current(lay, l) else Durable(lay, l.disk)
  {
    LogStepInv(lay, l);
    forall b | b in lay.Homes()
      ensures CurrentAt(lay, LogStep(lay, l), b) == CurrentAt(lay, l, b)
      ensures DurableAt(lay, LogStep(lay, l).disk, b) ==
              if AtCommitPoint(l) then CurrentAt(lay, l, b) else DurableAt(lay, l.disk, b)
    {
      LogStepCurrent(lay, l, b);
      if AtCommitPoint(l) { AllLogged(lay, l, b); }
      LogStepDurable(lay, l, b);
    }
  }

  /** Copying a log block home changes nothing that recovery would leave. */
  lemma HomeWriteDurable(lay: Layout, disk: Disk, i: nat, b: int)
    requires ValidDisk(lay, disk) && i < |Listed(disk[lay.start])| && lay.Home(b)
    ensures var disk' := disk[Listed(disk[lay.start])[i] := disk[lay.start + 1 + i]];
            ValidDisk(lay, disk') && DurableAt(lay, disk', b) == DurableAt(lay, disk, b)
  {
    var lh := Listed(disk[lay.start]);
    assert disk[lh[i] := disk[lay.start + 1 + i]][lay.start] == disk[lay.start];
  }

  /** Nor does erasing the header once the block is installed. */
  lemma EraseDurable(lay: Layout, disk: Disk, b: int)
    requires ValidDisk(lay, disk) && lay.Home(b)
    requires var lh := Listed(disk[lay.start]); b in lh ==> disk[b] == disk[lay.start + 1 + Slot(lh, b)]
    ensures var disk' := disk[lay.start := WithList(disk[lay.start], [])];
            ValidDisk(lay, disk') && DurableAt(lay, disk', b) == DurableAt(lay, disk, b) == disk[b]
  {
  }

  /** When all blocks are installed, the disk holds what recovery would leave. */
  lemma AllInstalled(lay: Layout, l: Log, b: int)
    requires LogInv(lay, l) && l.phase.Installing? && l.phase.k == |l.lh| && lay.Home(b)
    ensures b in l.lh ==> l.disk[b] == l.disk[lay.start + 1 + Slot(l.lh, b)]
  {
    if b in l.lh { assert CopyAt(lay, l, Slot(l.lh, b)); }
  }

  lemma InstallStepDurable(lay: Layout, l: Log, b: int)
    requires HeaderInv(lay, l) && l.phase.Installing? && HeaderInv(lay, InstallStep(lay, l)) && lay.Home(b)
    requires l.phase.k == |l.lh| && b in l.lh ==> l.disk[b] == l.disk[lay.start + 1 + Slot(l.lh, b)]
    ensures DurableAt(lay, InstallStep(lay, l).disk, b) == DurableAt(lay, l.disk, b)
  {
    if l.phase.k < |l.lh| {
      HomeWriteDurable(lay, l.disk, l.phase.k, b);
    } else {
      EraseDurable(lay, l.disk, b);
    }
  }

  /** In a commit the cache already holds what is installed. */
  lemma CommitStepCurrent(lay: Layout, l: Log, b: int)
    requires LogInv(lay, l) && l.phase.Installing? && !l.phase.recovering && lay.Home(b)
    requires HeaderInv(lay, InstallStep(lay, l))
    ensures CurrentAt(lay, InstallStep(lay, l), b) == CurrentAt(lay, l, b)
  {
    if l.phase.k < |l.lh| && b == l.lh[l.phase.k] { assert CopyAt(lay, l, l.phase.k); }
  }

  /** At the end of a recovery the disk and the cache hold what was durable. */
  lemma RecoveredCurrent(lay: Layout, l: Log, b: int)
    requires LogInv(lay, l) && l.Recovering() && l.phase.k == |l.lh| && lay.Home(b)
    requires HeaderInv(lay, InstallStep(lay, l))
    ensures CurrentAt(lay, InstallStep(lay, l), b) == CurrentAt(lay, l, b)
  {
    AllInstalled(lay, l, b);
    EraseDurable(lay, l.disk, b);
    if b in l.cache {
      assert CacheAt(lay, l, b);
    }
  }

  lemma InstallStepCurrent(lay: Layout, l: Log, b: int)
    requires LogInv(lay, l) && l.phase.Installing? && HeaderInv(lay, InstallStep(lay, l)) && lay.Home(b)
    ensures CurrentAt(lay, InstallStep(lay, l), b) == CurrentAt(lay, l, b)
  {
    if !l.phase.recovering {
      CommitStepCurrent(lay, l, b);
    } else if l.phase.k == |l.lh| {
      RecoveredCurrent(lay, l, b);
    } else {
      InstallStepDurable(lay, l, b);
    }
  }

  /** Installing, in a commit or in a recovery, may stop anywhere: what recovery would leave
      does not change. */
  lemma InstallStepContents(lay: Layout, l: Log)
    requires LogInv(lay, l) && l.phase.Installing?
    ensures LogInv(lay, InstallStep(lay, l)) && Current(lay, InstallStep(lay, l)) == Current(lay, l)
    ensures Durable(lay, InstallStep(lay, l).disk) == Durable(lay, l.disk)
  {
    InstallStepInv(lay, l);
    forall b | b in lay.Homes()
      ensures CurrentAt(lay, InstallStep(lay, l), b) == CurrentAt(lay, l, b)
      ensures DurableAt(lay, InstallStep(lay, l).disk, b) == DurableAt(lay, l.disk, b)
    {
      if l.phase.k == |l.lh| { AllInstalled(lay, l, b); }
      InstallStepDurable(lay, l, b);
      InstallStepCurrent(lay, l, b);
    }
  }

  /** Between transactions the disk itself holds the current contents. */
  lemma NothingLogged(lay: Layout, l: Log)
    requires LogInv(lay, l) && !l.phase.Installing? && l.lh == []
    ensures Current(lay, l) == Durable(lay, l.disk)
  {
    forall b | b in lay.Homes() ensures CurrentAt(lay, l, b) == DurableAt(lay, l.disk, b) {
      if b in l.cache { assert CacheAt(lay, l, b); }
    }
  }

  /** Reading a block into the cache, or recycling a clean buffer, changes nothing that is read. */
  lemma FillContents(lay: Layout, l: Log, b: int)
    requires LogInv(lay, l) && 0 <= b < lay.nblocks
    ensures LogInv(lay, Fill(l, b)) && Current(lay, Fill(l, b)) == Current(lay, l)
    ensures View(Fill(l, b), b) == View(l, b) && (!lay.Home(b) ==> View(l, b) == l.disk[b])
  {
    FillInv(lay, l, b);
    if b in l.cache { assert CacheAt(lay, l, b); }
  }

  lemma EvictContents(lay: Layout, l: Log, b: int)
    requires LogInv(lay, l) && !Pinned(l, b)
    ensures LogInv(lay, Evict(l, b)) && Current(lay, Evict(l, b)) == Current(lay, l)
  {
    EvictInv(lay, l, b);
    if b in l.cache { assert CacheAt(lay, l, b); }
  }

  lemma AppendContents(lay: Layout, l: Log, b: int, data: Block)
    requires LogInv(lay, l) && l.phase.Running? && lay.Home(b) && |l.lh| < LOGSIZE && |l.lh| < lay.size - 1
    ensures LogInv(lay, Append(l, b, data)) && Current(lay, Append(l, b, data)) == Current(lay, l)[b := data]
    ensures Durable(lay, Append(l, b, data).disk) == Durable(lay, l.disk)
  {
    AppendInv(lay, l, b, data);
  }
}
