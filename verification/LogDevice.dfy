/** The code of log.c: loops over the transaction that read through the buffer cache and
    write single blocks to the memory disk.  `trace` records the disk after every write, so
    that contracts speak about a crash between any two of them.
 */
module LogDevice {
  import opened RedoLog

  /** A crash at any of these disks recovers to `contents`. */
  ghost predicate AllRecoverTo(lay: Layout, disks: seq<Disk>, contents: map<int, Block>) {
    forall i :: 0 <= i < |disks| ==> ValidDisk(lay, disks[i]) && Durable(lay, disks[i]) == contents
  }

  /** The blocks that one iteration of write_log or install_trans touches. */
  lemma Touched(lay: Layout, l: Log, k: nat)
    requires HeaderInv(lay, l) && k < |l.lh|
    ensures lay.start < lay.start + k + 1 < lay.nblocks && !lay.Home(lay.start + k + 1)
    ensures lay.Home(l.lh[k]) && l.lh[k] != lay.start + k + 1
  {
  }

  /** The write of write_log is a step of the machine. */
  lemma WriteLogStep(lay: Layout, l: Log, a: int, data: Block)
    requires LogInv(lay, l) && l.phase.Logging? && l.phase.k < |l.lh| && a == lay.start + l.phase.k + 1
    requires 0 <= a < lay.nblocks && lay.Home(l.lh[l.phase.k]) && data == View(l, l.lh[l.phase.k])
    ensures var l' := Write(l, a, data).(phase := Logging(l.phase.k + 1));
            LogInv(lay, l') && Current(lay, l') == Current(lay, l) && Durable(lay, l'.disk) == Durable(lay, l.disk)
  {
    LogStepContents(lay, l);
    assert LogStep(lay, l) == Write(l, a, data).(phase := Logging(l.phase.k + 1));
  }

  /** So is the write of install_trans. */
  lemma InstallTransStep(lay: Layout, l: Log, b: int, data: Block)
    requires LogInv(lay, l) && l.phase.Installing? && l.phase.k < |l.lh| && b == l.lh[l.phase.k]
    requires 0 <= b < lay.nblocks && lay.start + l.phase.k + 1 < lay.nblocks
    requires data == l.disk[lay.start + l.phase.k + 1]
    ensures var l' := Write(l, b, data).(phase := Installing(l.phase.k + 1, l.phase.recovering));
            LogInv(lay, l') && Current(lay, l') == Current(lay, l) && Durable(lay, l'.disk) == Durable(lay, l.disk)
  {
    InstallStepContents(lay, l);
    assert InstallStep(lay, l) == Write(l, b, data).(phase := Installing(l.phase.k + 1, l.phase.recovering));
  }

  class Device {
    const lay: Layout
    var disk: Disk
    var cache: map<int, Buf>
    var lh: seq<int>
    ghost var trace: seq<Disk>

    /** The fields as a state of the redo log machine. */
    ghost function At(phase: Phase): Log
      reads this
    {
      Log(disk, cache, lh, phase)
    }

    ghost predicate Valid(phase: Phase)
      reads this
    {
      LogInv(lay, At(phase))
    }

    /** bread: a miss reads the block from the memory disk. */
    method Bread(b: int) returns (data: Block)
      requires 0 <= b < |disk|
      modifies this`cache
      ensures cache == old(Fill(At(Running), b)).cache && data == cache[b].data
    {
      if b !in cache {
        cache := cache[b := Buf(disk[b], false)];
      }
      data := cache[b].data;
    }

    /** bread between the steps of the machine: nothing changes but the cache. */
    method BreadAt(b: int, ghost phase: Phase) returns (data: Block)
      requires Valid(phase) && 0 <= b < lay.nblocks
      modifies this`cache
      ensures Valid(phase) && Current(lay, At(phase)) == old(Current(lay, At(phase)))
      ensures data == View(At(phase), b) && (!lay.Home(b) ==> data == disk[b])
    {
      FillContents(lay, At(phase), b);
      data := Bread(b);
      assert At(phase) == old(Fill(At(phase), b));
    }

    /** bwrite: write through and clear the dirty flag. */
    method Bwrite(b: int, data: Block)
      requires 0 <= b < |disk|
      modifies this`disk, this`cache, this`trace
      ensures disk == old(disk)[b := data] && cache == old(cache)[b := Buf(data, false)]
      ensures trace == old(trace) + [disk]
    {
      disk := disk[b := data];
      cache := cache[b := Buf(data, false)];
      trace := trace + [disk];
    }

    /** log_write: scan for the block, record its number once, pin the buffer. */
    method LogWrite(b: int, data: Block)
      requires Valid(Running) && lay.Home(b) && |lh| < LOGSIZE && |lh| < lay.size - 1
      modifies this`cache, this`lh
      ensures At(Running) == Append(old(At(Running)), b, data) && Valid(Running)
      ensures Current(lay, At(Running)) == old(Current(lay, At(Running)))[b := data]
    {
      AppendContents(lay, At(Running), b, data);
      var i := 0;
      while i < |lh| && lh[i] != b
        invariant 0 <= i <= |lh| && b !in lh[..i]
      {
        i := i + 1;
      }
      if i == |lh| {
        assert lh[..i] == lh;
        lh := lh + [b];
      }
      cache := cache[b := Buf(data, true)];
    }

    /** write_head: overwrite the count and the first entries of the header block. */
    method WriteHead()
      requires lay.start < |disk| && ValidHeader(disk[lay.start]) && |lh| < WORDS
      requires lay.start in cache ==> cache[lay.start].data == disk[lay.start]
      modifies this`disk, this`cache, this`trace
      ensures disk == old(disk)[lay.start := WithList(old(disk)[lay.start], lh)]
      ensures cache == old(cache)[lay.start := Buf(disk[lay.start], false)]
      ensures trace == old(trace) + [disk]
    {
      var hb := Bread(lay.start);
      var w := hb.w[0 := |lh|];
      var i := 0;
      while i < |lh|
        invariant 0 <= i <= |lh| && |w| == WORDS
        invariant w == [|lh|] + lh[..i] + hb.w[1 + i..]
      {
        w := w[1 + i := lh[i]];
        i := i + 1;
      }
      assert lh[..i] == lh;
      Bwrite(lay.start, Block(w));
    }

    /** read_head: the count, then that many block numbers. */
    method ReadHead()
      requires lay.start < |disk| && ValidHeader(disk[lay.start])
      requires lay.start in cache ==> cache[lay.start].data == disk[lay.start]
      modifies this`cache, this`lh
      ensures lh == Listed(disk[lay.start]) && cache == old(Fill(At(Running), lay.start)).cache
    {
      var buf := Bread(lay.start);
      var n := buf.w[0];
      lh := [];
      while |lh| < n
        invariant 0 <= |lh| <= n && lh == buf.w[1..1 + |lh|]
        invariant cache == old(Fill(At(Running), lay.start)).cache
        decreases n - |lh|
      {
        lh := lh + [buf.w[1 + |lh|]];
      }
    }

    /** The writes since `from` all recover to `durable`, and operations still read `current`. */
    ghost predicate Stable(phase: Phase, from: nat, durable: map<int, Block>, current: map<int, Block>)
      reads this
    {
      && Valid(phase) && Durable(lay, disk) == durable && Current(lay, At(phase)) == current
      && from <= |trace| && AllRecoverTo(lay, trace[from..], durable)
    }

    /** bwrite as a step of the machine that changes neither contents. */
    method BwriteAt(b: int, data: Block, ghost phase: Phase, ghost phase': Phase,
                    ghost from: nat, ghost durable: map<int, Block>, ghost current: map<int, Block>)
      requires 0 <= b < |disk| && from <= |trace| && AllRecoverTo(lay, trace[from..], durable)
      requires var l' := Write(At(phase), b, data).(phase := phase');
               LogInv(lay, l') && Durable(lay, l'.disk) == durable && Current(lay, l') == current
      modifies this`disk, this`cache, this`trace
      ensures old(trace) <= trace && Stable(phase', from, durable, current)
    {
      Bwrite(b, data);
      assert At(phase') == old(Write(At(phase), b, data)).(phase := phase');
      assert trace[from..] == old(trace[from..]) + [disk];
    }

    /** The two breads of an iteration: log block `tail` and its home block. */
    method BreadPair(tail: nat, ghost phase: Phase) returns (copy: Block, home: Block)
      requires Valid(phase) && tail < |lh|
      modifies this`cache
      ensures Valid(phase) && Current(lay, At(phase)) == old(Current(lay, At(phase)))
      ensures 0 <= lay.start + tail + 1 < lay.nblocks && lay.Home(lh[tail])
      ensures copy == disk[lay.start + tail + 1] && home == View(At(phase), lh[tail])
    {
      Touched(lay, At(phase), tail);
      copy := BreadAt(lay.start + tail + 1, phase);
      home := BreadAt(lh[tail], phase);
    }

    /** One iteration of write_log. */
    method WriteLogOne(tail: nat, ghost from0: nat, ghost durable: map<int, Block>, ghost current: map<int, Block>)
      requires tail < |lh| && Stable(Logging(tail), from0, durable, current)
      modifies this`disk, this`cache, this`trace
      ensures old(trace) <= trace && Stable(Logging(tail + 1), from0, durable, current)
    {
      var to, from := BreadPair(tail, Logging(tail));
      to := from;
      WriteLogStep(lay, At(Logging(tail)), lay.start + tail + 1, to);
      BwriteAt(lay.start + tail + 1, to, Logging(tail), Logging(tail + 1), from0, durable, current);
    }

    /** write_log: copy the pinned buffers to the log area. */
    method WriteLog()
      requires Valid(Logging(0))
      modifies this`disk, this`cache, this`trace
      ensures old(trace) <= trace
      ensures Stable(Logging(|lh|), |old(trace)|, old(Durable(lay, disk)), old(Current(lay, At(Logging(0)))))
    {
      ghost var durable, current := Durable(lay, disk), Current(lay, At(Logging(0)));
      var tail := 0;
      while tail < |lh|
        invariant 0 <= tail <= |lh| && old(trace) <= trace
        invariant Stable(Logging(tail), |old(trace)|, durable, current)
      {
        WriteLogOne(tail, |old(trace)|, durable, current);
        tail := tail + 1;
      }
    }

    /** One iteration of install_trans. */
    method InstallOne(tail: nat, ghost recovering: bool, ghost from: nat,
                      ghost durable: map<int, Block>, ghost current: map<int, Block>)
      requires tail < |lh| && Stable(Installing(tail, recovering), from, durable, current)
      modifies this`disk, this`cache, this`trace
      ensures old(trace) <= trace && Stable(Installing(tail + 1, recovering), from, durable, current)
    {
      var lbuf, dbuf := BreadPair(tail, Installing(tail, recovering));
      dbuf := lbuf;
      InstallTransStep(lay, At(Installing(tail, recovering)), lh[tail], dbuf);
      BwriteAt(lh[tail], dbuf, Installing(tail, recovering), Installing(tail + 1, recovering), from, durable, current);
    }

    /** install_trans: copy the log blocks home, during commit or recovery. */
    method InstallTrans(ghost recovering: bool)
      requires Valid(Installing(0, recovering))
      modifies this`disk, this`cache, this`trace
      ensures old(trace) <= trace
      ensures Stable(Installing(|lh|, recovering), |old(trace)|,
                     old(Durable(lay, disk)), old(Current(lay, At(Installing(0, recovering)))))
    {
      ghost var durable, current := Durable(lay, disk), Current(lay, At(Installing(0, recovering)));
      var tail := 0;
      while tail < |lh|
        invariant 0 <= tail <= |lh| && old(trace) <= trace
        invariant Stable(Installing(tail, recovering), |old(trace)|, durable, current)
      {
        InstallOne(tail, recovering, |old(trace)|, durable, current);
        tail := tail + 1;
      }
    }

    /** write_head at the commit point. */
    method CommitHead()
      requires Valid(Logging(|lh|)) && lh != []
      modifies this`disk, this`cache, this`trace
      ensures Valid(Installing(0, false))
      ensures Current(lay, At(Installing(0, false))) == Durable(lay, disk) == old(Current(lay, At(Logging(|lh|))))
      ensures trace == old(trace) + [disk]
    {
      FillContents(lay, At(Logging(|lh|)), lay.start);
      LogStepContents(lay, At(Logging(|lh|)));
      WriteHead();
    }

    /** log.lh.n = 0 and write_head, at the end of a commit or a recovery. */
    method EraseHead(ghost recovering: bool)
      requires Valid(Installing(|lh|, recovering))
      modifies this
      ensures Valid(Running) && lh == []
      ensures Current(lay, At(Running)) == old(Current(lay, At(Installing(|lh|, recovering))))
      ensures Durable(lay, disk) == old(Durable(lay, disk)) && trace == old(trace) + [disk]
    {
      FillContents(lay, At(Installing(|lh|, recovering)), lay.start);
      InstallStepContents(lay, At(Installing(|lh|, recovering)));
      lh := [];
      WriteHead();
    }

    /** recover_from_log: a crash anywhere in it leaves a disk with the same recovered contents,
        and at the end the disk itself holds them. */
    method RecoverFromLog()
      requires ValidDisk(lay, disk) && cache == map[]
      modifies this
      ensures Valid(Running) && lh == []
      ensures Current(lay, At(Running)) == Durable(lay, disk) == old(Durable(lay, disk))
      ensures old(trace) <= trace && AllRecoverTo(lay, trace[|old(trace)|..], old(Durable(lay, disk)))
    {
      RebootInv(lay, disk);
      FillContents(lay, Reboot(lay, disk), lay.start);
      ReadHead();
      assert At(Installing(0, true)) == Fill(Reboot(lay, disk), lay.start);
      InstallTrans(true);
      EraseHead(true);
      NothingLogged(lay, At(Running));
    }

    /** commit: there is a single disk write before which every crash recovers to the old durable
        contents and from which on every crash recovers to the current ones. */
    method Commit() returns (ghost point: nat)
      requires Valid(Logging(0))
      modifies this
      ensures Valid(Running) && lh == []
      ensures Current(lay, At(Running)) == Durable(lay, disk) == old(Current(lay, At(Logging(0))))
      ensures old(trace) <= trace && |old(trace)| <= point <= |trace|
      ensures AllRecoverTo(lay, trace[|old(trace)|..point], old(Durable(lay, disk)))
      ensures AllRecoverTo(lay, trace[point..], old(Current(lay, At(Logging(0)))))
    {
      point := |trace|;
      if |lh| > 0 {
        WriteLog();
        point := |trace|;
        ghost var logged := trace;
        CommitHead();
        ghost var committed := trace;
        InstallTrans(false);
        ghost var installed := trace;
        EraseHead(false);
        assert trace[point..] == committed[point..] + installed[|committed|..] + [disk];
        assert trace[|old(trace)|..point] == logged[|old(trace)|..];
      } else {
        LogStepContents(lay, At(Logging(0)));
      }
      NothingLogged(lay, At(Running));
    }
  }
}
