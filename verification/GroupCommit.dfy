/** Group commit: begin_op, log_write and end_op of any number of processes over the redo log.

    Every run, with crashes anywhere, refines a machine that keeps two copies of the home
    blocks and commits by copying one to the other while no operation is active.
 */
module GroupCommit {
  import opened Params
  import opened RedoLog

  /** What a process does with the log; `used` are the distinct blocks its operation logged. */
  datatype Op = Idle | Active(used: set<int>)

  datatype State = State(log: Log, ops: seq<Op>, outstanding: int)

  datatype Step =
    | BeginOp(p: nat)
    | LogWrite(p: nat, b: int, data: Block)
    | EndOp(p: nat)
    | Commit
    | Read(b: int)
    | Recycle(b: int)
    | Crash
    | Recover

  predicate IsActive(s: State, p: nat) {
    p < |s.ops| && s.ops[p].Active?
  }

  /** log_write panics: the transaction is too big, or there is none. */
  predicate LogPanics(lay: Layout, s: State) {
    |s.log.lh| >= LOGSIZE || |s.log.lh| >= lay.size - 1 || s.outstanding < 1
  }

  /** What log.c asks of a caller: log home blocks only, at most MAXOPBLOCKS distinct ones an operation. */
  predicate MayLog(lay: Layout, s: State, p: nat, b: int) {
    && IsActive(s, p) && lay.Home(b)
    && (b in s.ops[p].used || |s.ops[p].used| < MAXOPBLOCKS)
  }

  /** The guards of log.c and bio.c; a panic is a step that is not enabled. */
  predicate Enabled(lay: Layout, s: State, step: Step) {
    match step
    case BeginOp(p) =>
      && s.log.phase.Running? && p < |s.ops| && s.ops[p].Idle?
      && |s.log.lh| + (s.outstanding + 1) * MAXOPBLOCKS <= LOGSIZE
    case LogWrite(p, b, _) => !s.log.Recovering() && MayLog(lay, s, p, b) && !LogPanics(lay, s)
    case EndOp(p) => s.log.phase.Running? && IsActive(s, p)
    case Commit => s.log.Committing()
    case Read(b) => 0 <= b < lay.nblocks
    case Recycle(b) => b in s.log.cache && !s.log.cache[b].dirty
    case Crash => true
    case Recover => s.log.Recovering()
  }

  function Next(lay: Layout, s: State, step: Step): State
    requires HeaderInv(lay, s.log) && Enabled(lay, s, step)
  {
    match step
    case BeginOp(p) => s.(ops := s.ops[p := Active({})], outstanding := s.outstanding + 1)
    case LogWrite(p, b, data) =>
      s.(log := Append(s.log, b, data), ops := s.ops[p := Active(s.ops[p].used + {b})])
    case EndOp(p) =>
      State(if s.outstanding == 1 then s.log.(phase := Logging(0)) else s.log,
            s.ops[p := Idle], s.outstanding - 1)
    case Commit => s.(log := if s.log.phase.Logging? then LogStep(lay, s.log) else InstallStep(lay, s.log))
    case Read(b) => s.(log := Fill(s.log, b))
    case Recycle(b) => s.(log := Evict(s.log, b))
    case Crash => State(Reboot(lay, s.log.disk), seq(|s.ops|, _ => Idle), 0)
    case Recover => s.(log := InstallStep(lay, s.log))
  }

  // ---------------------------------------------------------------- the invariant

  function Sum(f: Op -> int, ops: seq<Op>): int {
    if ops == [] then 0 else f(ops[0]) + Sum(f, ops[1..])
  }

  function One(op: Op): int {
    if op.Active? then 1 else 0
  }

  /** The number of log slots that an operation may still claim. */
  function Credit(op: Op): int {
    match op
    case Idle => 0
    case Active(used) => MAXOPBLOCKS - |used|
  }

  /** An operation stays within its bound, and the log lists what it logged. */
  ghost predicate OpOk(lh: seq<int>, op: Op) {
    op.Active? ==> |op.used| <= MAXOPBLOCKS && forall b :: b in op.used ==> b in lh
  }

  /** Every operation stays within its credit, the credit left fits in the log, and the log is
      empty when no operation is outstanding and no commit runs. */
  ghost predicate OpsInv(s: State) {
    && s.outstanding == Sum(One, s.ops)
    && (s.log.phase.Running? || s.outstanding == 0)
    && (s.log.phase.Running? && s.outstanding == 0 ==> s.log.lh == [])
    && (forall p: nat :: p < |s.ops| ==> OpOk(s.log.lh, s.ops[p]))
    && |s.log.lh| + Sum(Credit, s.ops) <= LOGSIZE
  }

  ghost predicate Inv(lay: Layout, s: State) {
    LogInv(lay, s.log) && OpsInv(s)
  }

  /** Power-on with any disk whose header is valid. */
  ghost predicate Init(lay: Layout, s: State) {
    && ValidDisk(lay, s.log.disk) && s.log == Reboot(lay, s.log.disk)
    && (forall p :: 0 <= p < |s.ops| ==> s.ops[p] == Idle) && s.outstanding == 0
  }

  lemma {:induction false} SumUpdate(f: Op -> int, ops: seq<Op>, p: nat, op: Op)
    requires p < |ops|
    ensures Sum(f, ops[p := op]) == Sum(f, ops) - f(ops[p]) + f(op)
  {
    if p == 0 {
      assert ops[0 := op][1..] == ops[1..];
    } else {
      assert ops[p := op][1..] == ops[1..][p - 1 := op];
      SumUpdate(f, ops[1..], p - 1, op);
    }
  }

  lemma {:induction false} SumIdle(f: Op -> int, ops: seq<Op>)
    requires f(Idle) == 0 && forall p :: 0 <= p < |ops| ==> ops[p] == Idle
    ensures Sum(f, ops) == 0
  {
    if ops != [] { SumIdle(f, ops[1..]); }
  }

  predicate WithinBound(ops: seq<Op>) {
    forall p :: 0 <= p < |ops| && ops[p].Active? ==> |ops[p].used| <= MAXOPBLOCKS
  }

  lemma OpsBounded(s: State)
    requires OpsInv(s)
    ensures WithinBound(s.ops)
  {
    forall p: nat | p < |s.ops| && s.ops[p].Active? ensures |s.ops[p].used| <= MAXOPBLOCKS {
      assert OpOk(s.log.lh, s.ops[p]);
    }
  }

  /** Each active operation contributes between 0 and MAXOPBLOCKS to the credit. */
  lemma {:induction false} CreditBounds(ops: seq<Op>)
    requires WithinBound(ops)
    ensures 0 <= Sum(Credit, ops) <= MAXOPBLOCKS * Sum(One, ops)
  {
    if ops != [] { CreditBounds(ops[1..]); }
  }

  lemma {:induction false} OneOfMany(ops: seq<Op>, p: nat)
    requires p < |ops| && WithinBound(ops)
    ensures Sum(Credit, ops) >= Credit(ops[p]) && Sum(One, ops) >= One(ops[p])
  {
    if p == 0 {
      CreditBounds(ops[1..]);
    } else {
      OneOfMany(ops[1..], p - 1);
    }
  }

  // ---------------------------------------------------------------- every step keeps the invariant

  lemma InitInv(lay: Layout, s: State)
    requires Init(lay, s)
    ensures Inv(lay, s)
  {
    RebootInv(lay, s.log.disk);
    forall p: nat | p < |s.ops| ensures OpOk(s.log.lh, s.ops[p]) { assert s.ops[p] == Idle; }
    SumIdle(One, s.ops);
    SumIdle(Credit, s.ops);
  }

  /** No operation is outstanding while a commit or recovery runs, so end_op's panic
      "log.committing" is unreachable and nothing is logged during a commit. */
  lemma CommittingIsQuiescent(lay: Layout, s: State, p: nat)
    requires Inv(lay, s) && p < |s.ops| && (!s.log.phase.Running? || s.outstanding < 1)
    ensures s.ops[p] == Idle
  {
    OpsBounded(s);
    OneOfMany(s.ops, p);
  }

  lemma AllIdle(lay: Layout, s: State)
    requires Inv(lay, s) && !s.log.phase.Running?
    ensures forall p :: 0 <= p < |s.ops| ==> s.ops[p] == Idle
    ensures Sum(Credit, s.ops) == 0 && forall lh: seq<int>, p: nat :: p < |s.ops| ==> OpOk(lh, s.ops[p])
  {
    forall p: nat | p < |s.ops| ensures s.ops[p] == Idle { CommittingIsQuiescent(lay, s, p); }
    SumIdle(Credit, s.ops);
  }

  lemma BeginInv(lay: Layout, s: State, p: nat)
    requires Inv(lay, s) && Enabled(lay, s, BeginOp(p))
    ensures Inv(lay, Next(lay, s, BeginOp(p)))
  {
    SumUpdate(One, s.ops, p, Active({}));
    SumUpdate(Credit, s.ops, p, Active({}));
    OpsBounded(s);
    CreditBounds(s.ops);
    var s' := Next(lay, s, BeginOp(p));
    forall q: nat | q < |s'.ops| ensures OpOk(s'.log.lh, s'.ops[q]) { assert OpOk(s.log.lh, s.ops[q]); }
  }

  /** A new log slot is paid for by the credit of the operation. */
  lemma CreditPays(lh: seq<int>, used: set<int>, b: int)
    requires OpOk(lh, Active(used)) && (b in used || |used| < MAXOPBLOCKS)
    ensures var lh' := if b in lh then lh else lh + [b];
            OpOk(lh', Active(used + {b})) && |lh'| + Credit(Active(used + {b})) <= |lh| + Credit(Active(used))
  {
    if b in used { assert used + {b} == used; }
  }

  lemma LogWriteOps(s: State, p: nat, b: int, data: Block)
    requires OpsInv(s) && IsActive(s, p) && (b in s.ops[p].used || |s.ops[p].used| < MAXOPBLOCKS)
    ensures OpsInv(s.(log := Append(s.log, b, data), ops := s.ops[p := Active(s.ops[p].used + {b})]))
  {
    var op := Active(s.ops[p].used + {b});
    SumUpdate(One, s.ops, p, op);
    SumUpdate(Credit, s.ops, p, op);
    OpsBounded(s);
    OneOfMany(s.ops, p);
    assert OpOk(s.log.lh, s.ops[p]);
    CreditPays(s.log.lh, s.ops[p].used, b);
    var lh', ops' := Append(s.log, b, data).lh, s.ops[p := op];
    forall q: nat | q < |ops'| ensures OpOk(lh', ops'[q]) { assert OpOk(s.log.lh, s.ops[q]); }
  }

  lemma LogWriteInv(lay: Layout, s: State, p: nat, b: int, data: Block)
    requires Inv(lay, s) && Enabled(lay, s, LogWrite(p, b, data))
    ensures Inv(lay, Next(lay, s, LogWrite(p, b, data)))
  {
    OpsBounded(s);
    OneOfMany(s.ops, p);
    AppendInv(lay, s.log, b, data);
    LogWriteOps(s, p, b, data);
  }

  /** The counter is 1 exactly if no other operation is active. */
  lemma OnlyOne(s: State, p: nat)
    requires OpsInv(s) && IsActive(s, p)
    ensures s.outstanding == 1 <==> forall q: nat :: q != p ==> !IsActive(s, q)
  {
    var ops := s.ops[p := Idle];
    OpsBounded(s);
    SumUpdate(One, s.ops, p, Idle);
    if s.outstanding == 1 {
      forall q: nat | q != p ensures !IsActive(s, q) { if q < |ops| { OneOfMany(ops, q); } }
    } else if forall q: nat :: q != p ==> !IsActive(s, q) {
      forall q | 0 <= q < |ops| ensures ops[q] == Idle { assert q != p ==> !IsActive(s, q); }
      SumIdle(One, ops);
    }
  }

  lemma EndInv(lay: Layout, s: State, p: nat)
    requires Inv(lay, s) && Enabled(lay, s, EndOp(p))
    ensures Inv(lay, Next(lay, s, EndOp(p)))
    ensures Next(lay, s, EndOp(p)).log.Committing() <==> forall q: nat :: q != p ==> !IsActive(s, q)
  {
    OnlyOne(s, p);
    SumUpdate(One, s.ops, p, Idle);
    SumUpdate(Credit, s.ops, p, Idle);
    OpsBounded(s);
    OneOfMany(s.ops, p);
    var s' := Next(lay, s, EndOp(p));
    forall q: nat | q < |s'.ops| ensures OpOk(s'.log.lh, s'.ops[q]) { assert OpOk(s.log.lh, s.ops[q]); }
    var l := s'.log;
    forall c | c in l.cache ensures CacheAt(lay, l, c) { assert CacheAt(lay, s.log, c); }
    forall i: nat | i < |l.lh| ensures CopyAt(lay, l, i) { assert CopyAt(lay, s.log, i); }
  }

  lemma NextInv(lay: Layout, s: State, step: Step)
    requires Inv(lay, s) && Enabled(lay, s, step)
    ensures Inv(lay, Next(lay, s, step))
  {
    match step
    case BeginOp(p) => BeginInv(lay, s, p);
    case LogWrite(p, b, data) => LogWriteInv(lay, s, p, b, data);
    case EndOp(p) => EndInv(lay, s, p);
    case Read(b) => FillInv(lay, s.log, b);
    case Recycle(b) => EvictInv(lay, s.log, b);
    case Crash => InitInv(lay, Next(lay, s, Crash));
    case _ =>
      AllIdle(lay, s);
      if s.log.phase.Logging? { LogStepInv(lay, s.log); } else { InstallStepInv(lay, s.log); }
  }

  // ---------------------------------------------------------------- refinement

  /** Two copies of the home blocks, and the processes inside an operation. */
  datatype Spec = Spec(durable: map<int, Block>, current: map<int, Block>, active: set<nat>)

  ghost function Abs(lay: Layout, s: State): Spec
    requires HeaderInv(lay, s.log)
  {
    Spec(Durable(lay, s.log.disk), Current(lay, s.log), set p: nat | p < |s.ops| && IsActive(s, p))
  }

  /** The abstract effect of a step.  A commit step either does nothing or makes the current
      contents durable, and then no operation is active. */
  predicate SpecStep(a: Spec, step: Step, a': Spec) {
    match step
    case BeginOp(p) => p !in a.active && a' == a.(active := a.active + {p})
    case LogWrite(p, b, data) => p in a.active && b in a.current && a' == a.(current := a.current[b := data])
    case EndOp(p) => p in a.active && a' == a.(active := a.active - {p})
    case Commit => a' == a || (a.active == {} && a' == a.(durable := a.current))
    case Crash => a' == Spec(a.durable, a.durable, {})
    case _ => a' == a
  }

  lemma BeginRefines(lay: Layout, s: State, step: Step)
    requires Inv(lay, s) && Enabled(lay, s, step) && (step.BeginOp? || step.EndOp?)
    ensures HeaderInv(lay, Next(lay, s, step).log) && SpecStep(Abs(lay, s), step, Abs(lay, Next(lay, s, step)))
  {
    NextInv(lay, s, step);
    var s' := Next(lay, s, step);
    assert forall q: nat :: q != step.p ==> (IsActive(s', q) <==> IsActive(s, q));
  }

  lemma LogWriteRefines(lay: Layout, s: State, p: nat, b: int, data: Block)
    requires Inv(lay, s) && Enabled(lay, s, LogWrite(p, b, data))
    ensures HeaderInv(lay, Next(lay, s, LogWrite(p, b, data)).log)
    ensures SpecStep(Abs(lay, s), LogWrite(p, b, data), Abs(lay, Next(lay, s, LogWrite(p, b, data))))
  {
    OpsBounded(s);
    OneOfMany(s.ops, p);
    AppendContents(lay, s.log, b, data);
    var s' := Next(lay, s, LogWrite(p, b, data));
    assert forall q: nat :: IsActive(s', q) <==> IsActive(s, q);
  }

  lemma WriteRefines(lay: Layout, s: State, step: Step)
    requires Inv(lay, s) && Enabled(lay, s, step) && (step.Commit? || step.Recover?)
    ensures HeaderInv(lay, Next(lay, s, step).log) && SpecStep(Abs(lay, s), step, Abs(lay, Next(lay, s, step)))
  {
    if s.log.phase.Logging? { LogStepContents(lay, s.log); } else { InstallStepContents(lay, s.log); }
    NoneActive(lay, s, step);
  }

  lemma NoneActive(lay: Layout, s: State, step: Step)
    requires Inv(lay, s) && Enabled(lay, s, step) && (step.Commit? || step.Recover?)
    requires HeaderInv(lay, Next(lay, s, step).log)
    ensures Abs(lay, s).active == {} && Abs(lay, Next(lay, s, step)).active == {}
  {
    AllIdle(lay, s);
    var s' := Next(lay, s, step);
    assert forall q: nat :: !IsActive(s, q) && !IsActive(s', q);
  }

  lemma QuietRefines(lay: Layout, s: State, step: Step)
    requires Inv(lay, s) && Enabled(lay, s, step) && (step.Read? || step.Recycle? || step.Crash?)
    ensures HeaderInv(lay, Next(lay, s, step).log) && SpecStep(Abs(lay, s), step, Abs(lay, Next(lay, s, step)))
  {
    match step
    case Read(b) => FillContents(lay, s.log, b);
    case Recycle(b) => EvictContents(lay, s.log, b);
    case Crash => RebootInv(lay, s.log.disk);
  }

  /** Every step of every reachable state is a step of the two-copy machine. */
  lemma NextRefines(lay: Layout, s: State, step: Step)
    requires Inv(lay, s) && Enabled(lay, s, step)
    ensures Inv(lay, Next(lay, s, step)) && SpecStep(Abs(lay, s), step, Abs(lay, Next(lay, s, step)))
  {
    NextInv(lay, s, step);
    match step
    case BeginOp(_) => BeginRefines(lay, s, step);
    case EndOp(_) => BeginRefines(lay, s, step);
    case LogWrite(p, b, data) => LogWriteRefines(lay, s, p, b, data);
    case Commit => WriteRefines(lay, s, step);
    case Recover => WriteRefines(lay, s, step);
    case _ => QuietRefines(lay, s, step);
  }

  // ---------------------------------------------------------------- whole runs

  /** A step of a run.  HeaderInv only makes `Next` well defined; RunRefines shows that it
      holds in every state of a run, so it never blocks a step. */
  ghost predicate Takes(lay: Layout, s: State, step: Step, s': State) {
    HeaderInv(lay, s.log) && Enabled(lay, s, step) && s' == Next(lay, s, step)
  }

  ghost predicate Run(lay: Layout, ss: seq<State>, steps: seq<Step>) {
    && |ss| == |steps| + 1 && Init(lay, ss[0])
    && forall i :: 0 <= i < |steps| ==> Takes(lay, ss[i], steps[i], ss[i + 1])
  }

  lemma {:induction false} RunInv(lay: Layout, ss: seq<State>, steps: seq<Step>, i: nat)
    requires Run(lay, ss, steps) && i < |ss|
    ensures Inv(lay, ss[i])
  {
    if i == 0 {
      InitInv(lay, ss[0]);
    } else {
      RunInv(lay, ss, steps, i - 1);
      assert Takes(lay, ss[i - 1], steps[i - 1], ss[i]);
      NextInv(lay, ss[i - 1], steps[i - 1]);
    }
  }

  /** A run of the two-copy machine, from a moment with nothing in progress. */
  predicate SpecRun(specs: seq<Spec>, steps: seq<Step>) {
    && |specs| == |steps| + 1 && specs[0].active == {} && specs[0].current == specs[0].durable
    && forall i :: 0 <= i < |steps| ==> SpecStep(specs[i], steps[i], specs[i + 1])
  }

  ghost function Trace(lay: Layout, ss: seq<State>): seq<Spec>
    requires forall i :: 0 <= i < |ss| ==> HeaderInv(lay, ss[i].log)
  {
    seq(|ss|, i requires 0 <= i < |ss| => Abs(lay, ss[i]))
  }

  /** The whole run, seen through `Abs`, is a run of the two-copy machine. */
  lemma RunRefines(lay: Layout, ss: seq<State>, steps: seq<Step>)
    requires Run(lay, ss, steps)
    ensures forall i :: 0 <= i < |ss| ==> HeaderInv(lay, ss[i].log)
    ensures SpecRun(Trace(lay, ss), steps)
  {
    forall i | 0 <= i < |ss| ensures Inv(lay, ss[i]) { RunInv(lay, ss, steps, i); }
    forall i | 0 <= i < |steps| ensures SpecStep(Abs(lay, ss[i]), steps[i], Abs(lay, ss[i + 1])) {
      assert Takes(lay, ss[i], steps[i], ss[i + 1]);
      NextRefines(lay, ss[i], steps[i]);
    }
    assert Abs(lay, ss[0]).active == {};
  }

  /** In the two-copy machine the durable contents are those of an earlier quiescent moment. */
  lemma {:induction false} DurableIsQuiescent(specs: seq<Spec>, steps: seq<Step>, j: nat) returns (i: nat)
    requires SpecRun(specs, steps) && j < |specs|
    ensures i <= j && specs[i].active == {} && specs[j].durable == specs[i].current
  {
    i := 0;
    if j > 0 {
      assert SpecStep(specs[j - 1], steps[j - 1], specs[j]);
      if specs[j].durable == specs[j - 1].durable {
        i := DurableIsQuiescent(specs, steps, j - 1);
      } else {
        i := j - 1;
      }
    }
  }

  /** Crash atomicity over whole runs: whenever the machine stops, recovery restores the
      contents of a moment of the run at which no operation was active, so every operation
      is there with all of its writes or with none. */
  lemma RecoversToQuiescentPoint(lay: Layout, ss: seq<State>, steps: seq<Step>, j: nat) returns (i: nat)
    requires Run(lay, ss, steps) && j < |ss|
    ensures i <= j && HeaderInv(lay, ss[i].log) && HeaderInv(lay, ss[j].log)
    ensures Abs(lay, ss[i]).active == {} && Abs(lay, ss[j]).durable == Abs(lay, ss[i]).current
  {
    RunRefines(lay, ss, steps);
    i := DurableIsQuiescent(Trace(lay, ss), steps, j);
  }

  /** A commit is not lost: once no operation is outstanding and no commit runs, everything
      written so far is what a crash would recover. */
  lemma QuiescentIsDurable(lay: Layout, ss: seq<State>, steps: seq<Step>, j: nat)
    requires Run(lay, ss, steps) && j < |ss| && ss[j].outstanding == 0 && ss[j].log.phase.Running?
    ensures HeaderInv(lay, ss[j].log) && Abs(lay, ss[j]).durable == Abs(lay, ss[j]).current
  {
    RunInv(lay, ss, steps, j);
    NothingLogged(lay, ss[j].log);
  }

  /** Write-ahead: the only step that changes a home block on the disk is one that installs it from
      the log, after the header that lists it was written. */
  lemma WriteAhead(lay: Layout, s: State, step: Step, b: int)
    requires Inv(lay, s) && Enabled(lay, s, step) && lay.Home(b)
    requires Next(lay, s, step).log.disk[b] != s.log.disk[b]
    ensures s.log.phase.Installing? && s.log.phase.k < |s.log.lh| && b == s.log.lh[s.log.phase.k]
    ensures Listed(s.log.disk[lay.start]) == s.log.lh
    ensures Next(lay, s, step).log.disk[b] == s.log.disk[lay.start + 1 + s.log.phase.k]
  {
  }
}
