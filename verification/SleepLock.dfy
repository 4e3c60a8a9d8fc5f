/** Sleep locks: acquiresleep and releasesleep over sleep and wakeup, one memory access or lock
    operation a step, for any number of processes and with kills at any time.
 */
module SleepLock {

  /** Where a process stands; `A` is acquiresleep, `S` is sleep, `R` is releasesleep. */
  datatype Pc =
    | Idle
    | ALock          // acquire(&lk->lk)
    | ATest          // while (lk->locked)
    | SPtable        // acquire(&ptable.lock)
    | SRelease       // release(lk)
    | SMark          // p->chan = lk, p->state = SLEEPING
    | SSwitch        // sched() lets go of ptable.lock
    | SAsleep        // not running; runs again once RUNNABLE
    | STidy          // p->chan = 0, release(&ptable.lock)
    | SRelock        // acquire(lk)
    | ASet           // lk->locked = 1
    | APid           // lk->pid = pid
    | ARelease       // release(&lk->lk)
    | Holds          // between acquiresleep and releasesleep
    | RLock          // acquire(&lk->lk)
    | RClear         // lk->locked = 0
    | RPid           // lk->pid = 0
    | RPtable        // acquire(&ptable.lock)
    | RScan(i: nat)  // wakeup1 looks at process i
    | RDone          // release(&ptable.lock)
    | RRelease       // release(&lk->lk)

  const NOBODY := -1
  const OTHER := -2  // code outside this protocol, such as kill

  /** The spinlocks by holder, the fields of the sleep lock, where each process stands and whether
      it is SLEEPING on the lock.  `owner` records who set `locked`. */
  datatype State = State(lk: int, pt: int, locked: bool, pid: int, pcs: seq<Pc>, asleep: seq<bool>, owner: int)

  datatype Step = Run(p: nat) | Acquire(p: nat) | Release(p: nat) | TakePtable | DropPtable | Kill(q: nat)

  function Pid(p: nat): int {
    p + 1
  }

  predicate Enabled(s: State, step: Step) {
    match step
    case Run(p) =>
      p < |s.pcs| && p < |s.asleep| &&
      (match s.pcs[p]
       case Idle => false
       case Holds => false
       case ALock => s.lk == NOBODY
       case RLock => s.lk == NOBODY
       case SRelock => s.lk == NOBODY
       case SPtable => s.pt == NOBODY
       case RPtable => s.pt == NOBODY
       case SAsleep => !s.asleep[p] && s.pt == NOBODY
       case _ => true)
    case Acquire(p) => p < |s.pcs| && s.pcs[p] == Idle
    case Release(p) => p < |s.pcs| && s.pcs[p] == Holds
    case TakePtable => s.pt == NOBODY
    case DropPtable => s.pt == OTHER
    case Kill(q) => s.pt == OTHER && q < |s.asleep|
  }

  function At(s: State, p: nat, pc: Pc): State
    requires p < |s.pcs|
  {
    s.(pcs := s.pcs[p := pc])
  }

  predicate InAcquire(pc: Pc) {
    pc.ALock? || pc.ATest? || pc.ASet? || pc.APid? || pc.ARelease?
  }

  /** A step of acquiresleep. */
  function AcquireStep(s: State, p: nat): State
    requires p < |s.pcs| && InAcquire(s.pcs[p])
  {
    match s.pcs[p]
    case ALock => At(s, p, ATest).(lk := p)
    case ATest => At(s, p, if s.locked then SPtable else ASet)
    case ASet => At(s, p, APid).(locked := true, owner := p)
    case APid => At(s, p, ARelease).(pid := Pid(p))
    case ARelease => At(s, p, Holds).(lk := NOBODY)
  }

  predicate InSleep(pc: Pc) {
    pc.SPtable? || pc.SRelease? || pc.SMark? || pc.SSwitch? || pc.SAsleep? || pc.STidy? || pc.SRelock?
  }

  /** A step of sleep. */
  function SleepStep(s: State, p: nat): State
    requires p < |s.pcs| && p < |s.asleep| && InSleep(s.pcs[p])
  {
    match s.pcs[p]
    case SPtable => At(s, p, SRelease).(pt := p)
    case SRelease => At(s, p, SMark).(lk := NOBODY)
    case SMark => At(s, p, SSwitch).(asleep := s.asleep[p := true])
    case SSwitch => At(s, p, SAsleep).(pt := NOBODY)
    case SAsleep => At(s, p, STidy).(pt := p)
    case STidy => At(s, p, SRelock).(pt := NOBODY)
    case SRelock => At(s, p, ATest).(lk := p)
  }

  predicate InRelease(pc: Pc) {
    pc.RLock? || pc.RClear? || pc.RPid? || pc.RPtable? || pc.RScan? || pc.RDone? || pc.RRelease?
  }

  /** A step of releasesleep and the wakeup in it. */
  function ReleaseStep(s: State, p: nat): State
    requires p < |s.pcs| && InRelease(s.pcs[p])
  {
    match s.pcs[p]
    case RLock => At(s, p, RClear).(lk := p)
    case RClear => At(s, p, RPid).(locked := false, owner := NOBODY)
    case RPid => At(s, p, RPtable).(pid := 0)
    case RPtable => At(s, p, RScan(0)).(pt := p)
    case RScan(i) =>
      if i < |s.asleep| then At(s, p, RScan(i + 1)).(asleep := s.asleep[i := false]) else At(s, p, RDone)
    case RDone => At(s, p, RRelease).(pt := NOBODY)
    case RRelease => At(s, p, Idle).(lk := NOBODY)
  }

  function Next(s: State, step: Step): State
    requires Enabled(s, step)
  {
    match step
    case Acquire(p) => At(s, p, ALock)
    case Release(p) => At(s, p, RLock)
    case TakePtable => s.(pt := OTHER)
    case DropPtable => s.(pt := NOBODY)
    case Kill(q) => s.(asleep := s.asleep[q := false])
    case Run(p) =>
      if InAcquire(s.pcs[p]) then AcquireStep(s, p)
      else if InSleep(s.pcs[p]) then SleepStep(s, p)
      else ReleaseStep(s, p)
  }

  // ---------------------------------------------------------------- the invariant

  predicate HoldsLk(pc: Pc) {
    pc.ATest? || pc.SPtable? || pc.SRelease? || pc.ASet? || pc.APid? || pc.ARelease? || pc.RClear? || pc.RPid?
    || pc.RPtable? || pc.RScan? || pc.RDone? || pc.RRelease?
  }

  predicate HoldsPt(pc: Pc) {
    pc.SRelease? || pc.SMark? || pc.SSwitch? || pc.STidy? || pc.RScan? || pc.RDone?
  }

  /** The process has set `locked` and not cleared it yet. */
  predicate Owns(pc: Pc) {
    pc.APid? || pc.ARelease? || pc.Holds? || pc.RLock? || pc.RClear?
  }

  /** Somebody has cleared `locked` and has not looked at process `p` yet. */
  predicate WakeupDue(s: State, p: nat) {
    0 <= s.lk < |s.pcs| &&
    (s.pcs[s.lk].RPid? || s.pcs[s.lk].RPtable? || (s.pcs[s.lk].RScan? && s.pcs[s.lk].i <= p))
  }

  /** The process sleeps on the lock, or is committed to sleeping on it. */
  predicate Sleeps(s: State, p: nat)
    requires p < |s.pcs| == |s.asleep|
  {
    s.pcs[p].SPtable? || s.pcs[p].SRelease? || s.pcs[p].SMark? || s.asleep[p]
  }

  /** A process's place in the code tells which locks it holds. */
  predicate LocksAt(s: State, p: nat)
    requires p < |s.pcs|
  {
    && (HoldsLk(s.pcs[p]) <==> s.lk == p)
    && (HoldsPt(s.pcs[p]) <==> s.pt == p)
    && (Owns(s.pcs[p]) <==> s.owner == p)
  }

  /** No wakeup is lost: a process sleeps only while the lock is held or its wakeup is still due. */
  predicate SleepAt(s: State, p: nat)
    requires p < |s.pcs| == |s.asleep|
  {
    && (s.asleep[p] ==> s.pcs[p].SSwitch? || s.pcs[p].SAsleep?)
    && (Sleeps(s, p) ==> s.locked || WakeupDue(s, p))
    && (s.pcs[p].SPtable? || s.pcs[p].SRelease? ==> s.locked)
  }

  predicate FieldsAt(s: State, p: nat)
    requires p < |s.pcs|
  {
    var pc := s.pcs[p];
    && (pc.ASet? || pc.RPid? ==> !s.locked)
    && (pc.ARelease? || pc.Holds? || pc.RLock? || pc.RClear? ==> s.pid == Pid(p))
  }

  predicate Globals(s: State) {
    && |s.pcs| == |s.asleep|
    && (s.lk == NOBODY || 0 <= s.lk < |s.pcs|)
    && (s.pt == NOBODY || s.pt == OTHER || 0 <= s.pt < |s.pcs|)
    && (s.locked <==> s.owner != NOBODY) && (s.locked ==> 0 <= s.owner < |s.pcs|)
    && (s.pid == 0 || s.locked || Clearing(s))
  }

  /** Somebody has cleared `locked` and not yet the process number. */
  predicate Clearing(s: State) {
    0 <= s.lk < |s.pcs| && s.pcs[s.lk].RPid?
  }

  ghost predicate Inv(s: State) {
    Globals(s) && forall p: nat :: p < |s.pcs| ==> ProcAt(s, p)
  }

  predicate ProcAt(s: State, p: nat)
    requires p < |s.pcs| == |s.asleep|
  {
    LocksAt(s, p) && SleepAt(s, p) && FieldsAt(s, p)
  }

  ghost predicate Init(s: State) {
    && |s.pcs| == |s.asleep| && s.lk == NOBODY && s.pt == NOBODY && !s.locked && s.owner == NOBODY && s.pid == 0
    && forall p: nat :: p < |s.pcs| ==> s.pcs[p] == Idle && !s.asleep[p]
  }

  lemma InitInv(s: State)
    requires Init(s)
    ensures Inv(s)
  {
  }

  lemma AcquireLocks(s: State, p: nat, q: nat)
    requires Globals(s) && Enabled(s, Run(p)) && InAcquire(s.pcs[p]) && q < |s.pcs| && LocksAt(s, q) && FieldsAt(s, q)
    requires LocksAt(s, p) && FieldsAt(s, p)
    ensures var s' := AcquireStep(s, p); Globals(s') && |s'.pcs| == |s.pcs| && LocksAt(s', q) && FieldsAt(s', q)
  {
  }

  lemma AcquireSleep(s: State, p: nat, q: nat)
    requires Globals(s) && Enabled(s, Run(p)) && InAcquire(s.pcs[p]) && q < |s.pcs| && ProcAt(s, q) && ProcAt(s, p)
    requires 0 <= s.lk < |s.pcs| ==> LocksAt(s, s.lk)
    requires var s' := AcquireStep(s, p); Globals(s') && |s'.pcs| == |s.pcs|
    ensures SleepAt(AcquireStep(s, p), q)
  {
  }

  lemma SleepLocks(s: State, p: nat, q: nat)
    requires Globals(s) && Enabled(s, Run(p)) && InSleep(s.pcs[p]) && q < |s.pcs| && LocksAt(s, q) && FieldsAt(s, q)
    requires LocksAt(s, p) && FieldsAt(s, p)
    ensures var s' := SleepStep(s, p); Globals(s') && |s'.pcs| == |s.pcs| && LocksAt(s', q) && FieldsAt(s', q)
  {
  }

  lemma SleepSleep(s: State, p: nat, q: nat)
    requires Globals(s) && Enabled(s, Run(p)) && InSleep(s.pcs[p]) && q < |s.pcs| && ProcAt(s, q) && ProcAt(s, p)
    requires 0 <= s.lk < |s.pcs| ==> LocksAt(s, s.lk)
    requires var s' := SleepStep(s, p); Globals(s') && |s'.pcs| == |s.pcs|
    ensures SleepAt(SleepStep(s, p), q)
  {
  }

  lemma ReleaseLocks(s: State, p: nat, q: nat)
    requires Globals(s) && Enabled(s, Run(p)) && InRelease(s.pcs[p]) && q < |s.pcs| && LocksAt(s, q) && FieldsAt(s, q)
    requires LocksAt(s, p) && FieldsAt(s, p)
    ensures var s' := ReleaseStep(s, p); Globals(s') && |s'.pcs| == |s.pcs| && LocksAt(s', q) && FieldsAt(s', q)
  {
  }

  lemma ReleaseSleep(s: State, p: nat, q: nat)
    requires Globals(s) && Enabled(s, Run(p)) && InRelease(s.pcs[p]) && q < |s.pcs| && ProcAt(s, q) && ProcAt(s, p)
    requires 0 <= s.lk < |s.pcs| ==> LocksAt(s, s.lk)
    requires var s' := ReleaseStep(s, p); Globals(s') && |s'.pcs| == |s.pcs|
    ensures SleepAt(ReleaseStep(s, p), q)
  {
  }

  lemma OutsideStep(s: State, step: Step, q: nat)
    requires Globals(s) && Enabled(s, step) && !step.Run? && q < |s.pcs| && ProcAt(s, q)
    requires 0 <= s.lk < |s.pcs| ==> LocksAt(s, s.lk)
    ensures var s' := Next(s, step); Globals(s') && |s'.pcs| == |s.pcs| && ProcAt(s', q)
  {
  }

  lemma NextAt(s: State, step: Step, q: nat)
    requires Inv(s) && Enabled(s, step) && q < |s.pcs|
    ensures var s' := Next(s, step); Globals(s') && |s'.pcs| == |s.pcs| && ProcAt(s', q)
  {
    assert ProcAt(s, q);
    if 0 <= s.lk < |s.pcs| { assert ProcAt(s, s.lk); }
    if !step.Run? {
      OutsideStep(s, step, q);
    } else {
      var p := step.p;
      assert ProcAt(s, p);
      if InAcquire(s.pcs[p]) {
        AcquireLocks(s, p, q);
        AcquireSleep(s, p, q);
      } else if InSleep(s.pcs[p]) {
        SleepLocks(s, p, q);
        SleepSleep(s, p, q);
      } else {
        ReleaseLocks(s, p, q);
        ReleaseSleep(s, p, q);
      }
    }
  }

  lemma NextInv(s: State, step: Step)
    requires Inv(s) && Enabled(s, step)
    ensures Inv(Next(s, step))
  {
    var s' := Next(s, step);
    if |s.pcs| > 0 { NextAt(s, step, 0); }
    forall q: nat | q < |s'.pcs| ensures ProcAt(s', q) { NextAt(s, step, q); }
  }

  /** The scan of wakeup1 in releasesleep reaches process `p`. */
  predicate Reaches(s: State, step: Step, p: nat) {
    step.Run? && step.p < |s.pcs| && s.pcs[step.p] == RScan(p)
  }

  /** A process falls asleep by its own step in sleep only, and wakes exactly when a releaser's scan
      reaches it or somebody kills it. */
  lemma AsleepStep(s: State, step: Step, p: nat)
    requires Inv(s) && Enabled(s, step) && p < |s.asleep|
    ensures |Next(s, step).asleep| == |s.asleep|
    ensures Next(s, step).asleep[p] <==>
            || (step == Run(p) && s.pcs[p].SMark?)
            || (s.asleep[p] && !Reaches(s, step, p) && step != Kill(p))
  {
    assert ProcAt(s, p);
  }

  // ---------------------------------------------------------------- whole runs

  ghost predicate IsRun(ss: seq<State>, steps: seq<Step>) {
    && |ss| == |steps| + 1 && Init(ss[0])
    && forall i :: 0 <= i < |steps| ==> Enabled(ss[i], steps[i]) && ss[i + 1] == Next(ss[i], steps[i])
  }

  lemma {:induction false} RunInv(ss: seq<State>, steps: seq<Step>, i: nat)
    requires IsRun(ss, steps) && i < |ss|
    ensures Inv(ss[i])
  {
    if i == 0 {
      InitInv(ss[0]);
    } else {
      RunInv(ss, steps, i - 1);
      NextInv(ss[i - 1], steps[i - 1]);
    }
  }

  /** At any moment of any run at most one process holds the sleep lock, and while one does no
      other can have found it free. */
  lemma MutualExclusion(ss: seq<State>, steps: seq<Step>, i: nat, p: nat, q: nat)
    requires IsRun(ss, steps) && i < |ss| && p < |ss[i].pcs| && q < |ss[i].pcs|
    requires Owns(ss[i].pcs[p]) && (Owns(ss[i].pcs[q]) || ss[i].pcs[q].ASet?)
    ensures p == q
  {
    RunInv(ss, steps, i);
    assert ProcAt(ss[i], p) && ProcAt(ss[i], q);
  }

  /** A process asleep on the lock, or committed to sleeping on it, has somebody to wake it: the
      lock is held, or the process that cleared it has yet to reach it in wakeup1. */
  lemma NoLostWakeup(ss: seq<State>, steps: seq<Step>, i: nat, p: nat)
    requires IsRun(ss, steps) && i < |ss| && p < |ss[i].pcs|
    ensures |ss[i].asleep| == |ss[i].pcs|
    ensures Sleeps(ss[i], p) ==> (0 <= ss[i].owner < |ss[i].pcs| && Owns(ss[i].pcs[ss[i].owner])) || WakeupDue(ss[i], p)
  {
    RunInv(ss, steps, i);
    assert ProcAt(ss[i], p);
    if ss[i].locked { assert ProcAt(ss[i], ss[i].owner); }
  }

  /** holdingsleep, which reads `locked` and `pid` under the spinlock, answers correctly. */
  lemma HoldingSleep(ss: seq<State>, steps: seq<Step>, i: nat, p: nat)
    requires IsRun(ss, steps) && i < |ss| && p < |ss[i].pcs| && ss[i].lk == NOBODY
    requires ss[i].pcs[p].Idle? || ss[i].pcs[p].Holds?
    ensures ss[i].locked && ss[i].pid == Pid(p) <==> ss[i].pcs[p].Holds?
  {
    RunInv(ss, steps, i);
    assert ProcAt(ss[i], p);
    if ss[i].locked { assert ProcAt(ss[i], ss[i].owner); }
  }

  /** While nobody has the spinlock, `pid` is the number of the holder, and 0 if there is none. */
  lemma PidNamesHolder(ss: seq<State>, steps: seq<Step>, i: nat)
    requires IsRun(ss, steps) && i < |ss| && ss[i].lk == NOBODY
    ensures if ss[i].locked then exists p: nat :: p < |ss[i].pcs| && Owns(ss[i].pcs[p]) && ss[i].pid == Pid(p)
            else ss[i].pid == 0 && forall p: nat :: p < |ss[i].pcs| ==> !Owns(ss[i].pcs[p])
  {
    RunInv(ss, steps, i);
    if ss[i].locked {
      assert ProcAt(ss[i], ss[i].owner);
    } else {
      forall p: nat | p < |ss[i].pcs| ensures !Owns(ss[i].pcs[p]) { assert ProcAt(ss[i], p); }
    }
  }

  /** Whoever holds ptable.lock can move, and if nobody does, so can the holder of the spinlock. */
  lemma HolderMoves(s: State)
    requires Inv(s)
    ensures s.pt >= 0 ==> Enabled(s, Run(s.pt))
    ensures s.pt == NOBODY && s.lk >= 0 ==> Enabled(s, Run(s.lk))
  {
    if s.pt >= 0 { assert ProcAt(s, s.pt); }
    if s.lk >= 0 { assert ProcAt(s, s.lk); }
  }

  /** The protocol never blocks as a whole: if no process in it can move, all are outside it, hold
      the lock or sleep, and if one sleeps then another holds the lock. */
  lemma NoDeadlock(ss: seq<State>, steps: seq<Step>, i: nat, p: nat)
    requires IsRun(ss, steps) && i < |ss| && ss[i].pt != OTHER && p < |ss[i].pcs|
    requires forall r: nat :: !Enabled(ss[i], Run(r))
    ensures |ss[i].asleep| == |ss[i].pcs|
    ensures ss[i].pcs[p].Idle? || ss[i].pcs[p].Holds? || (ss[i].pcs[p].SAsleep? && ss[i].asleep[p])
    ensures ss[i].asleep[p] ==> 0 <= ss[i].owner < |ss[i].pcs| && ss[i].pcs[ss[i].owner].Holds?
  {
    RunInv(ss, steps, i);
    var s := ss[i];
    assert ProcAt(s, p);
    HolderMoves(s);
    assert !Enabled(s, Run(p));
    if s.locked { assert ProcAt(s, s.owner) && !Enabled(s, Run(s.owner)); }
  }
}
