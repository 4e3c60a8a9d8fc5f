/** exit, wait and kill over the process table.  Every step is a section of proc.c that runs under
    ptable.lock, so between steps the lock is free.
 */
module WaitExit {

  datatype RunState = Unused | Embryo | Sleeping | Runnable | Running | Zombie

  /** `parent` and `chan` are table indices, -1 for none; other sleep channels are below -1. */
  datatype Proc = Proc(state: RunState, pid: int, parent: int, chan: int, killed: bool)

  type Table = seq<Proc>

  const INIT := 0
  const NONE := -1

  // ---------------------------------------------------------------- the sections

  function WokenOne(p: Proc, chan: int): Proc {
    if p.state == Sleeping && p.chan == chan then p.(state := Runnable) else p
  }

  /** The table after wakeup1 has passed the first `k` entries. */
  function Woken(t: Table, chan: int, k: nat): (r: Table)
    requires k <= |t|
    ensures |r| == |t| && forall i :: 0 <= i < |t| ==> r[i] == if i < k then WokenOne(t[i], chan) else t[i]
  {
    if k == 0 then t else Woken(t, chan, k - 1)[k - 1 := WokenOne(t[k - 1], chan)]
  }

  /** The table after exit has passed the first `k` entries, giving children to init. */
  function Adopted(t: Table, cur: nat, k: nat): (r: Table)
    requires k <= |t|
    ensures |r| == |t|
  {
    if k == 0 then t else
    var r := Adopted(t, cur, k - 1);
    if r[k - 1].parent != cur then r else
    var r' := r[k - 1 := r[k - 1].(parent := INIT)];
    if r'[k - 1].state == Zombie then Woken(r', INIT, |r'|) else r'
  }

  /** exit, from the lock on. */
  function Exited(t: Table, cur: nat): Table
    requires cur < |t|
  {
    var t1 := Woken(t, t[cur].parent, |t|);
    var t2 := Adopted(t1, cur, |t1|);
    t2[cur := t2[cur].(state := Zombie)]
  }

  predicate Child(t: Table, p: nat, c: nat) {
    c < |t| && t[c].parent == p
  }

  predicate DeadChild(t: Table, p: nat, c: nat) {
    Child(t, p, c) && t[c].state == Zombie
  }

  /** wait frees entry `c`. */
  function Reaped(t: Table, c: nat): Table
    requires c < |t|
  {
    t[c := t[c].(state := Unused, pid := 0, parent := NONE, killed := false)]
  }

  /** wait sleeps on its own entry. */
  function Waiting(t: Table, cur: nat): Table
    requires cur < |t|
  {
    t[cur := t[cur].(state := Sleeping, chan := cur)]
  }

  function Killed(t: Table, q: nat): Table
    requires q < |t|
  {
    t[q := t[q].(killed := true, state := if t[q].state == Sleeping then Runnable else t[q].state)]
  }

  // ---------------------------------------------------------------- what exit does, entry by entry

  /** One of the first `k` entries is a dead child. */
  ghost predicate DeadBelow(t: Table, cur: nat, k: nat) {
    exists c: nat :: c < k && DeadChild(t, cur, c)
  }

  lemma DeadBelowStep(t: Table, cur: nat, k: nat)
    requires 0 < k
    ensures DeadBelow(t, cur, k) <==> DeadBelow(t, cur, k - 1) || DeadChild(t, cur, k - 1)
  {
    if c: nat :| c < k && DeadChild(t, cur, c) { assert c < k - 1 ==> DeadBelow(t, cur, k - 1); }
  }

  /** What exit leaves of entry `i` before it marks the exiting process. */
  ghost predicate AdoptedAt(t: Table, r: Table, cur: nat, k: nat, i: nat)
    requires i < |t| && i < |r|
  {
    && r[i].pid == t[i].pid && r[i].killed == t[i].killed && r[i].chan == t[i].chan
    && r[i].parent == (if i < k && t[i].parent == cur then INIT else t[i].parent)
    && r[i].state == if DeadBelow(t, cur, k) then WokenOne(t[i], INIT).state else t[i].state
  }

  lemma {:induction false} AdoptedEntry(t: Table, cur: nat, k: nat, i: nat)
    requires k <= |t| && i < |t| && cur != INIT
    ensures AdoptedAt(t, Adopted(t, cur, k), cur, k, i)
  {
    if k > 0 {
      AdoptedEntry(t, cur, k - 1, i);
      AdoptedEntry(t, cur, k - 1, k - 1);
      DeadBelowStep(t, cur, k);
    }
  }

  /** What exit leaves of entry `i`. */
  ghost predicate ExitedAt(t: Table, r: Table, cur: nat, i: nat)
    requires cur < |t| && i < |t| && i < |r|
  {
    && r[i].pid == t[i].pid && r[i].killed == t[i].killed && r[i].chan == t[i].chan
    && r[i].parent == (if t[i].parent == cur then INIT else t[i].parent)
    && r[i].state == if i == cur then Zombie
                     else if t[i].state == Sleeping && ExitWakes(t, cur, t[i].chan) then Runnable
                     else t[i].state
  }

  ghost predicate HasDead(t: Table, p: nat) {
    exists c: nat :: DeadChild(t, p, c)
  }

  /** exit wakes the parent, and init if it gets a dead child. */
  ghost predicate ExitWakes(t: Table, cur: nat, chan: int)
    requires cur < |t|
  {
    chan == t[cur].parent || (chan == INIT && HasDead(t, cur))
  }

  lemma ExitedEntry(t: Table, cur: nat, i: nat)
    requires cur < |t| && i < |t| && cur != INIT
    ensures |Exited(t, cur)| == |t| && ExitedAt(t, Exited(t, cur), cur, i)
  {
    var t1 := Woken(t, t[cur].parent, |t|);
    AdoptedEntry(t1, cur, |t1|, i);
    assert forall c: nat :: DeadChild(t1, cur, c) <==> DeadChild(t, cur, c);
    assert HasDead(t, cur) <==> DeadBelow(t1, cur, |t1|);
  }

  // ---------------------------------------------------------------- steps

  /** `nextpid` is the next process number, `slot` remembers where each process lives, `exited` and
      `reaped` which have called exit and which wait has returned, and `waiting` which entries have
      called wait and not come back from it. */
  datatype State = State(t: Table, nextpid: int, slot: map<int, nat>, exited: set<int>, reaped: set<int>,
                         waiting: set<nat>)

  datatype Step =
    | Schedule(p: nat) | Yield(p: nat)
    | SleepOn(p: nat, chan: int) | Wakeup(chan: int)
    | Alloc(c: nat) | AllocFails(c: nat) | Fork(p: nat, c: nat)
    | Exit(p: nat) | Wait(p: nat) | Kill(q: nat)

  predicate InState(t: Table, p: nat, rs: RunState) {
    p < |t| && t[p].state == rs
  }

  /** The sections that may run.  A process inside wait runs nothing but its loop. */
  predicate Enabled(s: State, step: Step) {
    match step
    case Schedule(p) => InState(s.t, p, Runnable)
    case Yield(p) => InState(s.t, p, Running)
    case SleepOn(p, chan) => InState(s.t, p, Running) && p !in s.waiting && chan < NONE
    case Wakeup(chan) => chan < NONE
    case Alloc(c) => InState(s.t, c, Unused)
    case AllocFails(c) => InState(s.t, c, Embryo) && s.t[c].parent == NONE
    case Fork(p, c) => InState(s.t, p, Running) && p !in s.waiting && InState(s.t, c, Embryo)
    case Exit(p) => InState(s.t, p, Running) && p !in s.waiting && p != INIT
    case Wait(p) => InState(s.t, p, Running)
    case Kill(q) => q < |s.t|
  }

  /** The entry that wait's scan finds, or the table size. */
  function FirstDead(t: Table, p: nat, k: nat): (c: nat)
    requires k <= |t|
    ensures k <= c <= |t| && (c < |t| ==> DeadChild(t, p, c)) && forall d: nat :: k <= d < c ==> !DeadChild(t, p, d)
    decreases |t| - k
  {
    if k == |t| || DeadChild(t, p, k) then k else FirstDead(t, p, k + 1)
  }

  ghost predicate HasChild(t: Table, p: nat) {
    exists c: nat :: Child(t, p, c)
  }

  ghost function Next(s: State, step: Step): State
    requires Enabled(s, step)
  {
    match step
    case Schedule(p) => s.(t := s.t[p := s.t[p].(state := Running)])
    case Yield(p) => s.(t := s.t[p := s.t[p].(state := Runnable)])
    case SleepOn(p, chan) => s.(t := s.t[p := s.t[p].(state := Sleeping, chan := chan)])
    case Wakeup(chan) => s.(t := Woken(s.t, chan, |s.t|))
    case Alloc(c) =>
      s.(t := s.t[c := s.t[c].(state := Embryo, pid := s.nextpid)], nextpid := s.nextpid + 1,
         slot := s.slot[s.nextpid := c])
    case AllocFails(c) => s.(t := s.t[c := s.t[c].(state := Unused)])
    case Fork(p, c) => s.(t := s.t[c := s.t[c].(state := Runnable, parent := p)])
    case Exit(p) => s.(t := Exited(s.t, p), exited := s.exited + {s.t[p].pid})
    case Kill(q) => s.(t := Killed(s.t, q))
    case Wait(p) =>
      var c := FirstDead(s.t, p, 0);
      if c < |s.t| then s.(t := Reaped(s.t, c), reaped := s.reaped + {s.t[c].pid}, waiting := s.waiting - {p})
      else if !HasChild(s.t, p) || s.t[p].killed then s.(waiting := s.waiting - {p})
      else s.(t := Waiting(s.t, p), waiting := s.waiting + {p})
  }

  // ---------------------------------------------------------------- the invariant

  predicate Alive(rs: RunState) {
    rs == Sleeping || rs == Runnable || rs == Running
  }

  predicate AsleepInWait(t: Table, p: nat) {
    p < |t| && t[p].state == Sleeping && t[p].chan == p
  }

  /** A process sleeps on its own entry exactly when it sleeps inside wait. */
  predicate WaitingAt(s: State, p: nat) {
    && (p in s.waiting ==> p < |s.t| && Alive(s.t[p].state))
    && (InState(s.t, p, Sleeping) ==> (p in s.waiting <==> s.t[p].chan == p))
  }

  /** A process asleep in wait has a child and no dead child. */
  ghost predicate WaitAt(t: Table, p: nat) {
    AsleepInWait(t, p) ==> HasChild(t, p) && forall c: nat :: !DeadChild(t, p, c)
  }

  /** Parents are alive, so every process that exits has one to reap it. */
  predicate ParentAt(t: Table, c: nat) {
    c < |t| ==>
      && (t[c].parent != NONE ==> 0 <= t[c].parent < |t| && Alive(t[t[c].parent].state) && t[c].parent != c)
      && ((t[c].state == Unused || t[c].state == Embryo) ==> t[c].parent == NONE)
      && (c != INIT && (Alive(t[c].state) || t[c].state == Zombie) ==> t[c].parent != NONE)
      && (c == INIT ==> Alive(t[c].state) && t[c].parent == NONE)
  }

  /** Process numbers are unique, and a process has exited exactly if it is a zombie. */
  predicate PidAt(s: State, c: nat) {
    c < |s.t| && s.t[c].state != Unused ==>
      var pid := s.t[c].pid;
      && pid < s.nextpid && pid in s.slot && s.slot[pid] == c && pid !in s.reaped
      && (pid in s.exited <==> s.t[c].state == Zombie)
  }

  /** Nobody who exited is lost: wait has returned the process, or it is still in the table. */
  predicate ExitAt(s: State, pid: int) {
    pid in s.exited ==>
      && pid < s.nextpid
      && (pid !in s.reaped ==> pid in s.slot && InState(s.t, s.slot[pid], Zombie) && s.t[s.slot[pid]].pid == pid)
  }

  ghost predicate Inv(s: State) {
    && |s.t| > 0 && s.reaped <= s.exited
    && (forall p: nat :: WaitAt(s.t, p))
    && (forall p: nat :: WaitingAt(s, p))
    && (forall c: nat :: ParentAt(s.t, c))
    && (forall c: nat :: PidAt(s, c))
    && (forall pid :: ExitAt(s, pid))
  }

  lemma ExitWait(t: Table, cur: nat, p: nat)
    requires cur < |t| && cur != INIT && WaitAt(t, p) && ParentAt(t, cur)
    ensures WaitAt(Exited(t, cur), p)
  {
    ExitedEntry(t, cur, cur);
    var r := Exited(t, cur);
    if AsleepInWait(r, p) {
      ExitedEntry(t, cur, p);
      assert AsleepInWait(t, p);
      var c: nat :| Child(t, p, c);
      ExitedEntry(t, cur, c);
      assert Child(r, p, c);
      forall d: nat ensures !DeadChild(r, p, d) {
        if d < |t| {
          ExitedEntry(t, cur, d);
          assert !DeadChild(t, p, d);
          if t[d].parent == cur && t[d].state == Zombie { assert DeadChild(t, cur, d); }
        }
      }
    }
  }

  lemma ExitParent(t: Table, cur: nat, c: nat)
    requires cur < |t| && cur != INIT && ParentAt(t, c) && ParentAt(t, INIT) && ParentAt(t, cur) && Alive(t[cur].state)
    ensures ParentAt(Exited(t, cur), c)
  {
    ExitedEntry(t, cur, cur);
    if c < |t| {
      ExitedEntry(t, cur, c);
      ExitedEntry(t, cur, INIT);
      if 0 <= t[c].parent < |t| { ExitedEntry(t, cur, t[c].parent); }
    }
  }

  /** Steps that change the running state or the flags of one process only, or wake some. */
  predicate Plain(step: Step) {
    step.Schedule? || step.Yield? || step.SleepOn? || step.Wakeup? || step.Kill?
  }

  lemma PlainEntry(s: State, step: Step, i: nat)
    requires Enabled(s, step) && Plain(step) && i < |s.t|
    ensures var t' := Next(s, step).t;
            && |t'| == |s.t| && t'[i].parent == s.t[i].parent && t'[i].pid == s.t[i].pid
            && (t'[i].state == s.t[i].state || (Alive(s.t[i].state) && Alive(t'[i].state)))
            && (AsleepInWait(t', i) ==> AsleepInWait(s.t, i))
  {
  }

  lemma NextWait(s: State, step: Step, p: nat)
    requires Inv(s) && Enabled(s, step)
    ensures WaitAt(Next(s, step).t, p)
  {
    var t, t' := s.t, Next(s, step).t;
    assert WaitAt(t, p);
    if step.Exit? {
      assert ParentAt(t, step.p);
      ExitWait(t, step.p, p);
    } else if Plain(step) && p < |t| {
      PlainEntry(s, step, p);
      if AsleepInWait(t', p) {
        var c: nat :| Child(t, p, c);
        PlainEntry(s, step, c);
        assert Child(t', p, c);
        forall d: nat ensures !DeadChild(t', p, d) {
          if d < |t| { PlainEntry(s, step, d); assert !DeadChild(t, p, d); }
        }
      }
    } else if AsleepInWait(t', p) && !step.Wait? {
      var c: nat :| Child(t, p, c);
      assert ParentAt(t, c) && !DeadChild(t, p, c);
      assert Child(t', p, c);
      forall d: nat ensures !DeadChild(t', p, d) { assert !DeadChild(t, p, d); }
    } else if step.Wait? {
      WaitStepWait(s, step.p, p);
    }
  }

  lemma WaitStepWait(s: State, cur: nat, p: nat)
    requires Inv(s) && Enabled(s, Wait(cur))
    ensures WaitAt(Next(s, Wait(cur)).t, p)
  {
    var t, t' := s.t, Next(s, Wait(cur)).t;
    var c := FirstDead(t, cur, 0);
    if AsleepInWait(t', p) {
      if p != cur {
        assert WaitAt(t, p);
        var d: nat :| Child(t, p, d);
        assert Child(t', p, d);
        forall d: nat ensures !DeadChild(t', p, d) { assert !DeadChild(t, p, d); }
      } else {
        var d: nat :| Child(t, p, d);
        assert ParentAt(t, d);
        assert Child(t', p, d);
        forall d: nat ensures !DeadChild(t', p, d) { assert !DeadChild(t, p, d); }
      }
    }
  }

  lemma NextWaiting(s: State, step: Step, p: nat)
    requires Inv(s) && Enabled(s, step)
    ensures WaitingAt(Next(s, step), p)
  {
    assert WaitingAt(s, p) && ParentAt(s.t, p);
    if step.Exit? && p < |s.t| {
      ExitedEntry(s.t, step.p, p);
    } else if step.Wait? && FirstDead(s.t, step.p, 0) < |s.t| {
      assert WaitingAt(s, step.p);
    }
  }

  lemma NextParent(s: State, step: Step, c: nat)
    requires Inv(s) && Enabled(s, step)
    ensures ParentAt(Next(s, step).t, c)
  {
    var t := s.t;
    assert ParentAt(t, c) && ParentAt(t, INIT);
    if step.Exit? {
      assert ParentAt(t, step.p);
      ExitParent(t, step.p, c);
    } else if Plain(step) && c < |t| {
      PlainEntry(s, step, c);
      if 0 <= t[c].parent < |t| { PlainEntry(s, step, t[c].parent); }
    }
  }

  lemma NextPid(s: State, step: Step, c: nat)
    requires Inv(s) && Enabled(s, step)
    ensures PidAt(Next(s, step), c)
  {
    assert PidAt(s, c);
    if step.Exit? {
      assert PidAt(s, step.p);
      ExitedEntry(s.t, step.p, step.p);
      if c < |s.t| { ExitedEntry(s.t, step.p, c); }
    } else if Plain(step) && c < |s.t| {
      PlainEntry(s, step, c);
    } else if step.Wait? && FirstDead(s.t, step.p, 0) < |s.t| {
      assert PidAt(s, FirstDead(s.t, step.p, 0));
    } else if step.Alloc? {
      assert ExitAt(s, s.nextpid);
    }
  }

  lemma NextExit(s: State, step: Step, pid: int)
    requires Inv(s) && Enabled(s, step)
    ensures ExitAt(Next(s, step), pid)
  {
    assert ExitAt(s, pid);
    if step.Exit? {
      assert PidAt(s, step.p);
      ExitedEntry(s.t, step.p, step.p);
      if pid in s.slot && s.slot[pid] < |s.t| { ExitedEntry(s.t, step.p, s.slot[pid]); }
    } else if Plain(step) && pid in s.slot && s.slot[pid] < |s.t| {
      PlainEntry(s, step, s.slot[pid]);
    } else if step.Wait? && FirstDead(s.t, step.p, 0) < |s.t| {
      assert PidAt(s, FirstDead(s.t, step.p, 0));
    } else if step.Alloc? {
      assert PidAt(s, step.c);
    }
  }

  lemma NextInv(s: State, step: Step)
    requires Inv(s) && Enabled(s, step)
    ensures Inv(Next(s, step))
  {
    var s' := Next(s, step);
    forall p: nat ensures WaitAt(s'.t, p) { NextWait(s, step, p); }
    forall p: nat ensures WaitingAt(s', p) { NextWaiting(s, step, p); }
    forall c: nat ensures ParentAt(s'.t, c) { NextParent(s, step, c); }
    forall c: nat ensures PidAt(s', c) { NextPid(s, step, c); }
    forall pid ensures ExitAt(s', pid) { NextExit(s, step, pid); }
    if step.Wait? && FirstDead(s.t, step.p, 0) < |s.t| { assert PidAt(s, FirstDead(s.t, step.p, 0)); }
    if step.Exit? { ExitedEntry(s.t, step.p, step.p); }
  }

  // ---------------------------------------------------------------- whole runs

  /** After userinit: only init, runnable. */
  ghost predicate Init(s: State) {
    && |s.t| > 0 && s.t[INIT] == Proc(Runnable, 1, NONE, NONE, false) && s.nextpid == 2 && s.slot == map[1 := INIT]
    && s.exited == {} && s.reaped == {} && s.waiting == {}
    && forall c: nat :: 0 < c < |s.t| ==> s.t[c] == Proc(Unused, 0, NONE, NONE, false)
  }

  lemma InitInv(s: State)
    requires Init(s)
    ensures Inv(s)
  {
  }

  ghost predicate Takes(s: State, step: Step, s': State) {
    Enabled(s, step) && s' == Next(s, step)
  }

  ghost predicate IsRun(ss: seq<State>, steps: seq<Step>) {
    |ss| == |steps| + 1 && Init(ss[0]) && forall i :: 0 <= i < |steps| ==> Takes(ss[i], steps[i], ss[i + 1])
  }

  lemma {:induction false} RunInv(ss: seq<State>, steps: seq<Step>, i: nat)
    requires IsRun(ss, steps) && i < |ss|
    ensures Inv(ss[i])
  {
    if i == 0 {
      InitInv(ss[0]);
    } else {
      RunInv(ss, steps, i - 1);
      assert Takes(ss[i - 1], steps[i - 1], ss[i]);
      NextInv(ss[i - 1], steps[i - 1]);
    }
  }

  /** A process that has called wait, has not come back and is not runnable. */
  predicate StuckInWait(s: State, p: nat) {
    p in s.waiting && InState(s.t, p, Sleeping)
  }

  /** Whenever the table lock is free, a process that sleeps in a wait which has not returned has a
      child and none that is dead: no exit goes unnoticed, also when children pass to init. */
  lemma WaitersMissNothing(ss: seq<State>, steps: seq<Step>, i: nat, p: nat)
    requires IsRun(ss, steps) && i < |ss| && StuckInWait(ss[i], p)
    ensures HasChild(ss[i].t, p) && forall c: nat :: !DeadChild(ss[i].t, p, c)
  {
    RunInv(ss, steps, i);
    assert WaitAt(ss[i].t, p) && WaitingAt(ss[i], p);
  }

  /** The step in which a child exits, or in which init gets a dead child, leaves the parent awake. */
  lemma ExitWakesParent(ss: seq<State>, steps: seq<Step>, i: nat)
    requires IsRun(ss, steps) && i < |steps| && steps[i].Exit?
    ensures steps[i].p < |ss[i].t| && ss[i].t[steps[i].p].parent >= 0
    ensures !StuckInWait(ss[i + 1], ss[i].t[steps[i].p].parent)
    ensures (exists c: nat :: DeadChild(ss[i].t, steps[i].p, c)) ==> !StuckInWait(ss[i + 1], INIT)
  {
    assert Takes(ss[i], steps[i], ss[i + 1]);
    RunInv(ss, steps, i);
    RunInv(ss, steps, i + 1);
    var t, t', cur := ss[i].t, ss[i + 1].t, steps[i].p;
    var q := t[cur].parent;
    assert ParentAt(t, cur);
    ExitedEntry(t, cur, cur);
    assert DeadChild(t', q, cur);
    assert WaitAt(t', q) && WaitingAt(ss[i + 1], q);
    if exists c: nat :: DeadChild(t, cur, c) {
      var c: nat :| DeadChild(t, cur, c);
      ExitedEntry(t, cur, c);
      assert DeadChild(t', INIT, c);
      assert WaitAt(t', INIT) && WaitingAt(ss[i + 1], INIT);
    }
  }

  /** A pass of wait goes to sleep if and only if there is a child, none is dead and the process is
      not killed; else the call returns. */
  lemma WaitSleepsIff(ss: seq<State>, steps: seq<Step>, i: nat, p: nat)
    requires IsRun(ss, steps) && i < |steps| && steps[i] == Wait(p)
    ensures var t := ss[i].t;
            && p < |t| && (StuckInWait(ss[i + 1], p) <==> p in ss[i + 1].waiting)
            && (StuckInWait(ss[i + 1], p) <==>
                  HasChild(t, p) && !t[p].killed && forall c: nat :: !DeadChild(t, p, c))
  {
    assert Takes(ss[i], steps[i], ss[i + 1]);
    var c := FirstDead(ss[i].t, p, 0);
    assert c < |ss[i].t| ==> DeadChild(ss[i].t, p, c);
  }

  /** Every dead process has a living parent, which is not asleep in wait. */
  lemma DeadHaveReaper(ss: seq<State>, steps: seq<Step>, i: nat, c: nat)
    requires IsRun(ss, steps) && i < |ss| && InState(ss[i].t, c, Zombie)
    ensures var q := ss[i].t[c].parent; 0 <= q < |ss[i].t| && Alive(ss[i].t[q].state) && !StuckInWait(ss[i], q)
  {
    RunInv(ss, steps, i);
    var t := ss[i].t;
    assert ParentAt(t, c) && WaitAt(t, t[c].parent) && WaitingAt(ss[i], t[c].parent);
    assert DeadChild(t, t[c].parent, c);
  }

  /** The process number that wait returns, or -1. */
  function Returned(s: State, p: nat): int {
    var c := FirstDead(s.t, p, 0);
    if c < |s.t| then s.t[c].pid else -1
  }

  lemma {:induction false} ReapedStays(ss: seq<State>, steps: seq<Step>, i: nat, j: nat, pid: int)
    requires IsRun(ss, steps) && i <= j < |ss| && pid in ss[i].reaped
    ensures pid in ss[j].reaped
  {
    if i < j {
      ReapedStays(ss, steps, i, j - 1, pid);
      assert Takes(ss[j - 1], steps[j - 1], ss[j]);
    }
  }

  /** No two waits of a run return the same process, and what wait returns had called exit. */
  lemma ReapedOnce(ss: seq<State>, steps: seq<Step>, i: nat, j: nat)
    requires IsRun(ss, steps) && i < j < |steps| && steps[i].Wait? && steps[j].Wait?
    requires FirstDead(ss[i].t, steps[i].p, 0) < |ss[i].t| && FirstDead(ss[j].t, steps[j].p, 0) < |ss[j].t|
    ensures Returned(ss[i], steps[i].p) != Returned(ss[j], steps[j].p)
    ensures Returned(ss[i], steps[i].p) in ss[i].exited
  {
    assert Takes(ss[i], steps[i], ss[i + 1]);
    RunInv(ss, steps, i);
    RunInv(ss, steps, j);
    ReapedStays(ss, steps, i + 1, j, Returned(ss[i], steps[i].p));
    assert PidAt(ss[i], FirstDead(ss[i].t, steps[i].p, 0)) && PidAt(ss[j], FirstDead(ss[j].t, steps[j].p, 0));
  }

  // ---------------------------------------------------------------- what the calls of a run make true

  /** wait's scan frees entry `c` in this step. */
  predicate Reaps(s: State, step: Step, c: nat) {
    step.Wait? && c < |s.t| && FirstDead(s.t, step.p, 0) == c
  }

  /** A pass of wait by process `p` goes to sleep. */
  ghost predicate WaitSleeps(s: State, p: nat) {
    FirstDead(s.t, p, 0) == |s.t| && HasChild(s.t, p) && p < |s.t| && !s.t[p].killed
  }

  /** What is true of entry `c`: allocated, on a processor, asleep on a channel, child of `p`, dead,
      or marked by kill. */
  datatype Fact = InUse(c: nat) | OnCpu(c: nat) | AsleepOn(c: nat, chan: int) | ChildOf(c: nat, p: nat)
                | Dead(c: nat) | Marked(c: nat)

  predicate Holds(f: Fact, t: Table) {
    && f.c < |t|
    && match f
       case InUse(c) => t[c].state != Unused
       case OnCpu(c) => t[c].state == Running
       case AsleepOn(c, chan) => t[c].state == Sleeping && t[c].chan == chan
       case ChildOf(c, p) => t[c].parent == p
       case Dead(c) => t[c].state == Zombie
       case Marked(c) => t[c].killed
  }

  /** The calls that make it true. */
  ghost predicate Begins(f: Fact, s: State, step: Step) {
    match f
    case InUse(c) => step == Alloc(c)
    case OnCpu(c) => step == Schedule(c)
    case AsleepOn(c, chan) => step == SleepOn(c, chan) || (step == Wait(c) && chan == c && WaitSleeps(s, c))
    case ChildOf(c, p) => step == Fork(p, c) || (step.Exit? && p == INIT && Child(s.t, step.p, c))
    case Dead(c) => step == Exit(c)
    case Marked(c) => step == Kill(c)
  }

  /** The calls that end it. */
  ghost predicate Ends(f: Fact, s: State, step: Step) {
    match f
    case InUse(c) => step == AllocFails(c) || Reaps(s, step, c)
    case OnCpu(c) =>
      step == Yield(c) || (step.SleepOn? && step.p == c) || step == Exit(c) || (step == Wait(c) && WaitSleeps(s, c))
    case AsleepOn(c, chan) =>
      step == Wakeup(chan) || step == Kill(c) || (step.Exit? && step.p < |s.t| && ExitWakes(s.t, step.p, chan))
    case ChildOf(c, p) => Reaps(s, step, c) || step == Exit(p)
    case Dead(c) => Reaps(s, step, c)
    case Marked(c) => Reaps(s, step, c)
  }

  lemma ExitFact(s: State, step: Step, f: Fact)
    requires Inv(s) && Enabled(s, step) && f.c < |s.t| && step.Exit?
    ensures |Next(s, step).t| == |s.t|
    ensures Holds(f, Next(s, step).t) <==> Begins(f, s, step) || (Holds(f, s.t) && !Ends(f, s, step))
  {
    ExitedEntry(s.t, step.p, f.c);
  }

  lemma WaitFact(s: State, step: Step, f: Fact)
    requires Inv(s) && Enabled(s, step) && f.c < |s.t| && step.Wait?
    ensures |Next(s, step).t| == |s.t|
    ensures Holds(f, Next(s, step).t) <==> Begins(f, s, step) || (Holds(f, s.t) && !Ends(f, s, step))
  {
  }

  lemma PlainFact(s: State, step: Step, f: Fact)
    requires Inv(s) && Enabled(s, step) && f.c < |s.t| && Plain(step)
    ensures |Next(s, step).t| == |s.t|
    ensures Holds(f, Next(s, step).t) <==> Begins(f, s, step) || (Holds(f, s.t) && !Ends(f, s, step))
  {
  }

  lemma BirthFact(s: State, step: Step, f: Fact)
    requires Inv(s) && Enabled(s, step) && f.c < |s.t| && (step.Alloc? || step.AllocFails? || step.Fork?)
    ensures |Next(s, step).t| == |s.t|
    ensures Holds(f, Next(s, step).t) <==> Begins(f, s, step) || (Holds(f, s.t) && !Ends(f, s, step))
  {
    assert ParentAt(s.t, f.c);
  }

  lemma FactStep(s: State, step: Step, f: Fact)
    requires Inv(s) && Enabled(s, step) && f.c < |s.t|
    ensures |Next(s, step).t| == |s.t|
    ensures Holds(f, Next(s, step).t) <==> Begins(f, s, step) || (Holds(f, s.t) && !Ends(f, s, step))
  {
    if step.Exit? {
      ExitFact(s, step, f);
    } else if step.Wait? {
      WaitFact(s, step, f);
    } else if Plain(step) {
      PlainFact(s, step, f);
    } else {
      BirthFact(s, step, f);
    }
  }

  /** The call in step `j` made it true, and none since then has ended it. */
  ghost predicate TrueSince(ss: seq<State>, steps: seq<Step>, j: nat, i: nat, f: Fact) {
    && j < i < |ss| == |steps| + 1 && Begins(f, ss[j], steps[j])
    && forall k :: j < k < i ==> !Ends(f, ss[k], steps[k])
  }

  /** By the calls alone: it was true at first and was never ended, or became true and was not ended since. */
  ghost predicate ByCalls(ss: seq<State>, steps: seq<Step>, i: nat, f: Fact)
    requires i < |ss| == |steps| + 1
  {
    || (Holds(f, ss[0].t) && forall k :: 0 <= k < i ==> !Ends(f, ss[k], steps[k]))
    || exists j: nat :: TrueSince(ss, steps, j, i, f)
  }

  lemma ByCallsStep(ss: seq<State>, steps: seq<Step>, i: nat, f: Fact)
    requires 0 < i < |ss| == |steps| + 1
    ensures ByCalls(ss, steps, i, f) <==>
            Begins(f, ss[i - 1], steps[i - 1]) || (ByCalls(ss, steps, i - 1, f) && !Ends(f, ss[i - 1], steps[i - 1]))
  {
    if j: nat :| TrueSince(ss, steps, j, i, f) { assert j < i - 1 ==> TrueSince(ss, steps, j, i - 1, f); }
    if Begins(f, ss[i - 1], steps[i - 1]) {
      assert TrueSince(ss, steps, i - 1, i, f);
    } else if !Ends(f, ss[i - 1], steps[i - 1]) {
      var i0 := i - 1;
      if j: nat :| TrueSince(ss, steps, j, i0, f) { assert TrueSince(ss, steps, j, i, f); }
    }
  }

  /** In every run, whether an entry is in use, runs, sleeps on a channel, is a child of `p`, is dead
      or is marked follows from the calls made, and from nothing else. */
  lemma {:induction false} HoldsIff(ss: seq<State>, steps: seq<Step>, i: nat, f: Fact)
    requires IsRun(ss, steps) && i < |ss| && f.c < |ss[0].t|
    ensures |ss[i].t| == |ss[0].t| && (Holds(f, ss[i].t) <==> ByCalls(ss, steps, i, f))
  {
    if i > 0 {
      HoldsIff(ss, steps, i - 1, f);
      assert Takes(ss[i - 1], steps[i - 1], ss[i]);
      RunInv(ss, steps, i - 1);
      FactStep(ss[i - 1], steps[i - 1], f);
      ByCallsStep(ss, steps, i, f);
    }
  }

  /** A new process starts unmarked if and only if its entry was not killed since it was last reaped,
      or at all: allocproc does not clear the flag. */
  lemma NewbornUnmarkedIff(ss: seq<State>, steps: seq<Step>, i: nat, c: nat)
    requires IsRun(ss, steps) && i < |steps| && steps[i] == Alloc(c)
    ensures InState(ss[i + 1].t, c, Embryo) && (ss[i + 1].t[c].killed <==> ByCalls(ss, steps, i, Marked(c)))
  {
    assert Takes(ss[i], steps[i], ss[i + 1]);
    HoldsIff(ss, steps, i, InUse(0));
    HoldsIff(ss, steps, i, Marked(c));
  }

  /** So a kill of process number 0, which unused entries have, marks the next process to be made. */
  lemma NewbornMarked(s: State) returns (ss: seq<State>, steps: seq<Step>)
    requires Init(s) && |s.t| > 1
    ensures IsRun(ss, steps) && ss[0] == s && steps == [Kill(1), Alloc(1)] && FirstWith(s.t, 0, 1)
    ensures InState(ss[2].t, 1, Embryo) && ss[2].t[1].killed
  {
    var s1 := Next(s, Kill(1));
    ss, steps := [s, s1, Next(s1, Alloc(1))], [Kill(1), Alloc(1)];
    assert Takes(ss[0], steps[0], ss[1]) && Takes(ss[1], steps[1], ss[2]);
  }

  // ---------------------------------------------------------------- the code

  /** Entry `q` is the first with process number `pid`. */
  predicate FirstWith(t: Table, pid: int, q: nat) {
    q < |t| && t[q].pid == pid && forall i :: 0 <= i < q ==> t[i].pid != pid
  }

  /** ptable and the scans over it. */
  class Ptable {
    var t: Table

    /** wakeup1 */
    method Wakeup1(chan: int)
      modifies this
      ensures t == Woken(old(t), chan, |old(t)|)
    {
      var i := 0;
      while i < |t|
        invariant 0 <= i <= |t| == |old(t)| && t == Woken(old(t), chan, i)
      {
        if t[i].state == Sleeping && t[i].chan == chan {
          t := t[i := t[i].(state := Runnable)];
        }
        i := i + 1;
      }
    }

    /** exit, from the acquisition of the lock to sched. */
    method Exit(cur: nat)
      requires cur < |t| && cur != INIT
      modifies this
      ensures t == Exited(old(t), cur)
    {
      Wakeup1(t[cur].parent);
      ghost var t1 := t;
      var i := 0;
      while i < |t|
        invariant 0 <= i <= |t| == |t1| && t == Adopted(t1, cur, i)
      {
        if t[i].parent == cur {
          t := t[i := t[i].(parent := INIT)];
          if t[i].state == Zombie {
            Wakeup1(INIT);
          }
        }
        i := i + 1;
      }
      t := t[cur := t[cur].(state := Zombie)];
    }

    /** One pass of wait's loop: reap the first dead child, fail, or go to sleep. */
    method Wait(cur: nat) returns (pid: int, asleep: bool)
      requires cur < |t|
      modifies this
      ensures var c := FirstDead(old(t), cur, 0);
              if c < |old(t)| then t == Reaped(old(t), c) && pid == old(t)[c].pid && !asleep
              else if !HasChild(old(t), cur) || old(t)[cur].killed then t == old(t) && pid == -1 && !asleep
              else t == Waiting(old(t), cur) && asleep
    {
      var havekids := false;
      var i := 0;
      while i < |t|
        invariant 0 <= i <= |t| && t == old(t) && FirstDead(t, cur, 0) == FirstDead(t, cur, i)
        invariant havekids <==> exists c: nat :: c < i && Child(t, cur, c)
      {
        if t[i].parent == cur {
          assert Child(t, cur, i);
          havekids := true;
          if t[i].state == Zombie {
            pid := t[i].pid;
            t := t[i := t[i].(pid := 0, parent := NONE, killed := false, state := Unused)];
            return pid, false;
          }
        }
        i := i + 1;
      }
      if !havekids || t[cur].killed {
        return -1, false;
      }
      t := t[cur := t[cur].(chan := cur, state := Sleeping)];
      return 0, true;
    }

    /** kill: the first entry with that process number. */
    method Kill(pid: int) returns (r: int)
      modifies this
      ensures r == -1 ==> t == old(t) && forall i :: 0 <= i < |t| ==> t[i].pid != pid
      ensures r != -1 ==> r == 0 && exists q: nat :: FirstWith(old(t), pid, q) && t == Killed(old(t), q)
    {
      var i := 0;
      while i < |t|
        invariant 0 <= i <= |t| && t == old(t) && forall j :: 0 <= j < i ==> t[j].pid != pid
      {
        if t[i].pid == pid {
          t := t[i := t[i].(killed := true)];
          if t[i].state == Sleeping {
            t := t[i := t[i].(state := Runnable)];
          }
          assert FirstWith(old(t), pid, i) && t == Killed(old(t), i);
          return 0;
        }
        i := i + 1;
      }
      return -1;
    }
  }
}
