/** Pipes: any number of readers and writers, interleaved at every byte and at every sleep. */
module Pipe {

  const PIPESIZE := 512
  const WRAP := 0x1_0000_0000  // nread and nwrite are 32-bit counters

  datatype Chan = Awake | OnRead | OnWrite

  /** What a process does with the pipe; those from `Writing` to `Closing` hold its lock. */
  datatype Pc =
    | Outside
    | WStart(bytes: seq<int>, i: nat)   // acquire, at first or after sleep
    | RStart(n: nat)
    | CStart(writable: bool)
    | Writing(bytes: seq<int>, i: nat)
    | Testing(n: nat)                   // while nread == nwrite && writeopen
    | Copying(n: nat, i: nat)
    | Closing(writable: bool)

  /** The ring of a pipe; `written` and `got` are the bytes stored and taken so far. */
  datatype Ring = Ring(data: seq<int>, nread: int, nwrite: int, written: seq<int>, got: seq<int>)

  /** The pipe, the holder of its lock, and the processes.  `stranded` are the readers that a writer
      left asleep when it returned early from a full pipe; StrandedMeans says it without the set. */
  datatype State = State(ring: Ring, readopen: bool, writeopen: bool, lock: int,
                         pcs: seq<Pc>, asleep: seq<Chan>, killed: seq<bool>, stranded: set<nat>)

  const FREE := -1

  datatype Step = Write(p: nat, bytes: seq<int>) | Read(p: nat, n: nat) | Close(p: nat, writable: bool)
                | Kill(p: nat) | Run(p: nat)

  predicate Full(r: Ring) {
    r.nwrite == (r.nread + PIPESIZE) % WRAP
  }

  predicate Empty(r: Ring) {
    r.nread == r.nwrite
  }

  function Put(r: Ring, b: int): Ring
    requires |r.data| == PIPESIZE
  {
    r.(data := r.data[r.nwrite % PIPESIZE := b], nwrite := (r.nwrite + 1) % WRAP, written := r.written + [b])
  }

  function Get(r: Ring): Ring
    requires |r.data| == PIPESIZE
  {
    r.(nread := (r.nread + 1) % WRAP, got := r.got + [r.data[r.nread % PIPESIZE]])
  }

  predicate Enabled(s: State, step: Step) {
    && step.p < |s.pcs| && step.p < |s.asleep| && step.p < |s.killed|
    && match step
       case Kill(_) => true
       case Run(p) =>
         (match s.pcs[p]
          case Outside => false
          case WStart(_, _) => s.lock == FREE && s.asleep[p] == Awake
          case RStart(_) => s.lock == FREE && s.asleep[p] == Awake
          case CStart(_) => s.lock == FREE
          case _ => true)
       case _ => s.pcs[step.p] == Outside
  }

  function At(s: State, p: nat, pc: Pc): State
    requires p < |s.pcs|
  {
    s.(pcs := s.pcs[p := pc])
  }

  /** wakeup1's scan. */
  function Woken(asleep: seq<Chan>, chan: Chan): (r: seq<Chan>)
    ensures |r| == |asleep| && forall p :: 0 <= p < |r| ==> r[p] == if asleep[p] == chan then Awake else asleep[p]
  {
    if asleep == [] then []
    else Woken(asleep[..|asleep| - 1], chan) + [if asleep[|asleep| - 1] == chan then Awake else asleep[|asleep| - 1]]
  }

  /** wakeup(chan) */
  function Wake(s: State, chan: Chan): State {
    s.(asleep := Woken(s.asleep, chan), stranded := if chan == OnRead then {} else s.stranded)
  }

  /** sleep(chan, &p->lock): release and sleep in one; `pc` is where the process takes the lock again. */
  function Sleep(s: State, p: nat, chan: Chan, pc: Pc): State
    requires p < |s.pcs| && p < |s.asleep|
  {
    s.(pcs := s.pcs[p := pc], asleep := s.asleep[p := chan], lock := FREE)
  }

  function Readers(asleep: seq<Chan>): (r: set<nat>)
    ensures forall p: nat :: p in r <==> p < |asleep| && asleep[p] == OnRead
  {
    set p: nat | p < |asleep| && asleep[p] == OnRead
  }

  /** One turn of pipewrite's loops. */
  function WriteStep(s: State, p: nat): State
    requires p < |s.pcs| && p < |s.asleep| && p < |s.killed| && s.pcs[p].Writing? && |s.ring.data| == PIPESIZE
  {
    var Writing(bytes, i) := s.pcs[p];
    if i >= |bytes| then At(Wake(s, OnRead), p, Outside).(lock := FREE)
    else if Full(s.ring) then
      if !s.readopen || s.killed[p] then At(s, p, Outside).(lock := FREE, stranded := Readers(s.asleep))
      else Sleep(Wake(s, OnRead), p, OnWrite, WStart(bytes, i))
    else
      At(s, p, Writing(bytes, i + 1)).(ring := Put(s.ring, bytes[i]))
  }

  /** One turn of piperead's loops. */
  function ReadStep(s: State, p: nat): State
    requires p < |s.pcs| && p < |s.asleep| && p < |s.killed| && (s.pcs[p].Testing? || s.pcs[p].Copying?)
    requires |s.ring.data| == PIPESIZE
  {
    match s.pcs[p]
    case Testing(n) =>
      if Empty(s.ring) && s.writeopen then
        if s.killed[p] then At(s, p, Outside).(lock := FREE) else Sleep(s, p, OnRead, RStart(n))
      else At(s, p, Copying(n, 0))
    case Copying(n, i) =>
      if i >= n || Empty(s.ring) then At(Wake(s, OnWrite), p, Outside).(lock := FREE)
      else
        var ring := Get(s.ring);
        At(s, p, Copying(n, i + 1)).(ring := ring, stranded := if Empty(ring) then {} else s.stranded)
  }

  function CloseStep(s: State, p: nat): State
    requires p < |s.pcs| && s.pcs[p].Closing?
  {
    if s.pcs[p].writable then At(Wake(s.(writeopen := false), OnRead), p, Outside).(lock := FREE)
    else At(Wake(s.(readopen := false), OnWrite), p, Outside).(lock := FREE)
  }

  function Next(s: State, step: Step): State
    requires Enabled(s, step) && |s.ring.data| == PIPESIZE
  {
    match step
    case Write(p, bytes) => At(s, p, WStart(bytes, 0))
    case Read(p, n) => At(s, p, RStart(n))
    case Close(p, writable) => At(s, p, CStart(writable))
    case Kill(p) =>
      s.(killed := s.killed[p := true], asleep := s.asleep[p := Awake], stranded := s.stranded - {p})
    case Run(p) =>
      match s.pcs[p]
      case WStart(bytes, i) => At(s, p, Writing(bytes, i)).(lock := p)
      case RStart(n) => At(s, p, Testing(n)).(lock := p)
      case CStart(w) => At(s, p, Closing(w)).(lock := p)
      case Writing(_, _) => WriteStep(s, p)
      case Testing(_) => ReadStep(s, p)
      case Copying(_, _) => ReadStep(s, p)
      case Closing(_) => CloseStep(s, p)
      case Outside => s
  }

  // ---------------------------------------------------------------- the stream

  /** The ring holds, in order, the bytes written and not yet taken; those taken were the first. */
  ghost predicate RingInv(r: Ring) {
    && |r.data| == PIPESIZE && |r.got| <= |r.written| <= |r.got| + PIPESIZE
    && r.nwrite == |r.written| % WRAP && r.nread == |r.got| % WRAP
    && (forall k: nat :: k < |r.got| ==> Taken(r, k))
    && (forall k: nat :: |r.got| <= k < |r.written| ==> InRing(r, k))
  }

  predicate Taken(r: Ring, k: nat) {
    k < |r.got| && k < |r.written| && r.got[k] == r.written[k]
  }

  predicate InRing(r: Ring, k: nat) {
    |r.data| == PIPESIZE && k < |r.written| && r.data[k % PIPESIZE] == r.written[k]
  }

  lemma FullTest(w: nat, g: nat)
    requires g <= w <= g + PIPESIZE
    ensures w % WRAP == (g % WRAP + PIPESIZE) % WRAP <==> w == g + PIPESIZE
  {
    var q := g / WRAP;
    assert g == q * WRAP + g % WRAP;
    if w == g + PIPESIZE {
      assert w % WRAP == (g % WRAP + PIPESIZE) % WRAP;
    }
  }

  lemma EmptyTest(w: nat, g: nat)
    requires g <= w <= g + PIPESIZE
    ensures g % WRAP == w % WRAP <==> w == g
  {
  }

  lemma SlotIndex(n: nat)
    ensures n % WRAP % PIPESIZE == n % PIPESIZE
  {
  }

  /** The code's tests on the wrapping counters say how many bytes the ring holds. */
  lemma Tests(r: Ring)
    requires RingInv(r)
    ensures Full(r) <==> |r.written| == |r.got| + PIPESIZE
    ensures Empty(r) <==> |r.written| == |r.got|
    ensures r.nwrite % PIPESIZE == |r.written| % PIPESIZE && r.nread % PIPESIZE == |r.got| % PIPESIZE
  {
    FullTest(|r.written|, |r.got|);
    EmptyTest(|r.written|, |r.got|);
    SlotIndex(|r.written|);
    SlotIndex(|r.got|);
  }

  lemma Wraps(n: nat)
    ensures (n % WRAP + 1) % WRAP == (n + 1) % WRAP
  {
  }

  lemma SlotsDiffer(k: nat, n: nat)
    requires k < n < k + PIPESIZE
    ensures k % PIPESIZE != n % PIPESIZE
  {
  }

  lemma PutInv(r: Ring, b: int)
    requires RingInv(r) && !Full(r)
    ensures RingInv(Put(r, b))
  {
    Tests(r);
    Wraps(|r.written|);
    var r' := Put(r, b);
    forall k: nat | k < |r.got| ensures Taken(r', k) { assert Taken(r, k); }
    forall k: nat | |r.got| <= k < |r'.written| ensures InRing(r', k) {
      if k < |r.written| {
        assert InRing(r, k);
        SlotsDiffer(k, |r.written|);
      }
    }
  }

  lemma PutNonempty(r: Ring, b: int)
    requires RingInv(r) && !Full(r)
    ensures !Empty(Put(r, b))
  {
    PutInv(r, b);
    Tests(Put(r, b));
  }

  lemma GetInv(r: Ring)
    requires RingInv(r) && !Empty(r)
    ensures RingInv(Get(r))
  {
    Tests(r);
    Wraps(|r.got|);
    var r' := Get(r);
    assert InRing(r, |r.got|);
    forall k: nat | k < |r'.got| ensures Taken(r', k) { assert k < |r.got| ==> Taken(r, k); }
    forall k: nat | |r'.got| <= k < |r'.written| ensures InRing(r', k) { assert InRing(r, k); }
  }

  // ---------------------------------------------------------------- sleeping readers and writers

  predicate HoldsLock(pc: Pc) {
    pc.Writing? || pc.Testing? || pc.Copying? || pc.Closing?
  }

  predicate HolderCopies(s: State) {
    0 <= s.lock < |s.pcs| && s.pcs[s.lock].Copying?
  }

  predicate HolderWrites(s: State) {
    0 <= s.lock < |s.pcs| && s.pcs[s.lock].Writing?
  }

  /** A writer sleeps only while the pipe is full and read from, or while a reader is about to wake
      it; a reader only while the pipe can be written to, and it is stranded while the pipe is not
      empty, or not stranded while the pipe is empty or a writer is about to wake it. */
  predicate ProcAt(s: State, p: nat)
    requires p < |s.pcs| == |s.asleep|
  {
    && (HoldsLock(s.pcs[p]) <==> s.lock == p)
    && (s.asleep[p] == OnWrite ==> s.pcs[p].WStart? && ((Full(s.ring) && s.readopen) || HolderCopies(s)))
    && (p in s.stranded ==> s.asleep[p] == OnRead)
    && (s.asleep[p] == OnRead ==>
          && s.pcs[p].RStart? && s.writeopen
          && if p in s.stranded then !Empty(s.ring) else Empty(s.ring) || HolderWrites(s))
  }

  predicate Globals(s: State) {
    && |s.pcs| == |s.asleep| == |s.killed| && (s.lock == FREE || 0 <= s.lock < |s.pcs|)
  }

  ghost predicate Inv(s: State) {
    Globals(s) && RingInv(s.ring) && forall p: nat :: p < |s.pcs| ==> ProcAt(s, p)
  }

  /** A new pipe; processes that are not inside it. */
  ghost predicate Init(s: State) {
    && Globals(s) && s.lock == FREE && s.readopen && s.writeopen && s.stranded == {}
    && |s.ring.data| == PIPESIZE && s.ring == Ring(s.ring.data, 0, 0, [], [])
    && forall p: nat :: p < |s.pcs| ==> s.pcs[p] == Outside && s.asleep[p] == Awake
  }

  /** Process `p` lets go of the lock after a wakeup of the other side. */
  lemma LeaveAt(s: State, p: nat, chan: Chan, q: nat)
    requires Globals(s) && p < |s.pcs| && s.lock == p && ProcAt(s, p) && q < |s.pcs| && ProcAt(s, q)
    requires (s.pcs[p].Writing? && chan == OnRead) || (s.pcs[p].Copying? && chan == OnWrite)
    ensures var s' := At(Wake(s, chan), p, Outside).(lock := FREE);
            Globals(s') && |s'.pcs| == |s.pcs| && s'.ring == s.ring && ProcAt(s', q)
  {
  }

  /** Process `p` goes to sleep on a full or an empty pipe. */
  lemma SleepAt(s: State, p: nat, chan: Chan, pc: Pc, q: nat)
    requires Globals(s) && p < |s.pcs| && s.lock == p && ProcAt(s, p) && q < |s.pcs| && ProcAt(s, q)
    requires (s.pcs[p].Writing? && chan == OnWrite && pc.WStart? && Full(s.ring) && s.readopen
                && forall r :: 0 <= r < |s.asleep| ==> s.asleep[r] != OnRead)
          || (s.pcs[p].Testing? && chan == OnRead && pc.RStart? && Empty(s.ring) && s.writeopen)
    ensures var s' := Sleep(s, p, chan, pc);
            Globals(s') && |s'.pcs| == |s.pcs| && s'.ring == s.ring && ProcAt(s', q)
  {
  }

  lemma WakeAt(s: State, chan: Chan, q: nat)
    requires Globals(s) && q < |s.pcs| && ProcAt(s, q) && (chan == OnRead ==> HolderWrites(s))
    ensures var s' := Wake(s, chan); Globals(s') && |s'.pcs| == |s.pcs| && ProcAt(s', q)
  {
  }

  lemma WriteAt(s: State, p: nat, q: nat)
    requires Globals(s) && RingInv(s.ring) && Enabled(s, Run(p)) && s.pcs[p].Writing? && ProcAt(s, p)
    requires q < |s.pcs| && ProcAt(s, q)
    ensures var s' := WriteStep(s, p); Globals(s') && |s'.pcs| == |s.pcs| && ProcAt(s', q)
  {
    var Writing(bytes, i) := s.pcs[p];
    if i >= |bytes| {
      LeaveAt(s, p, OnRead, q);
    } else if Full(s.ring) && s.readopen && !s.killed[p] {
      WakeAt(s, OnRead, p);
      WakeAt(s, OnRead, q);
      SleepAt(Wake(s, OnRead), p, OnWrite, WStart(bytes, i), q);
    } else if Full(s.ring) {
      Tests(s.ring);
    } else {
      PutNonempty(s.ring, bytes[i]);
    }
  }

  lemma ReadAt(s: State, p: nat, q: nat)
    requires Globals(s) && |s.ring.data| == PIPESIZE && Enabled(s, Run(p)) && (s.pcs[p].Testing? || s.pcs[p].Copying?)
    requires ProcAt(s, p) && q < |s.pcs| && ProcAt(s, q)
    ensures var s' := ReadStep(s, p); Globals(s') && |s'.pcs| == |s.pcs| && ProcAt(s', q)
  {
    match s.pcs[p]
    case Testing(n) => if Empty(s.ring) && s.writeopen && !s.killed[p] { SleepAt(s, p, OnRead, RStart(n), q); }
    case Copying(n, i) => if i >= n || Empty(s.ring) { LeaveAt(s, p, OnWrite, q); }
  }

  predicate Moves(s: State, step: Step) {
    step.Run? && step.p < |s.pcs| && (s.pcs[step.p].Writing? || s.pcs[step.p].Testing? || s.pcs[step.p].Copying?)
  }

  lemma CloseAt(s: State, p: nat, q: nat)
    requires Globals(s) && p < |s.pcs| && s.pcs[p].Closing? && ProcAt(s, p) && q < |s.pcs| && ProcAt(s, q)
    ensures var s' := CloseStep(s, p);
            Globals(s') && |s'.pcs| == |s.pcs| && s'.ring == s.ring && ProcAt(s', q)
  {
  }

  /** Acquiring the lock. */
  lemma LockAt(s: State, p: nat, pc: Pc, q: nat)
    requires Globals(s) && s.lock == FREE && p < |s.pcs| && !HoldsLock(s.pcs[p]) && HoldsLock(pc)
    requires s.asleep[p] == Awake
    requires q < |s.pcs| && ProcAt(s, q)
    ensures var s' := At(s, p, pc).(lock := p);
            Globals(s') && |s'.pcs| == |s.pcs| && s'.ring == s.ring && ProcAt(s', q)
  {
  }

  lemma StartAt(s: State, step: Step, q: nat)
    requires Globals(s) && |s.ring.data| == PIPESIZE && Enabled(s, step) && !step.Run? && ProcAt(s, step.p)
    requires q < |s.pcs| && ProcAt(s, q)
    ensures var s' := Next(s, step); Globals(s') && |s'.pcs| == |s.pcs| && s'.ring == s.ring && ProcAt(s', q)
  {
  }

  lemma RestAt(s: State, step: Step, q: nat)
    requires Globals(s) && |s.ring.data| == PIPESIZE && Enabled(s, step) && !Moves(s, step) && ProcAt(s, step.p)
    requires q < |s.pcs| && ProcAt(s, q)
    ensures var s' := Next(s, step); Globals(s') && |s'.pcs| == |s.pcs| && s'.ring == s.ring && ProcAt(s', q)
  {
    if !step.Run? {
      StartAt(s, step, q);
    } else {
      match s.pcs[step.p]
      case WStart(bytes, i) => LockAt(s, step.p, Writing(bytes, i), q);
      case RStart(n) => LockAt(s, step.p, Testing(n), q);
      case CStart(w) => LockAt(s, step.p, Closing(w), q);
      case Closing(_) => CloseAt(s, step.p, q);
      case _ =>
    }
  }

  lemma NextAt(s: State, step: Step, q: nat)
    requires Inv(s) && Enabled(s, step) && q < |s.pcs|
    ensures var s' := Next(s, step); Globals(s') && |s'.pcs| == |s.pcs| && ProcAt(s', q)
  {
    assert ProcAt(s, q) && ProcAt(s, step.p);
    if !Moves(s, step) {
      RestAt(s, step, q);
    } else if s.pcs[step.p].Writing? {
      WriteAt(s, step.p, q);
    } else {
      ReadAt(s, step.p, q);
    }
  }

  lemma NextRing(s: State, step: Step)
    requires RingInv(s.ring) && Enabled(s, step)
    ensures RingInv(Next(s, step).ring)
  {
    if Moves(s, step) {
      if s.pcs[step.p].Writing? {
        if !Full(s.ring) && s.pcs[step.p].i < |s.pcs[step.p].bytes| {
          PutInv(s.ring, s.pcs[step.p].bytes[s.pcs[step.p].i]);
        }
      } else if !Empty(s.ring) {
        GetInv(s.ring);
      }
    }
  }

  lemma NextInv(s: State, step: Step)
    requires Inv(s) && Enabled(s, step)
    ensures Inv(Next(s, step))
  {
    NextRing(s, step);
    NextAt(s, step, step.p);
    forall q: nat | q < |s.pcs| ensures ProcAt(Next(s, step), q) { NextAt(s, step, q); }
  }

  // ---------------------------------------------------------------- whole runs

  lemma InitInv(s: State)
    requires Init(s)
    ensures Inv(s)
  {
  }

  ghost predicate Takes(s: State, step: Step, s': State) {
    |s.ring.data| == PIPESIZE && Enabled(s, step) && s' == Next(s, step)
  }

  ghost predicate IsRun(ss: seq<State>, steps: seq<Step>) {
    |ss| == |steps| + 1 && Init(ss[0]) && forall i :: 0 <= i < |steps| ==> Takes(ss[i], steps[i], ss[i + 1])
  }

  lemma {:induction false} RunInv(ss: seq<State>, steps: seq<Step>, i: nat)
    requires IsRun(ss, steps) && i < |ss|
    ensures Inv(ss[i])
  {
    if i == 0 {
      InitInv(ss[0]);
    } else {
      RunInv(ss, steps, i - 1);
      assert Takes(ss[i - 1], steps[i - 1], ss[i]);
      NextInv(ss[i - 1], steps[i - 1]);
    }
  }

  /** Readers get the bytes that writers put, in that order, none twice and none lost, and at most
      PIPESIZE are on the way, also when the counters have wrapped. */
  lemma Stream(ss: seq<State>, steps: seq<Step>, i: nat)
    requires IsRun(ss, steps) && i < |ss|
    ensures var r := ss[i].ring; r.got <= r.written && |r.written| - |r.got| <= PIPESIZE
  {
    RunInv(ss, steps, i);
    var r := ss[i].ring;
    forall k: nat | k < |r.got| ensures r.got[k] == r.written[k] { assert Taken(r, k); }
  }

  // ---------------------------------------------------------------- the bytes of one call

  /** What a sequence gained. */
  function Gained(was: seq<int>, now: seq<int>): seq<int> {
    if |was| <= |now| then now[|was|..] else []
  }

  /** The bytes that the step to state `i` put in the pipe, if it is one of process `p`. */
  function GainBy(ss: seq<State>, steps: seq<Step>, i: nat, p: nat): seq<int>
    requires 0 < i < |ss| == |steps| + 1
  {
    if steps[i - 1] == Run(p) then Gained(ss[i - 1].ring.written, ss[i].ring.written) else []
  }

  /** The bytes that the steps of process `p` after step `j` and before state `i` put in the pipe, in
      this order. */
  function PutBy(ss: seq<State>, steps: seq<Step>, j: nat, i: nat, p: nat): seq<int>
    requires j < i < |ss| == |steps| + 1
    decreases i - j
  {
    if i == j + 1 then []
    else PutBy(ss, steps, j, i - 1, p) + GainBy(ss, steps, i, p)
  }

  predicate InWrite(s: State, p: nat) {
    p < |s.pcs| && (s.pcs[p].WStart? || s.pcs[p].Writing?)
  }

  /** Process `p` called pipewrite in step `j` and has not left it up to state `i`. */
  ghost predicate WritesSince(ss: seq<State>, steps: seq<Step>, j: nat, i: nat, p: nat, bytes: seq<int>) {
    && j < i < |ss| == |steps| + 1 && steps[j] == Write(p, bytes)
    && forall k :: j < k <= i ==> InWrite(ss[k], p)
  }

  /** What `s` says of process `p` inside pipewrite. */
  ghost predicate WriterAt(s: State, p: nat, bytes: seq<int>, put: seq<int>) {
    InWrite(s, p) && s.pcs[p].bytes == bytes && s.pcs[p].i <= |bytes| && put == bytes[..s.pcs[p].i]
  }

  /** The steps of others, and a kill, leave a process where it is. */
  lemma OthersPc(s: State, step: Step, p: nat)
    requires Enabled(s, step) && |s.ring.data| == PIPESIZE && InWrite(s, p) && step != Run(p)
    ensures |Next(s, step).pcs| == |s.pcs| && Next(s, step).pcs[p] == s.pcs[p]
  {
    if Moves(s, step) { MovePc(s, step.p, p); }
  }

  lemma MovePc(s: State, q: nat, p: nat)
    requires |s.ring.data| == PIPESIZE && q < |s.pcs| && q < |s.asleep| && q < |s.killed| && p < |s.pcs| && p != q
    ensures s.pcs[q].Writing? ==> |WriteStep(s, q).pcs| == |s.pcs| && WriteStep(s, q).pcs[p] == s.pcs[p]
    ensures s.pcs[q].Testing? || s.pcs[q].Copying? ==>
              |ReadStep(s, q).pcs| == |s.pcs| && ReadStep(s, q).pcs[p] == s.pcs[p]
  {
  }

  /** Its own step. */
  lemma OwnPc(s: State, p: nat)
    requires Enabled(s, Run(p)) && |s.ring.data| == PIPESIZE && InWrite(s, p) && s.pcs[p].i <= |s.pcs[p].bytes|
    ensures var s', pc := Next(s, Run(p)), s.pcs[p];
            && (InWrite(s', p) ==> s'.pcs[p].bytes == pc.bytes && pc.i <= s'.pcs[p].i <= |pc.bytes|)
            && (InWrite(s', p) ==> s'.ring.written == s.ring.written + pc.bytes[pc.i..s'.pcs[p].i])
            && (!InWrite(s', p) ==> pc.i == |pc.bytes| || EarlyReturn(s, Run(p)))
  {
    var pc := s.pcs[p];
    assert pc.bytes[pc.i..pc.i] == [];
    if pc.i < |pc.bytes| { assert pc.bytes[pc.i..pc.i + 1] == [pc.bytes[pc.i]]; }
  }

  lemma GainedMore(was: seq<int>, more: seq<int>)
    ensures Gained(was, was + more) == more
  {
  }

  lemma WriterStep(s: State, step: Step, s': State, p: nat, bytes: seq<int>, put: seq<int>, gain: seq<int>)
    requires Takes(s, step, s') && WriterAt(s, p, bytes, put) && InWrite(s', p)
    requires gain == if step == Run(p) then Gained(s.ring.written, s'.ring.written) else []
    ensures WriterAt(s', p, bytes, put + gain)
  {
    var i := s.pcs[p].i;
    if step == Run(p) {
      OwnPc(s, p);
      var i' := s'.pcs[p].i;
      GainedMore(s.ring.written, bytes[i..i']);
      assert bytes[..i'] == bytes[..i] + bytes[i..i'];
    } else {
      OthersPc(s, step, p);
      assert put + gain == put;
    }
  }

  lemma WriterStarts(s: State, s': State, p: nat, bytes: seq<int>)
    requires Takes(s, Write(p, bytes), s')
    ensures WriterAt(s', p, bytes, [])
  {
  }

  lemma WriterLeaves(s: State, step: Step, s': State, p: nat, bytes: seq<int>, put: seq<int>)
    requires Takes(s, step, s') && WriterAt(s, p, bytes, put) && !InWrite(s', p)
    ensures step == Run(p) && (put == bytes || EarlyReturn(s, step))
  {
    if step == Run(p) { OwnPc(s, p); } else { OthersPc(s, step, p); }
  }

  ghost predicate Follows(ss: seq<State>, steps: seq<Step>, k: nat) {
    k < |steps| && k + 1 < |ss| && Takes(ss[k], steps[k], ss[k + 1])
  }

  lemma {:induction false} OwnBytesFrom(ss: seq<State>, steps: seq<Step>, j: nat, i: nat, p: nat, bytes: seq<int>)
    requires WritesSince(ss, steps, j, i, p, bytes)
    requires forall k: nat {:trigger Follows(ss, steps, k)} :: k < |steps| ==> Follows(ss, steps, k)
    ensures WriterAt(ss[i], p, bytes, PutBy(ss, steps, j, i, p))
    decreases i
  {
    if i == j + 1 {
      assert Follows(ss, steps, j);
      WriterStarts(ss[j], ss[i], p, bytes);
    } else {
      OwnBytesFrom(ss, steps, j, i - 1, p, bytes);
      var put, gain := PutBy(ss, steps, j, i - 1, p), GainBy(ss, steps, i, p);
      assert PutBy(ss, steps, j, i, p) == put + gain;
      assert Follows(ss, steps, i - 1);
      WriterStep(ss[i - 1], steps[i - 1], ss[i], p, bytes, put, gain);
    }
  }

  /** At every moment of a call, whatever other writers do in between, the process has put the first
      bytes of its own buffer, in order and once each. */
  lemma OwnBytes(ss: seq<State>, steps: seq<Step>, j: nat, i: nat, p: nat, bytes: seq<int>)
    requires IsRun(ss, steps) && WritesSince(ss, steps, j, i, p, bytes)
    ensures WriterAt(ss[i], p, bytes, PutBy(ss, steps, j, i, p))
  {
    forall k: nat | k < |steps| ensures Follows(ss, steps, k) { assert Takes(ss[k], steps[k], ss[k + 1]); }
    OwnBytesFrom(ss, steps, j, i, p, bytes);
  }

  /** And when it leaves, it has put all of them, unless it returns early. */
  lemma PutsAll(ss: seq<State>, steps: seq<Step>, j: nat, i: nat, p: nat, bytes: seq<int>)
    requires IsRun(ss, steps) && WritesSince(ss, steps, j, i, p, bytes) && i < |steps| && !InWrite(ss[i + 1], p)
    ensures steps[i] == Run(p) && (PutBy(ss, steps, j, i, p) == bytes || EarlyReturn(ss[i], steps[i]))
  {
    OwnBytes(ss, steps, j, i, p, bytes);
    WriterLeaves(ss[i], steps[i], ss[i + 1], p, bytes, PutBy(ss, steps, j, i, p));
  }

  /** Nobody else puts bytes in the pipe: `written` changes only in the step of a writer, by one byte. */
  lemma OnlyWritersPut(s: State, step: Step)
    requires Inv(s) && Enabled(s, step) && Next(s, step).ring.written != s.ring.written
    ensures step.Run? && InWrite(s, step.p) && InWrite(Next(s, step), step.p)
    ensures |Next(s, step).ring.written| == |s.ring.written| + 1 && s.ring.written <= Next(s, step).ring.written
  {
  }

  // ---------------------------------------------------------------- why readers and writers sleep

  /** pipewrite's early return: the pipe is full, and nobody reads it or the writer is killed. */
  predicate EarlyReturn(s: State, step: Step) {
    && step.Run? && step.p < |s.pcs| && step.p < |s.killed| && s.pcs[step.p].Writing?
    && s.pcs[step.p].i < |s.pcs[step.p].bytes| && Full(s.ring) && (!s.readopen || s.killed[step.p])
  }

  predicate ReaderAsleep(s: State, p: nat) {
    p < |s.asleep| && s.asleep[p] == OnRead
  }

  /** A step strands a reader, or leaves it stranded, exactly if it is asleep afterwards and the pipe
      not empty, and the step is an early return or the reader was stranded before. */
  lemma StrandedStep(s: State, step: Step, p: nat)
    requires Inv(s) && Enabled(s, step) && p < |s.pcs|
    ensures var s' := Next(s, step);
            p in s'.stranded <==> ReaderAsleep(s', p) && !Empty(s'.ring) && (EarlyReturn(s, step) || p in s.stranded)
  {
    assert ProcAt(s, p) && ProcAt(s, step.p);
    Tests(s.ring);
    NextAt(s, step, p);
  }

  /** Since step `j`, an early return, process `p` has been asleep and the pipe not empty. */
  ghost predicate LeftSince(ss: seq<State>, steps: seq<Step>, j: nat, i: nat, p: nat) {
    && j < i < |ss| && j < |steps| && EarlyReturn(ss[j], steps[j])
    && forall k :: j < k <= i ==> ReaderAsleep(ss[k], p) && !Empty(ss[k].ring)
  }

  ghost predicate LeftAsleep(ss: seq<State>, steps: seq<Step>, i: nat, p: nat) {
    exists j: nat :: LeftSince(ss, steps, j, i, p)
  }

  lemma {:induction false} StrandedMeans(ss: seq<State>, steps: seq<Step>, i: nat, p: nat)
    requires IsRun(ss, steps) && i < |ss| && p < |ss[i].pcs|
    ensures p in ss[i].stranded <==> LeftAsleep(ss, steps, i, p)
  {
    if i > 0 {
      RunInv(ss, steps, i - 1);
      assert Takes(ss[i - 1], steps[i - 1], ss[i]);
      NextAt(ss[i - 1], steps[i - 1], steps[i - 1].p);
      StrandedMeans(ss, steps, i - 1, p);
      StrandedStep(ss[i - 1], steps[i - 1], p);
      LeftStep(ss, steps, i, p);
    }
  }

  lemma LeftStep(ss: seq<State>, steps: seq<Step>, i: nat, p: nat)
    requires 0 < i < |ss| && |ss| == |steps| + 1
    ensures LeftAsleep(ss, steps, i, p) <==>
            && ReaderAsleep(ss[i], p) && !Empty(ss[i].ring)
            && (EarlyReturn(ss[i - 1], steps[i - 1]) || LeftAsleep(ss, steps, i - 1, p))
  {
    if LeftAsleep(ss, steps, i, p) {
      var j: nat :| LeftSince(ss, steps, j, i, p);
      assert j < i - 1 ==> LeftSince(ss, steps, j, i - 1, p);
    }
    if ReaderAsleep(ss[i], p) && !Empty(ss[i].ring) {
      if EarlyReturn(ss[i - 1], steps[i - 1]) {
        assert LeftSince(ss, steps, i - 1, i, p);
      } else if LeftAsleep(ss, steps, i - 1, p) {
        var j: nat :| LeftSince(ss, steps, j, i - 1, p);
        assert LeftSince(ss, steps, j, i, p);
      }
    }
  }

  /** Whenever the lock is free, a writer asleep has a full pipe and an open read end.  A reader
      asleep has an open write end, and it has an empty pipe if and only if it has not been left: no
      writer has returned early since it fell asleep and the pipe was last empty. */
  lemma SleepersHaveReason(ss: seq<State>, steps: seq<Step>, i: nat, p: nat)
    requires IsRun(ss, steps) && i < |ss| && ss[i].lock == FREE && p < |ss[i].pcs|
    ensures |ss[i].asleep| == |ss[i].pcs|
    ensures ss[i].asleep[p] == OnWrite ==> |ss[i].ring.written| == |ss[i].ring.got| + PIPESIZE && ss[i].readopen
    ensures ss[i].asleep[p] == OnRead ==>
              ss[i].writeopen && (ss[i].ring.written == ss[i].ring.got <==> !LeftAsleep(ss, steps, i, p))
  {
    RunInv(ss, steps, i);
    assert ProcAt(ss[i], p);
    Tests(ss[i].ring);
    Stream(ss, steps, i);
    StrandedMeans(ss, steps, i, p);
  }

  /** Every reader asleep has an empty pipe that can still be written to. */
  ghost predicate ReadersHaveReason(s: State) {
    forall q: nat :: ReaderAsleep(s, q) ==> Empty(s.ring) && s.writeopen
  }

  /** The branch that breaks this, and when: after an early return it holds if and only if no reader
      was asleep before. */
  lemma EarlyReturnStrands(s: State, step: Step)
    requires Inv(s) && Enabled(s, step) && EarlyReturn(s, step)
    ensures ReadersHaveReason(Next(s, step)) <==> forall q: nat :: !ReaderAsleep(s, q)
  {
    Tests(s.ring);
    var s' := Next(s, step);
    forall q: nat ensures ReaderAsleep(s', q) <==> ReaderAsleep(s, q) { }
  }

  // ---------------------------------------------------------------- a reader left asleep

  /** Process 0 sleeps in piperead while process 1, already killed, has written k bytes. */
  ghost predicate Filling(s: State, bytes: seq<int>, k: nat) {
    && Inv(s) && |s.pcs| == 2 && s.pcs == [RStart(1), Writing(bytes, k)] && s.asleep == [OnRead, Awake] && s.lock == 1
    && s.killed[1] && s.writeopen && |s.ring.written| == k && s.ring.got == []
  }

  lemma Extend(ss: seq<State>, steps: seq<Step>, step: Step)
    requires IsRun(ss, steps) && Enabled(ss[|ss| - 1], step)
    ensures Inv(ss[|ss| - 1]) && Inv(Next(ss[|ss| - 1], step))
    ensures IsRun(ss + [Next(ss[|ss| - 1], step)], steps + [step])
  {
    RunInv(ss, steps, |ss| - 1);
    NextInv(ss[|ss| - 1], step);
    var ss', steps' := ss + [Next(ss[|ss| - 1], step)], steps + [step];
    forall i | 0 <= i < |steps'| ensures Takes(ss'[i], steps'[i], ss'[i + 1]) {
      if i < |steps| { assert Takes(ss[i], steps[i], ss[i + 1]); }
    }
  }

  lemma {:induction false} FillPipe(bytes: seq<int>, k: nat) returns (ss: seq<State>, steps: seq<Step>)
    requires |bytes| > PIPESIZE && k <= PIPESIZE
    ensures IsRun(ss, steps) && Filling(ss[|ss| - 1], bytes, k)
  {
    if k == 0 {
      ss, steps := StartFilling(bytes);
    } else {
      ss, steps := FillPipe(bytes, k - 1);
      var s := ss[|ss| - 1];
      Tests(s.ring);
      Extend(ss, steps, Run(1));
      ss, steps := ss + [Next(s, Run(1))], steps + [Run(1)];
    }
  }

  lemma StartFilling(bytes: seq<int>) returns (ss: seq<State>, steps: seq<Step>)
    requires |bytes| > PIPESIZE
    ensures IsRun(ss, steps) && Filling(ss[|ss| - 1], bytes, 0)
  {
    var ring := Ring(seq(PIPESIZE, _ => 0), 0, 0, [], []);
    var s := State(ring, true, true, FREE, [Outside, Outside], [Awake, Awake], [false, false], {});
    ss, steps := [s], [];
    var script := [Read(0, 1), Run(0), Run(0), Write(1, bytes), Kill(1), Run(1)];
    for j := 0 to 6
      invariant IsRun(ss, steps) && ss[|ss| - 1] == s && s.ring == ring
      invariant s.killed == [false, j >= 5]
      invariant s.pcs == [if j == 0 then Outside else if j == 2 then Testing(1) else RStart(1),
                          if j <= 3 then Outside else if j <= 5 then WStart(bytes, 0) else Writing(bytes, 0)]
      invariant s.asleep == [if j <= 2 then Awake else OnRead, Awake]
      invariant s.lock == if j == 2 then 0 else if j == 6 then 1 else FREE
      invariant s.readopen && s.writeopen
    {
      Extend(ss, steps, script[j]);
      s := Next(s, script[j]);
      ss, steps := ss + [s], steps + [script[j]];
    }
    RunInv(ss, steps, |ss| - 1);
  }

  /** pipewrite's early return does not wake the readers: a killed writer can leave a full pipe to
      a reader that stays asleep. */
  lemma ReaderLeftAsleep(bytes: seq<int>) returns (ss: seq<State>, steps: seq<Step>)
    requires |bytes| > PIPESIZE
    ensures IsRun(ss, steps)
    ensures var s := ss[|ss| - 1];
            s.lock == FREE && Full(s.ring) && s.writeopen && ReaderAsleep(s, 0)
  {
    ss, steps := FillPipe(bytes, PIPESIZE);
    var s := ss[|ss| - 1];
    Tests(s.ring);
    Extend(ss, steps, Run(1));
    ss, steps := ss + [Next(s, Run(1))], steps + [Run(1)];
  }

  // ---------------------------------------------------------------- the code's buffer

  lemma AppendByte(w: seq<int>, bytes: seq<int>, i: nat, j: nat)
    requires i <= j < |bytes|
    ensures w + bytes[i..j] + [bytes[j]] == w + bytes[i..j + 1]
  {
  }

  /** struct pipe's array and counters, changed in place under the lock. */
  class Buffer {
    const data: array<int>
    var nread: int
    var nwrite: int
    ghost var written: seq<int>
    ghost var got: seq<int>

    constructor ()
      ensures Valid() && written == [] && got == [] && fresh(data)
    {
      data := new int[PIPESIZE];
      nread, nwrite := 0, 0;
      written, got := [], [];
    }

    ghost function R(): Ring
      reads this, data
    {
      Ring(data[..], nread, nwrite, written, got)
    }

    ghost predicate Valid()
      reads this, data
    {
      data.Length == PIPESIZE && RingInv(R())
    }

    /** pipewrite's loop up to the point where it must sleep or is done. */
    method Store(bytes: seq<int>, i: nat) returns (j: nat)
      requires Valid() && i <= |bytes|
      modifies this, data
      ensures Valid() && i <= j <= |bytes| && got == old(got) && written == old(written) + bytes[i..j]
      ensures j < |bytes| ==> |written| == |got| + PIPESIZE
    {
      j := i;
      while j < |bytes| && nwrite != (nread + PIPESIZE) % WRAP
        invariant Valid() && i <= j <= |bytes| && got == old(got) && written == old(written) + bytes[i..j]
      {
        AppendByte(old(written), bytes, i, j);
        StoreByte(bytes[j]);
        j := j + 1;
      }
      Tests(R());
    }

    /** The store in that loop. */
    method StoreByte(b: int)
      requires Valid() && !Full(R())
      modifies this`nwrite, this`written, data
      ensures Valid() && written == old(written) + [b]
    {
      ghost var r := R();
      PutInv(r, b);
      data[nwrite % PIPESIZE] := b;
      nwrite := (nwrite + 1) % WRAP;
      written := written + [b];
      assert R() == Put(r, b);
    }

    /** piperead's copy loop: the oldest bytes, at most `n`. */
    method Take(n: nat) returns (bytes: seq<int>)
      requires Valid()
      modifies this
      ensures Valid() && |bytes| <= n && written == old(written) && got == old(got) + bytes
      ensures |bytes| < n ==> got == written
    {
      bytes := [];
      while |bytes| < n
        invariant Valid() && |bytes| <= n && written == old(written) && got == old(got) + bytes
        decreases n - |bytes|
      {
        ghost var r := R();
        if nread == nwrite {
          break;
        }
        GetInv(r);
        bytes := bytes + [data[nread % PIPESIZE]];
        got := got + [data[nread % PIPESIZE]];
        nread := (nread + 1) % WRAP;
        assert R() == Get(r);
      }
      Tests(R());
      forall k: nat | k < |got| ensures got[k] == written[k] { assert Taken(R(), k); }
    }
  }
}
