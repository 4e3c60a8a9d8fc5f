/** What one call of piperead or pipeclose does in a run, whatever the other processes do meanwhile. */
module PipeCalls {
  import opened Pipe

  // ---------------------------------------------------------------- kill

  predicate KilledAwakeAt(s: State, p: nat) {
    p < |s.asleep| && p < |s.killed| && s.killed[p] ==> s.asleep[p] == Awake
  }

  lemma KilledStep(s: State, step: Step, p: nat)
    requires Enabled(s, step) && |s.ring.data| == PIPESIZE && KilledAwakeAt(s, p)
    ensures KilledAwakeAt(Next(s, step), p)
  {
    if Moves(s, step) { KilledMove(s, step.p, p); }
  }

  lemma KilledMove(s: State, q: nat, p: nat)
    requires |s.ring.data| == PIPESIZE && q < |s.pcs| && q < |s.asleep| && q < |s.killed| && KilledAwakeAt(s, p)
    ensures s.pcs[q].Writing? ==> KilledAwakeAt(WriteStep(s, q), p)
    ensures s.pcs[q].Testing? || s.pcs[q].Copying? ==> KilledAwakeAt(ReadStep(s, q), p)
  {
  }

  /** A killed process never sleeps in the pipe: kill wakes it, and it does not go to sleep again. */
  lemma {:induction false} KilledAwake(ss: seq<State>, steps: seq<Step>, i: nat, p: nat)
    requires IsRun(ss, steps) && i < |ss|
    ensures KilledAwakeAt(ss[i], p)
  {
    if i > 0 {
      KilledAwake(ss, steps, i - 1, p);
      assert Takes(ss[i - 1], steps[i - 1], ss[i]);
      KilledStep(ss[i - 1], steps[i - 1], p);
    }
  }

  // ---------------------------------------------------------------- read

  predicate InRead(s: State, p: nat) {
    p < |s.pcs| && (s.pcs[p].RStart? || s.pcs[p].Testing? || s.pcs[p].Copying?)
  }

  /** The bytes that the step to state `i` took from the pipe, if it is one of process `p`. */
  function TakeBy(ss: seq<State>, steps: seq<Step>, i: nat, p: nat): seq<int>
    requires 0 < i < |ss| == |steps| + 1
  {
    if steps[i - 1] == Run(p) then Gained(ss[i - 1].ring.got, ss[i].ring.got) else []
  }

  /** The bytes that the steps of process `p` after step `j` and before state `i` took, in this order. */
  function GotBy(ss: seq<State>, steps: seq<Step>, j: nat, i: nat, p: nat): seq<int>
    requires j < i < |ss| == |steps| + 1
    decreases i - j
  {
    if i == j + 1 then [] else GotBy(ss, steps, j, i - 1, p) + TakeBy(ss, steps, i, p)
  }

  /** Process `p` called piperead in step `j` and has not left it up to state `i`. */
  ghost predicate ReadsSince(ss: seq<State>, steps: seq<Step>, j: nat, i: nat, p: nat, n: nat) {
    && j < i < |ss| == |steps| + 1 && steps[j] == Read(p, n)
    && forall k :: j < k <= i ==> InRead(ss[k], p)
  }

  /** What `s` says of process `p` inside piperead: it took `took`, at most `n` bytes, and nobody has
      taken any since; if it took none while it copies, there are some or there is no writer. */
  ghost predicate ReaderAt(s: State, p: nat, n: nat, took: seq<int>) {
    && InRead(s, p) && s.pcs[p].n == n
    && if s.pcs[p].Copying? then
         && |took| == s.pcs[p].i <= n && |took| <= |s.ring.got| && s.ring.got[|s.ring.got| - |took|..] == took
         && (took == [] ==> !Empty(s.ring) || !s.writeopen)
       else took == []
  }

  /** The steps of others leave a reader where it is, and the pipe as it is while it copies. */
  lemma OthersRead(s: State, step: Step, p: nat)
    requires Inv(s) && Enabled(s, step) && InRead(s, p) && step != Run(p)
    ensures var s' := Next(s, step);
            && |s'.pcs| == |s.pcs| && s'.pcs[p] == s.pcs[p]
            && (s.pcs[p].Copying? ==> s'.ring == s.ring && s'.writeopen == s.writeopen)
  {
    assert ProcAt(s, p);
    if step.p < |s.pcs| { assert ProcAt(s, step.p); }
    if Moves(s, step) { MovePc(s, step.p, p); }
  }

  lemma OwnRead(s: State, p: nat, n: nat, took: seq<int>)
    requires Enabled(s, Run(p)) && |s.ring.data| == PIPESIZE && ReaderAt(s, p, n, took)
    ensures var s' := Next(s, Run(p));
            && (InRead(s', p) ==> ReaderAt(s', p, n, took + Gained(s.ring.got, s'.ring.got)))
            && (!InRead(s', p) ==> s'.ring == s.ring)
  {
    var s' := Next(s, Run(p));
    if s.pcs[p].Copying? && s'.ring != s.ring {
      GainedMore(s.ring.got, [s.ring.data[s.ring.nread % PIPESIZE]]);
    } else {
      assert Gained(s.ring.got, s'.ring.got) == [];
    }
  }

  lemma ReaderStep(s: State, step: Step, s': State, p: nat, n: nat, took: seq<int>, more: seq<int>)
    requires Inv(s) && Takes(s, step, s') && ReaderAt(s, p, n, took) && InRead(s', p)
    requires more == if step == Run(p) then Gained(s.ring.got, s'.ring.got) else []
    ensures ReaderAt(s', p, n, took + more)
  {
    if step == Run(p) {
      OwnRead(s, p, n, took);
    } else {
      OthersRead(s, step, p);
      assert took + more == took;
    }
  }

  lemma ReaderStarts(s: State, s': State, p: nat, n: nat)
    requires Takes(s, Read(p, n), s')
    ensures ReaderAt(s', p, n, [])
  {
  }

  ghost predicate GoodStep(ss: seq<State>, steps: seq<Step>, k: nat) {
    k < |steps| && k + 1 < |ss| && Inv(ss[k]) && Takes(ss[k], steps[k], ss[k + 1])
  }

  lemma {:induction false} ReaderFrom(ss: seq<State>, steps: seq<Step>, j: nat, i: nat, p: nat, n: nat)
    requires ReadsSince(ss, steps, j, i, p, n)
    requires forall k: nat {:trigger GoodStep(ss, steps, k)} :: k < |steps| ==> GoodStep(ss, steps, k)
    ensures ReaderAt(ss[i], p, n, GotBy(ss, steps, j, i, p))
    decreases i
  {
    if i == j + 1 {
      assert GoodStep(ss, steps, j);
      ReaderStarts(ss[j], ss[i], p, n);
    } else {
      ReaderFrom(ss, steps, j, i - 1, p, n);
      var took, more := GotBy(ss, steps, j, i - 1, p), TakeBy(ss, steps, i, p);
      assert GotBy(ss, steps, j, i, p) == took + more;
      assert GoodStep(ss, steps, i - 1);
      ReaderStep(ss[i - 1], steps[i - 1], ss[i], p, n, took, more);
    }
  }

  /** At every moment of a call the process has taken the latest bytes that were taken at all, at most
      as many as it asked for. */
  lemma ReadsInOneGo(ss: seq<State>, steps: seq<Step>, j: nat, i: nat, p: nat, n: nat)
    requires IsRun(ss, steps) && ReadsSince(ss, steps, j, i, p, n)
    ensures ReaderAt(ss[i], p, n, GotBy(ss, steps, j, i, p))
  {
    forall k: nat | k < |steps| ensures GoodStep(ss, steps, k) {
      RunInv(ss, steps, k);
      assert Takes(ss[k], steps[k], ss[k + 1]);
    }
    ReaderFrom(ss, steps, j, i, p, n);
  }

  lemma ReaderLeaves(s: State, step: Step, s': State, p: nat, n: nat, took: seq<int>)
    requires Inv(s) && Takes(s, step, s') && ReaderAt(s, p, n, took) && !InRead(s', p) && p < |s.killed|
    ensures step == Run(p) && (|took| < n ==> Empty(s.ring)) && (took == [] && n > 0 ==> !s.writeopen || s.killed[p])
  {
    if step != Run(p) { OthersRead(s, step, p); }
  }

  /** A call returns a piece of the stream without a gap.  It returns fewer bytes than it asked for only
      if the pipe is empty, and none only if nobody can write any more or the process is killed. */
  lemma ReadReturns(ss: seq<State>, steps: seq<Step>, j: nat, i: nat, p: nat, n: nat)
    requires IsRun(ss, steps) && ReadsSince(ss, steps, j, i, p, n) && i < |steps| && !InRead(ss[i + 1], p)
    ensures steps[i] == Run(p) && p < |ss[i].killed|
    ensures var took, got := GotBy(ss, steps, j, i, p), ss[i].ring.got;
            && |took| <= n && |took| <= |got| && got[|got| - |took|..] == took && got <= ss[i].ring.written
            && (|took| < n ==> ss[i].ring.written == got)
            && (took == [] && n > 0 ==> !ss[i].writeopen || ss[i].killed[p])
  {
    ReadsInOneGo(ss, steps, j, i, p, n);
    RunInv(ss, steps, i);
    Stream(ss, steps, i);
    Tests(ss[i].ring);
    assert Takes(ss[i], steps[i], ss[i + 1]);
    ReaderLeaves(ss[i], steps[i], ss[i + 1], p, n, GotBy(ss, steps, j, i, p));
  }

  // ---------------------------------------------------------------- close

  /** Process `p` is in pipeclose for the write end, or for the read end. */
  predicate InClose(s: State, p: nat, writable: bool) {
    p < |s.pcs| && (s.pcs[p] == CStart(writable) || s.pcs[p] == Closing(writable))
  }

  /** It called pipeclose in step `j` and has not left it up to state `i`. */
  ghost predicate ClosesSince(ss: seq<State>, steps: seq<Step>, j: nat, i: nat, p: nat, writable: bool) {
    && j < i < |ss| == |steps| + 1 && steps[j] == Close(p, writable)
    && forall k :: j < k <= i ==> InClose(ss[k], p, writable)
  }

  /** A call of pipeclose for that end has returned. */
  ghost predicate EndClosed(ss: seq<State>, steps: seq<Step>, i: nat, writable: bool) {
    exists j: nat, k: nat, p: nat :: k < i < |ss| && Closed(ss, steps, j, k, p, writable)
  }

  ghost predicate Closed(ss: seq<State>, steps: seq<Step>, j: nat, k: nat, p: nat, writable: bool) {
    ClosesSince(ss, steps, j, k, p, writable) && k < |steps| && !InClose(ss[k + 1], p, writable)
  }

  /** The last step of such a call. */
  predicate Finishes(s: State, step: Step, writable: bool) {
    step.Run? && step.p < |s.pcs| && s.pcs[step.p] == Closing(writable)
  }

  lemma CloseStepAt(s: State, step: Step, s': State, p: nat, writable: bool)
    requires Takes(s, step, s')
    ensures InClose(s', p, writable) ==> InClose(s, p, writable) || step == Close(p, writable)
    ensures InClose(s, p, writable) && !InClose(s', p, writable) ==> step == Run(p) && Finishes(s, step, writable)
    ensures step == Close(p, writable) ==> InClose(s', p, writable)
  {
    if Moves(s, step) {
      MoveIsNoClose(s, step.p);
      if p < |s.pcs| && p != step.p { MovePc(s, step.p, p); }
    } else {
      RestClose(s, step, p, writable);
    }
  }

  lemma MoveIsNoClose(s: State, q: nat)
    requires |s.ring.data| == PIPESIZE && q < |s.pcs| && q < |s.asleep| && q < |s.killed|
    ensures s.pcs[q].Writing? ==>
              |WriteStep(s, q).pcs| == |s.pcs| && !WriteStep(s, q).pcs[q].CStart? && !WriteStep(s, q).pcs[q].Closing?
    ensures s.pcs[q].Testing? || s.pcs[q].Copying? ==>
              |ReadStep(s, q).pcs| == |s.pcs| && !ReadStep(s, q).pcs[q].CStart? && !ReadStep(s, q).pcs[q].Closing?
  {
  }

  lemma RestClose(s: State, step: Step, p: nat, writable: bool)
    requires Enabled(s, step) && |s.ring.data| == PIPESIZE && !Moves(s, step)
    ensures var s' := Next(s, step);
            && (InClose(s', p, writable) ==> InClose(s, p, writable) || step == Close(p, writable))
            && (InClose(s, p, writable) && !InClose(s', p, writable) ==> step == Run(p) && Finishes(s, step, writable))
            && (step == Close(p, writable) ==> InClose(s', p, writable))
  {
  }

  /** Whoever is in pipeclose has called it. */
  lemma {:induction false} CloseCalled(ss: seq<State>, steps: seq<Step>, i: nat, p: nat, writable: bool)
    returns (j: nat)
    requires IsRun(ss, steps) && i < |ss| && InClose(ss[i], p, writable)
    ensures ClosesSince(ss, steps, j, i, p, writable)
  {
    var k := i - 1;
    assert Takes(ss[k], steps[k], ss[i]);
    CloseStepAt(ss[k], steps[k], ss[i], p, writable);
    if InClose(ss[k], p, writable) { j := CloseCalled(ss, steps, k, p, writable); } else { j := k; }
  }

  /** A step closes an end exactly if it is the last one of a call of pipeclose for that end. */
  lemma OpenStep(s: State, step: Step, s': State)
    requires Takes(s, step, s')
    ensures s'.writeopen <==> s.writeopen && !Finishes(s, step, true)
    ensures s'.readopen <==> s.readopen && !Finishes(s, step, false)
  {
  }

  predicate IsOpen(s: State, writable: bool) {
    if writable then s.writeopen else s.readopen
  }

  /** An end of the pipe is open if and only if no call of pipeclose for that end has returned. */
  lemma {:induction false} OpenIff(ss: seq<State>, steps: seq<Step>, i: nat, writable: bool)
    requires IsRun(ss, steps) && i < |ss|
    ensures IsOpen(ss[i], writable) <==> !EndClosed(ss, steps, i, writable)
  {
    if i > 0 {
      var k := i - 1;
      OpenIff(ss, steps, k, writable);
      assert Takes(ss[k], steps[k], ss[i]);
      OpenStep(ss[k], steps[k], ss[i]);
      ClosedStep(ss, steps, k, writable);
    }
  }

  lemma ClosedStep(ss: seq<State>, steps: seq<Step>, k: nat, writable: bool)
    requires IsRun(ss, steps) && k < |steps|
    ensures EndClosed(ss, steps, k + 1, writable) <==>
            EndClosed(ss, steps, k, writable) || Finishes(ss[k], steps[k], writable)
  {
    assert Takes(ss[k], steps[k], ss[k + 1]);
    var i, p := k + 1, steps[k].p;
    if j: nat, k': nat, p': nat :| k' < i < |ss| && Closed(ss, steps, j, k', p', writable) {
      if k' == k { CloseStepAt(ss[k], steps[k], ss[i], p', writable); }
    }
    if Finishes(ss[k], steps[k], writable) {
      var j := CloseCalled(ss, steps, k, p, writable);
      assert Closed(ss, steps, j, k, p, writable);
    }
  }
}
