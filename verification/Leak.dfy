/** Frames that get lost: kfree returns early for a count above 1 and does not lower it, so a frame
    that fork shared goes off both the free list and the page tables, and no step of any run brings
    it back.
 */
module Leak {
  import opened Frames
  import opened AddressSpace
  import opened CopyOnWrite
  import opened Fork
  import opened Isolation

  /** Whatever frame is lost in `m` is lost in `m'`. */
  ghost predicate Kept(m: Mem, m': Mem) {
    forall f: nat :: Lost(m, f) ==> Lost(m', f)
  }

  // ---------------------------------------------------------------- the operations on memory

  lemma DropKept(m: Mem, k: Key)
    requires Frames.Inv(m)
    ensures k in m.links ==> m.links[k].frame < |m.frames|
    ensures Kept(m, Drop(m, k))
  {
    DropInv(m, k);
  }

  lemma {:induction false} DeallocUvmKept(m: Mem, p: nat, lo: nat, hi: nat)
    requires Frames.Inv(m)
    ensures Kept(m, DeallocUvm(m, p, lo, hi))
    decreases hi - lo
  {
    if lo < hi {
      DropInv(m, User(p, lo));
      DropKept(m, User(p, lo));
      DeallocUvmKept(Drop(m, User(p, lo)), p, lo + 1, hi);
    }
  }

  lemma {:induction false} FreeTablesKept(m: Mem, p: nat, i: nat)
    requires Frames.Inv(m)
    ensures Kept(m, FreeTables(m, p, i))
    decreases NPDENTRIES - i
  {
    if i < NPDENTRIES {
      DropInv(m, Table(p, i));
      DropKept(m, Table(p, i));
      FreeTablesKept(Drop(m, Table(p, i)), p, i + 1);
    }
  }

  lemma FreeVmKept(m: Mem, p: nat)
    requires Frames.Inv(m)
    ensures Kept(m, FreeVm(m, p))
  {
    DeallocUvmSame(m, p, 0, KERNPAGES);
    DeallocUvmKept(m, p, 0, KERNPAGES);
    var m1 := DeallocUvm(m, p, 0, KERNPAGES);
    FreeTablesSame(m1, p, 0);
    FreeTablesKept(m1, p, 0);
    DropKept(FreeTables(m1, p, 0), Kern(p, PGDIR));
  }

  /** Linking or freeing a frame that was not lost. */
  lemma LinkKept(m: Mem, m1: Mem, k: Key, e: Pte)
    requires Kept(m, m1) && !Lost(m, e.frame)
    ensures Kept(m, Link(m1, k, e))
  {
    forall f: nat | Lost(m, f) ensures Lost(Link(m1, k, e), f) { assert Lost(m1, f); }
  }

  lemma KfreeKept(m: Mem, m1: Mem, f: nat)
    requires Kept(m, m1) && !Lost(m, f) && Sizes(m1) && f < |m1.frames|
    ensures Kept(m, Kfree(m1, f))
  {
    forall g: nat | Lost(m, g) ensures Lost(Kfree(m1, f), g) { assert Lost(m1, g); }
  }

  /** A taken frame was free, so not lost. */
  lemma TakeKept(m: Mem, data: Page)
    requires Frames.Inv(m) && m.free != []
    ensures m.free[0] < |m.frames| && Kept(m, Put(Kalloc(m), m.free[0], data)) && !Lost(m, m.free[0])
  {
    KallocInv(m);
    var m' := Put(Kalloc(m), m.free[0], data);
    forall f: nat | Lost(m, f) ensures Lost(m', f) { }
  }

  lemma WalkAllocKept(m: Mem, p: nat, pg: nat)
    requires Frames.Inv(m)
    ensures Kept(m, WalkAlloc(m, p, pg).m)
  {
    if m.free != [] {
      TakeKept(m, Filled(0));
      var m1 := Put(Kalloc(m), m.free[0], Filled(0));
      LinkKept(m, m1, Table(p, pg / NPDENTRIES), Pte(m.free[0], true, true, false));
    }
  }

  lemma TakeKernKept(m: Mem, k: Key)
    requires Frames.Inv(m)
    ensures Kept(m, TakeKern(m, k).m)
  {
    if m.free != [] {
      TakeKept(m, Filled(0));
      LinkKept(m, Put(Kalloc(m), m.free[0], Filled(0)), k, Pte(m.free[0], true, false, false));
    }
  }

  lemma {:induction false} TakeTablesKept(m: Mem, c: nat, pdxs: seq<nat>)
    requires Frames.Inv(m) && ValidTables(pdxs)
    ensures Kept(m, TakeTables(m, c, pdxs).m)
    decreases |pdxs|
  {
    if pdxs != [] {
      TakeKernOnly(m, Table(c, pdxs[0]));
      TakeKernKept(m, Table(c, pdxs[0]));
      var r := TakeKern(m, Table(c, pdxs[0]));
      if r.ok { TakeTablesKept(r.m, c, pdxs[1..]); }
    }
  }

  lemma NewProcKept(m: Mem, c: nat)
    requires Frames.Inv(m)
    ensures Kept(m, NewProc(m, c).m)
  {
    TakeKernOnly(m, Kern(c, KSTACK));
    TakeKernKept(m, Kern(c, KSTACK));
    var r0 := TakeKern(m, Kern(c, KSTACK));
    if r0.ok {
      TakeKernOnly(r0.m, Kern(c, PGDIR));
      TakeKernKept(r0.m, Kern(c, PGDIR));
      var r1 := TakeKern(r0.m, Kern(c, PGDIR));
      if r1.ok {
        TakeTablesOnly(r1.m, c, KernTables());
        TakeTablesKept(r1.m, c, KernTables());
        var m2 := TakeTables(r1.m, c, KernTables()).m;
        FreeVmSame(m2, c);
        FreeVmKept(m2, c);
        DropKept(FreeVm(m2, c), Kern(c, KSTACK));
      } else {
        DropKept(r1.m, Kern(c, KSTACK));
      }
    }
  }

  /** The frame just taken, which nothing links yet, is the only new one without references. */
  lemma TakeZeroKept(m: Mem, p: nat, pg: nat)
    requires Frames.Inv(m) && m.free != []
    ensures Kept(m, TakeZero(m, p, pg).m) && !Lost(m, m.free[0])
  {
    TakeSame(m, Filled(0));
    TakeKept(m, Filled(0));
    WalkAllocKept(Put(Kalloc(m), m.free[0], Filled(0)), p, pg);
  }

  lemma LazyPageKept(m: Mem, p: nat, pg: nat)
    requires Frames.Inv(m) && pg < KERNPAGES
    ensures Kept(m, LazyPage(m, p, pg).m)
  {
    if m.free != [] {
      TakeZeroSame(m, p, pg);
      TakeZeroKept(m, p, pg);
      var m1 := TakeZero(m, p, pg).m;
      LinkKept(m, m1, User(p, pg), Fresh(m.free[0]));
      KfreeKept(m, m1, m.free[0]);
    }
  }

  lemma {:induction false} AllocUvmKept(m: Mem, p: nat, a: nat, hi: nat, lo: nat)
    requires Frames.Inv(m) && hi <= LIMIT
    ensures Kept(m, AllocUvm(m, p, a, hi, lo).m)
    decreases hi - a
  {
    if a < hi {
      if m.free == [] {
        DeallocUvmKept(m, p, lo, hi);
      } else {
        var f, r := m.free[0], TakeZero(m, p, a);
        TakeZeroSame(m, p, a);
        TakeZeroKept(m, p, a);
        if r.ok {
          LinkInv(r.m, User(p, a), Fresh(f));
          LinkKept(m, r.m, User(p, a), Fresh(f));
          AllocUvmKept(Link(r.m, User(p, a), Fresh(f)), p, a + 1, hi, lo);
        } else {
          DeallocUvmKept(r.m, p, lo, hi);
          DeallocUvmInHand(r.m, p, lo, hi, f);
          KfreeKept(m, DeallocUvm(r.m, p, lo, hi), f);
        }
      }
    }
  }

  /** A new link to a frame that has one, with its count raised. */
  lemma ShareKept(m: Mem, m1: Mem, k: Key, k': Key, e: Pte)
    requires Kept(m, m1) && k in m.links && m.links[k].frame == e.frame < |m1.frames| && Sizes(m1)
    ensures Kept(m, Incref(Link(m1, k', e), e.frame))
  {
    LinkKept(m, m1, k', e);
  }

  lemma CopyPageKept(m: Mem, p: nat, c: nat, pg: nat)
    requires Frames.Inv(m) && pg < LIMIT && User(p, pg) in m.links
    ensures Kept(m, CopyPage(m, p, c, pg).m)
  {
    var k, e := User(p, pg), m.links[User(p, pg)];
    assert LinkAt(m, k);
    var e1 := Pte(e.frame, false, e.u, true);
    FlagsInv(m, k, e1);
    LinkKept(m, m, k, e1);
    var m1 := Link(m, k, e1);
    WalkAllocSame(m1, c, pg);
    WalkAllocKept(m1, c, pg);
    ShareKept(m, WalkAlloc(m1, c, pg).m, k, User(c, pg), Pte(e.frame, false, e.u, e.cow || e.w));
  }

  lemma SharePageKept(m: Mem, p: nat, c: nat, pg: nat)
    requires Frames.Inv(m) && pg < KERNPAGES && CountFits(m, User(p, pg))
    ensures Kept(m, SharePage(m, p, c, pg))
  {
    var k, e := User(p, pg), m.links[User(p, pg)];
    WalkAllocSame(m, c, pg);
    WalkAllocKept(m, c, pg);
    ShareKept(m, WalkAlloc(m, c, pg).m, k, User(c, pg), Pte(e.frame, e.w, e.u, false));
  }

  lemma CowFaultKept(m: Mem, p: nat, pg: nat)
    requires Frames.Inv(m) && User(p, pg) in m.links
    ensures Kept(m, CowFault(m, p, pg).m)
  {
    var k, e := User(p, pg), m.links[User(p, pg)];
    assert LinkAt(m, k) && CountAt(m, e.frame) && k in Refs(m, e.frame);
    if m.counts[e.frame] == 1 {
      LinkKept(m, m, k, Pte(e.frame, true, e.u, false));
    } else if m.free != [] {
      var nf := m.free[0];
      TakeSame(m, m.frames[e.frame]);
      TakeKept(m, m.frames[e.frame]);
      var m1 := Put(Kalloc(m), nf, m.frames[e.frame]);
      var e' := Pte(nf, true, e.u, false);
      LinkKept(m, m1, k, e');
      LinkInv(m1, k, e');
      assert CountAt(m1, e.frame) && Same(m, m1, k);
      DecrefInv(Link(m1, k, e'), e.frame);
    }
  }

  lemma StoreKept(m: Mem, p: nat, pg: nat, off: nat, v: int)
    requires Frames.Inv(m) && MayStore(m, p, pg, off)
    ensures Kept(m, Store(m, p, pg, off, v))
  {
    assert LinkAt(m, User(p, pg));
    forall f: nat | Lost(m, f) ensures Lost(Store(m, p, pg, off, v), f) { }
  }

  // ---------------------------------------------------------------- every step of every run

  lemma ForkPageKept(s: State, p: nat, c: nat)
    requires Isolation.Inv(s) && Enabled(s, ForkPage(p, c))
    ensures Kept(s.m, Next(s, ForkPage(p, c)).m)
  {
    assert PagesAt(s, p) && PagesAt(s, c);
    var i := s.forks[c].i;
    CopyPageSame(s.m, p, c, i);
    CopyPageKept(s.m, p, c, i);
    DropKept(CopyPage(s.m, p, c, i).m, Kern(c, KSTACK));
  }

  lemma StepKept(s: State, step: Step)
    requires Isolation.Inv(s) && Enabled(s, step)
    ensures Kept(s.m, Next(s, step).m)
  {
    match step
    case First(c) => NewProcKept(s.m, c);
    case ForkStart(p, c) => NewProcKept(s.m, c);
    case ForkPage(p, c) => ForkPageKept(s, p, c);
    case ForkShare(p, c, pg) => SharePageKept(s.m, p, c, pg);
    case UserStore(p, pg, off, v) => StoreKept(s.m, p, pg, off, v);
    case Fault(p, pg) => CowFaultKept(s.m, p, pg);
    case Touch(p, pg) => LazyPageKept(s.m, p, pg);
    case Unmap(p, pg) => DropKept(s.m, User(p, pg));
    case Protect(p, pg) => LinkKept(s.m, s.m, User(p, pg), s.m.links[User(p, pg)].(w := false));
    case Grow(p, n) => AllocUvmKept(s.m, p, s.np[p], n, s.np[p]);
    case Shrink(p, n) => DeallocUvmKept(s.m, p, n, s.np[p]);
    case FreeLink(k) => DropKept(s.m, k);
    case _ =>
  }

  /** Once a frame is neither free nor referenced, it stays so to the end of the run. */
  lemma {:induction false} LostForever(ss: seq<State>, steps: seq<Step>, i: nat, j: nat, f: nat)
    requires Run(ss, steps) && i <= j < |ss| && Lost(ss[i].m, f)
    ensures Lost(ss[j].m, f)
  {
    if i < j {
      LostForever(ss, steps, i, j - 1, f);
      RunRefines(ss, steps, j - 1);
      assert Takes(ss[j - 1], steps[j - 1], ss[j]);
      StepKept(ss[j - 1], steps[j - 1]);
    }
  }

  // ---------------------------------------------------------------- a run that loses a frame

  lemma Extend(ss: seq<State>, steps: seq<Step>, step: Step) returns (ss': seq<State>, steps': seq<Step>)
    requires Run(ss, steps) && Isolation.Inv(ss[|ss| - 1]) && Enabled(ss[|ss| - 1], step)
    ensures Run(ss', steps') && ss'[|ss'| - 1] == Next(ss[|ss| - 1], step) && Isolation.Inv(ss'[|ss'| - 1])
    ensures ss'[0] == ss[0]
  {
    NextRefines(ss[|ss| - 1], step);
    ss', steps' := ss + [Next(ss[|ss| - 1], step)], steps + [step];
    forall i | 0 <= i < |steps'| ensures Takes(ss'[i], steps'[i], ss'[i + 1]) {
      if i < |steps| { assert Takes(ss[i], steps[i], ss[i + 1]); }
    }
  }

  /** Power-on with `n` frames, all of them free. */
  function Boot(n: nat): State {
    State(Mem(seq(n, _ => Filled(0)), seq(n, _ => 0), seq(n, i => i), map[]), map[], map[], {}, {})
  }

  lemma BootInit(n: nat)
    ensures Init(Boot(n))
  {
  }

  lemma NoPage(n: nat) returns (ss: seq<State>, steps: seq<Step>)
    requires n >= NEWPROCPAGES
    ensures Run(ss, steps) && ss[0] == Boot(n) && Isolation.Inv(ss[|ss| - 1])
    ensures var s := ss[|ss| - 1];
            s.np == map[0 := 0] && s.forks == map[] && s.dying == {} && |s.m.free| == n - NEWPROCPAGES
  {
    BootInit(n);
    var s := Boot(n);
    ss, steps := [s], [];
    InitInv(s);
    assert PagesAt(s, 0);
    NewProcIff(s.m, 0);
    ss, steps := Extend(ss, steps, First(0));
  }

  /** allocuvm of the first page. */
  lemma GrowOne(m: Mem, p: nat)
    requires Frames.Inv(m) && |m.free| >= 2
    ensures var r := AllocUvm(m, p, 0, 1, 0);
            && r.ok && |r.m.free| >= |m.free| - 2 && User(p, 0) in r.m.links && r.m.links[User(p, 0)].w
  {
    TakeZeroSame(m, p, 0);
    TakeZeroFrames(m, p, 0);
    var m1 := TakeZero(m, p, 0).m;
    LinkInv(m1, User(p, 0), Fresh(m.free[0]));
    assert AllocUvm(Link(m1, User(p, 0), Fresh(m.free[0])), p, 1, 1, 0).ok;
  }

  /** Process 0 is alone and has one page, writable and its own. */
  lemma OnePage(n: nat) returns (ss: seq<State>, steps: seq<Step>)
    requires n >= NEWPROCPAGES + 2
    ensures Run(ss, steps) && ss[0] == Boot(n) && Isolation.Inv(ss[|ss| - 1])
    ensures var s := ss[|ss| - 1];
            && s.np == map[0 := 1] && s.forks == map[] && s.dying == {} && |s.m.free| >= n - NEWPROCPAGES - 2
            && User(0, 0) in s.m.links && s.m.links[User(0, 0)].w
  {
    ss, steps := NoPage(n);
    GrowOne(ss[|ss| - 1].m, 0);
    ss, steps := Extend(ss, steps, Grow(0, 1));
  }

  /** It is about to copy that page for process 1. */
  ghost predicate CopiesPage(s: State) {
    && Isolation.Inv(s) && s.np == map[0 := 1] && s.forks == map[1 := Half(0, 0)] && s.dying == {}
    && s.m.free != [] && Copyable(s.m, 0, 1, 0)
  }

  /** The page stays writable, and so its frame's count is 1, while the child gets kernel pages. */
  lemma StillOwn(m: Mem, m': Mem)
    requires Frames.Inv(m) && KernOnly(m, m', 1) && NoLinks(m, 1)
    requires User(0, 0) in m.links && m.links[User(0, 0)].w
    ensures Copyable(m', 0, 1, 0)
  {
    assert Same(m, m', User(0, 0)) && LinkAt(m', User(0, 0)) && Same(m, m', User(1, 0));
  }

  lemma StartFork(n: nat) returns (ss: seq<State>, steps: seq<Step>)
    requires n >= 2 * NEWPROCPAGES + 3
    ensures Run(ss, steps) && ss[0] == Boot(n) && CopiesPage(ss[|ss| - 1])
  {
    ss, steps := OnePage(n);
    var s := ss[|ss| - 1];
    assert PagesAt(s, 1);
    var r := NewProc(s.m, 1);
    assert r.ok && r.m.free != [] by { NewProcIff(s.m, 1); }
    assert Copyable(r.m, 0, 1, 0) by {
      NewProcOnly(s.m, 1);
      StillOwn(s.m, r.m);
    }
    ss, steps := Extend(ss, steps, ForkStart(0, 1));
  }

  /** The rest of the run: the fork ends, the child is reaped, the parent gives the page back. */
  lemma DropBoth(ss0: seq<State>, steps0: seq<Step>, m1: Mem) returns (ss: seq<State>, steps: seq<Step>)
    requires Run(ss0, steps0) && Isolation.Inv(ss0[|ss0| - 1]) && User(1, 0) in m1.links
    requires ss0[|ss0| - 1] == State(m1, map[0 := 1], map[1 := Half(0, 1)], {}, ss0[|ss0| - 1].sealed)
    ensures Run(ss, steps) && ss[0] == ss0[0] && ss[|ss| - 1].np == map[0 := 0]
    ensures Frames.Inv(m1) && m1.links[User(1, 0)].frame < |m1.frames|
    ensures var m2 := Drop(m1, User(1, 0));
            && Frames.Inv(m2) && (User(0, 0) in m2.links ==> m2.links[User(0, 0)].frame < |m2.frames|)
            && ss[|ss| - 1].m == Drop(m2, User(0, 0))
  {
    ss, steps := Extend(ss0, steps0, ForkDone(0, 1));
    ss, steps := Extend(ss, steps, ReapStart(1));
    assert ss[|ss| - 1] == State(m1, map[0 := 1], map[], {1}, ss[|ss| - 1].sealed);
    ss, steps := Extend(ss, steps, FreeLink(User(1, 0)));
    var s := ss[|ss| - 1];
    DropInv(m1, User(1, 0));
    DropInv(s.m, User(0, 0));
    ss, steps := Extend(ss, steps, Shrink(0, 0));
    assert DeallocUvm(s.m, 0, 0, 1) == Drop(s.m, User(0, 0));
  }

  /** Any machine with memory for two processes has a run that loses a frame: a process with one
      page forks, the child is reaped, and the parent gives the page back. */
  lemma LosesFrame(n: nat) returns (ss: seq<State>, steps: seq<Step>, f: nat)
    requires n >= 2 * NEWPROCPAGES + 3
    ensures Run(ss, steps) && ss[0] == Boot(n) && Lost(ss[|ss| - 1].m, f)
    ensures ss[|ss| - 1].np == map[0 := 0]
  {
    ss, steps := StartFork(n);
    var s := ss[|ss| - 1];
    f := s.m.links[User(0, 0)].frame;
    SoleLink(s, f);
    CopyPageFrames(s.m, 0, 1, 0);
    SharedFrameLost(s.m, 0, 1, 0);
    ss, steps := Extend(ss, steps, ForkPage(0, 1));
    ss, steps := DropBoth(ss, steps, CopyPage(s.m, 0, 1, 0).m);
  }

  /** Only process 0 has page 0. */
  lemma SoleLink(s: State, f: nat)
    requires Isolation.Inv(s) && s.np == map[0 := 1] && s.forks == map[1 := Half(0, 0)] && s.dying == {}
    requires User(0, 0) in s.m.links && s.m.links[User(0, 0)].frame == f
    ensures User(1, 0) !in s.m.links && forall k :: k in s.m.links && s.m.links[k].frame == f ==> k == User(0, 0)
  {
    assert PagesAt(s, 1);
    forall k | k in s.m.links && s.m.links[k].frame == f ensures k == User(0, 0) {
      assert Apart(s.m, k, User(0, 0)) && PagesAt(s, k.p);
    }
  }
}
