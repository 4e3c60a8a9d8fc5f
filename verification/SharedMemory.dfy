/** What user code can do with its pages, and what processes read from the wmap pages they share,
    in every run of `Isolation`.
 */
module SharedMemory {
  import opened Frames
  import opened AddressSpace
  import opened CopyOnWrite
  import opened Fork
  import opened Isolation

  // ---------------------------------------------------------------- access to pages

  /** Every page is a user page; a wmap page is writable, a private page is writable or copy-on-write
      unless it was made read-only. */
  ghost predicate FlagAt(s: State, k: Key) {
    k in s.m.links && k.User? ==>
      var e := s.m.links[k];
      e.u && if Shared(k) then Plain(e) else k in s.sealed || e.w || e.cow
  }

  ghost predicate SealAt(s: State, k: Key) {
    k in s.sealed ==> k in s.m.links && k.User? && !Shared(k)
  }

  ghost predicate Accessible(s: State) {
    (forall k {:trigger FlagAt(s, k)} :: FlagAt(s, k)) && (forall k {:trigger SealAt(s, k)} :: SealAt(s, k))
  }

  /** Entry `k`, if there is one, is as it was. */
  predicate OldEntry(m: Mem, m': Mem, k: Key) {
    k in m'.links ==> k in m.links && m'.links[k] == m.links[k]
  }

  lemma ForkPageFlag(s: State, p: nat, c: nat, k: Key)
    requires Isolation.Inv(s) && Accessible(s) && Enabled(s, ForkPage(p, c))
    ensures FlagAt(Next(s, ForkPage(p, c)), k) && SealAt(Next(s, ForkPage(p, c)), k)
  {
    assert PagesAt(s, p) && PagesAt(s, c) && FlagAt(s, k) && SealAt(s, k);
    var i, s' := s.forks[c].i, Next(s, ForkPage(p, c));
    assert FlagAt(s, User(p, i));
    CopyPageSame(s.m, p, c, i);
    CopyPageEntries(s.m, p, c, i);
    var r := CopyPage(s.m, p, c, i);
    DropSame(r.m, Kern(c, KSTACK));
    if k.User? && k != User(p, i) && k != User(c, i) {
      assert Same(s.m, r.m, k);
      assert !r.ok ==> Same(r.m, Drop(r.m, Kern(c, KSTACK)), k);
    } else if k == User(p, i) {
      assert !r.ok ==> Same(r.m, Drop(r.m, Kern(c, KSTACK)), k);
    }
  }

  lemma ForkShareFlag(s: State, p: nat, c: nat, pg: nat, k: Key)
    requires Isolation.Inv(s) && Accessible(s) && Enabled(s, ForkShare(p, c, pg))
    ensures FlagAt(Next(s, ForkShare(p, c, pg)), k) && SealAt(Next(s, ForkShare(p, c, pg)), k)
  {
    assert PagesAt(s, p) && PagesAt(s, c) && FlagAt(s, k) && SealAt(s, k) && FlagAt(s, User(p, pg));
    SharePageSame(s.m, p, c, pg);
    SharePageGives(s.m, p, c, pg);
    if k.User? && k != User(c, pg) { assert Same(s.m, Next(s, ForkShare(p, c, pg)).m, k); }
  }

  lemma FaultFlag(s: State, p: nat, pg: nat, k: Key)
    requires Isolation.Inv(s) && Accessible(s) && Enabled(s, Fault(p, pg))
    ensures pg < LIMIT && FlagAt(Next(s, Fault(p, pg)), k) && SealAt(Next(s, Fault(p, pg)), k)
  {
    assert FlagAt(s, k) && SealAt(s, k) && FlagAt(s, User(p, pg));
    CowFaultSame(s.m, p, pg);
    CowFaultIff(s.m, p, pg);
    if k != User(p, pg) { assert Same(s.m, Next(s, Fault(p, pg)).m, k); }
  }

  lemma GrowFlag(s: State, step: Step, k: Key)
    requires Isolation.Inv(s) && Accessible(s) && Enabled(s, step) && (step.Grow? || step.Touch?)
    ensures FlagAt(Next(s, step), k) && SealAt(Next(s, step), k)
  {
    assert PagesAt(s, step.p) && FlagAt(s, k) && SealAt(s, k);
    var s' := Next(s, step);
    match step
    case Grow(p, n) =>
      AllocUvmSame(s.m, p, s.np[p], n, s.np[p]);
      if k.User? && !InRange(k, p, s.np[p], n) { assert Same(s.m, s'.m, k); }
    case Touch(p, pg) =>
      LazyPageSame(s.m, p, pg);
      if k.User? && k != User(p, pg) { assert Same(s.m, s'.m, k); }
  }

  /** The other steps make no entries for users and take none of the bits of those there are, but for
      Protect. */
  lemma RestFlag(s: State, step: Step, k: Key)
    requires Isolation.Inv(s) && Accessible(s) && Enabled(s, step)
    requires !step.ForkPage? && !step.ForkShare? && !step.Fault? && !step.Grow? && !step.Touch?
    ensures FlagAt(Next(s, step), k) && SealAt(Next(s, step), k)
  {
    assert FlagAt(s, k) && SealAt(s, k);
    var m, m' := s.m, Next(s, step).m;
    match step
    case First(c) => NewProcFlag(s, c, k);
    case ForkStart(_, c) => NewProcFlag(s, c, k);
    case UserStore(p, pg, off, v) => assert LinkAt(m, User(p, pg));
    case Unmap(p, pg) =>
      DropSame(m, User(p, pg));
      if k != User(p, pg) { assert Same(m, m', k); }
    case FreeLink(k0) =>
      DropSame(m, k0);
      if k != k0 { assert Same(m, m', k); }
    case Shrink(p, n) =>
      DeallocUvmSame(m, p, n, s.np[p]);
      if !InRange(k, p, n, s.np[p]) { assert Same(m, m', k); }
    case _ =>
  }

  lemma NewProcFlag(s: State, c: nat, k: Key)
    requires Isolation.Inv(s) && Unborn(s, c)
    ensures k.User? ==> OldEntry(s.m, NewProc(s.m, c).m, k) && (k in s.m.links ==> k in NewProc(s.m, c).m.links)
  {
    assert PagesAt(s, c);
    NewProcOnly(s.m, c);
    if k.User? && k.p != c { assert Same(s.m, NewProc(s.m, c).m, k); }
    if k.User? && k.p == c && NewProc(s.m, c).ok { assert Same(s.m, NewProc(s.m, c).m, k); }
  }

  lemma NextAccessible(s: State, step: Step)
    requires Isolation.Inv(s) && Accessible(s) && Enabled(s, step)
    ensures Accessible(Next(s, step))
  {
    var s' := Next(s, step);
    forall k ensures FlagAt(s', k) && SealAt(s', k) {
      match step
      case ForkPage(p, c) => ForkPageFlag(s, p, c, k);
      case ForkShare(p, c, pg) => ForkShareFlag(s, p, c, pg, k);
      case Fault(p, pg) => FaultFlag(s, p, pg, k);
      case Grow(_, _) => GrowFlag(s, step, k);
      case Touch(_, _) => GrowFlag(s, step, k);
      case _ => RestFlag(s, step, k);
    }
  }

  lemma {:induction false} RunAccessible(ss: seq<State>, steps: seq<Step>, i: nat)
    requires Run(ss, steps) && i < |ss|
    ensures Isolation.Inv(ss[i]) && Accessible(ss[i])
  {
    RunRefines(ss, steps, i);
    if i > 0 {
      RunAccessible(ss, steps, i - 1);
      assert Isolation.Takes(ss[i - 1], steps[i - 1], ss[i]);
      NextAccessible(ss[i - 1], steps[i - 1]);
    }
  }

  /** A copy-on-write fault is due, and after it the store is permitted if the process is the only one
      that has the frame or another frame is free. */
  ghost predicate EnabledByFault(s: State, p: nat, pg: nat, off: nat) {
    && Frames.Inv(s.m) && Enabled(s, Fault(p, pg)) && s.m.links[User(p, pg)].frame < |s.m.counts|
    && (s.m.counts[s.m.links[User(p, pg)].frame] == 1 || s.m.free != [] ==>
          Enabled(Next(s, Fault(p, pg)), UserStore(p, pg, off, 0)))
  }

  /** In every run, whatever store the eager machine makes is permitted at once, or after one fault for
      which a frame is free or not needed, unless the page was made read-only. */
  lemma StoreOrFault(ss: seq<State>, steps: seq<Step>, i: nat, p: nat, pg: nat, off: nat)
    requires Run(ss, steps) && i < |ss| && Runs(ss[i], p) && pg in View(ss[i].m, p) && User(p, pg) !in ss[i].sealed
    requires off < |View(ss[i].m, p)[pg].bytes|
    ensures Enabled(ss[i], UserStore(p, pg, off, 0)) || EnabledByFault(ss[i], p, pg, off)
  {
    RunAccessible(ss, steps, i);
    var s := ss[i];
    assert FlagAt(s, User(p, pg));
    if s.m.links[User(p, pg)].cow {
      CowFaultSame(s.m, p, pg);
      CowFaultIff(s.m, p, pg);
    }
  }

  /** A page that no process has made read-only is not recorded as such. */
  lemma {:induction false} NeverSealed(ss: seq<State>, steps: seq<Step>, i: nat, pg: nat)
    requires Run(ss, steps) && i < |ss| && forall j :: 0 <= j < i ==> !(steps[j].Protect? && steps[j].pg == pg)
    ensures forall q: nat :: User(q, pg) !in ss[i].sealed
  {
    if i > 0 {
      NeverSealed(ss, steps, i - 1, pg);
      assert Isolation.Takes(ss[i - 1], steps[i - 1], ss[i]);
    }
  }

  /** So in every run a store to a page that no process has made read-only is permitted at once or
      after one fault. */
  lemma UnprotectedStore(ss: seq<State>, steps: seq<Step>, i: nat, p: nat, pg: nat, off: nat)
    requires Run(ss, steps) && i < |ss| && Runs(ss[i], p) && pg in View(ss[i].m, p)
    requires forall j :: 0 <= j < i ==> !(steps[j].Protect? && steps[j].pg == pg)
    requires off < |View(ss[i].m, p)[pg].bytes|
    ensures Enabled(ss[i], UserStore(p, pg, off, 0)) || EnabledByFault(ss[i], p, pg, off)
  {
    NeverSealed(ss, steps, i, pg);
    StoreOrFault(ss, steps, i, p, pg, off);
  }

  /** A store to a wmap page is always permitted. */
  lemma SharedStore(ss: seq<State>, steps: seq<Step>, i: nat, p: nat, pg: nat, off: nat)
    requires Run(ss, steps) && i < |ss| && Runs(ss[i], p) && Maps(ss[i], p, pg)
    requires off < |ReadAt(ss[i], p, pg).bytes|
    ensures Enabled(ss[i], UserStore(p, pg, off, 0))
  {
    RunAccessible(ss, steps, i);
    assert FlagAt(ss[i], User(p, pg));
  }

  // ---------------------------------------------------------------- the shared pages

  predicate Present(s: State, q: nat) {
    q in s.np || q in s.forks
  }

  /** Process `q` has wmap page `pg`. */
  predicate Maps(s: State, q: nat, pg: nat) {
    Present(s, q) && LIMIT <= pg < KERNPAGES && User(q, pg) in s.m.links
  }

  function ReadAt(s: State, q: nat, pg: nat): Page
    requires Maps(s, q, pg)
  {
    PageAt(s.m, User(q, pg))
  }

  /** Two processes have the same memory behind wmap page `pg`. */
  predicate Shares(s: State, a: nat, b: nat, pg: nat) {
    Maps(s, a, pg) && Maps(s, b, pg) && s.m.links[User(a, pg)].frame == s.m.links[User(b, pg)].frame
  }

  /** The page table page of a wmap or private page can be had. */
  predicate HasTable(s: State, q: nat, pg: nat) {
    Table(q, pg / NPDENTRIES) in s.m.links || s.m.free != []
  }

  /** Which wmap pages a process has after a step: first access and fork add one, if there are frames;
      wunmap takes one; a process that is gone has none. */
  ghost predicate MapsNext(s: State, step: Step, q: nat, pg: nat)
    requires Enabled(s, step)
  {
    match step
    case Touch(p, pg0) =>
      if q == p && pg == pg0 then |s.m.free| >= if Table(p, pg / NPDENTRIES) in s.m.links then 1 else 2
      else Maps(s, q, pg)
    case ForkShare(p, c, pg0) => if q == c && pg == pg0 then HasTable(s, c, pg) else Maps(s, q, pg)
    case ForkPage(p, c) => Maps(s, q, pg) && (q == c ==> HasTable(s, c, s.forks[c].i))
    case Unmap(p, pg0) => Maps(s, q, pg) && !(q == p && pg == pg0)
    case ReapStart(p) => Maps(s, q, pg) && q != p
    case _ => Maps(s, q, pg)
  }

  /** What a process reads from a wmap page after a step: a store shows in all processes that share the
      page, and in no other; a child reads what its parent does. */
  ghost predicate ReadsNext(s: State, step: Step, s': State, q: nat, pg: nat) {
    Maps(s', q, pg) ==>
      match step
      case Touch(p, pg0) =>
        if q == p && pg == pg0 then ReadAt(s', q, pg) == Filled(0)
        else Maps(s, q, pg) && ReadAt(s', q, pg) == ReadAt(s, q, pg)
      case ForkShare(p, c, pg0) =>
        var src := if q == c && pg == pg0 then p else q;
        Maps(s, src, pg) && ReadAt(s', q, pg) == ReadAt(s, src, pg)
      case UserStore(p, pg0, off, v) =>
        && Maps(s, q, pg) && (pg == pg0 && Shares(s, p, q, pg) ==> off < |ReadAt(s, q, pg).bytes|)
        && ReadAt(s', q, pg) == if pg == pg0 && Shares(s, p, q, pg) then SetByte(ReadAt(s, q, pg), off, v)
                                else ReadAt(s, q, pg)
      case _ => Maps(s, q, pg) && ReadAt(s', q, pg) == ReadAt(s, q, pg)
  }

  /** Who shares after a step: a page made by a first access is shared with nobody, a child shares what
      its parent shares. */
  ghost predicate SharesNext(s: State, step: Step, s': State, a: nat, b: nat, pg: nat) {
    Maps(s', a, pg) && Maps(s', b, pg) ==>
      match step
      case Touch(p, pg0) =>
        Shares(s', a, b, pg) <==> if pg == pg0 && (a == p || b == p) then a == b else Shares(s, a, b, pg)
      case ForkShare(p, c, pg0) =>
        Shares(s', a, b, pg) <==>
          Shares(s, if a == c && pg == pg0 then p else a, if b == c && pg == pg0 then p else b, pg)
      case _ => Shares(s', a, b, pg) <==> Shares(s, a, b, pg)
  }

  /** One step of the machine of shared pages. */
  ghost predicate SharedStep(s: State, step: Step, s': State)
    requires Enabled(s, step)
  {
    && (forall q: nat, pg: nat {:trigger Maps(s', q, pg)} :: Maps(s', q, pg) <==> MapsNext(s, step, q, pg))
    && (forall q: nat, pg: nat {:trigger ReadsNext(s, step, s', q, pg)} :: ReadsNext(s, step, s', q, pg))
    && (forall a: nat, b: nat, pg: nat {:trigger SharesNext(s, step, s', a, b, pg)} ::
          SharesNext(s, step, s', a, b, pg))
  }

  /** What a process still has of the wmap pages is as it was. */
  ghost predicate KeptAt(s: State, step: Step, s': State, q: nat, pg: nat)
    requires Enabled(s, step)
  {
    && (Maps(s', q, pg) <==> MapsNext(s, step, q, pg))
    && (Maps(s', q, pg) ==> Maps(s, q, pg) && Same(s.m, s'.m, User(q, pg)))
  }

  predicate Special(step: Step) {
    step.Touch? || step.ForkShare? || step.UserStore?
  }

  lemma KeptStep(s: State, step: Step, s': State)
    requires Enabled(s, step) && !Special(step)
    requires forall q: nat, pg: nat {:trigger KeptAt(s, step, s', q, pg)} :: KeptAt(s, step, s', q, pg)
    ensures SharedStep(s, step, s')
  {
    forall q: nat, pg: nat ensures Maps(s', q, pg) <==> MapsNext(s, step, q, pg) { assert KeptAt(s, step, s', q, pg); }
    forall q: nat, pg: nat ensures ReadsNext(s, step, s', q, pg) { assert KeptAt(s, step, s', q, pg); }
    forall a: nat, b: nat, pg: nat ensures SharesNext(s, step, s', a, b, pg) {
      assert KeptAt(s, step, s', a, pg) && KeptAt(s, step, s', b, pg);
    }
  }

  lemma ForkPageKeeps(s: State, p: nat, c: nat, q: nat, pg: nat)
    requires Isolation.Inv(s) && Enabled(s, ForkPage(p, c))
    ensures KeptAt(s, ForkPage(p, c), Next(s, ForkPage(p, c)), q, pg)
  {
    assert PagesAt(s, p) && PagesAt(s, c);
    var i := s.forks[c].i;
    CopyPageSame(s.m, p, c, i);
    CopyPageFrames(s.m, p, c, i);
    var r := CopyPage(s.m, p, c, i);
    DropSame(r.m, Kern(c, KSTACK));
    if pg >= LIMIT {
      assert Same(s.m, r.m, User(q, pg)) && Same(r.m, Drop(r.m, Kern(c, KSTACK)), User(q, pg));
    }
  }

  lemma FreesKeep(s: State, step: Step, q: nat, pg: nat)
    requires Isolation.Inv(s) && Enabled(s, step)
    requires step.Unmap? || step.FreeLink? || step.Shrink? || step.ReapStart? || step.ReapDone?
    ensures KeptAt(s, step, Next(s, step), q, pg)
  {
    var k, m, m' := User(q, pg), s.m, Next(s, step).m;
    assert PagesAt(s, q);
    match step
    case Unmap(p, pg0) =>
      DropSame(m, User(p, pg0));
      if k != User(p, pg0) { assert Same(m, m', k); }
    case FreeLink(k0) =>
      DropSame(m, k0);
      if k != k0 { assert Same(m, m', k); }
    case Shrink(p, n) =>
      assert PagesAt(s, p);
      DeallocUvmSame(m, p, n, s.np[p]);
      if pg >= LIMIT { assert Same(m, m', k); }
    case _ =>
  }

  lemma RestKeeps(s: State, step: Step, q: nat, pg: nat)
    requires Isolation.Inv(s) && Accessible(s) && Enabled(s, step)
    requires step.First? || step.ForkStart? || step.ForkDone? || step.Fault? || step.Protect? || step.Grow?
    ensures KeptAt(s, step, Next(s, step), q, pg)
  {
    var k, m, m' := User(q, pg), s.m, Next(s, step).m;
    assert PagesAt(s, q);
    match step
    case First(c) => NewProcKeeps(s, c, k);
    case ForkStart(_, c) => NewProcKeeps(s, c, k);
    case Fault(p, pg0) =>
      FaultFlag(s, p, pg0, k);
      CowFaultSame(m, p, pg0);
      if pg >= LIMIT { assert Same(m, m', k); }
    case Grow(p, n) =>
      assert PagesAt(s, p);
      AllocUvmSame(m, p, s.np[p], n, s.np[p]);
      if pg >= LIMIT { assert Same(m, m', k); }
    case _ =>
  }

  lemma NewProcKeeps(s: State, c: nat, k: Key)
    requires Isolation.Inv(s) && Unborn(s, c) && k.User?
    ensures Same(s.m, NewProc(s.m, c).m, k) && (k.p == c ==> k !in s.m.links)
  {
    assert PagesAt(s, c);
    NewProcOnly(s.m, c);
    if k.p == c && !NewProc(s.m, c).ok { assert k !in NewProc(s.m, c).m.links; }
  }

  // ---------------------------------------------------------------- the steps that matter

  /** A store shows in exactly those wmap pages that have its frame. */
  lemma StoreShows(s: State, step: Step, q: nat, pg: nat)
    requires Isolation.Inv(s) && Enabled(s, step) && step.UserStore?
    ensures Maps(Next(s, step), q, pg) <==> Maps(s, q, pg)
    ensures ReadsNext(s, step, Next(s, step), q, pg)
    ensures Next(s, step).m.links == s.m.links
  {
    var k := User(step.p, step.pg);
    assert LinkAt(s.m, k);
    if Maps(s, q, pg) {
      assert LinkAt(s.m, User(q, pg)) && Apart(s.m, k, User(q, pg));
    }
  }

  lemma StoreStep(s: State, step: Step)
    requires Isolation.Inv(s) && Enabled(s, step) && step.UserStore?
    ensures SharedStep(s, step, Next(s, step))
  {
    var s' := Next(s, step);
    forall q: nat, pg: nat ensures Maps(s', q, pg) <==> MapsNext(s, step, q, pg) { StoreShows(s, step, q, pg); }
    forall q: nat, pg: nat ensures ReadsNext(s, step, s', q, pg) { StoreShows(s, step, q, pg); }
    forall a: nat, b: nat, pg: nat ensures SharesNext(s, step, s', a, b, pg) {
      StoreShows(s, step, a, pg);
      StoreShows(s, step, b, pg);
    }
  }

  /** The first access to a wmap page. */
  lemma TouchAt(s: State, p: nat, pg0: nat, q: nat, pg: nat)
    requires Isolation.Inv(s) && Enabled(s, Touch(p, pg0))
    ensures var s' := Next(s, Touch(p, pg0));
            && (Maps(s', q, pg) <==> MapsNext(s, Touch(p, pg0), q, pg)) && ReadsNext(s, Touch(p, pg0), s', q, pg)
            && (Maps(s', q, pg) && !(q == p && pg == pg0) ==> Maps(s, q, pg) && Same(s.m, s'.m, User(q, pg)))
            && (Maps(s', p, pg0) && Maps(s, q, pg) ==>
                  s.m.links[User(q, pg)].frame != s'.m.links[User(p, pg0)].frame)
  {
    LazyPageSame(s.m, p, pg0);
    LazyPageIff(s.m, p, pg0);
    if !(q == p && pg == pg0) { assert Same(s.m, Next(s, Touch(p, pg0)).m, User(q, pg)); }
  }

  lemma TouchStep(s: State, p: nat, pg0: nat)
    requires Isolation.Inv(s) && Enabled(s, Touch(p, pg0))
    ensures SharedStep(s, Touch(p, pg0), Next(s, Touch(p, pg0)))
  {
    var step := Touch(p, pg0);
    var s' := Next(s, step);
    forall q: nat, pg: nat ensures Maps(s', q, pg) <==> MapsNext(s, step, q, pg) { TouchAt(s, p, pg0, q, pg); }
    forall q: nat, pg: nat ensures ReadsNext(s, step, s', q, pg) { TouchAt(s, p, pg0, q, pg); }
    forall a: nat, b: nat, pg: nat ensures SharesNext(s, step, s', a, b, pg) {
      TouchAt(s, p, pg0, a, pg);
      TouchAt(s, p, pg0, b, pg);
    }
  }

  /** fork gives the child a wmap page of the parent. */
  lemma ShareAt(s: State, p: nat, c: nat, pg0: nat, q: nat, pg: nat)
    requires Isolation.Inv(s) && Enabled(s, ForkShare(p, c, pg0))
    ensures var s' := Next(s, ForkShare(p, c, pg0));
            && (Maps(s', q, pg) <==> MapsNext(s, ForkShare(p, c, pg0), q, pg))
            && ReadsNext(s, ForkShare(p, c, pg0), s', q, pg) && Maps(s, p, pg0) && !Maps(s, c, pg0)
            && (Maps(s', q, pg) && !(q == c && pg == pg0) ==> Maps(s, q, pg) && Same(s.m, s'.m, User(q, pg)))
            && (Maps(s', c, pg0) ==> s'.m.links[User(c, pg0)].frame == s.m.links[User(p, pg0)].frame)
  {
    SharePageSame(s.m, p, c, pg0);
    SharePageGives(s.m, p, c, pg0);
    var m' := Next(s, ForkShare(p, c, pg0)).m;
    assert Same(s.m, m', User(p, pg0));
    if !(q == c && pg == pg0) { assert Same(s.m, m', User(q, pg)); }
  }

  lemma ShareStep(s: State, p: nat, c: nat, pg0: nat)
    requires Isolation.Inv(s) && Enabled(s, ForkShare(p, c, pg0))
    ensures SharedStep(s, ForkShare(p, c, pg0), Next(s, ForkShare(p, c, pg0)))
  {
    var step := ForkShare(p, c, pg0);
    var s' := Next(s, step);
    forall q: nat, pg: nat ensures Maps(s', q, pg) <==> MapsNext(s, step, q, pg) { ShareAt(s, p, c, pg0, q, pg); }
    forall q: nat, pg: nat ensures ReadsNext(s, step, s', q, pg) { ShareAt(s, p, c, pg0, q, pg); }
    forall a: nat, b: nat, pg: nat ensures SharesNext(s, step, s', a, b, pg) {
      ShareAt(s, p, c, pg0, a, pg);
      ShareAt(s, p, c, pg0, b, pg);
    }
  }

  /** Every step acts on the wmap pages as the machine of shared pages does. */
  lemma NextShares(s: State, step: Step)
    requires Isolation.Inv(s) && Accessible(s) && Enabled(s, step)
    ensures SharedStep(s, step, Next(s, step))
  {
    match step
    case UserStore(_, _, _, _) => StoreStep(s, step);
    case Touch(p, pg0) => TouchStep(s, p, pg0);
    case ForkShare(p, c, pg0) => ShareStep(s, p, c, pg0);
    case _ => OtherStep(s, step, Next(s, step));
  }

  lemma OtherStep(s: State, step: Step, s': State)
    requires Isolation.Inv(s) && Accessible(s) && Enabled(s, step) && !Special(step) && s' == Next(s, step)
    ensures SharedStep(s, step, s')
  {
    forall q: nat, pg: nat ensures KeptAt(s, step, s', q, pg) { NextKeeps(s, step, q, pg); }
    KeptStep(s, step, s');
  }

  lemma NextKeeps(s: State, step: Step, q: nat, pg: nat)
    requires Isolation.Inv(s) && Accessible(s) && Enabled(s, step) && !Special(step)
    ensures KeptAt(s, step, Next(s, step), q, pg)
  {
    match step
    case ForkPage(p, c) => ForkPageKeeps(s, p, c, q, pg);
    case Unmap(_, _) => FreesKeep(s, step, q, pg);
    case FreeLink(_) => FreesKeep(s, step, q, pg);
    case Shrink(_, _) => FreesKeep(s, step, q, pg);
    case ReapStart(_) => FreesKeep(s, step, q, pg);
    case ReapDone(_) => FreesKeep(s, step, q, pg);
    case _ => RestKeeps(s, step, q, pg);
  }

  /** Over whole runs. */
  lemma RunShares(ss: seq<State>, steps: seq<Step>, i: nat)
    requires Run(ss, steps) && i < |steps|
    ensures Enabled(ss[i], steps[i]) && SharedStep(ss[i], steps[i], ss[i + 1])
  {
    RunAccessible(ss, steps, i);
    assert Isolation.Takes(ss[i], steps[i], ss[i + 1]);
    NextShares(ss[i], steps[i]);
  }

  /** Process `q` does not give up wmap page `pg` in this step. */
  predicate Holds(step: Step, q: nat, pg: nat) {
    step != Unmap(q, pg) && step != ReapStart(q) && !(step.ForkPage? && step.c == q)
  }

  /** Two processes that share a wmap page, as a parent and the child that inherited it, go on sharing
      it in every run, and read the same there, until one of them unmaps it or is gone. */
  lemma {:induction false} StaySharing(ss: seq<State>, steps: seq<Step>, i: nat, j: nat, a: nat, b: nat, pg: nat)
    requires Run(ss, steps) && i <= j < |ss| && Shares(ss[i], a, b, pg)
    requires forall k {:trigger steps[k]} :: i <= k < j ==> Holds(steps[k], a, pg) && Holds(steps[k], b, pg)
    ensures Shares(ss[j], a, b, pg) && ReadAt(ss[j], a, pg) == ReadAt(ss[j], b, pg)
  {
    if i < j {
      StaySharing(ss, steps, i, j - 1, a, b, pg);
      RunShares(ss, steps, j - 1);
      var s, step, s' := ss[j - 1], steps[j - 1], ss[j];
      assert Maps(s', a, pg) <==> MapsNext(s, step, a, pg);
      assert Maps(s', b, pg) <==> MapsNext(s, step, b, pg);
      assert SharesNext(s, step, s', a, b, pg);
      StillMaps(s, step, a, pg);
      StillMaps(s, step, b, pg);
    }
  }

  lemma StillMaps(s: State, step: Step, q: nat, pg: nat)
    requires Enabled(s, step) && Maps(s, q, pg) && Holds(step, q, pg)
    ensures MapsNext(s, step, q, pg)
    ensures step.Touch? ==> !(step.p == q && step.pg == pg)
    ensures step.ForkShare? ==> !(step.c == q && step.pg == pg)
  {
  }
}
