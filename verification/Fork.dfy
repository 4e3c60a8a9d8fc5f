/** fork: allocproc's stack, setupkvm, copyuvm and the sharing of wmap pages. */
module Fork {
  import opened Frames
  import opened AddressSpace
  import opened CopyOnWrite

  // ---------------------------------------------------------------- kernel pages of a new process

  /** kalloc a page for the kernel's use. */
  function TakeKern(m: Mem, k: Key): Outcome
    requires Inv(m)
  {
    if m.free == [] then Outcome(m, false) else
    KallocInv(m);
    Outcome(Link(Put(Kalloc(m), m.free[0], Filled(0)), k, Pte(m.free[0], true, false, false)), true)
  }

  /** Only links that the kernel uses for process `c` have changed. */
  ghost predicate KernOnly(m: Mem, m': Mem, c: nat) {
    && Inv(m') && |m'.counts| == |m.counts|
    && (forall k: Key :: k.p != c || k.User? ==> Same(m, m', k))
    && (forall k: Key :: k.p != c ==> CountFits(m, k) ==> CountFits(m', k))
  }

  lemma KernOnlyTrans(m: Mem, m': Mem, m'': Mem, c: nat)
    requires KernOnly(m, m', c) && KernOnly(m', m'', c)
    ensures KernOnly(m, m'', c)
  {
    forall k: Key | k.p != c || k.User? ensures Same(m, m'', k) { assert Same(m, m', k) && Same(m', m'', k); }
  }

  lemma TakeKernOnly(m: Mem, k: Key)
    requires Inv(m) && !k.User? && KeyOk(k, Pte(0, true, false, false))
    ensures KernOnly(m, TakeKern(m, k).m, k.p)
  {
    if m.free != [] {
      TakeSame(m, Filled(0));
      var m1 := Put(Kalloc(m), m.free[0], Filled(0));
      LinkInv(m1, k, Pte(m.free[0], true, false, false));
      var m' := TakeKern(m, k).m;
      forall k' | k' != k ensures Same(m, m', k') { assert Same(m, m1, k'); }
      forall k': Key | k'.p != k.p && CountFits(m, k') ensures CountFits(m', k') { assert LinkAt(m, k'); }
    }
  }

  predicate ValidTables(pdxs: seq<nat>) {
    forall i :: 0 <= i < |pdxs| ==> pdxs[i] < NPDENTRIES
  }

  function TakeTables(m: Mem, c: nat, pdxs: seq<nat>): Outcome
    requires Inv(m) && ValidTables(pdxs)
    decreases |pdxs|
  {
    if pdxs == [] then Outcome(m, true) else
    TakeKernOnly(m, Table(c, pdxs[0]));
    var r := TakeKern(m, Table(c, pdxs[0]));
    if !r.ok then r else TakeTables(r.m, c, pdxs[1..])
  }

  lemma {:induction false} TakeTablesOnly(m: Mem, c: nat, pdxs: seq<nat>)
    requires Inv(m) && ValidTables(pdxs)
    ensures KernOnly(m, TakeTables(m, c, pdxs).m, c)
    decreases |pdxs|
  {
    if pdxs != [] {
      TakeKernOnly(m, Table(c, pdxs[0]));
      var r := TakeKern(m, Table(c, pdxs[0]));
      if r.ok {
        TakeTablesOnly(r.m, c, pdxs[1..]);
        KernOnlyTrans(m, r.m, TakeTables(m, c, pdxs).m, c);
      }
    }
  }

  /** The page directory entries of the kernel half: 0x80000000 up to PHYSTOP, and the devices
      from 0xFE000000 on. */
  function KernTables(): (r: seq<nat>)
    ensures ValidTables(r)
  {
    seq(56, i => 512 + i) + seq(8, i => 1016 + i)
  }

  /** allocproc's kernel stack and setupkvm; on failure nothing of it stays. */
  function NewProc(m: Mem, c: nat): Outcome
    requires Inv(m)
  {
    TakeKernOnly(m, Kern(c, KSTACK));
    var r0 := TakeKern(m, Kern(c, KSTACK));
    if !r0.ok then r0 else
    TakeKernOnly(r0.m, Kern(c, PGDIR));
    var r1 := TakeKern(r0.m, Kern(c, PGDIR));
    DropInv(r1.m, Kern(c, KSTACK));
    if !r1.ok then Outcome(Drop(r1.m, Kern(c, KSTACK)), false) else
    TakeTablesOnly(r1.m, c, KernTables());
    var r2 := TakeTables(r1.m, c, KernTables());
    FreeVmSame(r2.m, c);
    DropInv(FreeVm(r2.m, c), Kern(c, KSTACK));
    if !r2.ok then Outcome(Drop(FreeVm(r2.m, c), Kern(c, KSTACK)), false) else r2
  }

  ghost predicate NoLinks(m: Mem, c: nat) {
    forall k :: k in m.links ==> k.p != c
  }

  /** No link of process `c` is left, and nothing else changed. */
  ghost predicate Gone(m: Mem, m': Mem, c: nat) {
    Inv(m') && NoLinks(m', c) && forall k: Key :: k.p != c ==> Same(m, m', k)
  }

  lemma UndoGone(m: Mem, c: nat)
    requires Inv(m)
    ensures Inv(FreeVm(m, c))
    ensures Kern(c, KSTACK) in FreeVm(m, c).links ==> FreeVm(m, c).links[Kern(c, KSTACK)].frame < |FreeVm(m, c).frames|
    ensures Gone(m, Drop(FreeVm(m, c), Kern(c, KSTACK)), c)
  {
    FreeVmSame(m, c);
    var m1 := FreeVm(m, c);
    DropSame(m1, Kern(c, KSTACK));
    var m' := Drop(m1, Kern(c, KSTACK));
    forall k: Key | k.p != c ensures Same(m, m', k) { assert Same(m, m1, k) && Same(m1, m', k); }
    forall k | k in m'.links ensures k.p != c { assert k != Kern(c, KSTACK) ==> Same(m1, m', k); }
  }

  lemma GoneAfter(m: Mem, m': Mem, m'': Mem, c: nat)
    requires KernOnly(m, m', c) && Gone(m', m'', c)
    ensures Gone(m, m'', c)
  {
    forall k: Key | k.p != c ensures Same(m, m'', k) { assert Same(m, m', k) && Same(m', m'', k); }
  }

  /** A new process has kernel pages only; a failed attempt leaves no trace of it. */
  lemma NewProcOnly(m: Mem, c: nat)
    requires Inv(m) && NoLinks(m, c)
    ensures var r := NewProc(m, c); if r.ok then KernOnly(m, r.m, c) else Gone(m, r.m, c)
  {
    TakeKernOnly(m, Kern(c, KSTACK));
    var r0 := TakeKern(m, Kern(c, KSTACK));
    if r0.ok {
      TakeKernOnly(r0.m, Kern(c, PGDIR));
      var r1 := TakeKern(r0.m, Kern(c, PGDIR));
      KernOnlyTrans(m, r0.m, r1.m, c);
      if r1.ok {
        TakeTablesOnly(r1.m, c, KernTables());
        var r2 := TakeTables(r1.m, c, KernTables());
        KernOnlyTrans(m, r1.m, r2.m, c);
        if !r2.ok {
          UndoGone(r2.m, c);
          GoneAfter(m, r2.m, NewProc(m, c).m, c);
        }
      } else {
        DropSame(r1.m, Kern(c, KSTACK));
        OneLinkGone(m, r1.m, c);
      }
    }
  }

  lemma OneLinkGone(m: Mem, m1: Mem, c: nat)
    requires Inv(m) && NoLinks(m, c) && m.free != [] && m1 == TakeKern(m, Kern(c, KSTACK)).m && KernOnly(m, m1, c)
    ensures Kern(c, KSTACK) in m1.links && m1.links[Kern(c, KSTACK)].frame < |m1.frames|
    ensures Gone(m, Drop(m1, Kern(c, KSTACK)), c)
  {
    DropSame(m1, Kern(c, KSTACK));
    var m' := Drop(m1, Kern(c, KSTACK));
    forall k: Key | k.p != c ensures Same(m, m', k) { assert Same(m, m1, k) && Same(m1, m', k); }
    forall k | k in m'.links ensures k.p != c { assert k != Kern(c, KSTACK) ==> Same(m1, m', k); }
  }

  // ---------------------------------------------------------------- sharing wmap pages

  /** fork maps a wmap page into the child as it is; without memory for a page table it goes on. */
  function SharePage(m: Mem, p: nat, c: nat, pg: nat): Mem
    requires Inv(m) && pg < KERNPAGES && CountFits(m, User(p, pg))
  {
    var e := m.links[User(p, pg)];
    var r := WalkAlloc(m, c, pg);
    WalkAllocSame(m, c, pg);
    if !r.ok then r.m else Incref(Link(r.m, User(c, pg), Pte(e.frame, e.w, e.u, false)), e.frame)
  }

  lemma SharePageSame(m: Mem, p: nat, c: nat, pg: nat)
    requires Inv(m) && p != c && LIMIT <= pg < KERNPAGES && Copyable(m, p, c, pg)
    ensures var m' := SharePage(m, p, c, pg);
            && Inv(m') && (forall k :: k != User(c, pg) && k != Table(c, pg / NPDENTRIES) ==> Same(m, m', k))
            && (forall pg': nat :: pg' != pg && CountFits(m, User(p, pg')) ==> CountFits(m', User(p, pg')))
  {
    var k, k' := User(p, pg), User(c, pg);
    var e := m.links[k];
    var r := WalkAlloc(m, c, pg);
    WalkAllocSame(m, c, pg);
    WalkAllocCounts(m, c, pg);
    assert Same(m, r.m, k) && Same(m, r.m, k');
    var m' := SharePage(m, p, c, pg);
    if r.ok { ShareInv(r.m, k, k', Pte(e.frame, e.w, e.u, false)); }
    forall k1 | k1 != k' && k1 != Table(c, pg / NPDENTRIES) ensures Same(m, m', k1) { assert Same(m, r.m, k1); }
    forall pg': nat | pg' != pg && CountFits(m, User(p, pg')) ensures CountFits(m', User(p, pg')) {
      assert Same(m, r.m, User(p, pg')) && Apart(m, User(p, pg'), k);
    }
  }

  /** The child's entry for a wmap page: the parent's frame and permissions, not copy-on-write. */
  predicate SharedEntry(e: Pte, e': Pte) {
    e'.frame == e.frame && e'.w == e.w && e'.u == e.u && !e'.cow
  }

  /** The child gets the page if and only if its page table page is there or a frame for it is free,
      and then the frame's count is one higher. */
  lemma SharePageGives(m: Mem, p: nat, c: nat, pg: nat)
    requires Inv(m) && p != c && LIMIT <= pg < KERNPAGES && Copyable(m, p, c, pg)
    ensures var m', e := SharePage(m, p, c, pg), m.links[User(p, pg)];
            && (User(c, pg) in m'.links <==> Table(c, pg / NPDENTRIES) in m.links || m.free != [])
            && (User(c, pg) in m'.links ==> SharedEntry(e, m'.links[User(c, pg)]))
            && |m'.counts| == |m.counts| && e.frame < |m.counts|
            && m'.counts[e.frame] == m.counts[e.frame] + (if User(c, pg) in m'.links then 1 else 0)
            && |m'.free| == |m.free| - (if Table(c, pg / NPDENTRIES) in m.links || m.free == [] then 0 else 1)
            && (m.free != [] ==> Table(c, pg / NPDENTRIES) in m'.links)
            && forall k: Key :: k.Table? && k != Table(c, pg / NPDENTRIES) ==> (k in m'.links <==> k in m.links)
  {
    var e := m.links[User(p, pg)];
    WalkAllocSame(m, c, pg);
    WalkAllocCounts(m, c, pg);
    var r := WalkAlloc(m, c, pg);
    assert Same(m, r.m, User(p, pg)) && Same(m, r.m, User(c, pg)) && CountAt(m, e.frame);
    forall k: Key | k.Table? && k != Table(c, pg / NPDENTRIES)
      ensures k in SharePage(m, p, c, pg).links <==> k in m.links
    {
      assert Same(m, r.m, k);
    }
  }

  /** Distinct wmap pages that the parent has and the child has not. */
  ghost predicate Sharable(m: Mem, p: nat, c: nat, pgs: seq<nat>) {
    && (forall i :: 0 <= i < |pgs| ==> LIMIT <= pgs[i] < KERNPAGES && Copyable(m, p, c, pgs[i]))
    && (forall i, j :: 0 <= i < j < |pgs| ==> pgs[i] != pgs[j])
  }

  function SharePages(m: Mem, p: nat, c: nat, pgs: seq<nat>): Mem
    requires Inv(m) && p != c && Sharable(m, p, c, pgs)
    decreases |pgs|
  {
    if pgs == [] then m else
    SharePageSame(m, p, c, pgs[0]);
    SharableStep(m, p, c, pgs);
    SharePages(SharePage(m, p, c, pgs[0]), p, c, pgs[1..])
  }

  lemma SharableStep(m: Mem, p: nat, c: nat, pgs: seq<nat>)
    requires Inv(m) && p != c && Sharable(m, p, c, pgs) && pgs != []
    ensures Sharable(SharePage(m, p, c, pgs[0]), p, c, pgs[1..])
  {
    SharePageSame(m, p, c, pgs[0]);
    var m', rest := SharePage(m, p, c, pgs[0]), pgs[1..];
    forall i | 0 <= i < |rest| ensures LIMIT <= rest[i] < KERNPAGES && Copyable(m', p, c, rest[i]) {
      assert rest[i] == pgs[i + 1] != pgs[0];
      assert Same(m, m', User(c, rest[i]));
    }
  }

  /** Sharing wmap pages touches no private page. */
  lemma {:induction false} SharePagesSame(m: Mem, p: nat, c: nat, pgs: seq<nat>)
    requires Inv(m) && p != c && Sharable(m, p, c, pgs)
    ensures var m' := SharePages(m, p, c, pgs);
            Inv(m') && forall k: Key :: k.p != c || (k.User? && !Shared(k)) ==> Same(m, m', k)
    decreases |pgs|
  {
    if pgs != [] {
      SharePageSame(m, p, c, pgs[0]);
      SharableStep(m, p, c, pgs);
      var m1, m' := SharePage(m, p, c, pgs[0]), SharePages(m, p, c, pgs);
      SharePagesSame(m1, p, c, pgs[1..]);
      forall k: Key | k.p != c || (k.User? && !Shared(k)) ensures Same(m, m', k) {
        assert Same(m, m1, k) && Same(m1, m', k);
      }
    }
  }

  /** The page table pages that the child lacks for the wmap pages. */
  function Lacking(m: Mem, c: nat, pgs: seq<nat>): set<nat> {
    set i | 0 <= i < |pgs| && Table(c, pgs[i] / NPDENTRIES) !in m.links :: pgs[i] / NPDENTRIES
  }

  predicate AllShared(m: Mem, c: nat, pgs: seq<nat>) {
    forall i :: 0 <= i < |pgs| ==> User(c, pgs[i]) in m.links
  }

  /** Pages that are not in the list stay as they are. */
  lemma {:induction false} SharePagesOther(m: Mem, p: nat, c: nat, pgs: seq<nat>, k: Key)
    requires Inv(m) && p != c && Sharable(m, p, c, pgs) && k.User? && (k.p == c ==> k.pg !in pgs)
    ensures Same(m, SharePages(m, p, c, pgs), k)
    decreases |pgs|
  {
    if pgs != [] {
      SharePageSame(m, p, c, pgs[0]);
      SharableStep(m, p, c, pgs);
      var m1 := SharePage(m, p, c, pgs[0]);
      assert Same(m, m1, k) && (k.p == c ==> k.pg !in pgs[1..]);
      SharePagesOther(m1, p, c, pgs[1..], k);
    }
  }

  /** What of the list the child gets, it gets as the parent has it. */
  lemma {:induction false} SharePagesEntries(m: Mem, p: nat, c: nat, pgs: seq<nat>, i: nat)
    requires Inv(m) && p != c && Sharable(m, p, c, pgs) && i < |pgs|
    ensures var m', k := SharePages(m, p, c, pgs), User(c, pgs[i]);
            User(p, pgs[i]) in m.links && (k in m'.links ==> SharedEntry(m.links[User(p, pgs[i])], m'.links[k]))
    decreases |pgs|
  {
    SharePageSame(m, p, c, pgs[0]);
    SharePageGives(m, p, c, pgs[0]);
    SharableStep(m, p, c, pgs);
    var m1 := SharePage(m, p, c, pgs[0]);
    if i == 0 {
      SharePagesOther(m1, p, c, pgs[1..], User(c, pgs[0]));
    } else {
      assert pgs[i] == pgs[1..][i - 1] != pgs[0];
      SharePagesEntries(m1, p, c, pgs[1..], i - 1);
      assert Same(m, m1, User(p, pgs[i]));
    }
  }

  lemma LackingStep(m: Mem, m1: Mem, c: nat, pgs: seq<nat>)
    requires pgs != [] && Table(c, pgs[0] / NPDENTRIES) in m1.links
    requires forall k: Key :: k.Table? && k != Table(c, pgs[0] / NPDENTRIES) ==> (k in m1.links <==> k in m.links)
    ensures |Lacking(m, c, pgs)|
            == |Lacking(m1, c, pgs[1..])| + if Table(c, pgs[0] / NPDENTRIES) in m.links then 0 else 1
  {
    var d, rest := pgs[0] / NPDENTRIES, pgs[1..];
    forall i | 0 <= i < |rest| ensures rest[i] == pgs[i + 1] { }
    forall x | x in Lacking(m, c, pgs) && x != d ensures x in Lacking(m1, c, rest) {
      var i :| 0 <= i < |pgs| && Table(c, pgs[i] / NPDENTRIES) !in m.links && x == pgs[i] / NPDENTRIES;
      assert rest[i - 1] == pgs[i];
    }
    forall x | x in Lacking(m1, c, rest) ensures x in Lacking(m, c, pgs) && x != d {
      var i :| 0 <= i < |rest| && Table(c, rest[i] / NPDENTRIES) !in m1.links && x == rest[i] / NPDENTRIES;
      assert pgs[i + 1] == rest[i];
    }
    assert Lacking(m1, c, rest) == Lacking(m, c, pgs) - {d};
    assert d in Lacking(m, c, pgs) <==> Table(c, d) !in m.links;
  }

  /** The child gets all of them if and only if there is a frame for every page table page it lacks. */
  lemma {:induction false} SharePagesIff(m: Mem, p: nat, c: nat, pgs: seq<nat>)
    requires Inv(m) && p != c && Sharable(m, p, c, pgs)
    ensures AllShared(SharePages(m, p, c, pgs), c, pgs) <==> |m.free| >= |Lacking(m, c, pgs)|
    decreases |pgs|
  {
    if pgs == [] {
      assert Lacking(m, c, pgs) == {};
    } else {
      var m1, m', rest := SharePage(m, p, c, pgs[0]), SharePages(m, p, c, pgs), pgs[1..];
      SharePageSame(m, p, c, pgs[0]);
      SharePageGives(m, p, c, pgs[0]);
      SharableStep(m, p, c, pgs);
      SharePagesOther(m1, p, c, rest, User(c, pgs[0]));
      if User(c, pgs[0]) in m1.links {
        LackingStep(m, m1, c, pgs);
        SharePagesIff(m1, p, c, rest);
        assert AllShared(m', c, pgs) <==> AllShared(m', c, rest) by { AllSharedStep(m', c, pgs); }
      } else {
        assert pgs[0] / NPDENTRIES in Lacking(m, c, pgs);
      }
    }
  }

  lemma AllSharedStep(m: Mem, c: nat, pgs: seq<nat>)
    requires pgs != [] && User(c, pgs[0]) in m.links
    ensures AllShared(m, c, pgs) <==> AllShared(m, c, pgs[1..])
  {
    var rest := pgs[1..];
    if AllShared(m, c, rest) {
      forall i | 0 <= i < |pgs| ensures User(c, pgs[i]) in m.links { if i > 0 { assert rest[i - 1] == pgs[i]; } }
    }
  }

  // ---------------------------------------------------------------- fork

  /** The memory after losing the last pointer to the page directory of `c`. */
  function Forget(m: Mem, c: nat): Mem {
    Mem(m.frames, m.counts, m.free, m.links - (set k | k in m.links && k.p == c))
  }

  ghost predicate MayFork(m: Mem, p: nat, c: nat, n: nat, pgs: seq<nat>) {
    && Inv(m) && p != c && NoLinks(m, c) && n <= LIMIT
    && (forall pg: nat :: pg < n ==> CountFits(m, User(p, pg)))
    && (forall i :: 0 <= i < |pgs| ==> LIMIT <= pgs[i] < KERNPAGES && CountFits(m, User(p, pgs[i])))
    && (forall i, j :: 0 <= i < j < |pgs| ==> pgs[i] != pgs[j])
  }

  lemma NewProcCopyable(m: Mem, p: nat, c: nat, n: nat, pgs: seq<nat>)
    requires MayFork(m, p, c, n, pgs) && NewProc(m, c).ok
    ensures var m1 := NewProc(m, c).m;
            && KernOnly(m, m1, c) && (forall pg: nat :: pg < n ==> Copyable(m1, p, c, pg)) && Sharable(m1, p, c, pgs)
  {
    NewProcOnly(m, c);
    var m1 := NewProc(m, c).m;
    forall pg: nat | CountFits(m, User(p, pg)) ensures Copyable(m1, p, c, pg) {
      assert Same(m, m1, User(c, pg));
    }
  }

  lemma StillSharable(m: Mem, r: Outcome, p: nat, c: nat, i: nat, pgs: seq<nat>)
    requires p != c && i < LIMIT && PageCopied(m, r, p, c, i) && Sharable(m, p, c, pgs)
    ensures Sharable(r.m, p, c, pgs)
  {
    forall j | 0 <= j < |pgs| ensures Copyable(r.m, p, c, pgs[j]) { assert Same(m, r.m, User(c, pgs[j])); }
  }

  /** A copy of low pages leaves the wmap pages sharable. */
  lemma {:induction false} CopyUvmSharable(m: Mem, p: nat, c: nat, i: nat, n: nat, pgs: seq<nat>)
    requires Inv(m) && p != c && n <= LIMIT && (forall pg: nat :: i <= pg < n ==> Copyable(m, p, c, pg))
    requires Sharable(m, p, c, pgs)
    ensures Sharable(CopyUvm(m, p, c, i, n).m, p, c, pgs)
    decreases n - i
  {
    if i < n {
      assert Copyable(m, p, c, i);
      var r := CopyPage(m, p, c, i);
      CopyPageSame(m, p, c, i);
      StillSharable(m, r, p, c, i, pgs);
      if r.ok {
        CopyableStep(m, r, p, c, i, n);
        CopyUvmSharable(r.m, p, c, i + 1, n, pgs);
      }
    }
  }

  /** fork of process `p` with `n` private pages into `c`, sharing the wmap pages `pgs`.  When
      copyuvm fails, the child's half-built page directory is not freed. */
  function ForkMem(m: Mem, p: nat, c: nat, n: nat, pgs: seq<nat>): Outcome
    requires MayFork(m, p, c, n, pgs)
  {
    NewProcOnly(m, c);
    var r := NewProc(m, c);
    if !r.ok then r else
    NewProcCopyable(m, p, c, n, pgs);
    var r1 := CopyUvm(r.m, p, c, 0, n);
    CopyUvmSame(r.m, p, c, 0, n);
    CopyUvmSharable(r.m, p, c, 0, n, pgs);
    DropInv(r1.m, Kern(c, KSTACK));
    if !r1.ok then Outcome(Forget(Drop(r1.m, Kern(c, KSTACK)), c), false)
    else Outcome(SharePages(r1.m, p, c, pgs), true)
  }

  /** What fork does to memory: a child with the parent's contents, or no child. */
  ghost predicate Forked(m: Mem, r: Outcome, p: nat, c: nat, n: nat) {
    && Inv(r.m)
    && (forall k: Key :: k.p != c ==> SameContent(m, r.m, k))
    && if r.ok then
         && (forall pg: nat :: pg < n ==>
               User(p, pg) in m.links && User(c, pg) in r.m.links && PageAt(r.m, User(c, pg)) == PageAt(m, User(p, pg)))
         && (forall pg: nat :: n <= pg < LIMIT ==> User(c, pg) !in r.m.links)
       else NoLinks(r.m, c)
  }

  lemma ForkCopies(m: Mem, p: nat, c: nat, n: nat, pgs: seq<nat>)
    requires MayFork(m, p, c, n, pgs)
    ensures Forked(m, ForkMem(m, p, c, n, pgs), p, c, n)
  {
    NewProcOnly(m, c);
    var r := NewProc(m, c);
    var r' := ForkMem(m, p, c, n, pgs);
    if !r.ok {
      forall k: Key | k.p != c ensures SameContent(m, r'.m, k) { assert Same(m, r.m, k); }
    } else {
      NewProcCopyable(m, p, c, n, pgs);
      var r1 := CopyUvm(r.m, p, c, 0, n);
      CopyUvmSame(r.m, p, c, 0, n);
      CopyUvmSharable(r.m, p, c, 0, n, pgs);
      if r1.ok { ForkDone(m, r.m, r1, p, c, n, pgs); } else { ForkFailed(m, r.m, r1, p, c, n); }
    }
  }

  lemma ForkDone(m: Mem, m1: Mem, r1: Outcome, p: nat, c: nat, n: nat, pgs: seq<nat>)
    requires MayFork(m, p, c, n, pgs) && KernOnly(m, m1, c) && r1.ok && Copied(m1, r1, p, c, 0, n)
    requires Sharable(r1.m, p, c, pgs)
    ensures Forked(m, Outcome(SharePages(r1.m, p, c, pgs), true), p, c, n)
  {
    SharePagesSame(r1.m, p, c, pgs);
    var m' := SharePages(r1.m, p, c, pgs);
    forall k: Key | k.p != c ensures SameContent(m, m', k) {
      assert Same(m, m1, k) && SameContent(m1, r1.m, k) && Same(r1.m, m', k);
    }
    forall pg: nat | pg < n
      ensures User(p, pg) in m.links && User(c, pg) in m'.links && PageAt(m', User(c, pg)) == PageAt(m, User(p, pg))
    {
      assert Same(m, m1, User(p, pg)) && Same(r1.m, m', User(c, pg));
    }
    forall pg: nat | n <= pg < LIMIT ensures User(c, pg) !in m'.links {
      assert Same(m, m1, User(c, pg)) && Same(m1, r1.m, User(c, pg)) && Same(r1.m, m', User(c, pg));
    }
  }

  lemma ForkFailed(m: Mem, m1: Mem, r1: Outcome, p: nat, c: nat, n: nat)
    requires KernOnly(m, m1, c) && Copied(m1, r1, p, c, 0, n)
    ensures Kern(c, KSTACK) in r1.m.links ==> r1.m.links[Kern(c, KSTACK)].frame < |r1.m.frames|
    ensures Forked(m, Outcome(Forget(Drop(r1.m, Kern(c, KSTACK)), c), false), p, c, n)
  {
    DropSame(r1.m, Kern(c, KSTACK));
    var m2 := Drop(r1.m, Kern(c, KSTACK));
    ForgetInv(m2, set k | k in m2.links && k.p == c);
    var m' := Forget(m2, c);
    forall k: Key | k.p != c ensures SameContent(m, m', k) {
      assert Same(m, m1, k) && SameContent(m1, r1.m, k) && Same(r1.m, m2, k);
    }
  }

  // ---------------------------------------------------------------- how much memory is needed

  lemma TakeKernFrames(m: Mem, k: Key)
    requires Inv(m)
    ensures var r := TakeKern(m, k);
            && (r.ok <==> m.free != []) && (r.ok ==> |r.m.free| == |m.free| - 1)
            && forall k' :: k' != k ==> (k' in r.m.links <==> k' in m.links)
  {
  }

  /** setupkvm makes the tables of the kernel half and no others. */
  lemma {:induction false} TakeTablesIff(m: Mem, c: nat, pdxs: seq<nat>)
    requires Inv(m) && ValidTables(pdxs)
    ensures var r := TakeTables(m, c, pdxs);
            && (r.ok <==> |m.free| >= |pdxs|) && (r.ok ==> |r.m.free| == |m.free| - |pdxs|)
            && forall d: nat :: d !in pdxs && Table(c, d) !in m.links ==> Table(c, d) !in r.m.links
    decreases |pdxs|
  {
    if pdxs != [] {
      TakeKernOnly(m, Table(c, pdxs[0]));
      TakeKernFrames(m, Table(c, pdxs[0]));
      var r0 := TakeKern(m, Table(c, pdxs[0]));
      if r0.ok {
        TakeTablesIff(r0.m, c, pdxs[1..]);
        assert forall d: nat :: d !in pdxs ==> d !in pdxs[1..] && d != pdxs[0];
      }
    }
  }

  /** A kernel stack, a page directory and 64 page table pages. */
  const NEWPROCPAGES := 66

  lemma KernHalf()
    ensures |KernTables()| == NEWPROCPAGES - 2 && forall d: nat :: d < 512 ==> d !in KernTables()
  {
  }

  /** setupkvm, for a process that has its kernel stack. */
  lemma SetupIff(m: Mem, c: nat)
    requires Inv(m) && forall d: nat :: Table(c, d) !in m.links
    ensures var r1 := TakeKern(m, Kern(c, PGDIR));
            && Inv(r1.m) && (r1.ok <==> m.free != [])
            && var r := TakeTables(r1.m, c, KernTables());
               && (r1.ok && r.ok <==> |m.free| >= NEWPROCPAGES - 1)
               && (r1.ok && r.ok ==> |r.m.free| == |m.free| - (NEWPROCPAGES - 1))
               && (r1.ok && r.ok ==> forall d: nat :: d < 512 ==> Table(c, d) !in r.m.links)
  {
    KernHalf();
    TakeKernOnly(m, Kern(c, PGDIR));
    TakeKernFrames(m, Kern(c, PGDIR));
    TakeTablesIff(TakeKern(m, Kern(c, PGDIR)).m, c, KernTables());
  }

  /** allocproc and setupkvm succeed if and only if there are that many frames. */
  lemma NewProcIff(m: Mem, c: nat)
    requires Inv(m) && NoLinks(m, c)
    ensures var r := NewProc(m, c);
            && (r.ok <==> |m.free| >= NEWPROCPAGES) && (r.ok ==> |r.m.free| == |m.free| - NEWPROCPAGES)
            && (r.ok ==> forall d: nat :: d < 512 ==> Table(c, d) !in r.m.links)
  {
    TakeKernOnly(m, Kern(c, KSTACK));
    TakeKernFrames(m, Kern(c, KSTACK));
    var r0 := TakeKern(m, Kern(c, KSTACK));
    if r0.ok { SetupIff(r0.m, c); }
  }

  /** What kmap maps: the memory from KERNBASE on up to PHYSTOP, and the devices from DEVSPACE on. */
  predicate KernelAddress(va: nat) {
    0x8000_0000 <= va < 0x8000_0000 + 0xE00_0000 || 0xFE00_0000 <= va < 0x1_0000_0000
  }

  /** A kernel address lies in the 4 megabytes of page table page `d`. */
  ghost predicate MapsKernel(d: nat) {
    exists va: nat :: KernelAddress(va) && va / 0x40_0000 == d
  }

  lemma KernTableOf(va: nat)
    requires KernelAddress(va)
    ensures va / 0x40_0000 in KernTables()
  {
    var d := va / 0x40_0000;
    assert KernTables()[if d < 1016 then d - 512 else 56 + d - 1016] == d;
  }

  lemma KernTablesIff(d: nat)
    ensures d in KernTables() <==> MapsKernel(d)
  {
    var va := d * 0x40_0000;
    if d in KernTables() { assert KernelAddress(va) && va / 0x40_0000 == d; }
    if a: nat :| KernelAddress(a) && a / 0x40_0000 == d { KernTableOf(a); }
  }

  lemma {:induction false} TakeTablesMakes(m: Mem, c: nat, pdxs: seq<nat>, k: Key)
    requires Inv(m) && ValidTables(pdxs) && TakeTables(m, c, pdxs).ok
    ensures k in TakeTables(m, c, pdxs).m.links <==> k in m.links || (k.Table? && k.p == c && k.pdx in pdxs)
    decreases |pdxs|
  {
    if pdxs != [] {
      TakeKernOnly(m, Table(c, pdxs[0]));
      TakeTablesMakes(TakeKern(m, Table(c, pdxs[0])).m, c, pdxs[1..], k);
    }
  }

  /** A new process has a kernel stack, a page directory, and the page table pages for the kernel's
      addresses, and nothing else. */
  lemma NewProcLinks(m: Mem, c: nat, k: Key)
    requires Inv(m) && NoLinks(m, c) && NewProc(m, c).ok && k.p == c
    ensures k in NewProc(m, c).m.links <==>
            k == Kern(c, KSTACK) || k == Kern(c, PGDIR) || (k.Table? && MapsKernel(k.pdx))
  {
    TakeKernOnly(m, Kern(c, KSTACK));
    var r0 := TakeKern(m, Kern(c, KSTACK));
    TakeKernOnly(r0.m, Kern(c, PGDIR));
    var r1 := TakeKern(r0.m, Kern(c, PGDIR));
    TakeTablesMakes(r1.m, c, KernTables(), k);
    if k.Table? { KernTablesIff(k.pdx); }
  }

  /** The number of page table pages for the pages below `n`. */
  function UserTables(n: nat): nat {
    (n + NPDENTRIES - 1) / NPDENTRIES
  }

  lemma {:induction false} SegmentCard(a: set<nat>, n: nat)
    requires forall x: nat :: x in a <==> x < n
    ensures |a| == n
  {
    if n == 0 {
      assert a == {};
    } else {
      SegmentCard(a - {n - 1}, n - 1);
    }
  }

  lemma AllMissing(m: Mem, c: nat, n: nat)
    requires n <= LIMIT && forall d: nat :: d < 512 ==> Table(c, d) !in m.links
    ensures |Missing(m, c, 0, n)| == UserTables(n)
  {
    forall d: nat ensures d in Missing(m, c, 0, n) <==> d < UserTables(n) {
      assert Covers(d, 0, n) <==> d < UserTables(n);
    }
    SegmentCard(Missing(m, c, 0, n), UserTables(n));
  }

  /** fork succeeds if and only if there are frames for the kernel's pages of the child and for its
      page table pages; copy-on-write needs none for the pages themselves. */
  lemma ForkSucceedsIff(m: Mem, p: nat, c: nat, n: nat, pgs: seq<nat>)
    requires MayFork(m, p, c, n, pgs)
    ensures ForkMem(m, p, c, n, pgs).ok <==> |m.free| >= NEWPROCPAGES + UserTables(n)
  {
    NewProcIff(m, c);
    var r := NewProc(m, c);
    if r.ok {
      NewProcCopyable(m, p, c, n, pgs);
      AllMissing(r.m, c, n);
      CopyUvmSucceedsIff(r.m, p, c, 0, n);
    }
  }

  // ---------------------------------------------------------------- what the child can do with its pages

  /** After fork every private page of the child has an entry inherited from the parent's. */
  lemma ForkEntries(m: Mem, p: nat, c: nat, n: nat, pgs: seq<nat>)
    requires MayFork(m, p, c, n, pgs)
    ensures ForkMem(m, p, c, n, pgs).ok ==> InheritsAll(m, ForkMem(m, p, c, n, pgs), p, c, 0, n)
  {
    NewProcOnly(m, c);
    var r, r' := NewProc(m, c), ForkMem(m, p, c, n, pgs);
    if r'.ok {
      NewProcCopyable(m, p, c, n, pgs);
      var r1 := CopyUvm(r.m, p, c, 0, n);
      CopyUvmSame(r.m, p, c, 0, n);
      CopyUvmSharable(r.m, p, c, 0, n, pgs);
      CopyUvmEntries(r.m, p, c, 0, n);
      SharePagesSame(r1.m, p, c, pgs);
      forall pg: nat | pg < n ensures InheritsAt(m, r', p, c, pg) {
        assert InheritsAt(r.m, r1, p, c, pg) && Same(m, r.m, User(p, pg)) && Same(r1.m, r'.m, User(c, pg));
      }
    }
  }

  /** And what it has of the parent's wmap pages, it has as the parent does. */
  lemma ForkShares(m: Mem, p: nat, c: nat, n: nat, pgs: seq<nat>, i: nat)
    requires MayFork(m, p, c, n, pgs) && ForkMem(m, p, c, n, pgs).ok && i < |pgs|
    ensures var m', k := ForkMem(m, p, c, n, pgs).m, User(c, pgs[i]);
            User(p, pgs[i]) in m.links && (k in m'.links ==> SharedEntry(m.links[User(p, pgs[i])], m'.links[k]))
  {
    NewProcOnly(m, c);
    var m1 := NewProc(m, c).m;
    NewProcCopyable(m, p, c, n, pgs);
    CopyUvmSame(m1, p, c, 0, n);
    CopyUvmSharable(m1, p, c, 0, n, pgs);
    var m2 := CopyUvm(m1, p, c, 0, n).m;
    SharePagesEntries(m2, p, c, pgs, i);
    assert Same(m, m1, User(p, pgs[i])) && Same(m1, m2, User(p, pgs[i]));
  }

  function TablesOf(pgs: seq<nat>): set<nat> {
    set i | 0 <= i < |pgs| :: pgs[i] / NPDENTRIES
  }

  lemma AllLacking(m: Mem, c: nat, pgs: seq<nat>)
    requires forall i :: 0 <= i < |pgs| ==> LIMIT <= pgs[i] < KERNPAGES
    requires forall d: nat :: LIMIT / NPDENTRIES <= d < 512 ==> Table(c, d) !in m.links
    ensures Lacking(m, c, pgs) == TablesOf(pgs)
  {
    forall i | 0 <= i < |pgs| ensures Table(c, pgs[i] / NPDENTRIES) !in m.links { }
  }

  /** It has all of them if and only if there are frames also for the page table pages of those. */
  lemma ForkSharesIff(m: Mem, p: nat, c: nat, n: nat, pgs: seq<nat>)
    requires MayFork(m, p, c, n, pgs) && ForkMem(m, p, c, n, pgs).ok
    ensures AllShared(ForkMem(m, p, c, n, pgs).m, c, pgs) <==>
            |m.free| >= NEWPROCPAGES + UserTables(n) + |TablesOf(pgs)|
  {
    NewProcIff(m, c);
    NewProcOnly(m, c);
    var m1 := NewProc(m, c).m;
    NewProcCopyable(m, p, c, n, pgs);
    AllMissing(m1, c, n);
    CopyUvmSucceedsIff(m1, p, c, 0, n);
    CopyUvmSame(m1, p, c, 0, n);
    CopyUvmSharable(m1, p, c, 0, n, pgs);
    var m2 := CopyUvm(m1, p, c, 0, n).m;
    forall d: nat | LIMIT / NPDENTRIES <= d < 512 ensures Table(c, d) !in m2.links { CopyUvmTables(m1, p, c, 0, n, d); }
    AllLacking(m2, c, pgs);
    SharePagesIff(m2, p, c, pgs);
  }
}
