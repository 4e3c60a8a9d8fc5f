/** Growing, shrinking and freeing an address space: the page loops of vm.c and the lazy
    allocation of the page fault handler, over the frames of kalloc.c.
 */
module AddressSpace {
  import opened Frames

  /** A new state, and whether the allocations on the way succeeded. */
  datatype Outcome = Outcome(m: Mem, ok: bool)

  function PageAt(m: Mem, k: Key): Page
    requires k in m.links
  {
    var f := m.links[k].frame;
    if f < |m.frames| then m.frames[f] else Filled(0)
  }

  /** The private memory of process `p`: its pages below the wmap range. */
  function View(m: Mem, p: nat): map<nat, Page> {
    map pg: nat | pg < LIMIT && User(p, pg) in m.links :: PageAt(m, User(p, pg))
  }

  /** Link `k` is as it was, and so is the page it leads to. */
  ghost predicate Same(m: Mem, m': Mem, k: Key) {
    && (k in m.links <==> k in m'.links)
    && (k in m.links ==> m'.links[k] == m.links[k] && PageAt(m', k) == PageAt(m, k))
  }

  // ---------------------------------------------------------------- contents under primitive changes

  lemma DropSame(m: Mem, k: Key)
    requires Inv(m)
    ensures k in m.links ==> m.links[k].frame < |m.frames|
    ensures Inv(Drop(m, k)) && k !in Drop(m, k).links
    ensures forall k' :: k' != k ==> Same(m, Drop(m, k), k')
  {
    DropInv(m, k);
    forall k' | k' != k ensures Same(m, Drop(m, k), k') {
      if k in m.links && k' in m.links {
        assert LinkAt(m, k) && LinkAt(m, k');
        if m.counts[m.links[k].frame] <= 1 && m.links[k].frame == m.links[k'].frame { SoleRef(m, k, k'); }
      }
    }
  }

  /** Taking a frame and writing to it changes no linked page. */
  lemma TakeSame(m: Mem, data: Page)
    requires Inv(m) && m.free != []
    ensures m.free[0] < |m.frames| && Inv(Put(Kalloc(m), m.free[0], data))
    ensures InHand(Put(Kalloc(m), m.free[0], data), m.free[0])
    ensures forall k :: Same(m, Put(Kalloc(m), m.free[0], data), k)
    ensures forall f :: InHand(m, f) ==> InHand(Put(Kalloc(m), m.free[0], data), f) && f != m.free[0]
  {
    KallocInv(m);
    var f := m.free[0];
    var m' := Put(Kalloc(m), f, data);
    PutInv(Kalloc(m), f, data);
    assert Refs(m', f) == Refs(Kalloc(m), f);
    forall k ensures Same(m, m', k) {
      if k in m.links { assert LinkAt(m, k); }
    }
    forall g | InHand(m, g) ensures InHand(m', g) && g != f {
      assert Refs(m', g) == Refs(m, g);
    }
  }

  // ---------------------------------------------------------------- walkpgdir and mappages

  /** walkpgdir with alloc: a missing page table page is allocated and zeroed. */
  function WalkAlloc(m: Mem, p: nat, pg: nat): Outcome
    requires Inv(m)
  {
    var k := Table(p, pg / NPDENTRIES);
    if k in m.links then Outcome(m, true)
    else if m.free == [] then Outcome(m, false)
    else
      KallocInv(m);
      Outcome(Link(Put(Kalloc(m), m.free[0], Filled(0)), k, Pte(m.free[0], true, true, false)), true)
  }

  lemma WalkAllocSame(m: Mem, p: nat, pg: nat)
    requires Inv(m) && pg < KERNPAGES
    ensures var m' := WalkAlloc(m, p, pg).m;
            && Inv(m') && (forall k :: k != Table(p, pg / NPDENTRIES) ==> Same(m, m', k))
            && (forall f :: InHand(m, f) ==> InHand(m', f))
            && |m'.frames| == |m.frames|
  {
    var k := Table(p, pg / NPDENTRIES);
    if k !in m.links && m.free != [] {
      TakeSame(m, Filled(0));
      var m1 := Put(Kalloc(m), m.free[0], Filled(0));
      var e := Pte(m.free[0], true, true, false);
      LinkInv(m1, k, e);
      var m' := Link(m1, k, e);
      forall k' | k' != k ensures Same(m, m', k') { assert Same(m, m1, k'); }
      forall f | InHand(m, f) ensures InHand(m', f) {
        assert InHand(m1, f);
        assert Refs(m', f) == Refs(m1, f);
      }
    }
  }

  // ---------------------------------------------------------------- deallocuvm

  /** The plain page-by-page form of deallocuvm. */
  function DeallocUvm(m: Mem, p: nat, lo: nat, hi: nat): Mem
    requires Inv(m)
    decreases hi - lo, |m.free|
  {
    if lo >= hi then m else
    DropInv(m, User(p, lo));
    DeallocUvm(Drop(m, User(p, lo)), p, lo + 1, hi)
  }

  predicate InRange(k: Key, p: nat, lo: nat, hi: nat) {
    k.User? && k.p == p && lo <= k.pg < hi
  }

  lemma {:induction false} DeallocUvmSame(m: Mem, p: nat, lo: nat, hi: nat)
    requires Inv(m)
    ensures var m' := DeallocUvm(m, p, lo, hi);
            && Inv(m') && (forall k :: !InRange(k, p, lo, hi) ==> Same(m, m', k))
            && (forall k :: InRange(k, p, lo, hi) ==> k !in m'.links)
    decreases hi - lo
  {
    if lo < hi {
      var k := User(p, lo);
      DropSame(m, k);
      var m1 := Drop(m, k);
      DeallocUvmSame(m1, p, lo + 1, hi);
      var m' := DeallocUvm(m, p, lo, hi);
      forall k' | !InRange(k', p, lo, hi) ensures Same(m, m', k') { assert Same(m, m1, k') && Same(m1, m', k'); }
      assert Same(m1, m', k);
    }
  }

  // ---------------------------------------------------------------- allocuvm and lazy allocation

  /** kalloc, memset to zero, and the page table page that mappages needs; the frame is still in hand. */
  function TakeZero(m: Mem, p: nat, pg: nat): Outcome
    requires Inv(m) && m.free != []
  {
    TakeSame(m, Filled(0));
    WalkAlloc(Put(Kalloc(m), m.free[0], Filled(0)), p, pg)
  }

  lemma TakeZeroSame(m: Mem, p: nat, pg: nat)
    requires Inv(m) && m.free != [] && pg < KERNPAGES
    ensures var m' := TakeZero(m, p, pg).m;
            && Inv(m') && InHand(m', m.free[0])
            && (forall k :: k != Table(p, pg / NPDENTRIES) ==> Same(m, m', k))
            && m'.frames[m.free[0]] == Filled(0)
  {
    TakeSame(m, Filled(0));
    var m1 := Put(Kalloc(m), m.free[0], Filled(0));
    WalkAllocSame(m1, p, pg);
    var m' := TakeZero(m, p, pg).m;
    forall k | k != Table(p, pg / NPDENTRIES) ensures Same(m, m', k) { assert Same(m, m1, k) && Same(m1, m', k); }
    if m1.free != [] { assert FreeAt(m1, 0); }
  }

  /** The page table entry of a fresh user page. */
  function Fresh(f: nat): Pte {
    Pte(f, true, true, false)
  }

  /** A user may read and write through the entry. */
  predicate Plain(e: Pte) {
    e.w && e.u && !e.cow
  }

  /** allocuvm from page `a` on; on failure it gives back everything from `lo` on. */
  function AllocUvm(m: Mem, p: nat, a: nat, hi: nat, lo: nat): Outcome
    requires Inv(m) && hi <= LIMIT
    decreases hi - a, |m.free|
  {
    if a >= hi then Outcome(m, true)
    else if m.free == [] then Outcome(DeallocUvm(m, p, lo, hi), false)
    else
      var f := m.free[0];
      var r := TakeZero(m, p, a);
      TakeZeroSame(m, p, a);
      if r.ok then
        LinkInv(r.m, User(p, a), Fresh(f));
        AllocUvm(Link(r.m, User(p, a), Fresh(f)), p, a + 1, hi, lo)
      else
        DeallocUvmInHand(r.m, p, lo, hi, f);
        Outcome(Kfree(DeallocUvm(r.m, p, lo, hi), f), false)
  }

  lemma {:induction false} DeallocUvmInHand(m: Mem, p: nat, lo: nat, hi: nat, f: nat)
    requires Inv(m) && InHand(m, f)
    ensures InHand(DeallocUvm(m, p, lo, hi), f) && DeallocUvm(m, p, lo, hi).frames[f] == m.frames[f]
    decreases hi - lo
  {
    if lo < hi {
      var k := User(p, lo);
      DropInv(m, k);
      if k in m.links { assert k in Refs(m, m.links[k].frame); }
      assert Refs(Drop(m, k), f) == {};
      DeallocUvmInHand(Drop(m, k), p, lo + 1, hi, f);
    }
  }

  /** Keys that growing process `p` over the pages [lo, hi) may touch. */
  predicate GrowKey(k: Key, p: nat, lo: nat, hi: nat) {
    InRange(k, p, lo, hi) || (k.Table? && k.p == p)
  }

  /** Growth added zero pages from `a` on, or on failure unmapped everything from `lo` on. */
  ghost predicate Grown(m: Mem, r: Outcome, p: nat, a: nat, hi: nat, lo: nat) {
    && Inv(r.m) && (forall k :: !GrowKey(k, p, lo, hi) ==> Same(m, r.m, k))
    && if r.ok then
         && (forall pg: nat :: lo <= pg < a ==> Same(m, r.m, User(p, pg)))
         && (forall pg: nat :: a <= pg < hi ==>
               User(p, pg) in r.m.links && PageAt(r.m, User(p, pg)) == Filled(0) && Plain(r.m.links[User(p, pg)]))
       else
         forall pg: nat :: lo <= pg < hi ==> User(p, pg) !in r.m.links
  }

  lemma {:induction false} AllocUvmSame(m: Mem, p: nat, a: nat, hi: nat, lo: nat)
    requires Inv(m) && lo <= a && hi <= LIMIT
    requires forall pg: nat :: a <= pg < hi ==> User(p, pg) !in m.links
    ensures Grown(m, AllocUvm(m, p, a, hi, lo), p, a, hi, lo)
    decreases hi - a
  {
    var r := AllocUvm(m, p, a, hi, lo);
    if a < hi {
      if m.free == [] {
        DeallocUvmSame(m, p, lo, hi);
      } else {
        var f := m.free[0];
        var r1 := TakeZero(m, p, a);
        TakeZeroSame(m, p, a);
        if r1.ok {
          AllocUvmStep(m, p, a, hi, lo);
        } else {
          DeallocUvmSame(r1.m, p, lo, hi);
          DeallocUvmInHand(r1.m, p, lo, hi, f);
          var m2 := DeallocUvm(r1.m, p, lo, hi);
          KfreeInv(m2, f);
          forall k | !GrowKey(k, p, lo, hi) ensures Same(m, r.m, k) {
            assert Same(m, r1.m, k) && Same(r1.m, m2, k);
            KfreeSame(m2, f, k);
          }
        }
      }
    }
  }

  lemma KfreeSame(m: Mem, f: nat, k: Key)
    requires Inv(m) && InHand(m, f)
    ensures Same(m, Kfree(m, f), k)
  {
    if k in m.links { assert k in Refs(m, m.links[k].frame); }
  }

  lemma {:induction false} AllocUvmStep(m: Mem, p: nat, a: nat, hi: nat, lo: nat)
    requires Inv(m) && lo <= a < hi <= LIMIT && m.free != [] && TakeZero(m, p, a).ok
    requires forall pg: nat :: a <= pg < hi ==> User(p, pg) !in m.links
    ensures Grown(m, AllocUvm(m, p, a, hi, lo), p, a, hi, lo)
    decreases hi - a, 0
  {
    var r := AllocUvm(m, p, a, hi, lo);
    var m1 := TakeZero(m, p, a).m;
    TakeZeroSame(m, p, a);
    var m2 := Link(m1, User(p, a), Fresh(m.free[0]));
    LinkInv(m1, User(p, a), Fresh(m.free[0]));
    forall pg: nat | a + 1 <= pg < hi ensures User(p, pg) !in m2.links { assert Same(m, m1, User(p, pg)); }
    AllocUvmSame(m2, p, a + 1, hi, lo);
    forall k | !GrowKey(k, p, lo, hi) ensures Same(m, r.m, k) { assert Same(m, m1, k) && Same(m2, r.m, k); }
    if r.ok {
      assert Same(m2, r.m, User(p, a));
      forall pg: nat | lo <= pg < a ensures Same(m, r.m, User(p, pg)) {
        assert Same(m, m1, User(p, pg)) && Same(m2, r.m, User(p, pg));
      }
    }
  }

  /** The lazy allocation of the page fault handler: a zero page in the wmap range. */
  function LazyPage(m: Mem, p: nat, pg: nat): Outcome
    requires Inv(m) && pg < KERNPAGES
  {
    if m.free == [] then Outcome(m, false) else
    var f := m.free[0];
    var r := TakeZero(m, p, pg);
    TakeZeroSame(m, p, pg);
    if r.ok then Outcome(Link(r.m, User(p, pg), Fresh(f)), true) else Outcome(Kfree(r.m, f), false)
  }

  lemma LazyPageSame(m: Mem, p: nat, pg: nat)
    requires Inv(m) && LIMIT <= pg < KERNPAGES && User(p, pg) !in m.links
    ensures var r := LazyPage(m, p, pg);
            && Inv(r.m) && (forall k :: k != Table(p, pg / NPDENTRIES) && k != User(p, pg) ==> Same(m, r.m, k))
            && (if r.ok then && User(p, pg) in r.m.links && PageAt(r.m, User(p, pg)) == Filled(0)
                             && Plain(r.m.links[User(p, pg)])
                             && forall k :: k in m.links ==> m.links[k].frame != r.m.links[User(p, pg)].frame
                else User(p, pg) !in r.m.links)
  {
    if m.free != [] {
      var f := m.free[0];
      var r1 := TakeZero(m, p, pg);
      TakeZeroSame(m, p, pg);
      var r := LazyPage(m, p, pg);
      if r1.ok { LinkInv(r1.m, User(p, pg), Fresh(f)); } else { KfreeInv(r1.m, f); }
      forall k | k != Table(p, pg / NPDENTRIES) && k != User(p, pg) ensures Same(m, r.m, k) {
        assert Same(m, r1.m, k);
        if !r1.ok { KfreeSame(r1.m, f, k); }
      }
      if !r1.ok { assert Same(m, r1.m, User(p, pg)); }
      forall k | k in m.links ensures m.links[k].frame != f { assert LinkAt(m, k); }
    }
  }

  /** It succeeds if and only if there is a frame for the page, and one for its page table page if
      the process lacks that. */
  lemma LazyPageIff(m: Mem, p: nat, pg: nat)
    requires Inv(m) && pg < KERNPAGES
    ensures LazyPage(m, p, pg).ok <==> |m.free| >= if Table(p, pg / NPDENTRIES) in m.links then 1 else 2
  {
    if m.free != [] { TakeZeroSame(m, p, pg); }
  }

  // ---------------------------------------------------------------- freevm and wait

  function FreeTables(m: Mem, p: nat, i: nat): Mem
    requires Inv(m)
    decreases NPDENTRIES - i, |m.free|
  {
    if i >= NPDENTRIES then m else
    DropInv(m, Table(p, i));
    FreeTables(Drop(m, Table(p, i)), p, i + 1)
  }

  /** freevm: user pages, page table pages, page directory. */
  function FreeVm(m: Mem, p: nat): Mem
    requires Inv(m)
  {
    DeallocUvmSame(m, p, 0, KERNPAGES);
    FreeTablesSame(DeallocUvm(m, p, 0, KERNPAGES), p, 0);
    DropInv(FreeTables(DeallocUvm(m, p, 0, KERNPAGES), p, 0), Kern(p, PGDIR));
    Drop(FreeTables(DeallocUvm(m, p, 0, KERNPAGES), p, 0), Kern(p, PGDIR))
  }

  lemma {:induction false} FreeTablesSame(m: Mem, p: nat, i: nat)
    requires Inv(m)
    ensures var m' := FreeTables(m, p, i);
            && Inv(m') && (forall k: Key :: !(k.Table? && k.p == p && k.pdx >= i) ==> Same(m, m', k))
            && (forall pdx: nat :: i <= pdx < NPDENTRIES ==> Table(p, pdx) !in m'.links)
    decreases NPDENTRIES - i
  {
    if i < NPDENTRIES {
      var k := Table(p, i);
      DropSame(m, k);
      FreeTablesSame(Drop(m, k), p, i + 1);
      var m' := FreeTables(m, p, i);
      forall k': Key | !(k'.Table? && k'.p == p && k'.pdx >= i) ensures Same(m, m', k') {
        assert Same(m, Drop(m, k), k') && Same(Drop(m, k), m', k');
      }
      assert Same(Drop(m, k), m', k);
    }
  }

  /** What wait does to the memory of a zombie: kfree its stack, then freevm. */
  function Reap(m: Mem, p: nat): Mem
    requires Inv(m)
  {
    DropInv(m, Kern(p, KSTACK));
    FreeVm(Drop(m, Kern(p, KSTACK)), p)
  }

  lemma FreeVmSame(m: Mem, p: nat)
    requires Inv(m)
    ensures Inv(FreeVm(m, p)) && (forall k: Key :: k.p != p || k == Kern(p, KSTACK) ==> Same(m, FreeVm(m, p), k))
    ensures forall k :: k in FreeVm(m, p).links && k.p == p ==> k == Kern(p, KSTACK)
  {
    var m1 := DeallocUvm(m, p, 0, KERNPAGES);
    DeallocUvmSame(m, p, 0, KERNPAGES);
    var m2 := FreeTables(m1, p, 0);
    FreeTablesSame(m1, p, 0);
    DropSame(m2, Kern(p, PGDIR));
    var m3 := Drop(m2, Kern(p, PGDIR));
    forall k: Key | k.p != p || k == Kern(p, KSTACK) ensures Same(m, m3, k) {
      assert Same(m, m1, k) && Same(m1, m2, k) && Same(m2, m3, k);
    }
    forall k | k in m3.links && k.p == p ensures k == Kern(p, KSTACK) {
      assert LinkAt(m3, k);
      assert k != Kern(p, PGDIR) ==> Same(m2, m3, k);
      assert !k.Table? ==> Same(m1, m2, k);
    }
  }

  /** Reaping a process removes all of its links and leaves every other process alone. */
  lemma ReapSame(m: Mem, p: nat)
    requires Inv(m)
    ensures Inv(Reap(m, p)) && (forall k: Key :: k.p != p ==> Same(m, Reap(m, p), k))
    ensures forall k :: k in Reap(m, p).links ==> k.p != p
  {
    DropSame(m, Kern(p, KSTACK));
    var m1 := Drop(m, Kern(p, KSTACK));
    FreeVmSame(m1, p);
    forall k: Key | k.p != p ensures Same(m, Reap(m, p), k) { assert Same(m, m1, k) && Same(m1, Reap(m, p), k); }
    assert Same(m1, Reap(m, p), Kern(p, KSTACK));
  }
}
