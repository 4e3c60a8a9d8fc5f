/** The wmap regions of a process: wmap, the lazy page fault and wunmap on its table of 16 slots,
    for anonymous mappings.  `present` are the mapped pages of the wmap range.
 */
module Regions {
  import opened Params

  const MAX_MMAPS := 16
  const LOW := 0x6000_0000
  const HIGH := 0x8000_0000
  const WORD := 0x1_0000_0000  // addresses are 32-bit

  datatype Slot = Slot(addr: nat, length: int, used: bool, loaded: int)

  /** Page `pg` holds bytes of the region. */
  predicate Covers(r: Slot, pg: nat) {
    r.addr / PGSIZE <= pg && pg * PGSIZE < r.addr + r.length
  }

  ghost function Loaded(present: set<nat>, r: Slot): set<nat> {
    set pg | pg in present && Covers(r, pg)
  }

  predicate InRange(r: Slot) {
    LOW <= r.addr && r.addr % PGSIZE == 0 && r.length > 0 && r.addr + r.length <= HIGH
  }

  /** A used slot lies in the wmap range and counts its present pages. */
  ghost predicate SlotAt(slots: seq<Slot>, present: set<nat>, i: nat) {
    i < |slots| ==> if slots[i].used then InRange(slots[i]) && slots[i].loaded == |Loaded(present, slots[i])|
                    else slots[i].loaded == 0
  }

  /** Used regions have no page in common. */
  predicate Apart(slots: seq<Slot>, i: nat, j: nat) {
    i < |slots| && j < |slots| && i != j && slots[i].used && slots[j].used ==>
      slots[i].addr + slots[i].length <= slots[j].addr || slots[j].addr + slots[j].length <= slots[i].addr
  }

  /** Every present page lies in a region. */
  ghost predicate PageAt(slots: seq<Slot>, present: set<nat>, pg: nat) {
    pg in present ==> exists i: nat :: i < |slots| && slots[i].used && Covers(slots[i], pg)
  }

  function UsedCount(slots: seq<Slot>): nat {
    if slots == [] then 0 else UsedCount(slots[..|slots| - 1]) + if slots[|slots| - 1].used then 1 else 0
  }

  ghost predicate Inv(slots: seq<Slot>, total: int, present: set<nat>) {
    && |slots| == MAX_MMAPS && total == UsedCount(slots)
    && (forall i: nat :: SlotAt(slots, present, i))
    && (forall i: nat, j: nat :: Apart(slots, i, j))
    && (forall pg: nat :: PageAt(slots, present, pg))
  }

  /** Apart at byte granularity is apart at page granularity, since regions start at page boundaries. */
  lemma NoCommonPage(slots: seq<Slot>, total: int, present: set<nat>, i: nat, j: nat, pg: nat)
    requires Inv(slots, total, present) && i < |slots| && j < |slots| && slots[i].used && slots[j].used
    requires Covers(slots[i], pg) && Covers(slots[j], pg)
    ensures i == j
  {
    assert SlotAt(slots, present, i) && SlotAt(slots, present, j) && Apart(slots, i, j);
  }

  lemma {:induction false} UsedCountUpdate(slots: seq<Slot>, i: nat, r: Slot)
    requires i < |slots|
    ensures UsedCount(slots[i := r]) == UsedCount(slots) - (if slots[i].used then 1 else 0) + (if r.used then 1 else 0)
  {
    var n := |slots| - 1;
    if i == n {
      assert slots[i := r][..n] == slots[..n];
    } else {
      assert slots[i := r][..n] == slots[..n][i := r];
      UsedCountUpdate(slots[..n], i, r);
    }
  }

  // ---------------------------------------------------------------- the three operations on values

  /** The tests of wmap and check_fixed, with 32-bit sums. */
  ghost predicate Accepts(slots: seq<Slot>, addr: nat, length: int) {
    && length > 0 && addr % PGSIZE == 0 && addr != 0 && LOW <= addr && (addr + length) % WORD <= HIGH
    && forall i: nat :: i < |slots| && slots[i].used ==> !Overlaps(slots[i], addr, length)
  }

  predicate Overlaps(r: Slot, addr: nat, length: int) {
    addr < (r.addr + r.length) % WORD && (addr + length) % WORD > r.addr
  }

  /** An accepted request lies in the wmap range if and only if its end does not wrap around. */
  lemma AcceptedInRange(slots: seq<Slot>, addr: nat, length: int)
    requires Accepts(slots, addr, length) && addr < WORD && length < 0x8000_0000
    ensures InRange(Slot(addr, length, true, 0)) <==> addr + length < WORD
  {
  }

  /** A page of a request is a page of a region in use. */
  ghost predicate SharesPage(r: Slot, addr: nat, length: int) {
    exists pg: nat :: Covers(r, pg) && Covers(Slot(addr, length, true, 0), pg)
  }

  /** Of the requests whose end does not wrap around, exactly those are accepted that lie in the wmap
      range and share no page with a region in use. */
  lemma AcceptedIff(slots: seq<Slot>, total: int, present: set<nat>, addr: nat, length: int)
    requires Inv(slots, total, present) && addr + length < WORD
    ensures Accepts(slots, addr, length) <==>
            && InRange(Slot(addr, length, true, 0))
            && forall i: nat :: i < |slots| && slots[i].used ==> !SharesPage(slots[i], addr, length)
  {
    if InRange(Slot(addr, length, true, 0)) {
      forall i: nat | i < |slots| && slots[i].used
        ensures Overlaps(slots[i], addr, length) <==> SharesPage(slots[i], addr, length)
      {
        assert SlotAt(slots, present, i);
        OverlapIsShared(slots[i], addr, length);
      }
    }
  }

  lemma OverlapIsShared(r: Slot, addr: nat, length: int)
    requires InRange(r) && InRange(Slot(addr, length, true, 0))
    ensures Overlaps(r, addr, length) <==> SharesPage(r, addr, length)
  {
    if Overlaps(r, addr, length) {
      var pg := (if addr < r.addr then r.addr else addr) / PGSIZE;
      assert Covers(r, pg) && Covers(Slot(addr, length, true, 0), pg);
    }
  }

  /** A request that wraps is accepted above the range: nothing else in the code stops it. */
  lemma WrappedRequest(slots: seq<Slot>)
    requires forall i: nat :: i < |slots| ==> !slots[i].used
    ensures Accepts(slots, 0xFFFF_F000, 0x2000) && !InRange(Slot(0xFFFF_F000, 0x2000, true, 0))
  {
  }

  lemma WmapInv(slots: seq<Slot>, total: int, present: set<nat>, i: nat, addr: nat, length: int)
    requires Inv(slots, total, present) && Accepts(slots, addr, length) && addr + length < WORD
    requires i < |slots| && !slots[i].used
    ensures Inv(slots[i := Slot(addr, length, true, slots[i].loaded)], total + 1, present)
  {
    var r := Slot(addr, length, true, slots[i].loaded);
    var slots' := slots[i := r];
    UsedCountUpdate(slots, i, r);
    assert SlotAt(slots, present, i);
    forall pg | pg in present ensures !Covers(r, pg) { NewRegionEmpty(slots, total, present, addr, length, pg); }
    assert Loaded(present, r) == {};
    forall k: nat ensures SlotAt(slots', present, k) { assert SlotAt(slots, present, k); }
    forall j: nat, k: nat ensures Apart(slots', j, k) {
      assert Apart(slots, j, k) && SlotAt(slots, present, j) && SlotAt(slots, present, k);
    }
    forall pg: nat ensures PageAt(slots', present, pg) {
      assert PageAt(slots, present, pg);
      if pg in present {
        var k: nat :| k < |slots| && slots[k].used && Covers(slots[k], pg);
        assert slots'[k] == slots[k];
      }
    }
  }

  /** A new region has no present page yet. */
  lemma NewRegionEmpty(slots: seq<Slot>, total: int, present: set<nat>, addr: nat, length: int, pg: nat)
    requires Inv(slots, total, present) && Accepts(slots, addr, length) && addr + length < WORD && pg in present
    ensures !Covers(Slot(addr, length, true, 0), pg)
  {
    assert PageAt(slots, present, pg);
    var k: nat :| k < |slots| && slots[k].used && Covers(slots[k], pg);
    assert SlotAt(slots, present, k) && !Overlaps(slots[k], addr, length);
  }

  lemma FaultInv(slots: seq<Slot>, total: int, present: set<nat>, i: nat, pg: nat)
    requires Inv(slots, total, present) && i < |slots| && slots[i].used && Covers(slots[i], pg) && pg !in present
    ensures Inv(slots[i := slots[i].(loaded := slots[i].loaded + 1)], total, present + {pg})
  {
    var r := slots[i].(loaded := slots[i].loaded + 1);
    var slots', present' := slots[i := r], present + {pg};
    UsedCountUpdate(slots, i, r);
    assert Loaded(present', r) == Loaded(present, slots[i]) + {pg};
    forall k: nat ensures SlotAt(slots', present', k) {
      assert SlotAt(slots, present, k);
      if k != i && k < |slots| && slots[k].used {
        if Covers(slots[k], pg) { NoCommonPage(slots, total, present, i, k, pg); }
        assert Loaded(present', slots[k]) == Loaded(present, slots[k]);
      }
    }
    forall j: nat, k: nat ensures Apart(slots', j, k) { assert Apart(slots, j, k); }
    forall p: nat ensures PageAt(slots', present', p) {
      assert PageAt(slots, present, p);
      if p in present {
        var k: nat :| k < |slots| && slots[k].used && Covers(slots[k], p);
        assert slots'[k].used && Covers(slots'[k], p);
      } else if p == pg {
        assert slots'[i].used && Covers(slots'[i], p);
      }
    }
  }

  lemma WunmapInv(slots: seq<Slot>, total: int, present: set<nat>, i: nat)
    requires Inv(slots, total, present) && i < |slots| && slots[i].used
    ensures Inv(slots[i := slots[i].(used := false, loaded := 0)], total - 1, present - Loaded(present, slots[i]))
  {
    var r := slots[i].(used := false, loaded := 0);
    var slots', present' := slots[i := r], present - Loaded(present, slots[i]);
    UsedCountUpdate(slots, i, r);
    forall k: nat ensures SlotAt(slots', present', k) {
      assert SlotAt(slots, present, k);
      if k != i && k < |slots| && slots[k].used {
        forall pg | pg in Loaded(present, slots[k]) ensures pg in present' {
          if Covers(slots[i], pg) { NoCommonPage(slots, total, present, i, k, pg); }
        }
        assert Loaded(present', slots[k]) == Loaded(present, slots[k]);
      }
    }
    forall j: nat, k: nat ensures Apart(slots', j, k) { assert Apart(slots, j, k); }
    forall p: nat ensures PageAt(slots', present', p) {
      assert PageAt(slots, present, p);
      if p in present' {
        var k: nat :| k < |slots| && slots[k].used && Covers(slots[k], p);
        assert k != i;
        assert slots'[k].used && Covers(slots'[k], p);
      }
    }
  }

  lemma {:induction false} SlotLeft(slots: seq<Slot>)
    ensures UsedCount(slots) <= |slots|
    ensures UsedCount(slots) == |slots| <==> forall i: nat :: i < |slots| ==> slots[i].used
  {
    if slots != [] {
      var n := |slots| - 1;
      SlotLeft(slots[..n]);
      if forall i: nat :: i < |slots| ==> slots[i].used {
        forall i: nat | i < n ensures slots[..n][i].used { assert slots[i].used; }
      } else if UsedCount(slots[..n]) == n {
        forall i: nat | i < n ensures slots[i].used { assert slots[..n][i].used; }
      }
    }
  }

  // ---------------------------------------------------------------- the code

  const FAILED := -1

  /** The region in use holds the address. */
  predicate Holds(r: Slot, addr: nat) {
    r.used && r.addr <= addr < r.addr + r.length
  }

  ghost predicate Added(slots: seq<Slot>, slots': seq<Slot>, i: nat, addr: nat, length: int) {
    i < |slots| && !slots[i].used && slots' == slots[i := Slot(addr, length, true, 0)]
  }

  ghost predicate Removed(slots: seq<Slot>, slots': seq<Slot>, present: set<nat>, present': set<nat>, i: nat,
                          addr: nat) {
    && i < |slots| && Holds(slots[i], addr) && slots' == slots[i := slots[i].(used := false, loaded := 0)]
    && present' == present - Loaded(present, slots[i])
  }

  /** One more page of the region that holds the address is loaded. */
  ghost predicate Counted(slots: seq<Slot>, slots': seq<Slot>, k: nat, addr: nat) {
    k < |slots| && Holds(slots[k], addr) && slots' == slots[k := slots[k].(loaded := slots[k].loaded + 1)]
  }

  class Process {
    var slots: seq<Slot>
    var total: int          // total_mmaps
    var present: set<nat>   // pages of the wmap range with an entry in the page table

    constructor ()
      ensures Valid() && total == 0 && present == {}
    {
      slots := seq(MAX_MMAPS, _ => Slot(0, 0, false, 0));
      total, present := 0, {};
      new;
      SlotLeft(slots);
      NoneUsed(slots);
    }

    ghost predicate Valid()
      reads this
    {
      Inv(slots, total, present)
    }

    /** check_fixed, after wmap's own tests. */
    method CheckFixed(addr: nat, length: int) returns (ok: bool)
      requires length > 0 && addr % PGSIZE == 0
      ensures ok <==> Accepts(slots, addr, length)
    {
      if addr == 0 || addr % PGSIZE != 0 {
        return false;
      }
      if addr < LOW || (addr + length) % WORD > HIGH {
        return false;
      }
      var i := 0;
      while i < |slots|
        invariant 0 <= i <= |slots| && forall j: nat :: j < i && slots[j].used ==> !Overlaps(slots[j], addr, length)
      {
        if slots[i].used {
          if addr < (slots[i].addr + slots[i].length) % WORD && (addr + length) % WORD > slots[i].addr {
            return false;
          }
        }
        i := i + 1;
      }
      return true;
    }

    /** wmap of an anonymous region: it succeeds exactly if the flags and the place are acceptable
        and a slot is free, and then that region is added, without pages.  The table stays valid
        exactly if the end of an accepted request does not wrap around. */
    method Wmap(addr: nat, length: int, isShared: bool, isFixed: bool) returns (r: int)
      requires Valid() && addr < WORD && length < 0x8000_0000
      modifies this`slots, this`total
      ensures Valid() <==> r == FAILED || addr + length < WORD
      ensures r != FAILED <==> isShared && isFixed && Accepts(old(slots), addr, length) && old(total) < MAX_MMAPS
      ensures r == FAILED ==> slots == old(slots) && total == old(total)
      ensures r != FAILED ==> r == addr && total == old(total) + 1
      ensures r != FAILED ==> exists i: nat :: Added(old(slots), slots, i, addr, length)
    {
      SlotLeft(slots);
      if length <= 0 || addr % PGSIZE != 0 {
        return FAILED;
      }
      if !isShared || !isFixed {
        return FAILED;
      }
      var ok := CheckFixed(addr, length);
      if !ok {
        return FAILED;
      }
      var i := 0;
      while i < MAX_MMAPS
        invariant 0 <= i <= MAX_MMAPS && slots == old(slots) && total == old(total)
        invariant forall j: nat :: j < i ==> slots[j].used
      {
        if !slots[i].used {
          assert SlotAt(slots, present, i);
          AcceptedInRange(slots, addr, length);
          if addr + length < WORD { WmapInv(slots, total, present, i, addr, length); }
          slots := slots[i := Slot(addr, length, true, slots[i].loaded)];
          total := total + 1;
          assert Added(old(slots), slots, i, addr, length);
          if addr + length >= WORD { assert !SlotAt(slots, present, i); }
          return addr;
        }
        i := i + 1;
      }
      return FAILED;
    }

    /** The slot of the region that holds `addr`, or -1. */
    method Find(addr: nat) returns (k: int)
      requires Valid()
      ensures if k == -1 then forall i: nat :: i < |slots| ==> !Holds(slots[i], addr)
              else 0 <= k < |slots| && Holds(slots[k], addr)
    {
      var i := 0;
      while i < MAX_MMAPS
        invariant 0 <= i <= MAX_MMAPS
        invariant forall j: nat :: j < i ==> !Holds(slots[j], addr)
      {
        if slots[i].used && addr >= slots[i].addr && addr < slots[i].addr + slots[i].length {
          return i;
        }
        i := i + 1;
      }
      return -1;
    }

    /** The lazy page fault on an absent page; `mem` tells whether kalloc and mappages succeed.  A
        fault outside all regions, or without memory, kills the process. */
    method Fault(addr: nat, mem: bool) returns (killed: bool)
      requires Valid() && addr / PGSIZE !in present
      modifies this`slots, this`present
      ensures Valid()
      ensures killed ==> slots == old(slots) && present == old(present)
      ensures !killed <==> mem && exists i: nat :: i < MAX_MMAPS && Holds(old(slots)[i], addr)
      ensures !killed ==> present == old(present) + {addr / PGSIZE}
      ensures !killed ==> exists k: nat :: Counted(old(slots), slots, k, addr)
    {
      var k := Find(addr);
      if k == -1 || !mem {
        return true;
      }
      FaultInv(slots, total, present, k, addr / PGSIZE);
      present := present + {addr / PGSIZE};
      slots := slots[k := slots[k].(loaded := slots[k].loaded + 1)];
      assert Counted(old(slots), slots, k, addr);
      return false;
    }

    /** wunmap: the region that holds `addr` goes, with exactly its pages. */
    method Wunmap(addr: nat) returns (r: int)
      requires Valid()
      modifies this
      ensures Valid()
      ensures r == FAILED ==> slots == old(slots) && total == old(total) && present == old(present)
      ensures r == FAILED <==> forall i: nat :: i < MAX_MMAPS ==> !Holds(old(slots)[i], addr)
      ensures r != FAILED ==> r == 0 && total == old(total) - 1
      ensures r != FAILED ==> exists i: nat :: Removed(old(slots), slots, old(present), present, i, addr)
    {
      var k := Find(addr);
      if k == -1 {
        return FAILED;
      }
      var r0 := slots[k];
      WunmapInv(slots, total, present, k);
      assert SlotAt(slots, present, k);
      var page := r0.addr / PGSIZE * PGSIZE;
      while page < r0.addr + r0.length
        invariant page % PGSIZE == 0 && page >= r0.addr && slots == old(slots) && total == old(total)
        invariant forall pg: nat :: pg in present <==> pg in old(present) && !(Covers(r0, pg) && pg * PGSIZE < page)
      {
        present := present - {page / PGSIZE};
        page := page + PGSIZE;
      }
      assert present == old(present) - Loaded(old(present), r0);
      slots := slots[k := r0.(used := false, loaded := 0)];
      total := total - 1;
      assert Removed(old(slots), slots, old(present), present, k, addr);
      return 0;
    }
  }

  lemma {:induction false} NoneUsed(slots: seq<Slot>)
    requires forall i: nat :: i < |slots| ==> !slots[i].used
    ensures UsedCount(slots) == 0
  {
    if slots != [] { NoneUsed(slots[..|slots| - 1]); }
  }
}
