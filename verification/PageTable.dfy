/** Two-level page tables: walkpgdir, mappages and deallocuvm of vm.c implement a flat map from
    page numbers to entries.
 */
module PageTable {
  import opened Params

  const NPTENTRIES := 1024
  const KERNBASE := 0x8000_0000
  const NPAGES := NPTENTRIES * NPTENTRIES

  datatype Pte = Absent | Present(pa: int, perm: int)

  /** A page directory and the page table pages it points to, by frame; 0 is an absent entry.  `slot`
      tells which directory entry a page table page belongs to. */
  datatype Dir = Dir(entries: seq<int>, tables: map<int, seq<Pte>>, slot: map<int, nat>)

  function Pdx(va: nat): nat {
    va / 0x40_0000 % NPTENTRIES
  }

  function Ptx(va: nat): nat {
    va / PGSIZE % NPTENTRIES
  }

  lemma Indices(va: nat)
    requires va < 0x1_0000_0000
    ensures va / PGSIZE < NPAGES && Pdx(va) == va / PGSIZE / NPTENTRIES && Ptx(va) == va / PGSIZE % NPTENTRIES
  {
  }

  /** Entries point to page table pages of their own. */
  predicate EntryAt(d: Dir, i: nat) {
    i < |d.entries| && d.entries[i] != 0 ==>
      var f := d.entries[i];
      f in d.tables && |d.tables[f]| == NPTENTRIES && f in d.slot && d.slot[f] == i
  }

  ghost predicate Wf(d: Dir) {
    |d.entries| == NPTENTRIES && forall i: nat :: EntryAt(d, i)
  }

  /** The flat view: the entry for page `v`. */
  ghost function Lookup(d: Dir, v: nat): Pte
    requires Wf(d) && v < NPAGES
  {
    var f := d.entries[v / NPTENTRIES];
    assert EntryAt(d, v / NPTENTRIES);
    if f == 0 then Absent else d.tables[f][v % NPTENTRIES]
  }

  ghost predicate SameFlat(d: Dir, d': Dir)
    requires Wf(d) && Wf(d')
  {
    forall v: nat :: v < NPAGES ==> Lookup(d', v) == Lookup(d, v)
  }

  /** walkpgdir makes page table page `f` for directory entry `i`. */
  function AddTable(d: Dir, i: nat, f: int): Dir
    requires i < |d.entries|
  {
    Dir(d.entries[i := f], d.tables[f := seq(NPTENTRIES, _ => Absent)], d.slot[f := i])
  }

  lemma AddTableFlat(d: Dir, i: nat, f: int)
    requires Wf(d) && i < NPTENTRIES && d.entries[i] == 0 && f != 0 && f !in d.slot
    ensures Wf(AddTable(d, i, f)) && SameFlat(d, AddTable(d, i, f))
  {
    var d' := AddTable(d, i, f);
    forall j: nat ensures EntryAt(d', j) { assert EntryAt(d, j); }
    forall v: nat | v < NPAGES ensures Lookup(d', v) == Lookup(d, v) {
      assert EntryAt(d, v / NPTENTRIES);
    }
  }

  /** A store to the entry for page `v`. */
  function Set(d: Dir, v: nat, pte: Pte): Dir
    requires v / NPTENTRIES < |d.entries|
    requires var f := d.entries[v / NPTENTRIES]; f in d.tables && |d.tables[f]| == NPTENTRIES
  {
    var f := d.entries[v / NPTENTRIES];
    d.(tables := d.tables[f := d.tables[f][v % NPTENTRIES := pte]])
  }

  lemma SetFlat(d: Dir, v: nat, pte: Pte)
    requires Wf(d) && v < NPAGES && d.entries[v / NPTENTRIES] != 0
    ensures EntryAt(d, v / NPTENTRIES)
    ensures Wf(Set(d, v, pte))
    ensures forall u: nat :: u < NPAGES ==> Lookup(Set(d, v, pte), u) == if u == v then pte else Lookup(d, u)
  {
    assert EntryAt(d, v / NPTENTRIES);
    var d' := Set(d, v, pte);
    forall j: nat ensures EntryAt(d', j) { assert EntryAt(d, j); }
    forall u: nat | u < NPAGES ensures Lookup(d', u) == if u == v then pte else Lookup(d, u) {
      assert EntryAt(d, u / NPTENTRIES);
    }
  }

  /** `n` pages from page `v` on are mapped to consecutive frames, and nothing else changed. */
  ghost predicate Mapped(d: Dir, d': Dir, v: nat, n: nat, pa: int, perm: int)
    requires Wf(d) && Wf(d')
  {
    forall u: nat :: u < NPAGES ==>
      Lookup(d', u) == if v <= u < v + n then Present(pa + (u - v) * PGSIZE, perm) else Lookup(d, u)
  }

  /** Pages lo..hi are unmapped, and nothing else changed. */
  ghost predicate Unmapped(d: Dir, d': Dir, lo: nat, hi: nat)
    requires Wf(d) && Wf(d')
  {
    forall u: nat :: u < NPAGES ==> Lookup(d', u) == if lo <= u < hi then Absent else Lookup(d, u)
  }

  /** The frames behind pages lo..hi, in order: what unmapping them page by page would free. */
  ghost function Frames(d: Dir, lo: nat, hi: nat): seq<int>
    requires Wf(d) && hi <= NPAGES
    decreases hi, |d.entries|
  {
    if hi <= lo then [] else
    var pte := Lookup(d, hi - 1);
    Frames(d, lo, hi - 1) + if pte.Present? then [pte.pa] else []
  }

  lemma {:induction false} NoFrames(d: Dir, lo: nat, mid: nat, hi: nat)
    requires Wf(d) && lo <= mid <= hi <= NPAGES && forall v: nat :: mid <= v < hi ==> Lookup(d, v) == Absent
    ensures Frames(d, lo, hi) == Frames(d, lo, mid)
    decreases hi
  {
    if mid < hi { NoFrames(d, lo, mid, hi - 1); }
  }

  /** Pages lo..v have been unmapped on the way to `hi`, and `freed` are their frames; the way may
      overshoot `hi` over pages that were absent. */
  ghost predicate Cleared(d: Dir, d': Dir, lo: nat, v: nat, hi: nat, freed: seq<int>)
    requires Wf(d) && Wf(d')
  {
    && lo <= v <= NPAGES && lo <= hi <= NPAGES && Unmapped(d, d', lo, v) && freed == Frames(d, lo, Min(v, hi))
    && forall u: nat :: hi <= u < v ==> Lookup(d, u) == Absent
  }

  lemma ClearedOn(d: Dir, d1: Dir, d2: Dir, lo: nat, v: nat, w: nat, hi: nat, freed: seq<int>)
    requires Wf(d) && Wf(d1) && Wf(d2) && Cleared(d, d1, lo, v, hi, freed) && v < hi && v < w <= NPAGES
    requires Unmapped(d1, d2, v, w) && forall u: nat :: v < u < w ==> Lookup(d1, u) == Absent
    ensures Lookup(d1, v) == Lookup(d, v)
    ensures Cleared(d, d2, lo, w, hi, freed + if Lookup(d, v).Present? then [Lookup(d, v).pa] else [])
  {
    forall u: nat | v < u < w ensures Lookup(d, u) == Absent { assert Lookup(d1, u) == Lookup(d, u); }
    NoFrames(d, lo, v + 1, Min(w, hi));
  }

  lemma ClearedAll(d: Dir, d': Dir, lo: nat, v: nat, hi: nat, freed: seq<int>)
    requires Wf(d) && Wf(d') && Cleared(d, d', lo, v, hi, freed) && hi <= v
    ensures Unmapped(d, d', lo, hi) && freed == Frames(d, lo, hi)
  {
  }

  function RoundUp(sz: nat): nat {
    (sz + PGSIZE - 1) / PGSIZE * PGSIZE
  }

  function Min(x: nat, y: nat): nat {
    if x < y then x else y
  }

  /** Free frames are distinct and not page table pages. */
  ghost predicate FreeAt(free: seq<int>, slot: map<int, nat>, i: nat) {
    i < |free| ==> free[i] != 0 && free[i] !in slot && forall j: nat :: j < i ==> free[j] != free[i]
  }

  lemma TakeFree(free: seq<int>, slot: map<int, nat>, d: nat, i: nat)
    requires free != [] && FreeAt(free, slot, i + 1)
    ensures FreeAt(free[1..], slot[free[0] := d], i)
  {
    var rest := free[1..];
    forall j: nat | j < i && i < |rest| ensures rest[j] != rest[i] { assert free[j + 1] != free[i + 1]; }
  }

  /** A page directory of one process, the free frames that kalloc hands out, and the frames given
      to kfree. */
  class Space {
    var entries: seq<int>
    var tables: map<int, seq<Pte>>
    var free: seq<int>
    var released: seq<int>
    ghost var slot: map<int, nat>

    ghost function D(): Dir
      reads this
    {
      Dir(entries, tables, slot)
    }

    ghost predicate Valid()
      reads this
    {
      Wf(D()) && forall i: nat :: FreeAt(free, slot, i)
    }

    /** walkpgdir: the table page and index for `va`, or 0 if there is none and none can be made.
        The flat map stays as it is. */
    method Walkpgdir(va: nat, alloc: bool) returns (f: int, x: nat)
      requires Valid() && va < 0x1_0000_0000
      modifies this`entries, this`tables, this`free, this`slot
      ensures Valid() && SameFlat(old(D()), D())
      ensures f != 0 ==> entries[va / PGSIZE / NPTENTRIES] == f && f in tables && x == va / PGSIZE % NPTENTRIES
      ensures f == 0 ==> D() == old(D()) && entries[va / PGSIZE / NPTENTRIES] == 0 && (alloc ==> free == [])
      ensures !alloc ==> D() == old(D()) && free == old(free)
    {
      Indices(va);
      var i := Pdx(va);
      x := Ptx(va);
      f := entries[i];
      assert EntryAt(D(), i);
      if f == 0 {
        if !alloc || free == [] {
          return 0, x;
        }
        assert FreeAt(free, slot, 0);
        f := free[0];
        AddTableFlat(D(), i, f);
        ghost var rest, slot' := free[1..], slot[f := i];
        forall j: nat ensures FreeAt(rest, slot', j) {
          assert FreeAt(free, slot, j + 1);
          TakeFree(free, slot, i, j);
        }
        tables := tables[f := seq(NPTENTRIES, _ => Absent)];
        entries := entries[i := f];
        slot := slot[f := i];
        free := free[1..];
        assert D() == AddTable(old(D()), i, f);
      }
    }
  
    /** A store through the pointer that walkpgdir returned for page `v`. */
    method SetPte(v: nat, f: int, x: nat, pte: Pte)
      requires Valid() && v < NPAGES && f == entries[v / NPTENTRIES] != 0 && x == v % NPTENTRIES && f in tables
      modifies this`tables
      ensures Valid() && forall u: nat :: u < NPAGES ==> Lookup(D(), u) == if u == v then pte else old(Lookup(D(), u))
    {
      SetFlat(D(), v, pte);
      tables := tables[f := tables[f][x := pte]];
      assert D() == Set(old(D()), v, pte);
    }

    /** mappages: the pages that overlap [va, va + size) map to consecutive frames, and no other
        entry changes; a failure, for lack of frames, leaves the pages before it mapped.  A page that
        is already mapped is the panic "remap". */
    method Mappages(va: nat, size: nat, pa: int, perm: int) returns (r: int, ghost n: nat)
      requires Valid() && size > 0 && va + size <= 0x1_0000_0000
      requires forall v: nat :: va / PGSIZE <= v <= (va + size - 1) / PGSIZE ==> Lookup(D(), v) == Absent
      modifies this`entries, this`tables, this`free, this`slot
      ensures Valid() && Mapped(old(D()), D(), va / PGSIZE, n, pa, perm)
      ensures if r == 0 then va / PGSIZE + n == (va + size - 1) / PGSIZE + 1
              else r == -1 && free == [] && va / PGSIZE + n <= (va + size - 1) / PGSIZE
    {
      ghost var d := D();
      var a := va / PGSIZE * PGSIZE;
      var last := (va + size - 1) / PGSIZE * PGSIZE;
      var p := pa;
      n := 0;
      while true
        invariant Valid() && a % PGSIZE == 0 && va / PGSIZE + n == a / PGSIZE && a <= last && p == pa + n * PGSIZE
        invariant Mapped(d, D(), va / PGSIZE, n, pa, perm)
        decreases last - a
      {
        ghost var d1 := D();
        var f, x := Walkpgdir(a, true);
        if f == 0 {
          return -1, n;
        }
        ghost var d2 := D();
        SetPte(a / PGSIZE, f, x, Present(p, perm));
        n := n + 1;
        assert Mapped(d, D(), va / PGSIZE, n, pa, perm);
        if a == last {
          break;
        }
        a := a + PGSIZE;
        p := p + PGSIZE;
      }
      r := 0;
    }

    /** One turn of deallocuvm's loop at the page-aligned address `a`; the result is the address of
        the next turn, which lies beyond the whole page table page if that is absent. */
    method DeallocOne(a: nat) returns (next: nat)
      requires Valid() && a < KERNBASE && a % PGSIZE == 0
      requires Lookup(D(), a / PGSIZE).Present? ==> Lookup(D(), a / PGSIZE).pa != 0
      modifies this
      ensures Valid() && next % PGSIZE == 0 && a < next <= 0x1_0000_0000
      ensures Unmapped(old(D()), D(), a / PGSIZE, next / PGSIZE)
      ensures forall v: nat :: a / PGSIZE < v < next / PGSIZE ==> old(Lookup(D(), v)) == Absent
      ensures var e := old(Lookup(D(), a / PGSIZE));
              released == old(released) + if e.Present? then [e.pa] else []
    {
      var a1 := a;
      Indices(a);
      var f, x := Walkpgdir(a, false);
      assert EntryAt(D(), Pdx(a));
      if f == 0 {
        a1 := (Pdx(a) + 1) * 0x40_0000 - PGSIZE;
      } else if tables[f][x].Present? {
        released := released + [tables[f][x].pa];
        SetPte(a / PGSIZE, f, x, Absent);
      }
      next := a1 + PGSIZE;
    }

    /** deallocuvm: exactly the pages above the new size and below the old one are unmapped, and
        their frames are freed, each once and in order, as a loop over every page would do. */
    method Deallocuvm(oldsz: nat, newsz: nat) returns (r: nat)
      requires Valid() && oldsz <= KERNBASE
      requires forall v: nat :: v < RoundUp(oldsz) / PGSIZE && Lookup(D(), v).Present? ==> Lookup(D(), v).pa != 0
      modifies this
      ensures Valid() && (newsz >= oldsz ==> r == oldsz && D() == old(D()) && released == old(released))
      ensures newsz < oldsz ==> r == newsz && Unmapped(old(D()), D(), RoundUp(newsz) / PGSIZE, RoundUp(oldsz) / PGSIZE)
      ensures newsz < oldsz ==>
                released == old(released) + Frames(old(D()), RoundUp(newsz) / PGSIZE, RoundUp(oldsz) / PGSIZE)
    {
      if newsz >= oldsz {
        return oldsz;
      }
      ghost var d, freed, lo, hi := D(), [], RoundUp(newsz) / PGSIZE, RoundUp(oldsz) / PGSIZE;
      var a := RoundUp(newsz);
      while a < oldsz
        invariant Valid() && a % PGSIZE == 0 && Cleared(d, D(), lo, a / PGSIZE, hi, freed)
        invariant released == old(released) + freed
      {
        ghost var d1, v := D(), a / PGSIZE;
        assert Lookup(d1, v) == Lookup(d, v);
        var next := DeallocOne(a);
        ClearedOn(d, d1, D(), lo, v, next / PGSIZE, hi, freed);
        freed := freed + if Lookup(d, v).Present? then [Lookup(d, v).pa] else [];
        a := next;
      }
      ClearedAll(d, D(), lo, a / PGSIZE, hi, freed);
      r := newsz;
    }
  }
}
