/** The code of umalloc.c.  `hdr` is the memory, `freep` the pointer into the free list, 0 before
    the first allocation; the ghost fields give the allocator's view of them.
 */
module UmallocCode {
  import opened Umalloc

  /** The units malloc needs for `nbytes`: the header and the payload, rounded up. */
  function NUnits(nbytes: nat): (n: int)
    ensures n > 0 && 8 * (n - 2) < nbytes <= 8 * (n - 1)
  {
    (nbytes + 8 - 1) / 8 + 1
  }

  /** The units morecore asks sbrk for. */
  function CoreSize(nu: int): int {
    if nu < 4096 then 4096 else nu
  }

  lemma SameUntouched(h: Arena)
    requires Inv(h, 0, 0)
    ensures Untouched(h, h)
  {
    forall a | a in h.owner ensures a in h.hdr { assert UnitAt(h, a); }
  }

  /** A row of free units holds a shorter one. */
  lemma ShorterRowFits(h: Arena, a: int, n: int, nu: int)
    requires Inv(h, 0, 0) && 0 < nu <= n && Units(a, n) <= FreeUnits(h)
    ensures Fit(h, nu)
  {
    forall x | x in Units(a, nu) ensures x in FreeUnits(h) { assert Within(a, x, n) && x in Units(a, n); }
    RowFits(h, a, nu);
  }

  /** morecore has added new units, all free. */
  ghost predicate Grown(h: Arena, h': Arena, n: int, core: int) {
    && h'.used == h.used && Untouched(h, h')
    && h'.owner.Keys == h.owner.Keys + Units(core, CoreSize(n))
    && FreeUnits(h') == FreeUnits(h) + Units(core, CoreSize(n))
  }

  /** What malloc promises. */
  ghost predicate Allocated(h: Arena, h': Arena, n: int, ap: int, core: int) {
    var more := if !Fit(h, n) && core != -1 then Units(core, CoreSize(n)) else {};
    && Untouched(h, h') && h'.owner.Keys == h.owner.Keys + more
    && (ap == 0 <==> !Fit(h, n) && core == -1)
    && (if ap == 0 then h'.used == h.used && FreeUnits(h') == FreeUnits(h) else
          && ap - 1 !in h.used && h'.used == h.used[ap - 1 := n]
          && Units(ap - 1, n) <= FreeUnits(h) + more
          && FreeUnits(h') == FreeUnits(h) + more - Units(ap - 1, n))
  }

  /** The search from `freep`, node f, takes the upper end of block i, the first that is large enough,
      and leaves `freep` at the node before it. */
  ghost predicate NextFitAt(h: Arena, f: nat, i: nat, freep: int, freep': int, n: int, ap: int) {
    && f < |h.ring| && h.ring[f] == freep && Large(h, i, n) && PassedSmall(h, f, i, n)
    && freep' == h.ring[PrevIndex(h.ring, i)] && ap == h.ring[i] + h.hdr[h.ring[i]].size - n + 1
  }

  ghost predicate NextFit(h: Arena, freep: int, freep': int, n: int, ap: int) {
    exists f: nat, i: nat :: NextFitAt(h, f, i, freep, freep', n, ap)
  }

  /** The same in the heap that morecore has grown. */
  ghost predicate GrownFit(h: Arena, core: int, freep': int, n: int, ap: int) {
    exists h1: Arena, freep: int :: Grown(h, h1, n, core) && NextFit(h1, freep, freep', n, ap)
  }

  /** Which block malloc takes, if it takes one. */
  ghost predicate Chosen(h: Arena, freep: int, core: int, freep': int, n: int, ap: int) {
    ap != 0 ==> if Fit(h, n) then NextFit(h, freep, freep', n, ap) else GrownFit(h, core, freep', n, ap)
  }

  lemma StartChosen(h: Arena, h1: Arena, rover: int, core: int, rover': int, n: int, ap: int)
    requires h == h1 || (h.used == h1.used && h.owner == h1.owner == map[] && |h.ring| == 0 && |h1.ring| == 1)
    requires exists r: int :: Chosen(h1, r, core, rover', n, ap) && (h == h1 ==> r == rover)
    ensures Chosen(h, rover, core, rover', n, ap)
  {
    if ap != 0 && h != h1 {
      var g: Arena, r: int :| Grown(h1, g, n, core) && NextFit(g, r, rover', n, ap);
      assert Grown(h, g, n, core);
    }
  }

  lemma TakenIsChosen(h: Arena, h1: Arena, f: nat, i: nat, freep: int, rover: int, freep': int, n: int, ap: int,
                      core: int, grown: bool)
    requires Since(h, h1, n, core, grown) && NextFitAt(h1, f, i, rover, freep', n, ap) && (!grown ==> rover == freep)
    ensures Chosen(h, freep, core, freep', n, ap)
  {
    assert NextFit(h1, rover, freep', n, ap);
    if !grown { assert Fit(h, n); }
  }

  lemma TakenIsAllocated(h: Arena, h1: Arena, h2: Arena, n: int, q: int, core: int, grown: bool)
    requires Since(h, h1, n, core, grown) && Fit(h1, n)
    requires q >= 0 && q !in h1.used && h2.used == h1.used[q := n] && h2.owner.Keys == h1.owner.Keys
    requires Units(q, n) <= FreeUnits(h1) && FreeUnits(h2) == FreeUnits(h1) - Units(q, n) && Untouched(h1, h2)
    ensures Allocated(h, h2, n, q + 1, core)
  {
    if grown {
      forall a | a in h.owner && h.owner[a] in h.used && h.owner[a] in h2.used
        ensures Owned(h2.owner, a, h.owner[a]) && a in h.hdr && a in h2.hdr && h2.hdr[a] == h.hdr[a]
      {
        assert Owned(h1.owner, a, h.owner[a]);
        assert h1.owner[a] in h1.used;
      }
    }
  }

  /** The heap since malloc started: as it was, or grown because nothing fitted. */
  ghost predicate Since(h: Arena, h': Arena, n: int, core: int, grown: bool) {
    if grown then Fit(h', n) && core != -1 && !Fit(h, n) && Grown(h, h', n, core) else h' == h
  }

  class Heap {
    const base: int
    var hdr: map<int, Header>
    var freep: int
    ghost var ring: seq<int>
    ghost var used: map<int, int>
    ghost var owner: map<int, int>

    ghost function State(): Arena
      reads this
    {
      Arena(hdr, ring, used, owner)
    }

    ghost predicate Ready()
      reads this
    {
      0 < base <= freep && Inv(State(), 0, 0) && ring[0] == base && freep in ring
    }

    ghost predicate Valid()
      reads this
    {
      if freep == 0 then base > 0 && base in hdr && ring == [] && used == map[] && owner == map[] else Ready()
    }

    /** The allocator as the program starts: `base` is a header in its data segment. */
    constructor (addr: int)
      requires addr > 0
      ensures Valid() && base == addr && freep == 0 && used == map[] && owner == map[]
    {
      base, hdr, freep := addr, map[addr := Header(0, 0)], 0;
      ring, used, owner := [], map[], map[];
    }

    /** A program's store to the payload of a block it holds. */
    method UserStore(a: int, w: Header)
      requires Ready() && a in owner && owner[a] in used && a != owner[a]
      modifies this`hdr
      ensures Ready() && hdr == old(hdr)[a := w]
    {
      PayloadInv(State(), a, w);
      hdr := hdr[a := w];
    }

    /** free's search: the list node below `bp`. */
    method Below(bp: int, ghost t: nat) returns (p: int)
      requires Ready() && Fits(State(), t, bp) && bp !in ring
      ensures p == ring[t]
    {
      p := freep;
      ghost var i: nat :| i < |ring| && ring[i] == freep;
      SearchStops(State(), t, bp, i);
      while !(bp > p && bp < hdr[p].ptr)
        invariant i < |ring| && p == ring[i] && p in hdr
        invariant (bp > p && bp < hdr[p].ptr) || (p >= hdr[p].ptr && (bp > p || bp < hdr[p].ptr)) <==> i == t
        decreases Distance(|ring|, i, t)
      {
        if p >= hdr[p].ptr && (bp > p || bp < hdr[p].ptr) {
          break;
        }
        assert NodeAt(State(), 0, 0, i);
        p := hdr[p].ptr;
        i := NextIndex(ring, i);
        SearchStops(State(), t, bp, i);
      }
    }

    /** The two halves of free: merge with the block above or link to it, then with the one below. */
    method Join(p: int, bp: int)
      requires bp in hdr && p in hdr && hdr[p].ptr in hdr && p != bp && bp != hdr[p].ptr
      modifies this`hdr
      ensures hdr == Joined(old(hdr), p, bp)
    {
      if bp + hdr[bp].size == hdr[p].ptr {
        hdr := hdr[bp := Header(hdr[bp].ptr, hdr[bp].size + hdr[hdr[p].ptr].size)];
        hdr := hdr[bp := Header(hdr[hdr[p].ptr].ptr, hdr[bp].size)];
      } else {
        hdr := hdr[bp := Header(hdr[p].ptr, hdr[bp].size)];
      }
      if p + hdr[p].size == bp {
        hdr := hdr[p := Header(hdr[p].ptr, hdr[p].size + hdr[bp].size)];
        hdr := hdr[p := Header(hdr[bp].ptr, hdr[p].size)];
      } else {
        hdr := hdr[p := Header(bp, hdr[p].size)];
      }
    }

    /** free of the block with header `bp`; its units become free, no other block in use changes. */
    method Free(bp: int)
      requires Ready() && bp in used
      modifies this
      ensures Ready() && used == old(used) - {bp} && owner.Keys == old(owner).Keys
      ensures FreeUnits(State()) == old(FreeUnits(State())) + Units(bp, old(used)[bp])
      ensures Untouched(old(State()), State())
      ensures exists t: nat :: Fits(old(State()), t, bp) && freep == old(ring)[t]
    {
      ghost var h := State();
      assert UsedAt(h, bp);
      ghost var t := Place(h, bp, |ring|);
      FreedHeaders(h, t, bp);
      FreedInv(h, t, bp);
      var p := Below(bp, t);
      Join(p, bp);
      freep := p;
      if t > 0 { Sorted(h, 0, 0, 0, t); }
      ring, used, owner := Freed(h, t, bp).ring, Freed(h, t, bp).used, Freed(h, t, bp).owner;
      assert State() == Freed(h, t, bp);
    }
  
    /** morecore: `core` is sbrk's answer, the start of at least `nu` new units or -1. */
    method Morecore(nu: int, core: int) returns (r: int)
      requires Ready() && nu > 0 && (core == -1 || Unmapped(owner, base, core, CoreSize(nu)))
      modifies this
      ensures Ready() && used == old(used) && Untouched(old(State()), State())
      ensures core == -1 ==> r == 0 && State() == old(State())
      ensures core != -1 ==> r == freep > 0 && Fit(State(), nu)
      ensures core != -1 ==> owner.Keys == old(owner).Keys + Units(core, CoreSize(nu))
      ensures core != -1 ==> FreeUnits(State()) == old(FreeUnits(State())) + Units(core, CoreSize(nu))
    {
      ghost var h := State();
      if core == -1 {
        SameUntouched(h);
        return 0;
      }
      var n := nu;
      if n < 4096 {
        n := 4096;
      }
      AddBlock(core, n);
      ghost var h1 := State();
      Free(core);
      assert used == h.used;
      UntouchedTrans(h, h1, State());
      ShorterRowFits(State(), core, n, nu);
      r := freep;
    }

    /** sbrk's memory with the header that morecore writes to it. */
    method AddBlock(core: int, n: int)
      requires Ready() && n > 0 && Unmapped(owner, base, core, n)
      modifies this`hdr, this`used, this`owner
      ensures Ready() && used == old(used)[core := n] && core !in old(used)
      ensures owner.Keys == old(owner).Keys + Units(core, n)
      ensures FreeUnits(State()) == old(FreeUnits(State())) && Untouched(old(State()), State())
    {
      ghost var h := State();
      AddCoreInv(h, core, n);
      AddCoreUnits(h, core, n);
      hdr := hdr + map a | core <= a < core + n && Within(core, a, n) :: Header(0, if a == core then n else 0);
      used, owner := AddCore(h, core, n).used, AddCore(h, core, n).owner;
      assert State() == AddCore(h, core, n);
    }

    /** Its stores: unlink the whole block, or cut off its upper end. */
    method TakeHeaders(prevp: int, p: int, n: int, ghost i: nat) returns (q: int)
      requires Ready() && 0 < i < |ring| && p == ring[i] && prevp == ring[i - 1] && Large(State(), i, n) && n > 0
      requires p in hdr && prevp in hdr && p + hdr[p].size - n in hdr
      modifies this`hdr
      ensures hdr == Take(old(State()), i, n).hdr && q == p + old(hdr)[p].size - n
    {
      ghost var h := State();
      Sorted(h, 0, 0, 0, i);
      if i > 1 { Sorted(h, 0, 0, 0, i - 1); }
      assert NodeAt(h, 0, 0, i);
      q := p;
      if hdr[p].size == n {
        hdr := hdr[prevp := Header(hdr[p].ptr, hdr[prevp].size)];
      } else {
        hdr := hdr[p := Header(hdr[p].ptr, hdr[p].size - n)];
        q := q + hdr[p].size;
        hdr := hdr[q := Header(hdr[q].ptr, n)];
      }
    }

    /** The branch of malloc that takes `n` units from the free block `p` behind `prevp`. */
    method TakeFrom(prevp: int, p: int, n: int, ghost i: nat) returns (q: int)
      requires Ready() && 0 < i < |ring| && p == ring[i] && prevp == ring[i - 1] && Large(State(), i, n) && n > 0
      modifies this
      ensures Ready() && q > 0 && q !in old(used) && used == old(used)[q := n] && owner.Keys == old(owner).Keys
      ensures Units(q, n) <= old(FreeUnits(State())) && FreeUnits(State()) == old(FreeUnits(State())) - Units(q, n)
      ensures Untouched(old(State()), State())
      ensures freep == prevp && p in old(hdr) && q == p + old(hdr)[p].size - n
    {
      ghost var h := State();
      TakeMapped(h, i, n);
      TakeUnits(h, i, n);
      Sorted(h, 0, 0, 0, i);
      if i > 1 { Sorted(h, 0, 0, 0, i - 1); }
      q := TakeHeaders(prevp, p, n, i);
      freep := prevp;
      ghost var h' := Take(h, i, n);
      ring, used, owner := h'.ring, h'.used, h'.owner;
      assert State() == h';
      assert ring[i - 1] == prevp && ring[0] == base;
    }
  
    /** malloc's first call links the empty list. */
    method Start()
      requires Valid() && freep == 0
      modifies this
      ensures Ready() && used == map[] && owner == map[] && ring == [base]
    {
      hdr := hdr[base := Header(base, 0)];
      freep := base;
      ring := [base];
    }

    /** malloc's search for `n` units. */
    method Search(n: int, core: int) returns (ap: int)
      requires Ready() && n > 0 && (core == -1 || Unmapped(owner, base, core, CoreSize(n)))
      modifies this
      ensures Ready() && Allocated(old(State()), State(), n, ap, core)
      ensures Chosen(old(State()), old(freep), core, freep, n, ap)
    {
      ghost var h := State();
      ghost var f: nat :| f < |ring| && ring[f] == freep;
      ghost var i, grown := NextIndex(ring, f), false;
      ScanStarts(h, f, n);
      var prevp := freep;
      var p := hdr[prevp].ptr;
      while true
        invariant Ready() && Scanning(State(), f, i, prevp, p, n) && ring[f] == freep
        invariant Since(h, State(), n, core, grown) && (!grown ==> freep == old(freep))
        decreases !grown, |ring| - Distance(|ring|, NextIndex(ring, f), i)
      {
        if hdr[p].size >= n {
          ghost var h1 := State();
          assert NodeAt(h1, 0, 0, i);
          assert Large(h1, i, n);
          ghost var rover := freep;
          var q := TakeFrom(prevp, p, n, i);
          TakenIsChosen(h, h1, f, i, old(freep), rover, freep, n, q + 1, core, grown);
          TakenIsAllocated(h, h1, State(), n, q, core, grown);
          return q + 1;
        }
        if p == freep {
          ScanEnds(State(), f, i, prevp, n);
          p := Morecore(n, core);
          if p == 0 {
            return 0;
          }
          grown := true;
          f :| f < |ring| && ring[f] == freep;
          i := f;
          ScanStarts(State(), f, n);
        } else {
          ScanSteps(State(), f, i, prevp, p, n);
        }
        prevp := p;
        p := hdr[p].ptr;
        i := NextIndex(ring, i);
      }
    }

    /** malloc: a block of exactly the units asked for, from free units, or from new ones if and
        only if no free block is large enough; null if and only if there is no such block and
        sbrk fails.  `core` is sbrk's answer. */
    method Malloc(nbytes: nat, core: int) returns (ap: int)
      requires Valid() && 8 * NUnits(nbytes) < 0x8000_0000
      requires core == -1 || Unmapped(owner, base, core, CoreSize(NUnits(nbytes)))
      modifies this
      ensures Valid() && Allocated(old(State()), State(), NUnits(nbytes), ap, core)
      ensures Chosen(old(State()), old(freep), core, freep, NUnits(nbytes), ap)
    {
      ghost var h := State();
      var nunits := (nbytes + 8 - 1) / 8 + 1;
      if freep == 0 {
        Start();
      }
      ghost var h1 := State();
      ap := Search(nunits, core);
      StartChosen(h, h1, old(freep), core, freep, nunits, ap);
    }
  }
}
