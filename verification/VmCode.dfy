/** The code of kalloc.c, of the page loops of vm.c and of the fault handler, on mutable state.
    Each method is proved equal to the function of Frames, AddressSpace or CopyOnWrite that the
    theorems are about.
 */
module VmCode {
  import opened Frames
  import opened AddressSpace
  import opened CopyOnWrite

  /** The rest of an allocuvm loop, from page `a` on, ends in `goal`. */
  predicate Reaches(m: Mem, p: nat, a: nat, hi: nat, lo: nat, goal: Outcome)
    requires Inv(m) && hi <= LIMIT
  {
    AllocUvm(m, p, a, hi, lo) == goal
  }

  class Kernel {
    var frames: seq<Page>
    var refCounts: seq<int>
    var freelist: seq<nat>
    var links: map<Key, Pte>

    ghost function Abs(): Mem
      reads this
    {
      Mem(frames, refCounts, freelist, links)
    }

    ghost predicate Valid()
      reads this
    {
      Inv(Abs())
    }

    method KallocFrame() returns (f: int)
      requires Valid()
      modifies this
      ensures Valid()
      ensures if old(freelist) == [] then f == -1 && Abs() == old(Abs())
              else f == old(freelist)[0] < |frames| && |frames| == |old(frames)| &&
                   Abs() == Kalloc(old(Abs())) && InHand(Abs(), f)
    {
      if freelist == [] {
        f := -1;
      } else {
        KallocInv(Abs());
        f := freelist[0];
        freelist := freelist[1..];
        refCounts := refCounts[f := 1];
      }
    }

    method KfreeFrame(f: nat)
      requires Sizes(Abs()) && f < |frames|
      modifies this`frames, this`freelist
      ensures Abs() == Kfree(old(Abs()), f)
    {
      if refCounts[f] > 1 {
        return;
      }
      frames := frames[f := Filled(1)];
      freelist := [f] + freelist;
    }

    method IncrefFrame(f: nat)
      requires Sizes(Abs()) && f < |frames|
      modifies this`refCounts
      ensures Abs() == Incref(old(Abs()), f)
    {
      refCounts := refCounts[f := (refCounts[f] + 1) % 256];
    }

    method DecrefFrame(f: nat)
      requires Sizes(Abs()) && f < |frames|
      modifies this
      ensures Abs() == Decref(old(Abs()), f)
    {
      if refCounts[f] < 1 {
        KfreeFrame(f);
      }
      refCounts := refCounts[f := (refCounts[f] - 1) % 256];
      if refCounts[f] == 0 {
        KfreeFrame(f);
      }
    }

    /** walkpgdir(pgdir, va, 1) */
    method Walkpgdir(p: nat, pg: nat) returns (ok: bool)
      requires Valid() && pg < KERNPAGES
      modifies this
      ensures Valid() && Outcome(Abs(), ok) == WalkAlloc(old(Abs()), p, pg)
    {
      WalkAllocSame(Abs(), p, pg);
      var k := Table(p, pg / NPDENTRIES);
      ok := true;
      if k !in links {
        var f := KallocFrame();
        if f == -1 {
          ok := false;
        } else {
          frames := frames[f := Filled(0)];
          links := links[k := Pte(f, true, true, false)];
        }
      }
    }

    /** deallocuvm over the pages [lo, hi). */
    method Deallocuvm(p: nat, lo: nat, hi: nat)
      requires Valid()
      modifies this
      ensures Valid() && Abs() == DeallocUvm(old(Abs()), p, lo, hi)
    {
      var a := lo;
      while a < hi
        invariant Valid() && DeallocUvm(Abs(), p, a, hi) == DeallocUvm(old(Abs()), p, lo, hi)
      {
        var k := User(p, a);
        DropInv(Abs(), k);
        if k in links {
          KfreeFrame(links[k].frame);
          links := links - {k};
        }
        a := a + 1;
      }
    }

    /** kalloc, memset and walkpgdir: what allocuvm and the lazy fault do before they set an entry. */
    method TakeZeroFrame(p: nat, pg: nat) returns (f: int, ok: bool)
      requires Valid() && pg < KERNPAGES
      modifies this
      ensures Valid()
      ensures if old(freelist) == [] then f == -1 && !ok && Abs() == old(Abs())
              else f == old(freelist)[0] && Outcome(Abs(), ok) == TakeZero(old(Abs()), p, pg) && InHand(Abs(), f)
    {
      ghost var m := Abs();
      f := KallocFrame();
      ok := false;
      if f != -1 {
        TakeSame(m, Filled(0));
        TakeZeroSame(m, p, pg);
        frames := frames[f := Filled(0)];
        ok := Walkpgdir(p, pg);
      }
    }

    /** The lazy allocation of the page fault handler. */
    method LazyFault(p: nat, pg: nat) returns (ok: bool)
      requires Valid() && LIMIT <= pg < KERNPAGES && User(p, pg) !in links
      modifies this
      ensures Valid() && Outcome(Abs(), ok) == LazyPage(old(Abs()), p, pg)
    {
      LazyPageSame(Abs(), p, pg);
      var f;
      f, ok := TakeZeroFrame(p, pg);
      if f != -1 && !ok {
        KfreeFrame(f);
      } else if ok {
        links := links[User(p, pg) := Fresh(f)];
      }
    }

    /** The body of allocuvm's loop; on failure the whole range is given back. */
    method AllocOne(p: nat, a: nat, lo: nat, hi: nat, ghost goal: Outcome) returns (ok: bool)
      requires Valid() && lo <= a < hi <= LIMIT && Reaches(Abs(), p, a, hi, lo, goal)
      modifies this
      ensures if ok then Valid() && Reaches(Abs(), p, a + 1, hi, lo, goal) else Outcome(Abs(), false) == goal
    {
      var f;
      f, ok := TakeZeroFrame(p, a);
      if f == -1 {
        Deallocuvm(p, lo, hi);
        return;
      }
      if !ok {
        DeallocUvmInHand(Abs(), p, lo, hi, f);
        Deallocuvm(p, lo, hi);
        KfreeFrame(f);
        return;
      }
      LinkInv(Abs(), User(p, a), Fresh(f));
      links := links[User(p, a) := Fresh(f)];
    }

    /** allocuvm from page `lo` to page `hi`. */
    method Allocuvm(p: nat, lo: nat, hi: nat) returns (ok: bool)
      requires Valid() && hi <= LIMIT
      modifies this
      ensures Outcome(Abs(), ok) == AllocUvm(old(Abs()), p, lo, hi, lo)
    {
      ghost var goal := AllocUvm(Abs(), p, lo, hi, lo);
      ok := true;
      var a := lo;
      while a < hi
        invariant Valid() && ok && lo <= a && Reaches(Abs(), p, a, hi, lo, goal)
        decreases hi - a
      {
        ok := AllocOne(p, a, lo, hi, goal);
        if !ok {
          return;
        }
        a := a + 1;
      }
    }

    /** copyuvm of the first `n` pages of `p` into `c`. */
    method Copyuvm(p: nat, c: nat, n: nat) returns (ok: bool)
      requires Valid() && p != c && n <= LIMIT && forall pg: nat :: pg < n ==> Copyable(Abs(), p, c, pg)
      modifies this
      ensures Outcome(Abs(), ok) == CopyUvm(old(Abs()), p, c, 0, n)
    {
      ok := true;
      var i := 0;
      while i < n
        invariant Valid() && ok && forall pg: nat :: i <= pg < n ==> Copyable(Abs(), p, c, pg)
        invariant CopyUvm(Abs(), p, c, i, n) == CopyUvm(old(Abs()), p, c, 0, n)
        decreases n - i
      {
        ghost var m := Abs();
        assert Copyable(m, p, c, i);
        CopyPageSame(m, p, c, i);
        ok := CopyOne(p, c, i);
        if !ok {
          return;
        }
        CopyableStep(m, CopyPage(m, p, c, i), p, c, i, n);
        i := i + 1;
      }
    }

    /** The body of copyuvm's loop. */
    method CopyOne(p: nat, c: nat, i: nat) returns (ok: bool)
      requires Valid() && i < LIMIT && User(p, i) in links
      modifies this
      ensures Outcome(Abs(), ok) == CopyPage(old(Abs()), p, c, i)
    {
      ghost var m := Abs();
      assert LinkAt(m, User(p, i));
      var e := links[User(p, i)];
      var flags := (e.w, e.cow);
      if flags.0 {
        flags := (false, true);
      }
      FlagsInv(m, User(p, i), Pte(e.frame, false, e.u, true));
      links := links[User(p, i) := Pte(e.frame, false, e.u, true)];
      WalkAllocSame(Abs(), c, i);
      ok := Walkpgdir(c, i);
      if ok {
        links := links[User(c, i) := Pte(e.frame, flags.0, e.u, flags.1)];
        IncrefFrame(e.frame);
      }
    }

    /** The copy-on-write branch for a frame that others may use: copy it and give up the old one. */
    method CopyFrame(p: nat, pg: nat) returns (ok: bool)
      requires Valid() && User(p, pg) in links && links[User(p, pg)].frame < |frames|
      requires refCounts[links[User(p, pg)].frame] != 1
      modifies this
      ensures Outcome(Abs(), ok) == CowFault(old(Abs()), p, pg)
    {
      var e := links[User(p, pg)];
      var f := KallocFrame();
      if f == -1 {
        return false;
      }
      frames := frames[f := frames[e.frame]];
      links := links[User(p, pg) := Pte(f, true, e.u, false)];
      frames := frames[f := frames[e.frame]];
      DecrefFrame(e.frame);
      ok := true;
    }

    /** The copy-on-write branch of the page fault handler; not ok kills the process. */
    method PageFault(p: nat, pg: nat) returns (ok: bool)
      requires Valid() && User(p, pg) in links
      modifies this
      ensures Valid() && Outcome(Abs(), ok) == CowFault(old(Abs()), p, pg)
    {
      CowFaultSame(Abs(), p, pg);
      assert LinkAt(Abs(), User(p, pg));
      var e := links[User(p, pg)];
      if refCounts[e.frame] == 1 {
        links := links[User(p, pg) := Pte(e.frame, true, e.u, false)];
        ok := true;
      } else {
        ok := CopyFrame(p, pg);
      }
    }
  }
}
