/** Copy-on-write: the page fault handler of trap.c, copyuvm and fork. */
module CopyOnWrite {
  import opened Frames
  import opened AddressSpace

  /** Link `k` may lead elsewhere, but to the same contents. */
  ghost predicate SameContent(m: Mem, m': Mem, k: Key) {
    && (k in m.links <==> k in m'.links)
    && (k in m.links ==> PageAt(m', k) == PageAt(m, k))
  }

  // ---------------------------------------------------------------- stores and faults

  function SetByte(page: Page, off: nat, v: int): Page
    requires off < |page.bytes|
  {
    Page(page.bytes[off := v])
  }

  /** A user store that the page table entry permits. */
  predicate MayStore(m: Mem, p: nat, pg: nat, off: nat) {
    && User(p, pg) in m.links && m.links[User(p, pg)].w && m.links[User(p, pg)].u
    && off < |PageAt(m, User(p, pg)).bytes|
  }

  function Store(m: Mem, p: nat, pg: nat, off: nat, v: int): Mem
    requires Inv(m) && MayStore(m, p, pg, off)
  {
    assert LinkAt(m, User(p, pg));
    Put(m, m.links[User(p, pg)].frame, SetByte(PageAt(m, User(p, pg)), off, v))
  }

  /** A store changes the storing process's page; every other private page of every process keeps
      its contents. */
  lemma StoreIsolated(m: Mem, p: nat, pg: nat, off: nat, v: int)
    requires Inv(m) && MayStore(m, p, pg, off)
    ensures var m' := Store(m, p, pg, off, v);
            && Inv(m') && User(p, pg) in m'.links
            && PageAt(m', User(p, pg)) == SetByte(PageAt(m, User(p, pg)), off, v)
            && forall k :: k != User(p, pg) && !Shared(k) ==> Same(m, m', k)
  {
    var k := User(p, pg);
    assert LinkAt(m, k);
    var m' := Store(m, p, pg, off, v);
    PutInv(m, m.links[k].frame, SetByte(PageAt(m, k), off, v));
    forall k' | k' != k && !Shared(k') ensures Same(m, m', k') {
      if k' in m.links && m.links[k'].frame == m.links[k].frame {
        assert LinkAt(m, k') && Apart(m, k, k');
        SoleRef(m, k, k');
      }
    }
  }

  /** The copy-on-write branch of the handler; not ok means that the process is killed. */
  function CowFault(m: Mem, p: nat, pg: nat): Outcome
    requires Inv(m) && User(p, pg) in m.links
  {
    var k := User(p, pg);
    var e := m.links[k];
    assert LinkAt(m, k);
    if m.counts[e.frame] == 1 then Outcome(Link(m, k, Pte(e.frame, true, e.u, false)), true)
    else if m.free == [] then Outcome(m, false)
    else
      TakeSame(m, m.frames[e.frame]);
      var m1 := Put(Kalloc(m), m.free[0], m.frames[e.frame]);
      Outcome(Decref(Link(m1, k, Pte(m.free[0], true, e.u, false)), e.frame), true)
  }

  /** The handler makes the page writable without changing any contents. */
  lemma CowFaultSame(m: Mem, p: nat, pg: nat)
    requires Inv(m) && User(p, pg) in m.links
    ensures var r := CowFault(m, p, pg);
            && Inv(r.m) && (forall k :: k != User(p, pg) ==> Same(m, r.m, k)) && SameContent(m, r.m, User(p, pg))
            && (if r.ok then r.m.links[User(p, pg)].w && !r.m.links[User(p, pg)].cow else r.m == m)
  {
    var k := User(p, pg);
    var e := m.links[k];
    assert LinkAt(m, k);
    var r := CowFault(m, p, pg);
    if m.counts[e.frame] == 1 {
      FlagsInv(m, k, Pte(e.frame, true, e.u, false));
    } else if m.free != [] {
      TakeSame(m, m.frames[e.frame]);
      var nf := m.free[0];
      var m1 := Put(Kalloc(m), nf, m.frames[e.frame]);
      var m2 := Link(m1, k, Pte(nf, true, e.u, false));
      LinkInv(m1, k, Pte(nf, true, e.u, false));
      assert CountAt(m1, e.frame) && k in Refs(m1, e.frame) by { assert Same(m, m1, k); }
      DecrefInv(m2, e.frame);
      forall k' | k' != k ensures Same(m, r.m, k') { assert Same(m, m1, k'); }
    }
  }

  /** It fails if and only if others may use the frame and none is free.  If not, the user may read
      and write the page, if it was a user page. */
  lemma CowFaultIff(m: Mem, p: nat, pg: nat)
    requires Inv(m) && User(p, pg) in m.links
    ensures var r, e := CowFault(m, p, pg), m.links[User(p, pg)];
            && e.frame < |m.counts| && (r.ok <==> m.counts[e.frame] == 1 || m.free != [])
            && (r.ok ==> User(p, pg) in r.m.links && (Plain(r.m.links[User(p, pg)]) <==> e.u))
  {
    assert LinkAt(m, User(p, pg));
    if m.free != [] { TakeSame(m, m.frames[m.links[User(p, pg)].frame]); }
  }

  // ---------------------------------------------------------------- copyuvm

  /** One iteration of copyuvm: the parent's entry becomes copy-on-write, also when it was
      read-only; the child gets the frame, copy-on-write if the parent could write to it. */
  function CopyPage(m: Mem, p: nat, c: nat, pg: nat): Outcome
    requires Inv(m) && pg < LIMIT && User(p, pg) in m.links
  {
    assert LinkAt(m, User(p, pg));
    var e := m.links[User(p, pg)];
    var m1 := Link(m, User(p, pg), Pte(e.frame, false, e.u, true));
    FlagsInv(m, User(p, pg), Pte(e.frame, false, e.u, true));
    var r := WalkAlloc(m1, c, pg);
    WalkAllocSame(m1, c, pg);
    if !r.ok then r else
    Outcome(Incref(Link(r.m, User(c, pg), Pte(e.frame, false, e.u, e.cow || e.w)), e.frame), true)
  }

  /** The count of the frame behind `k` can still grow. */
  predicate CountFits(m: Mem, k: Key) {
    k in m.links && m.links[k].frame < |m.counts| && m.counts[m.links[k].frame] < 255
  }

  /** Everything but the parent's entry, the child's entry and a page table page of the child is
      as before, and the parent still reads what it read. */
  ghost predicate PageCopied(m: Mem, r: Outcome, p: nat, c: nat, pg: nat) {
    && Inv(r.m) && SameContent(m, r.m, User(p, pg))
    && (forall k :: k != User(p, pg) && k != User(c, pg) && k != Table(c, pg / NPDENTRIES) ==> Same(m, r.m, k))
    && (if r.ok then User(c, pg) in r.m.links && User(p, pg) in m.links &&
                     PageAt(r.m, User(c, pg)) == PageAt(m, User(p, pg))
        else User(c, pg) !in r.m.links)
    && (forall pg': nat :: pg' != pg && CountFits(m, User(p, pg')) ==> CountFits(r.m, User(p, pg')))
  }

  lemma CopyPageSame(m: Mem, p: nat, c: nat, pg: nat)
    requires Inv(m) && pg < LIMIT && p != c && CountFits(m, User(p, pg)) && User(c, pg) !in m.links
    ensures PageCopied(m, CopyPage(m, p, c, pg), p, c, pg)
  {
    var k, k' := User(p, pg), User(c, pg);
    assert LinkAt(m, k);
    var e := m.links[k];
    var e1 := Pte(e.frame, false, e.u, true);
    var m1 := Link(m, k, e1);
    FlagsInv(m, k, e1);
    var r1 := WalkAlloc(m1, c, pg);
    WalkAllocSame(m1, c, pg);
    assert Same(m1, r1.m, k) && Same(m1, r1.m, k');
    WalkAllocCounts(m1, c, pg);
    var r := CopyPage(m, p, c, pg);
    if r1.ok {
      ShareInv(r1.m, k, k', Pte(e.frame, false, e.u, e.cow || e.w));
    }
    forall k1 | k1 != k && k1 != k' && k1 != Table(c, pg / NPDENTRIES) ensures Same(m, r.m, k1) {
      assert Same(m1, r1.m, k1);
    }
    forall pg': nat | pg' != pg && CountFits(m, User(p, pg')) ensures CountFits(r.m, User(p, pg')) {
      assert Same(m1, r1.m, User(p, pg')) && Apart(m, User(p, pg'), k);
    }
  }

  /** The child's entry: the parent's frame and user bit, not writable, and copy-on-write if and only
      if the parent could write to the page or copy it. */
  predicate Inherits(e: Pte, e': Pte) {
    e'.frame == e.frame && e'.u == e.u && !e'.w && (e'.cow <==> e.w || e.cow)
  }

  /** What a turn of copyuvm leaves in the two page tables. */
  lemma CopyPageEntries(m: Mem, p: nat, c: nat, pg: nat)
    requires Inv(m) && pg < LIMIT && p != c && Copyable(m, p, c, pg)
    ensures var r, e := CopyPage(m, p, c, pg), m.links[User(p, pg)];
            && User(p, pg) in r.m.links && r.m.links[User(p, pg)] == Pte(e.frame, false, e.u, true)
            && (r.ok ==> User(c, pg) in r.m.links && Inherits(e, r.m.links[User(c, pg)]))
  {
    var k, e := User(p, pg), m.links[User(p, pg)];
    assert LinkAt(m, k);
    var e1 := Pte(e.frame, false, e.u, true);
    FlagsInv(m, k, e1);
    WalkKeeps(Link(m, k, e1), c, pg, k);
  }

  /** And in the count: one more reference if the child has the page. */
  lemma CopyPageCount(m: Mem, p: nat, c: nat, pg: nat)
    requires Inv(m) && pg < LIMIT && p != c && Copyable(m, p, c, pg)
    ensures var r, f := CopyPage(m, p, c, pg), m.links[User(p, pg)].frame;
            |r.m.counts| == |m.counts| && f < |m.counts| && r.m.counts[f] == m.counts[f] + if r.ok then 1 else 0
  {
    var k, e := User(p, pg), m.links[User(p, pg)];
    assert LinkAt(m, k) && CountAt(m, e.frame);
    var e1 := Pte(e.frame, false, e.u, true);
    FlagsInv(m, k, e1);
    WalkKeeps(Link(m, k, e1), c, pg, k);
  }

  lemma WalkKeeps(m: Mem, c: nat, pg: nat, k: Key)
    requires Inv(m) && pg < KERNPAGES && k in m.links && k.User?
    ensures var m' := WalkAlloc(m, c, pg).m;
            && k in m'.links && m'.links[k] == m.links[k] && |m'.counts| == |m.counts| == |m'.frames|
            && m.links[k].frame < |m.counts| && m'.counts[m.links[k].frame] == m.counts[m.links[k].frame]
  {
    WalkAllocSame(m, c, pg);
    WalkAllocCounts(m, c, pg);
    assert Same(m, WalkAlloc(m, c, pg).m, k);
  }

  /** Allocating a page table page changes the count of no linked frame. */
  lemma WalkAllocCounts(m: Mem, p: nat, pg: nat)
    requires Inv(m) && pg < KERNPAGES
    ensures var m' := WalkAlloc(m, p, pg).m;
            |m'.counts| == |m.counts| && forall k :: k in m.links ==>
              m.links[k].frame < |m.counts| && m'.counts[m.links[k].frame] == m.counts[m.links[k].frame]
  {
    if m.free != [] { KallocInv(m); }
    forall k | k in m.links
      ensures m.links[k].frame < |m.counts| &&
              WalkAlloc(m, p, pg).m.counts[m.links[k].frame] == m.counts[m.links[k].frame]
    {
      assert LinkAt(m, k);
    }
  }

  predicate Copyable(m: Mem, p: nat, c: nat, pg: nat) {
    CountFits(m, User(p, pg)) && User(c, pg) !in m.links
  }

  /** copyuvm over the pages [i, n) of the parent. */
  function CopyUvm(m: Mem, p: nat, c: nat, i: nat, n: nat): Outcome
    requires Inv(m) && p != c && n <= LIMIT && forall pg: nat :: i <= pg < n ==> Copyable(m, p, c, pg)
    decreases n - i, |m.free|
  {
    if i >= n then Outcome(m, true) else
    assert Copyable(m, p, c, i);
    var r := CopyPage(m, p, c, i);
    CopyPageSame(m, p, c, i);
    if !r.ok then r else
    CopyableStep(m, r, p, c, i, n);
    CopyUvm(r.m, p, c, i + 1, n)
  }

  lemma CopyableStep(m: Mem, r: Outcome, p: nat, c: nat, i: nat, n: nat)
    requires p != c && PageCopied(m, r, p, c, i) && forall pg: nat :: i <= pg < n ==> Copyable(m, p, c, pg)
    ensures forall pg: nat :: i + 1 <= pg < n ==> Copyable(r.m, p, c, pg)
  {
    forall pg: nat | i + 1 <= pg < n ensures Copyable(r.m, p, c, pg) {
      assert Copyable(m, p, c, pg) && Same(m, r.m, User(c, pg));
    }
  }

  /** Copying changes no contents of the parent, nothing of any other process, and, if it
      succeeds, gives the child the contents of the parent's pages. */
  ghost predicate Copied(m: Mem, r: Outcome, p: nat, c: nat, i: nat, n: nat) {
    && Inv(r.m)
    && (forall k: Key :: k.p != c ==> SameContent(m, r.m, k))
    && (forall k: Key :: k.p != c && k.p != p ==> Same(m, r.m, k))
    && (forall pg: nat :: pg < i || n <= pg ==> Same(m, r.m, User(c, pg)) && Same(m, r.m, User(p, pg)))
    && (r.ok ==> forall pg: nat :: i <= pg < n ==>
          User(p, pg) in m.links && User(c, pg) in r.m.links && PageAt(r.m, User(c, pg)) == PageAt(m, User(p, pg)))
  }

  lemma {:induction false} CopyUvmSame(m: Mem, p: nat, c: nat, i: nat, n: nat)
    requires Inv(m) && p != c && n <= LIMIT && forall pg: nat :: i <= pg < n ==> Copyable(m, p, c, pg)
    ensures Copied(m, CopyUvm(m, p, c, i, n), p, c, i, n)
    decreases n - i
  {
    if i < n {
      assert Copyable(m, p, c, i);
      var r1 := CopyPage(m, p, c, i);
      CopyPageSame(m, p, c, i);
      if r1.ok {
        CopyableStep(m, r1, p, c, i, n);
        CopyUvmSame(r1.m, p, c, i + 1, n);
        CopiedStep(m, r1, CopyUvm(m, p, c, i, n), p, c, i, n);
      } else {
        CopiedFails(m, r1, p, c, i, n);
      }
    } else {
      CopiedNothing(m, p, c, i, n);
    }
  }

  lemma CopiedNothing(m: Mem, p: nat, c: nat, i: nat, n: nat)
    requires Inv(m) && n <= i
    ensures Copied(m, Outcome(m, true), p, c, i, n)
  {
  }

  lemma CopiedFails(m: Mem, r: Outcome, p: nat, c: nat, i: nat, n: nat)
    requires p != c && i < n && !r.ok && PageCopied(m, r, p, c, i)
    ensures Copied(m, r, p, c, i, n)
  {
    forall k: Key | k.p != c ensures SameContent(m, r.m, k) { assert k != User(p, i) ==> Same(m, r.m, k); }
  }

  lemma CopiedStep(m: Mem, r1: Outcome, r: Outcome, p: nat, c: nat, i: nat, n: nat)
    requires p != c && i < n && r1.ok && PageCopied(m, r1, p, c, i) && Copied(r1.m, r, p, c, i + 1, n)
    ensures Copied(m, r, p, c, i, n)
  {
    forall k: Key | k.p != c ensures SameContent(m, r.m, k) {
      assert SameContent(r1.m, r.m, k);
      if k != User(p, i) { assert Same(m, r1.m, k); }
    }
    forall k: Key | k.p != c && k.p != p ensures Same(m, r.m, k) { assert Same(m, r1.m, k) && Same(r1.m, r.m, k); }
    forall pg: nat | pg < i || n <= pg ensures Same(m, r.m, User(c, pg)) && Same(m, r.m, User(p, pg)) {
      assert Same(m, r1.m, User(c, pg)) && Same(r1.m, r.m, User(c, pg));
      assert Same(m, r1.m, User(p, pg)) && Same(r1.m, r.m, User(p, pg));
    }
    if r.ok {
      forall pg: nat | i <= pg < n
        ensures User(p, pg) in m.links && User(c, pg) in r.m.links
        ensures PageAt(r.m, User(c, pg)) == PageAt(m, User(p, pg))
      {
        if pg == i { assert Same(r1.m, r.m, User(c, i)); } else { assert Same(m, r1.m, User(p, pg)); }
      }
    }
  }

  ghost predicate InheritsAt(m: Mem, r: Outcome, p: nat, c: nat, pg: nat) {
    User(p, pg) in m.links && User(c, pg) in r.m.links && Inherits(m.links[User(p, pg)], r.m.links[User(c, pg)])
  }

  /** After copyuvm every page of the child has an entry inherited from the parent's. */
  ghost predicate InheritsAll(m: Mem, r: Outcome, p: nat, c: nat, i: nat, n: nat) {
    forall pg: nat :: i <= pg < n ==> InheritsAt(m, r, p, c, pg)
  }

  lemma {:induction false} CopyUvmEntries(m: Mem, p: nat, c: nat, i: nat, n: nat)
    requires Inv(m) && p != c && n <= LIMIT && forall pg: nat :: i <= pg < n ==> Copyable(m, p, c, pg)
    ensures CopyUvm(m, p, c, i, n).ok ==> InheritsAll(m, CopyUvm(m, p, c, i, n), p, c, i, n)
    decreases n - i
  {
    if i < n {
      assert Copyable(m, p, c, i);
      var r1, r := CopyPage(m, p, c, i), CopyUvm(m, p, c, i, n);
      CopyPageSame(m, p, c, i);
      CopyPageEntries(m, p, c, i);
      if r1.ok {
        CopyableStep(m, r1, p, c, i, n);
        CopyUvmEntries(r1.m, p, c, i + 1, n);
        CopyUvmSame(r1.m, p, c, i + 1, n);
        if r.ok { InheritsOn(m, r1, r, p, c, i, n); }
      }
    }
  }

  lemma InheritsOn(m: Mem, r1: Outcome, r: Outcome, p: nat, c: nat, i: nat, n: nat)
    requires p != c && i < n && PageCopied(m, r1, p, c, i) && Copied(r1.m, r, p, c, i + 1, n)
    requires InheritsAt(m, r1, p, c, i)
    requires InheritsAll(r1.m, r, p, c, i + 1, n)
    ensures InheritsAll(m, r, p, c, i, n)
  {
    forall pg: nat | i <= pg < n ensures InheritsAt(m, r, p, c, pg) {
      if pg == i {
        assert Same(r1.m, r.m, User(c, i));
      } else {
        assert InheritsAt(r1.m, r, p, c, pg) && Same(m, r1.m, User(p, pg));
      }
    }
  }

  // ---------------------------------------------------------------- what the code does not keep

  /** copyuvm marks the parent's entry copy-on-write even if it was read-only, so the parent's
      next fault on that page makes it writable; the child's entry stays read-only. */
  lemma ReadOnlyLost(m: Mem, p: nat, c: nat, pg: nat)
    requires Inv(m) && pg < LIMIT && p != c && Copyable(m, p, c, pg)
    requires !m.links[User(p, pg)].w && !m.links[User(p, pg)].cow
    ensures var r := CopyPage(m, p, c, pg);
            && Inv(r.m) && User(p, pg) in r.m.links && r.m.links[User(p, pg)].cow
            && (r.ok ==> User(c, pg) in r.m.links && !r.m.links[User(c, pg)].w && !r.m.links[User(c, pg)].cow)
            && var r' := CowFault(r.m, p, pg);
               (r.m.free != [] ==> r'.ok) && (r'.ok ==> User(p, pg) in r'.m.links && r'.m.links[User(p, pg)].w)
  {
    CopyPageSame(m, p, c, pg);
    var r := CopyPage(m, p, c, pg);
    var e := m.links[User(p, pg)];
    var m1 := Link(m, User(p, pg), Pte(e.frame, false, e.u, true));
    FlagsInv(m, User(p, pg), Pte(e.frame, false, e.u, true));
    WalkAllocSame(m1, c, pg);
    assert Same(m1, WalkAlloc(m1, c, pg).m, User(p, pg));
    CowFaultSame(r.m, p, pg);
    assert LinkAt(r.m, User(p, pg));
  }

  /** kfree does not lower a count, so a frame that was ever shared is freed only if its count is
      back to 1 when its last link goes; otherwise it is lost. */
  lemma FreedIffCountIsOne(m: Mem, k: Key)
    requires Inv(m) && k in m.links && Refs(m, m.links[k].frame) == {k}
    ensures m.links[k].frame < |m.frames|
    ensures Refs(Drop(m, k), m.links[k].frame) == {}
    ensures m.links[k].frame in Drop(m, k).free <==> m.counts[m.links[k].frame] == 1
  {
    assert LinkAt(m, k) && CountAt(m, m.links[k].frame);
    var f, m' := m.links[k].frame, Drop(m, k);
    assert Refs(m', f) == Refs(m, f) - {k};
  }

  /** So one fork loses frames: when parent and child have dropped a page that they shared and no
      other process has, its frame is neither free nor referenced. */
  lemma SharedFrameLost(m: Mem, p: nat, c: nat, pg: nat)
    requires Inv(m) && pg < LIMIT && p != c && Copyable(m, p, c, pg) && CopyPage(m, p, c, pg).ok
    requires forall k :: k in m.links && m.links[k].frame == m.links[User(p, pg)].frame ==> k == User(p, pg)
    ensures var m1 := CopyPage(m, p, c, pg).m;
            && Inv(m1) && User(c, pg) in m1.links && m1.links[User(c, pg)].frame < |m1.frames|
            && var m2 := Drop(m1, User(c, pg));
               && Inv(m2) && User(p, pg) in m2.links && m2.links[User(p, pg)].frame < |m2.frames|
               && Lost(Drop(m2, User(p, pg)), m.links[User(p, pg)].frame)
  {
    var k, k', f := User(p, pg), User(c, pg), m.links[User(p, pg)].frame;
    CopyPageSame(m, p, c, pg);
    var m1 := CopyPage(m, p, c, pg).m;
    CopyPageLinks(m, p, c, pg);
    DropSame(m1, k');
    var m2 := Drop(m1, k');
    assert Same(m1, m2, k);
    DropSame(m2, k);
    var m3 := Drop(m2, k);
    assert LinkAt(m1, k);
    forall k1 | k1 in m3.links ensures m3.links[k1].frame != f {
      assert k1 != k && Same(m2, m3, k1);
      assert k1 != k' && Same(m1, m2, k1);
    }
  }

  /** The links to a page's frame after one turn of copyuvm, if the parent's was the only one. */
  lemma CopyPageLinks(m: Mem, p: nat, c: nat, pg: nat)
    requires Inv(m) && pg < LIMIT && p != c && Copyable(m, p, c, pg) && CopyPage(m, p, c, pg).ok
    requires forall k :: k in m.links && m.links[k].frame == m.links[User(p, pg)].frame ==> k == User(p, pg)
    ensures var m1, f := CopyPage(m, p, c, pg).m, m.links[User(p, pg)].frame;
            && User(p, pg) in m1.links && User(c, pg) in m1.links && f < |m1.counts| && m1.counts[f] > 1
            && m1.links[User(p, pg)].frame == m1.links[User(c, pg)].frame == f
            && forall k :: k in m1.links && m1.links[k].frame == f ==> k == User(p, pg) || k == User(c, pg)
  {
    var k, k' := User(p, pg), User(c, pg);
    assert LinkAt(m, k) && CountAt(m, m.links[k].frame) && k in Refs(m, m.links[k].frame);
    var e := m.links[k];
    var m0 := Link(m, k, Pte(e.frame, false, e.u, true));
    FlagsInv(m, k, Pte(e.frame, false, e.u, true));
    WalkAllocSame(m0, c, pg);
    WalkAllocCounts(m0, c, pg);
    var r := WalkAlloc(m0, c, pg);
    assert Same(m0, r.m, k);
    if m0.free != [] { KallocInv(m0); }
    forall k1 | k1 in r.m.links && r.m.links[k1].frame == e.frame ensures k1 == k {
      assert k1 != Table(c, pg / NPDENTRIES) ==> Same(m0, r.m, k1);
    }
  }

  // ---------------------------------------------------------------- how much memory is needed

  /** Page table page `d` covers a page of [i, n). */
  predicate Covers(d: nat, i: nat, n: nat) {
    i < n && d * NPDENTRIES < n && i < (d + 1) * NPDENTRIES
  }

  /** The page table pages that process `p` lacks for the pages [i, n). */
  function Missing(m: Mem, p: nat, i: nat, n: nat): set<nat> {
    set d: nat | d < NPDENTRIES && Covers(d, i, n) && Table(p, d) !in m.links
  }

  /** What is missing after page `i` has been mapped, and its page table page with it. */
  lemma MissingStep(m: Mem, m': Mem, p: nat, i: nat, n: nat)
    requires i < n <= LIMIT && Table(p, i / NPDENTRIES) in m'.links
    requires forall d: nat :: d != i / NPDENTRIES ==> SameContent(m, m', Table(p, d))
    ensures |Missing(m, p, i, n)| ==
            |Missing(m', p, i + 1, n)| + if Table(p, i / NPDENTRIES) in m.links then 0 else 1
  {
    var d0 := i / NPDENTRIES;
    forall d: nat | d != d0 ensures d in Missing(m', p, i + 1, n) <==> d in Missing(m, p, i, n) {
      assert SameContent(m, m', Table(p, d)) && (Covers(d, i + 1, n) <==> Covers(d, i, n));
    }
    assert Missing(m', p, i + 1, n) == Missing(m, p, i, n) - {d0};
    assert d0 in Missing(m, p, i, n) <==> Table(p, d0) !in m.links;
  }

  lemma MissingNothing(m: Mem, p: nat, i: nat)
    ensures |Missing(m, p, i, i)| == 0
  {
    assert Missing(m, p, i, i) == {};
  }

  lemma MissingSome(m: Mem, p: nat, i: nat, n: nat)
    requires i < n <= LIMIT && Table(p, i / NPDENTRIES) !in m.links
    ensures |Missing(m, p, i, n)| > 0
  {
    assert i / NPDENTRIES in Missing(m, p, i, n);
  }

  /** One turn takes a frame exactly if the page table page is missing. */
  ghost predicate TurnTakes(m: Mem, r: Outcome, t: Key) {
    && (r.ok <==> t in m.links || m.free != [])
    && (r.ok ==> t in r.m.links && |r.m.free| == |m.free| - if t in m.links then 0 else 1)
  }

  lemma CopyPageFrames(m: Mem, p: nat, c: nat, pg: nat)
    requires Inv(m) && pg < LIMIT && User(p, pg) in m.links
    ensures TurnTakes(m, CopyPage(m, p, c, pg), Table(c, pg / NPDENTRIES))
  {
    assert LinkAt(m, User(p, pg));
    FlagsInv(m, User(p, pg), Pte(m.links[User(p, pg)].frame, false, m.links[User(p, pg)].u, true));
  }

  lemma CopyTurn(m: Mem, r1: Outcome, ok: bool, left: nat, p: nat, c: nat, i: nat, n: nat)
    requires i < n <= LIMIT && PageCopied(m, r1, p, c, i) && TurnTakes(m, r1, Table(c, i / NPDENTRIES))
    requires ok <==> r1.ok && |r1.m.free| >= |Missing(r1.m, c, i + 1, n)|
    requires ok ==> left == |r1.m.free| - |Missing(r1.m, c, i + 1, n)|
    ensures ok <==> |m.free| >= |Missing(m, c, i, n)|
    ensures ok ==> left == |m.free| - |Missing(m, c, i, n)|
  {
    if r1.ok {
      forall d: nat | d != i / NPDENTRIES ensures SameContent(m, r1.m, Table(c, d)) {
        assert Same(m, r1.m, Table(c, d));
      }
      MissingStep(m, r1.m, c, i, n);
    } else {
      MissingSome(m, c, i, n);
    }
  }

  /** copyuvm succeeds if and only if there is a frame for every page table page that the child
      lacks. */
  lemma {:induction false} CopyUvmSucceedsIff(m: Mem, p: nat, c: nat, i: nat, n: nat)
    requires Inv(m) && p != c && i <= n <= LIMIT && forall pg: nat :: i <= pg < n ==> Copyable(m, p, c, pg)
    ensures var r := CopyUvm(m, p, c, i, n);
            (r.ok <==> |m.free| >= |Missing(m, c, i, n)|) && (r.ok ==> |r.m.free| == |m.free| - |Missing(m, c, i, n)|)
    decreases n - i
  {
    if i < n {
      assert Copyable(m, p, c, i);
      CopyPageSame(m, p, c, i);
      var r := CopyPage(m, p, c, i);
      CopyPageFrames(m, p, c, i);
      if r.ok {
        CopyableStep(m, r, p, c, i, n);
        CopyUvmSucceedsIff(r.m, p, c, i + 1, n);
      }
      var r' := CopyUvm(m, p, c, i, n);
      CopyTurn(m, r, r'.ok, |r'.m.free|, p, c, i, n);
    } else {
      MissingNothing(m, c, i);
    }
  }

  /** copyuvm makes no page table pages but those. */
  lemma {:induction false} CopyUvmTables(m: Mem, p: nat, c: nat, i: nat, n: nat, d: nat)
    requires Inv(m) && p != c && n <= LIMIT && forall pg: nat :: i <= pg < n ==> Copyable(m, p, c, pg)
    requires !Covers(d, i, n)
    ensures Table(c, d) in CopyUvm(m, p, c, i, n).m.links <==> Table(c, d) in m.links
    decreases n - i
  {
    if i < n {
      assert Copyable(m, p, c, i);
      CopyPageSame(m, p, c, i);
      var r := CopyPage(m, p, c, i);
      assert Same(m, r.m, Table(c, d));
      if r.ok {
        CopyableStep(m, r, p, c, i, n);
        CopyUvmTables(r.m, p, c, i + 1, n, d);
      }
    }
  }

  /** allocuvm succeeds if and only if there is a frame for every page and for every page table page
      that the process lacks. */
  lemma {:induction false} AllocUvmSucceedsIff(m: Mem, p: nat, a: nat, hi: nat, lo: nat)
    requires Inv(m) && a <= hi <= LIMIT
    ensures AllocUvm(m, p, a, hi, lo).ok <==> |m.free| >= hi - a + |Missing(m, p, a, hi)|
    decreases hi - a
  {
    if a == hi {
      MissingNothing(m, p, a);
    } else if m.free != [] {
      TakeZeroSame(m, p, a);
      var r := TakeZero(m, p, a);
      TakeZeroFrames(m, p, a);
      if r.ok {
        LinkInv(r.m, User(p, a), Fresh(m.free[0]));
        var m' := Link(r.m, User(p, a), Fresh(m.free[0]));
        AllocMissing(m, r.m, p, a, hi, m.free[0]);
        AllocUvmSucceedsIff(m', p, a + 1, hi, lo);
      } else {
        MissingSome(m, p, a, hi);
      }
    }
  }

  lemma AllocMissing(m: Mem, m1: Mem, p: nat, a: nat, hi: nat, f: nat)
    requires a < hi <= LIMIT && Table(p, a / NPDENTRIES) in m1.links
    requires forall k :: k != Table(p, a / NPDENTRIES) ==> Same(m, m1, k)
    ensures |Missing(m, p, a, hi)| ==
            |Missing(Link(m1, User(p, a), Fresh(f)), p, a + 1, hi)| +
            if Table(p, a / NPDENTRIES) in m.links then 0 else 1
  {
    var m' := Link(m1, User(p, a), Fresh(f));
    forall d: nat | d != a / NPDENTRIES ensures SameContent(m, m', Table(p, d)) { assert Same(m, m1, Table(p, d)); }
    MissingStep(m, m', p, a, hi);
  }

  lemma TakeZeroFrames(m: Mem, p: nat, pg: nat)
    requires Inv(m) && m.free != []
    ensures var r, t := TakeZero(m, p, pg), Table(p, pg / NPDENTRIES);
            && (r.ok <==> t in m.links || |m.free| > 1)
            && (r.ok ==> t in r.m.links && |r.m.free| == |m.free| - if t in m.links then 1 else 2)
  {
  }
}
