/** Frames, reference counts, the free list and the links to frames: kalloc.c.

    Every reference to a frame is a link: a user page table entry, a page table page, or a
    page the kernel keeps for the process (its stack, its page directory).
 */
module Frames {
  import opened Params
  import opened Sets

  const LIMIT := 0x60000        // first page of the wmap range: 0x60000000 / PGSIZE
  const KERNPAGES := 0x80000    // KERNBASE / PGSIZE
  const NPDENTRIES := 1024
  const KSTACK := 0             // Kern(p, KSTACK) is the kernel stack of p,
  const PGDIR := 1              // and Kern(p, PGDIR) its page directory

  datatype Page = Page(bytes: seq<int>)

  /** A page that memset filled with `v`. */
  function Filled(v: int): Page {
    Page(seq(PGSIZE, _ => v))
  }

  datatype Key = User(p: nat, pg: nat) | Table(p: nat, pdx: nat) | Kern(p: nat, i: nat)

  datatype Pte = Pte(frame: nat, w: bool, u: bool, cow: bool)

  datatype Mem = Mem(frames: seq<Page>, counts: seq<int>, free: seq<nat>, links: map<Key, Pte>)

  /** A wmap page, which stays shared after fork. */
  predicate Shared(k: Key) {
    k.User? && k.pg >= LIMIT
  }

  ghost function Refs(m: Mem, f: nat): set<Key> {
    set k | k in m.links && m.links[k].frame == f
  }

  // ---------------------------------------------------------------- kalloc.c

  predicate Sizes(m: Mem) {
    |m.counts| == |m.frames|
  }

  /** kalloc takes the head of the free list; the count starts at 1. */
  function Kalloc(m: Mem): Mem
    requires Sizes(m) && m.free != [] && m.free[0] < |m.frames|
  {
    m.(free := m.free[1..], counts := m.counts[m.free[0] := 1])
  }

  /** kfree leaves a frame with a count above 1 alone, and does not lower that count. */
  function Kfree(m: Mem, f: nat): Mem
    requires Sizes(m) && f < |m.frames|
  {
    if m.counts[f] > 1 then m else Mem(m.frames[f := Filled(1)], m.counts, [f] + m.free, m.links)
  }

  /** Counts are one byte wide. */
  function SetCount(m: Mem, f: nat, c: int): Mem
    requires f < |m.counts|
  {
    Mem(m.frames, m.counts[f := c % 256], m.free, m.links)
  }

  function Incref(m: Mem, f: nat): Mem
    requires Sizes(m) && f < |m.frames|
  {
    SetCount(m, f, m.counts[f] + 1)
  }

  /** decref: lower the count, and free the frame when it reaches zero. */
  function Decref(m: Mem, f: nat): Mem
    requires Sizes(m) && f < |m.frames|
  {
    var m' := SetCount(if m.counts[f] < 1 then Kfree(m, f) else m, f, m.counts[f] - 1);
    if m'.counts[f] == 0 then Kfree(m', f) else m'
  }

  // ---------------------------------------------------------------- the invariant

  /** A link points to an allocated frame; a private writable page and a kernel page are the
      only reference to theirs, which the count of 1 shows. */
  ghost predicate LinkAt(m: Mem, k: Key)
    requires Sizes(m) && k in m.links
  {
    var e := m.links[k];
    && e.frame < |m.frames| && e.frame !in m.free
    && (!Shared(k) && e.w ==> m.counts[e.frame] == 1)
    && KeyOk(k, e)
  }

  /** Kernel links are always writable; every index is in range. */
  predicate KeyOk(k: Key, e: Pte) {
    match k
    case User(_, pg) => pg < KERNPAGES
    case Table(_, pdx) => pdx < NPDENTRIES && e.w
    case Kern(_, i) => i <= PGDIR && e.w
  }

  /** The count is at least the number of references. */
  ghost predicate CountAt(m: Mem, f: nat)
    requires Sizes(m) && f < |m.frames|
  {
    |Refs(m, f)| <= m.counts[f] <= 255
  }

  ghost predicate FreeAt(m: Mem, i: nat)
    requires i < |m.free|
  {
    m.free[i] < |m.frames| && m.free[i] !in m.free[i + 1..]
  }

  /** A frame is shared only by the same page of different processes. */
  ghost predicate Apart(m: Mem, k: Key, k': Key)
    requires k in m.links && k' in m.links
  {
    m.links[k].frame == m.links[k'].frame ==> k == k' || (k.User? && k'.User? && k.pg == k'.pg)
  }

  ghost predicate Inv(m: Mem) {
    && Sizes(m)
    && (forall k {:trigger LinkAt(m, k)} :: k in m.links ==> LinkAt(m, k))
    && (forall f: nat :: f < |m.frames| ==> CountAt(m, f))
    && (forall i: nat :: i < |m.free| ==> FreeAt(m, i))
    && (forall k, k' {:trigger Apart(m, k, k')} :: k in m.links && k' in m.links ==> Apart(m, k, k'))
  }

  /** A frame that is neither free nor referenced; nothing but its own taker can use it. */
  ghost predicate Lost(m: Mem, f: nat) {
    f < |m.frames| && f !in m.free && forall k :: k in m.links ==> m.links[k].frame != f
  }

  // ---------------------------------------------------------------- counting references

  /** A frame whose count is at most 1 has at most one link. */
  lemma SoleRef(m: Mem, k: Key, k': Key)
    requires Inv(m) && k in m.links && k' in m.links && m.links[k].frame == m.links[k'].frame
    requires m.links[k].frame < |m.counts| && m.counts[m.links[k].frame] <= 1
    ensures k == k'
  {
    assert CountAt(m, m.links[k].frame);
    if k != k' {
      SubsetCard({k, k'}, Refs(m, m.links[k].frame));
    }
  }

  lemma NoRefs(m: Mem, f: nat)
    requires Inv(m) && f in m.free
    ensures Refs(m, f) == {}
  {
    forall k | k in m.links ensures m.links[k].frame != f { assert LinkAt(m, k); }
  }

  // ---------------------------------------------------------------- primitive changes

  function Link(m: Mem, k: Key, e: Pte): Mem {
    Mem(m.frames, m.counts, m.free, m.links[k := e])
  }

  /** kfree the frame of a link, then clear the link. */
  function Drop(m: Mem, k: Key): Mem
    requires Sizes(m) && (k in m.links ==> m.links[k].frame < |m.frames|)
  {
    if k !in m.links then m else
    var m' := Kfree(m, m.links[k].frame);
    Mem(m'.frames, m'.counts, m'.free, m'.links - {k})
  }

  function Put(m: Mem, f: nat, data: Page): Mem
    requires f < |m.frames|
  {
    Mem(m.frames[f := data], m.counts, m.free, m.links)
  }

  /** A frame in the hands of the kernel: taken from the free list and not linked yet. */
  ghost predicate InHand(m: Mem, f: nat) {
    Sizes(m) && f < |m.frames| && f !in m.free && Refs(m, f) == {} && m.counts[f] == 1
  }

  lemma KallocInv(m: Mem)
    requires Inv(m) && m.free != []
    ensures m.free[0] < |m.frames| && Inv(Kalloc(m)) && InHand(Kalloc(m), m.free[0])
  {
    assert FreeAt(m, 0);
    var f := m.free[0];
    var m' := Kalloc(m);
    NoRefs(m, f);
    forall k | k in m'.links ensures LinkAt(m', k) { assert LinkAt(m, k); }
    forall g: nat | g < |m'.frames| ensures CountAt(m', g) {
      assert CountAt(m, g);
      assert Refs(m', g) == Refs(m, g);
    }
    forall i: nat | i < |m'.free| ensures FreeAt(m', i) { assert FreeAt(m, i + 1); }
    forall k, k' | k in m'.links && k' in m'.links ensures Apart(m', k, k') { assert Apart(m, k, k'); }
    assert Refs(m', f) == Refs(m, f);
  }

  /** Linking a frame in hand, in place of another link or as a new one. */
  lemma LinkInv(m: Mem, k: Key, e: Pte)
    requires Inv(m) && InHand(m, e.frame) && KeyOk(k, e)
    ensures Inv(Link(m, k, e))
    ensures k in m.links ==> |Refs(Link(m, k, e), m.links[k].frame)| == |Refs(m, m.links[k].frame)| - 1
  {
    var m' := Link(m, k, e);
    forall k' | k' in m.links ensures m.links[k'].frame != e.frame { assert k' in Refs(m, m.links[k'].frame); }
    forall k' | k' in m'.links ensures LinkAt(m', k') { if k' != k { assert LinkAt(m, k'); } }
    forall f: nat | f < |m'.frames| ensures CountAt(m', f) {
      assert CountAt(m, f);
      if f == e.frame {
        assert Refs(m', f) == {k};
      } else {
        assert Refs(m', f) == Refs(m, f) - {k};
        SubsetCard(Refs(m', f), Refs(m, f));
      }
    }
    forall i: nat | i < |m'.free| ensures FreeAt(m', i) { assert FreeAt(m, i); }
    forall k1, k2 | k1 in m'.links && k2 in m'.links ensures Apart(m', k1, k2) {
      if k1 != k && k2 != k { assert Apart(m, k1, k2); }
    }
    if k in m.links { assert Refs(m', m.links[k].frame) == Refs(m, m.links[k].frame) - {k}; }
  }

  lemma KfreeInv(m: Mem, f: nat)
    requires Inv(m) && InHand(m, f)
    ensures Inv(Kfree(m, f))
  {
    var m' := Kfree(m, f);
    forall k | k in m'.links ensures LinkAt(m', k) {
      assert LinkAt(m, k);
      assert k in Refs(m, m.links[k].frame);
    }
    forall g: nat | g < |m'.frames| ensures CountAt(m', g) {
      assert CountAt(m, g);
      assert Refs(m', g) == Refs(m, g);
    }
    forall i: nat | i < |m'.free| ensures FreeAt(m', i) { if i > 0 { assert FreeAt(m, i - 1); } }
    forall k, k' | k in m'.links && k' in m'.links ensures Apart(m', k, k') { assert Apart(m, k, k'); }
  }

  lemma PutInv(m: Mem, f: nat, data: Page)
    requires Inv(m) && f < |m.frames|
    ensures Inv(Put(m, f, data))
  {
    var m' := Put(m, f, data);
    forall k | k in m'.links ensures LinkAt(m', k) { assert LinkAt(m, k); }
    forall g: nat | g < |m'.frames| ensures CountAt(m', g) {
      assert CountAt(m, g);
      assert Refs(m', g) == Refs(m, g);
    }
    forall i: nat | i < |m'.free| ensures FreeAt(m', i) { assert FreeAt(m, i); }
    forall k, k' | k in m'.links && k' in m'.links ensures Apart(m', k, k') { assert Apart(m, k, k'); }
  }

  /** Clearing a link keeps every count an upper bound, and frees a frame only when the link was the last. */
  lemma DropInv(m: Mem, k: Key)
    requires Inv(m)
    ensures k in m.links ==> m.links[k].frame < |m.frames|
    ensures Inv(Drop(m, k))
  {
    if k in m.links {
      assert LinkAt(m, k);
      var f := m.links[k].frame;
      var m' := Drop(m, k);
      forall k' | k' in m'.links ensures LinkAt(m', k') {
        assert LinkAt(m, k');
        if m.counts[f] <= 1 && m.links[k'].frame == f { SoleRef(m, k, k'); }
      }
      forall g: nat | g < |m'.frames| ensures CountAt(m', g) {
        assert CountAt(m, g);
        assert Refs(m', g) == Refs(m, g) - {k};
        SubsetCard(Refs(m', g), Refs(m, g));
      }
      forall i: nat | i < |m'.free| ensures FreeAt(m', i) {
        if m.counts[f] > 1 { assert FreeAt(m, i); } else if i > 0 { assert FreeAt(m, i - 1); }
      }
      forall k1, k2 | k1 in m'.links && k2 in m'.links ensures Apart(m', k1, k2) { assert Apart(m, k1, k2); }
    }
  }

  /** The child's link to a frame of the parent, with the count raised. */
  lemma ShareInv(m: Mem, k: Key, k': Key, e: Pte)
    requires Inv(m) && k in m.links && k' !in m.links && k.User? && k'.User? && k'.pg == k.pg
    requires e.frame == m.links[k].frame < |m.frames| && m.counts[e.frame] < 255
    requires !Shared(k) ==> !m.links[k].w && !e.w
    ensures Inv(Incref(Link(m, k', e), e.frame))
  {
    assert LinkAt(m, k);
    var f := e.frame;
    var m' := Incref(Link(m, k', e), f);
    assert CountAt(m, f);
    forall k1 | k1 in m'.links ensures LinkAt(m', k1) {
      if k1 != k' { ShareLinkAt(m, k, k', e, k1); }
    }
    forall g: nat | g < |m'.frames| ensures CountAt(m', g) {
      assert CountAt(m, g);
      assert Refs(m', g) == if g == f then Refs(m, g) + {k'} else Refs(m, g);
    }
    forall i: nat | i < |m'.free| ensures FreeAt(m', i) { assert FreeAt(m, i); }
    forall k1, k2 | k1 in m'.links && k2 in m'.links ensures Apart(m', k1, k2) {
      ShareApart(m, k, k', e, k1, k2);
    }
  }

  lemma ShareLinkAt(m: Mem, k: Key, k': Key, e: Pte, k1: Key)
    requires Inv(m) && k in m.links && k1 in m.links && k' !in m.links && k.User? && k'.User? && k'.pg == k.pg
    requires e.frame == m.links[k].frame < |m.frames| && (!Shared(k) ==> !m.links[k].w)
    ensures LinkAt(Incref(Link(m, k', e), e.frame), k1)
  {
    assert LinkAt(m, k1);
    if m.links[k1].frame == e.frame {
      assert Apart(m, k, k1);
      if m.counts[e.frame] == 1 { SoleRef(m, k, k1); }
    }
  }

  lemma ShareApart(m: Mem, k: Key, k': Key, e: Pte, k1: Key, k2: Key)
    requires Inv(m) && k in m.links && k' !in m.links && k.User? && k'.User? && k'.pg == k.pg
    requires e.frame == m.links[k].frame < |m.frames|
    requires k1 in Link(m, k', e).links && k2 in Link(m, k', e).links
    ensures Apart(Link(m, k', e), k1, k2)
  {
    var a, b := if k1 == k' then k else k1, if k2 == k' then k else k2;
    assert Apart(m, a, b);
  }

  /** Changing the permission bits of a user link. */
  lemma FlagsInv(m: Mem, k: Key, e: Pte)
    requires Inv(m) && k in m.links && k.User? && e.frame == m.links[k].frame < |m.counts|
    requires !Shared(k) && e.w ==> m.counts[e.frame] == 1
    ensures Inv(Link(m, k, e))
  {
    var m' := Link(m, k, e);
    forall k1 | k1 in m'.links ensures LinkAt(m', k1) { assert LinkAt(m, k1); }
    forall g: nat | g < |m'.frames| ensures CountAt(m', g) {
      assert CountAt(m, g);
      assert Refs(m', g) == Refs(m, g);
    }
    forall i: nat | i < |m'.free| ensures FreeAt(m', i) { assert FreeAt(m, i); }
    forall k1, k2 | k1 in m'.links && k2 in m'.links ensures Apart(m', k1, k2) { assert Apart(m, k1, k2); }
  }

  /** decref of a frame with a reference to spare only lowers the count. */
  lemma DecrefInv(m: Mem, f: nat)
    requires Inv(m) && f < |m.frames| && m.counts[f] >= 2 && |Refs(m, f)| < m.counts[f]
    ensures Inv(Decref(m, f)) && Decref(m, f) == Mem(m.frames, m.counts[f := m.counts[f] - 1], m.free, m.links)
  {
    assert CountAt(m, f);
    var m' := Decref(m, f);
    forall k1 | k1 in m'.links ensures LinkAt(m', k1) { assert LinkAt(m, k1); }
    forall g: nat | g < |m'.frames| ensures CountAt(m', g) {
      assert CountAt(m, g);
      assert Refs(m', g) == Refs(m, g);
    }
    forall i: nat | i < |m'.free| ensures FreeAt(m', i) { assert FreeAt(m, i); }
    forall k1, k2 | k1 in m'.links && k2 in m'.links ensures Apart(m', k1, k2) { assert Apart(m, k1, k2); }
  }

  /** Links that become unreachable without being freed. */
  lemma ForgetInv(m: Mem, ks: set<Key>)
    requires Inv(m)
    ensures Inv(Mem(m.frames, m.counts, m.free, m.links - ks))
  {
    var m' := Mem(m.frames, m.counts, m.free, m.links - ks);
    forall k | k in m'.links ensures LinkAt(m', k) { assert LinkAt(m, k); }
    forall g: nat | g < |m'.frames| ensures CountAt(m', g) {
      assert CountAt(m, g);
      SubsetCard(Refs(m', g), Refs(m, g));
    }
    forall i: nat | i < |m'.free| ensures FreeAt(m', i) { assert FreeAt(m, i); }
    forall k, k' | k in m'.links && k' in m'.links ensures Apart(m', k, k') { assert Apart(m, k, k'); }
  }
}
