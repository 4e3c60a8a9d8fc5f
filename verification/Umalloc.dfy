/** The allocator of umalloc.c: a circular free list in address order.  Addresses count units of
    one header; a block is a header and the payload behind it.
 */
module Umalloc {

  datatype Header = Header(ptr: int, size: int)

  /** The headers in memory, the free list from `base` upwards, the blocks handed out with their
      sizes, and for every unit obtained from sbrk the block it lies in. */
  datatype Arena = Arena(hdr: map<int, Header>, ring: seq<int>, used: map<int, int>, owner: map<int, int>)

  function Succ(ring: seq<int>, i: nat): int
    requires i < |ring|
  {
    if i + 1 == |ring| then ring[0] else ring[i + 1]
  }

  /** Free block `i` links to the next one up, the last one to the first; blocks neither overlap
      nor touch, except that blocks i and i + 1 may touch for lo <= i < hi. */
  predicate NodeAt(h: Arena, lo: int, hi: int, i: nat) {
    i < |h.ring| ==>
      var b := h.ring[i];
      && b in h.hdr && h.hdr[b].ptr == Succ(h.ring, i)
      && (if i == 0 then h.hdr[b].size == 0 else h.hdr[b].size > 0)
      && (i + 1 < |h.ring| ==>
            b + h.hdr[b].size < h.ring[i + 1] || (lo <= i < hi && 0 < i && b + h.hdr[b].size == h.ring[i + 1]))
  }

  predicate Owned(owner: map<int, int>, a: int, b: int) {
    a in owner && owner[a] == b
  }

  /** The block at `b` owns its `n` units. */
  ghost predicate Owns(owner: map<int, int>, b: int, n: int) {
    forall a :: b <= a < b + n ==> Owned(owner, a, b)
  }

  ghost predicate FreeAt(h: Arena, i: nat) {
    0 < i < |h.ring| && h.ring[i] in h.hdr ==> Owns(h.owner, h.ring[i], h.hdr[h.ring[i]].size)
  }

  ghost predicate UsedAt(h: Arena, u: int) {
    u in h.used && |h.ring| > 0 ==>
      && u in h.hdr && h.hdr[u].size == h.used[u] > 0 && u > h.ring[0] && u !in h.ring
      && Owns(h.owner, u, h.used[u])
  }

  /** Every unit lies in the block that owns it, and that is a free block or one handed out. */
  predicate UnitAt(h: Arena, a: int) {
    a in h.owner ==>
      var b := h.owner[a];
      && a in h.hdr && b in h.hdr && b <= a < b + h.hdr[b].size && (b in h.used || b in h.ring)
  }

  ghost predicate Inv(h: Arena, lo: int, hi: int) {
    && |h.ring| > 0
    && (forall i: nat :: NodeAt(h, lo, hi, i))
    && (forall i: nat :: FreeAt(h, i))
    && (forall u :: UsedAt(h, u))
    && (forall a :: UnitAt(h, a))
  }

  /** Lower free blocks end below higher ones start. */
  lemma {:induction false} Sorted(h: Arena, lo: int, hi: int, i: nat, j: nat)
    requires (forall i: nat :: NodeAt(h, lo, hi, i)) && i < j < |h.ring|
    ensures h.ring[i] in h.hdr && h.ring[i] + h.hdr[h.ring[i]].size <= h.ring[j] && h.ring[i] < h.ring[j]
    ensures lo >= hi ==> h.ring[i] + h.hdr[h.ring[i]].size < h.ring[j]
    decreases j - i
  {
    assert NodeAt(h, lo, hi, i);
    if i + 1 < j {
      Sorted(h, lo, hi, i + 1, j);
      assert NodeAt(h, lo, hi, i + 1);
    }
  }

  /** Units have one owner, so blocks do not overlap. */
  lemma Clash(owner: map<int, int>, b: int, n: int, b': int, n': int, a: int)
    requires Owns(owner, b, n) && Owns(owner, b', n') && b != b'
    ensures !(b <= a < b + n && b' <= a < b' + n')
  {
    assert b <= a < b + n ==> Owned(owner, a, b);
    assert b' <= a < b' + n' ==> Owned(owner, a, b');
  }

  // ---------------------------------------------------------------- free

  /** Block `bp` belongs between free block t and the next. */
  predicate Fits(h: Arena, t: nat, bp: int) {
    t < |h.ring| && h.ring[t] < bp && (t + 1 < |h.ring| ==> bp < h.ring[t + 1])
  }

  /** A block to be freed touches its neighbours in the list at most. */
  lemma Neighbours(h: Arena, t: nat, bp: int)
    requires Inv(h, 0, 0) && Fits(h, t, bp) && bp in h.used
    ensures h.ring[t] in h.hdr && bp in h.hdr && h.ring[t] + h.hdr[h.ring[t]].size <= bp
    ensures t + 1 < |h.ring| ==> bp + h.hdr[bp].size <= h.ring[t + 1]
  {
    assert UsedAt(h, bp) && NodeAt(h, 0, 0, t) && FreeAt(h, t);
    if t > 0 { Clash(h.owner, h.ring[t], h.hdr[h.ring[t]].size, bp, h.hdr[bp].size, bp); }
    if t + 1 < |h.ring| {
      assert NodeAt(h, 0, 0, t + 1) && FreeAt(h, t + 1);
      Clash(h.owner, h.ring[t + 1], h.hdr[h.ring[t + 1]].size, bp, h.hdr[bp].size, h.ring[t + 1]);
    }
  }

  /** Link `bp` in after free block t. */
  function Insert(h: Arena, t: nat, bp: int): Arena
    requires Fits(h, t, bp) && bp in h.hdr && h.ring[t] in h.hdr
  {
    Arena(h.hdr[bp := Header(Succ(h.ring, t), h.hdr[bp].size)][h.ring[t] := Header(bp, h.hdr[h.ring[t]].size)],
          h.ring[..t + 1] + [bp] + h.ring[t + 1..], h.used - {bp}, h.owner)
  }

  lemma InsertInv(h: Arena, t: nat, bp: int)
    requires Inv(h, 0, 0) && Fits(h, t, bp) && bp in h.used
    requires h.ring[t] in h.hdr && bp in h.hdr
    ensures Inv(Insert(h, t, bp), t, t + 2)
  {
    var h' := Insert(h, t, bp);
    Neighbours(h, t, bp);
    assert UsedAt(h, bp) && NodeAt(h, 0, 0, t);
    var hi := t + 2;
    forall i: nat ensures NodeAt(h', t, hi, i) {
      if i <= t { assert NodeAt(h, 0, 0, i); } else { assert NodeAt(h, 0, 0, i - 1); }
      if i < t { Sorted(h, 0, 0, i, t); }
      if t + 1 < i <= |h.ring| { Sorted(h, 0, 0, t, i - 1); }
    }
    forall i: nat ensures FreeAt(h', i) {
      if i <= t { assert FreeAt(h, i); } else { assert FreeAt(h, i - 1); }
    }
    forall u ensures UsedAt(h', u) { assert UsedAt(h, u); }
    forall a ensures UnitAt(h', a) { assert UnitAt(h, a); }
  }

  /** Free blocks j and j + 1 touch. */
  predicate Touch(h: Arena, j: nat) {
    && j + 1 < |h.ring| && h.ring[j] in h.hdr && h.ring[j + 1] in h.hdr
    && h.ring[j] + h.hdr[h.ring[j]].size == h.ring[j + 1]
  }

  function Reowned(owner: map<int, int>, from: int, to: int): map<int, int> {
    map a | a in owner :: if owner[a] == from then to else owner[a]
  }

  lemma ReownedOther(owner: map<int, int>, from: int, to: int, c: int, n: int)
    requires Owns(owner, c, n) && c != from
    ensures Owns(Reowned(owner, from, to), c, n)
  {
    forall a | c <= a < c + n ensures Owned(Reowned(owner, from, to), a, c) { assert Owned(owner, a, c); }
  }

  lemma ReownedJoin(owner: map<int, int>, b: int, n: int, n': int)
    requires Owns(owner, b, n) && Owns(owner, b + n, n') && n > 0
    ensures Owns(Reowned(owner, b + n, b), b, n + n')
  {
    var owner' := Reowned(owner, b + n, b);
    forall a | b <= a < b + n + n' ensures Owned(owner', a, b) {
      if a < b + n { assert Owned(owner, a, b); } else { assert Owned(owner, a, b + n); }
    }
  }

  /** Merge free block j + 1 into block j if they touch. */
  function Settle(h: Arena, j: nat): Arena {
    if !Touch(h, j) then h else
    var b, up := h.ring[j], h.ring[j + 1];
    Arena(h.hdr[b := Header(h.hdr[up].ptr, h.hdr[b].size + h.hdr[up].size)],
          h.ring[..j + 1] + h.ring[j + 2..], h.used, Reowned(h.owner, up, b))
  }

  lemma SettleInv(h: Arena, lo: int, j: nat)
    requires Inv(h, lo, j + 1) && lo <= j
    ensures Inv(Settle(h, j), lo, j)
  {
    var h' := Settle(h, j);
    if !Touch(h, j) {
      forall i: nat ensures NodeAt(h', lo, j, i) { assert NodeAt(h, lo, j + 1, i) && NodeAt(h, lo, j + 1, i + 1); }
    } else {
      assert NodeAt(h, lo, j + 1, j) && NodeAt(h, lo, j + 1, j + 1);
      forall i: nat ensures NodeAt(h', lo, j, i) { MergedNode(h, lo, j, i); }
      forall i: nat ensures FreeAt(h', i) { MergedFree(h, lo, j, i); }
      forall u ensures UsedAt(h', u) {
        assert UsedAt(h, u);
        if u in h.used { ReownedOther(h.owner, h.ring[j + 1], h.ring[j], u, h.used[u]); }
      }
      forall a ensures UnitAt(h', a) { assert UnitAt(h, a); }
    }
  }

  lemma MergedNode(h: Arena, lo: int, j: nat, i: nat)
    requires Inv(h, lo, j + 1) && lo <= j && Touch(h, j)
    ensures NodeAt(Settle(h, j), lo, j, i)
  {
    assert NodeAt(h, lo, j + 1, j) && NodeAt(h, lo, j + 1, j + 1);
    if i <= j { assert NodeAt(h, lo, j + 1, i); } else { assert NodeAt(h, lo, j + 1, i + 1); }
    if i < j { Sorted(h, lo, j + 1, i, j); }
    if j < i < |h.ring| - 1 { Sorted(h, lo, j + 1, j, i + 1); }
  }

  lemma MergedFree(h: Arena, lo: int, j: nat, i: nat)
    requires Inv(h, lo, j + 1) && lo <= j && Touch(h, j)
    ensures FreeAt(Settle(h, j), i)
  {
    assert FreeAt(h, j) && FreeAt(h, j + 1) && NodeAt(h, lo, j + 1, j);
    var b, up := h.ring[j], h.ring[j + 1];
    if i == j && j > 0 {
      ReownedJoin(h.owner, b, h.hdr[b].size, h.hdr[up].size);
    } else if i != j && i < |h.ring| - 1 {
      var k := if i < j then i else i + 1;
      assert FreeAt(h, k) && NodeAt(h, lo, j + 1, k);
      if i < j {
        Sorted(h, lo, j + 1, i, j);
        Sorted(h, lo, j + 1, i, j + 1);
      } else {
        Sorted(h, lo, j + 1, j + 1, k);
        Sorted(h, lo, j + 1, j, k);
      }
      ReownedOther(h.owner, up, b, h.ring[k], h.hdr[h.ring[k]].size);
    }
  }

  // ---------------------------------------------------------------- malloc

  predicate Within(q: int, a: int, n: int) {
    q <= a < q + n
  }

  function Carved(owner: map<int, int>, q: int, n: int): map<int, int> {
    map a | a in owner :: if Within(q, a, n) then q else owner[a]
  }

  /** Take `n` units from free block i: all of it, or its upper end. */
  function Take(h: Arena, i: nat, n: int): Arena
    requires 0 < i < |h.ring| && h.ring[i] in h.hdr && h.ring[i - 1] in h.hdr
    requires h.ring[i] + h.hdr[h.ring[i]].size - n in h.hdr
  {
    var p := h.ring[i];
    var q := p + h.hdr[p].size - n;
    if q == p then
      Arena(h.hdr[h.ring[i - 1] := Header(Succ(h.ring, i), h.hdr[h.ring[i - 1]].size)],
            h.ring[..i] + h.ring[i + 1..], h.used[p := n], h.owner)
    else
      Arena(h.hdr[p := Header(h.hdr[p].ptr, h.hdr[p].size - n)][q := Header(h.hdr[q].ptr, n)],
            h.ring, h.used[q := n], Carved(h.owner, q, n))
  }

  /** The header of the taken part is memory of the allocator. */
  lemma TakeMapped(h: Arena, i: nat, n: int)
    requires Inv(h, 0, 0) && 0 < i < |h.ring| && h.ring[i] in h.hdr && 0 < n <= h.hdr[h.ring[i]].size
    ensures h.ring[i - 1] in h.hdr && h.ring[i] + h.hdr[h.ring[i]].size - n in h.hdr
  {
    assert NodeAt(h, 0, 0, i - 1) && FreeAt(h, i);
    var q := h.ring[i] + h.hdr[h.ring[i]].size - n;
    assert Owned(h.owner, q, h.ring[i]) && UnitAt(h, q);
  }

  lemma TakeAllInv(h: Arena, i: nat, n: int)
    requires Inv(h, 0, 0) && 0 < i < |h.ring| && h.ring[i] in h.hdr && 0 < n == h.hdr[h.ring[i]].size
    requires h.ring[i - 1] in h.hdr
    ensures Inv(Take(h, i, n), 0, 0)
  {
    var h' := Take(h, i, n);
    assert NodeAt(h, 0, 0, i) && NodeAt(h, 0, 0, i - 1);
    Sorted(h, 0, 0, i - 1, i);
    forall k: nat ensures NodeAt(h', 0, 0, k) {
      if k < i { assert NodeAt(h, 0, 0, k); } else { assert NodeAt(h, 0, 0, k + 1); }
      if k < i - 1 { Sorted(h, 0, 0, k, i - 1); }
      if i <= k < |h.ring| - 1 { Sorted(h, 0, 0, i - 1, k + 1); }
    }
    forall k: nat ensures FreeAt(h', k) {
      if k < i { assert FreeAt(h, k); } else { assert FreeAt(h, k + 1); }
    }
    forall u ensures UsedAt(h', u) {
      assert UsedAt(h, u) && UsedAt(h, h.ring[i - 1]) && FreeAt(h, i);
      if u == h.ring[i] { TakenOut(h, i); Sorted(h, 0, 0, 0, i); }
    }
    forall a ensures UnitAt(h', a) { assert UnitAt(h, a); }
  }

  lemma TakenOut(h: Arena, i: nat)
    requires Inv(h, 0, 0) && 0 < i < |h.ring|
    ensures h.ring[i] !in h.ring[..i] + h.ring[i + 1..]
  {
    forall k: nat | k < |h.ring| && k != i ensures h.ring[k] != h.ring[i] {
      if k < i { Sorted(h, 0, 0, k, i); } else { Sorted(h, 0, 0, i, k); }
    }
  }

  lemma CarvedOther(owner: map<int, int>, q: int, n: int, c: int, m: int)
    requires Owns(owner, c, m) && forall a :: c <= a < c + m ==> !Within(q, a, n)
    ensures Owns(Carved(owner, q, n), c, m)
  {
    forall a | c <= a < c + m ensures Owned(Carved(owner, q, n), a, c) {
      assert Owned(owner, a, c) && !Within(q, a, n);
    }
  }

  lemma CarvedPart(owner: map<int, int>, b: int, q: int, n: int)
    requires Owns(owner, b, q + n - b) && b < q && 0 < n
    ensures Owns(Carved(owner, q, n), b, q - b) && Owns(Carved(owner, q, n), q, n)
  {
    var owner' := Carved(owner, q, n);
    forall a | b <= a < q ensures Owned(owner', a, b) { assert Owned(owner, a, b); }
    forall a | q <= a < q + n ensures Owned(owner', a, q) { assert Owned(owner, a, b); }
  }

  lemma TakePartInv(h: Arena, i: nat, n: int)
    requires Inv(h, 0, 0) && 0 < i < |h.ring| && h.ring[i] in h.hdr && 0 < n < h.hdr[h.ring[i]].size
    requires h.ring[i - 1] in h.hdr && h.ring[i] + h.hdr[h.ring[i]].size - n in h.hdr
    ensures Inv(Take(h, i, n), 0, 0)
  {
    var h' := Take(h, i, n);
    var p, m := h.ring[i], h.hdr[h.ring[i]].size;
    var q := p + m - n;
    assert NodeAt(h, 0, 0, i) && FreeAt(h, i);
    assert Owned(h.owner, q, p);
    CarvedPart(h.owner, p, q, n);
    forall k: nat | k < |h.ring| ensures h.ring[k] != q && (k != i ==> h.ring[k] != p) { PartApart(h, i, k, q); }
    forall k: nat ensures NodeAt(h', 0, 0, k) { assert NodeAt(h, 0, 0, k); }
    forall k: nat ensures FreeAt(h', k) {
      assert NodeAt(h, 0, 0, k) && FreeAt(h, k);
      if 0 < k < |h.ring| && k != i {
        var c := h.ring[k];
        forall a | c <= a < c + h.hdr[c].size ensures !Within(q, a, n) { Clash(h.owner, c, h.hdr[c].size, p, m, a); }
        CarvedOther(h.owner, q, n, c, h.hdr[c].size);
      }
    }
    forall u ensures UsedAt(h', u) {
      assert UsedAt(h, u);
      if u in h.used {
        forall a | u <= a < u + h.used[u] ensures !Within(q, a, n) { Clash(h.owner, u, h.used[u], p, m, a); }
        CarvedOther(h.owner, q, n, u, h.used[u]);
      }
      if u == q { Sorted(h, 0, 0, 0, i); }
    }
    assert UsedAt(h, p) && UsedAt(h, q);
    if q in h.used { Clash(h.owner, q, h.used[q], p, m, q); }
    forall a ensures UnitAt(h', a) { assert UnitAt(h, a); }
  }

  lemma PartApart(h: Arena, i: nat, k: nat, q: int)
    requires Inv(h, 0, 0) && 0 < i < |h.ring| && k < |h.ring| && h.ring[i] in h.hdr
    requires h.ring[i] < q < h.ring[i] + h.hdr[h.ring[i]].size
    ensures h.ring[k] != q && (k != i ==> h.ring[k] != h.ring[i])
  {
    if k < i { Sorted(h, 0, 0, k, i); }
    if i < k { Sorted(h, 0, 0, i, k); }
  }

  // ---------------------------------------------------------------- sbrk

  /** `n` units from `hp` on, above `base`, that the allocator does not have yet. */
  ghost predicate Unmapped(owner: map<int, int>, base: int, hp: int, n: int) {
    base < hp && forall a :: Within(hp, a, n) ==> a !in owner
  }

  function Core(hp: int, n: int): map<int, int> {
    map a | hp <= a < hp + n && Within(hp, a, n) :: hp
  }

  /** Zeroed memory from sbrk, with the header morecore writes, as one block in use. */
  function AddCore(h: Arena, hp: int, n: int): Arena {
    Arena(h.hdr + map a | hp <= a < hp + n && Within(hp, a, n) :: Header(0, if a == hp then n else 0),
          h.ring, h.used[hp := n], h.owner + Core(hp, n))
  }

  lemma CoreOther(owner: map<int, int>, hp: int, n: int, c: int, m: int)
    requires Owns(owner, c, m) && forall a :: Within(hp, a, n) ==> a !in owner
    ensures Owns(owner + Core(hp, n), c, m)
  {
    forall a | c <= a < c + m ensures Owned(owner + Core(hp, n), a, c) {
      assert Owned(owner, a, c) && a !in Core(hp, n);
    }
  }

  lemma AddCoreInv(h: Arena, hp: int, n: int)
    requires Inv(h, 0, 0) && n > 0 && Unmapped(h.owner, h.ring[0], hp, n)
    ensures Inv(AddCore(h, hp, n), 0, 0)
  {
    var h' := AddCore(h, hp, n);
    forall i: nat | i < |h.ring| ensures !Within(hp, h.ring[i], n) {
      assert NodeAt(h, 0, 0, i) && FreeAt(h, i);
      if 0 < i { assert Owned(h.owner, h.ring[i], h.ring[i]); }
    }
    forall u | u in h.used ensures !Within(hp, u, n) { assert UsedAt(h, u) && Owned(h.owner, u, u); }
    forall i: nat ensures NodeAt(h', 0, 0, i) && FreeAt(h', i) {
      assert NodeAt(h, 0, 0, i) && FreeAt(h, i);
      if 0 < i < |h.ring| { CoreOther(h.owner, hp, n, h.ring[i], h.hdr[h.ring[i]].size); }
    }
    forall u ensures UsedAt(h', u) {
      assert UsedAt(h, u);
      if u in h.used { CoreOther(h.owner, hp, n, u, h.used[u]); }
    }
    forall a ensures UnitAt(h', a) { assert UnitAt(h, a); }
  }

  // ---------------------------------------------------------------- what free and malloc do to the units

  /** The units that no block in use owns. */
  ghost function FreeUnits(h: Arena): set<int> {
    set a | a in h.owner && h.owner[a] !in h.used
  }

  ghost function Units(b: int, n: int): set<int> {
    set a | b <= a < b + n && Within(b, a, n)
  }

  /** The blocks in use in `h'` keep their units and their contents. */
  ghost predicate Untouched(h: Arena, h': Arena) {
    forall a {:trigger h.owner[a]} :: a in h.owner && h.owner[a] in h.used && h.owner[a] in h'.used ==>
      Owned(h'.owner, a, h.owner[a]) && a in h.hdr && a in h'.hdr && h'.hdr[a] == h.hdr[a]
  }

  /** The effect of free: link the block in, merge it upwards, then downwards. */
  function Freed(h: Arena, t: nat, bp: int): Arena
    requires Fits(h, t, bp) && bp in h.hdr && h.ring[t] in h.hdr
  {
    Settle(Settle(Insert(h, t, bp), t + 1), t)
  }

  /** The headers after free put block `bp` behind node `p`. */
  function Joined(hdr: map<int, Header>, p: int, bp: int): map<int, Header>
    requires bp in hdr && p in hdr && hdr[p].ptr in hdr
  {
    var up := hdr[p].ptr;
    var b := if bp + hdr[bp].size == up then Header(hdr[up].ptr, hdr[bp].size + hdr[up].size)
             else Header(up, hdr[bp].size);
    if p + hdr[p].size == bp then hdr[bp := b][p := Header(b.ptr, hdr[p].size + b.size)]
    else hdr[bp := b][p := Header(bp, hdr[p].size)]
  }

  /** The code's two tests find exactly the neighbours that touch the block. */
  lemma FreedHeaders(h: Arena, t: nat, bp: int)
    requires Inv(h, 0, 0) && Fits(h, t, bp) && bp in h.used
    ensures bp in h.hdr && h.ring[t] in h.hdr && h.hdr[h.ring[t]].ptr in h.hdr && bp != h.hdr[h.ring[t]].ptr
    ensures Freed(h, t, bp).hdr == Joined(h.hdr, h.ring[t], bp) && h.ring[t] in Freed(h, t, bp).ring
    ensures Freed(h, t, bp).ring[0] == h.ring[0]
  {
    assert UsedAt(h, bp) && NodeAt(h, 0, 0, t) && NodeAt(h, 0, 0, t + 1) && NodeAt(h, 0, 0, 0);
    Neighbours(h, t, bp);
    var h1 := Insert(h, t, bp);
    assert h1.ring[t] == h.ring[t] && h1.ring[t + 1] == bp;
    if t + 1 < |h.ring| {
      assert h1.ring[t + 2] == h.ring[t + 1];
      Sorted(h, 0, 0, t, t + 1);
    } else if t > 0 {
      Sorted(h, 0, 0, 0, t);
    }
    var h2 := Settle(h1, t + 1);
    assert h2.ring[t] == h.ring[t] && h2.ring[t + 1] == bp;
  }

  lemma InsertUnits(h: Arena, t: nat, bp: int)
    requires Inv(h, 0, 0) && Fits(h, t, bp) && bp in h.used && bp in h.hdr && h.ring[t] in h.hdr
    ensures var h' := Insert(h, t, bp);
            FreeUnits(h') == FreeUnits(h) + Units(bp, h.used[bp]) && h'.owner.Keys == h.owner.Keys && Untouched(h, h')
  {
    var h' := Insert(h, t, bp);
    assert UsedAt(h, bp);
    forall a | a in h.owner ensures h.owner[a] == bp <==> a in Units(bp, h.used[bp]) {
      assert UnitAt(h, a);
      if bp <= a < bp + h.used[bp] { assert Owned(h.owner, a, bp); }
    }
    assert Units(bp, h.used[bp]) <= h.owner.Keys by {
      forall a | a in Units(bp, h.used[bp]) ensures a in h.owner { assert Owned(h.owner, a, bp); }
    }
    forall a | a in h.owner && h.owner[a] in h.used && h.owner[a] != bp ensures a in h.hdr && h'.hdr[a] == h.hdr[a] {
      assert UnitAt(h, a);
      ListApart(h, 0, 0, t, a);
    }
  }

  /** A unit of a block in use is no free list header. */
  lemma ListApart(h: Arena, lo: int, hi: int, t: nat, a: int)
    requires Inv(h, lo, hi) && t < |h.ring| && a in h.owner && h.owner[a] in h.used
    ensures a != h.ring[t]
  {
    assert UnitAt(h, a) && UsedAt(h, h.owner[a]) && NodeAt(h, lo, hi, t) && FreeAt(h, t);
    assert t > 0 ==> Owned(h.owner, h.ring[t], h.ring[t]);
  }

  lemma SettleUnits(h: Arena, lo: int, hi: int, j: nat)
    requires Inv(h, lo, hi)
    ensures var h' := Settle(h, j);
            && FreeUnits(h') == FreeUnits(h) && h'.owner.Keys == h.owner.Keys && h'.used == h.used
            && Untouched(h, h')
  {
    if Touch(h, j) {
      var h' := Settle(h, j);
      assert UsedAt(h, h.ring[j]) && UsedAt(h, h.ring[j + 1]);
      forall a | a in h.owner && h.owner[a] in h.used ensures a in h.hdr && h'.hdr[a] == h.hdr[a] {
        assert UnitAt(h, a);
        ListApart(h, lo, hi, j, a);
      }
    } else {
      forall a | a in h.owner ensures a in h.hdr { assert UnitAt(h, a); }
    }
  }

  /** free gives back exactly the units of its block and touches no other block in use. */
  lemma FreedInv(h: Arena, t: nat, bp: int)
    requires Inv(h, 0, 0) && Fits(h, t, bp) && bp in h.used && bp in h.hdr && h.ring[t] in h.hdr
    ensures var h' := Freed(h, t, bp);
            && Inv(h', 0, 0) && h'.used == h.used - {bp} && h'.owner.Keys == h.owner.Keys && Untouched(h, h')
            && FreeUnits(h') == FreeUnits(h) + Units(bp, h.used[bp])
  {
    var h1 := Insert(h, t, bp);
    InsertInv(h, t, bp);
    InsertUnits(h, t, bp);
    var h2 := Settle(h1, t + 1);
    SettleInv(h1, t, t + 1);
    SettleUnits(h1, t, t + 2, t + 1);
    var h3 := Settle(h2, t);
    SettleInv(h2, t, t);
    SettleUnits(h2, t, t + 1, t);
    UntouchedTrans(h, h1, h2);
    UntouchedTrans(h, h2, h3);
    Tight(h3, t);
  }

  lemma UntouchedTrans(h1: Arena, h2: Arena, h3: Arena)
    requires Untouched(h1, h2) && Untouched(h2, h3) && h3.used.Keys <= h2.used.Keys
    ensures Untouched(h1, h3)
  {
    forall a | a in h1.owner && h1.owner[a] in h1.used && h1.owner[a] in h3.used
      ensures Owned(h3.owner, a, h1.owner[a]) && a in h1.hdr && a in h3.hdr && h3.hdr[a] == h1.hdr[a]
    {
      assert Owned(h2.owner, a, h1.owner[a]);
      assert h2.owner[a] in h2.used;
    }
  }

  lemma Tight(h: Arena, t: int)
    requires Inv(h, t, t)
    ensures Inv(h, 0, 0)
  {
    forall i: nat ensures NodeAt(h, 0, 0, i) { assert NodeAt(h, t, t, i); }
  }

  /** malloc hands out exactly `n` units, all free before, and touches no block in use. */
  lemma TakeUnits(h: Arena, i: nat, n: int)
    requires Inv(h, 0, 0) && 0 < i < |h.ring| && h.ring[i] in h.hdr && 0 < n <= h.hdr[h.ring[i]].size
    requires h.ring[i - 1] in h.hdr && h.ring[i] + h.hdr[h.ring[i]].size - n in h.hdr
    ensures var h' := Take(h, i, n); var q := h.ring[i] + h.hdr[h.ring[i]].size - n;
            && Inv(h', 0, 0) && h'.owner.Keys == h.owner.Keys && Untouched(h, h')
            && q !in h.used && h'.used == h.used[q := n]
            && Units(q, n) <= FreeUnits(h) && FreeUnits(h') == FreeUnits(h) - Units(q, n)
  {
    var h' := Take(h, i, n);
    var p := h.ring[i];
    var q := p + h.hdr[p].size - n;
    if q == p { TakeAllInv(h, i, n); } else { TakePartInv(h, i, n); }
    assert NodeAt(h, 0, 0, i) && FreeAt(h, i) && UsedAt(h, p) && UsedAt(h, q);
    if q in h.used { Clash(h.owner, q, h.used[q], p, h.hdr[p].size, q); }
    forall a | a in Units(q, n) ensures a in FreeUnits(h) { assert Owned(h.owner, a, p); }
    forall a | a in h.owner ensures a in h.hdr && (h'.owner[a] == q <==> a in Units(q, n)) {
      assert UnitAt(h, a) && UnitAt(h', a);
      if a in Units(q, n) { assert Owned(h.owner, a, p); }
    }
    forall a | a in h.owner && h.owner[a] in h.used ensures h'.hdr[a] == h.hdr[a] && h'.owner[a] == h.owner[a] {
      ListApart(h, 0, 0, i, a);
      ListApart(h, 0, 0, i - 1, a);
      if Within(q, a, n) { assert a in Units(q, n); }
    }
  }

  /** sbrk adds its units to those of the allocator. */
  lemma AddCoreUnits(h: Arena, hp: int, n: int)
    requires Inv(h, 0, 0) && n > 0 && Unmapped(h.owner, h.ring[0], hp, n)
    ensures var h' := AddCore(h, hp, n);
            && h'.owner.Keys == h.owner.Keys + Units(hp, n) && h'.used == h.used[hp := n] && hp !in h.used
            && FreeUnits(h') == FreeUnits(h) && Untouched(h, h')
  {
    var h' := AddCore(h, hp, n);
    assert Within(hp, hp, n) && UsedAt(h, hp);
    assert hp in h.used ==> Owned(h.owner, hp, hp);
    forall a | a in h.owner ensures a in h.hdr && !Within(hp, a, n) { assert UnitAt(h, a); }
    forall a | a in h.owner ensures h.owner[a] != hp {
      assert UnitAt(h, a);
      if h.owner[a] in h.ring {
        var k: nat :| k < |h.ring| && h.ring[k] == h.owner[a];
        assert FreeAt(h, k) && NodeAt(h, 0, 0, k);
        if k > 0 { assert Owned(h.owner, h.ring[k], h.ring[k]); }
      }
    }
  }

  // ---------------------------------------------------------------- searches

  /** Where `bp` belongs in the list. */
  lemma {:induction false} Place(h: Arena, bp: int, n: nat) returns (t: nat)
    requires Inv(h, 0, 0) && bp > h.ring[0] && bp !in h.ring && 0 < n <= |h.ring|
    requires n < |h.ring| ==> bp < h.ring[n]
    ensures Fits(h, t, bp)
  {
    if h.ring[n - 1] < bp {
      t := n - 1;
    } else {
      t := Place(h, bp, n - 1);
    }
  }

  /** The tests of free's search succeed at that place and nowhere else. */
  lemma SearchStops(h: Arena, t: nat, bp: int, i: nat)
    requires Inv(h, 0, 0) && Fits(h, t, bp) && bp !in h.ring && i < |h.ring|
    ensures h.ring[i] in h.hdr
    ensures var p, next := h.ring[i], h.hdr[h.ring[i]].ptr;
            (bp > p && bp < next) || (p >= next && (bp > p || bp < next)) <==> i == t
  {
    assert NodeAt(h, 0, 0, i);
    if i < t { Sorted(h, 0, 0, i, t); }
    if i + 1 < t { Sorted(h, 0, 0, i + 1, t); }
    if t < i { Sorted(h, 0, 0, t, i); }
    if t + 1 < i { Sorted(h, 0, 0, t + 1, i); }
    if 0 < i { Sorted(h, 0, 0, 0, i); }
    if 0 < t { Sorted(h, 0, 0, 0, t); }
  }

  function NextIndex(ring: seq<int>, i: nat): (j: nat)
    requires i < |ring|
    ensures j < |ring| && ring[j] == Succ(ring, i)
  {
    if i + 1 == |ring| then 0 else i + 1
  }

  /** How many steps around the list lead from node i to node t. */
  function Distance(n: nat, i: nat, t: nat): nat
    requires i < n && t < n
  {
    if i <= t then t - i else n - i + t
  }

  /** Free block i has at least `n` units. */
  predicate Large(h: Arena, i: nat, n: int) {
    0 < i < |h.ring| && h.ring[i] in h.hdr && h.hdr[h.ring[i]].size >= n
  }

  ghost predicate Fit(h: Arena, n: int) {
    exists i: nat :: Large(h, i, n)
  }

  lemma FreeIndex(h: Arena, a: int) returns (i: nat)
    requires Inv(h, 0, 0) && a in FreeUnits(h)
    ensures 0 < i < |h.ring| && h.ring[i] == h.owner[a] && h.ring[i] in h.hdr
    ensures h.ring[i] <= a < h.ring[i] + h.hdr[h.ring[i]].size
  {
    assert UnitAt(h, a);
    i :| i < |h.ring| && h.ring[i] == h.owner[a];
    assert NodeAt(h, 0, 0, i);
  }

  /** Neighbouring free units lie in one block: free blocks never touch. */
  lemma NeverAdjacent(h: Arena, a: int)
    requires Inv(h, 0, 0) && a in FreeUnits(h) && a + 1 in FreeUnits(h)
    ensures h.owner[a] == h.owner[a + 1]
  {
    var i := FreeIndex(h, a);
    var j := FreeIndex(h, a + 1);
    if i < j { Sorted(h, 0, 0, i, j); }
    if j < i { Sorted(h, 0, 0, j, i); }
  }

  lemma {:induction false} OneBlock(h: Arena, a: int, n: nat)
    requires Inv(h, 0, 0) && n > 0 && Units(a, n) <= FreeUnits(h)
    ensures a in h.owner && a + n - 1 in h.owner && h.owner[a + n - 1] == h.owner[a]
  {
    assert Within(a, a + n - 1, n) && a + n - 1 in Units(a, n);
    if n > 1 {
      forall x | x in Units(a, n - 1) ensures x in FreeUnits(h) { assert Within(a, x, n); }
      assert Within(a, a + n - 2, n) && a + n - 2 in Units(a, n);
      OneBlock(h, a, n - 1);
      NeverAdjacent(h, a + n - 2);
    }
  }

  /** So `n` free units in a row are a fit. */
  lemma RowFits(h: Arena, a: int, n: nat)
    requires Inv(h, 0, 0) && n > 0 && Units(a, n) <= FreeUnits(h)
    ensures Fit(h, n)
  {
    OneBlock(h, a, n);
    assert Within(a, a, n) && a in Units(a, n);
    assert Within(a, a + n - 1, n) && a + n - 1 in Units(a, n);
    var i := FreeIndex(h, a);
    var j := FreeIndex(h, a + n - 1);
    assert Large(h, i, n);
  }

  /** The node that links to node i. */
  function PrevIndex(ring: seq<int>, i: nat): (j: nat)
    requires i < |ring|
    ensures j < |ring| && NextIndex(ring, j) == i
  {
    if i == 0 then |ring| - 1 else i - 1
  }

  /** malloc's search starts behind freep, node f, and has passed node j before node i. */
  predicate Passed(ring: seq<int>, f: nat, j: nat, i: nat) {
    f < |ring| && j < |ring| && i < |ring| &&
    Distance(|ring|, NextIndex(ring, f), j) < Distance(|ring|, NextIndex(ring, f), i)
  }

  ghost predicate PassedSmall(h: Arena, f: nat, i: nat, n: int) {
    forall j: nat :: Passed(h.ring, f, j, i) ==> !Large(h, j, n)
  }

  lemma AllPassed(h: Arena, f: nat, n: int)
    requires Inv(h, 0, 0) && f < |h.ring| && PassedSmall(h, f, f, n) && !Large(h, f, n)
    ensures !Fit(h, n)
  {
    forall j: nat ensures !Large(h, j, n) { assert j < |h.ring| && j != f ==> Passed(h.ring, f, j, f); }
  }

  /** The search stands at node i, `prevp` links to it, and the nodes passed are too small. */
  ghost predicate Scanning(h: Arena, f: nat, i: nat, prevp: int, p: int, n: int) {
    && f < |h.ring| && i < |h.ring| && h.ring[i] == p && p in h.hdr
    && h.ring[PrevIndex(h.ring, i)] == prevp && PassedSmall(h, f, i, n)
  }

  lemma ScanStarts(h: Arena, f: nat, n: int)
    requires Inv(h, 0, 0) && f < |h.ring|
    ensures h.ring[f] in h.hdr
    ensures Scanning(h, f, NextIndex(h.ring, f), h.ring[f], h.hdr[h.ring[f]].ptr, n)
  {
    assert NodeAt(h, 0, 0, f) && NodeAt(h, 0, 0, NextIndex(h.ring, f));
  }

  lemma ScanSteps(h: Arena, f: nat, i: nat, prevp: int, p: int, n: int)
    requires Inv(h, 0, 0) && Scanning(h, f, i, prevp, p, n) && !Large(h, i, n) && p != h.ring[f]
    ensures Scanning(h, f, NextIndex(h.ring, i), p, h.hdr[p].ptr, n)
    ensures Distance(|h.ring|, NextIndex(h.ring, f), i) < Distance(|h.ring|, NextIndex(h.ring, f), NextIndex(h.ring, i))
  {
    assert NodeAt(h, 0, 0, i) && NodeAt(h, 0, 0, NextIndex(h.ring, i));
    forall j: nat | Passed(h.ring, f, j, NextIndex(h.ring, i)) ensures !Large(h, j, n) {
      if j != i { assert Passed(h.ring, f, j, i); }
    }
  }

  lemma ScanEnds(h: Arena, f: nat, i: nat, prevp: int, n: int)
    requires Inv(h, 0, 0) && f < |h.ring| && Scanning(h, f, i, prevp, h.ring[f], n) && !Large(h, i, n)
    ensures !Fit(h, n)
  {
    if i < f { Sorted(h, 0, 0, i, f); }
    if f < i { Sorted(h, 0, 0, f, i); }
    AllPassed(h, f, n);
  }

  // ---------------------------------------------------------------- what users rely on

  /** Blocks in use overlap neither each other nor the free units, and lie in memory from sbrk. */
  lemma InUseDisjoint(h: Arena, u: int, v: int)
    requires Inv(h, 0, 0) && u in h.used && v in h.used && u != v
    ensures Units(u, h.used[u]) !! Units(v, h.used[v])
    ensures Units(u, h.used[u]) !! FreeUnits(h) && Units(u, h.used[u]) <= h.owner.Keys
  {
    assert UsedAt(h, u) && UsedAt(h, v);
    forall a | a in Units(u, h.used[u]) ensures Owned(h.owner, a, u) && a !in Units(v, h.used[v]) {
      Clash(h.owner, u, h.used[u], v, h.used[v], a);
    }
  }

  /** Every unit from sbrk is free or lies in a block in use: none is lost. */
  lemma NothingLost(h: Arena, a: int)
    requires Inv(h, 0, 0) && a in h.owner && a !in FreeUnits(h)
    ensures h.owner[a] in h.used && a in Units(h.owner[a], h.used[h.owner[a]])
  {
    assert UnitAt(h, a) && UsedAt(h, h.owner[a]);
    assert Within(h.owner[a], a, h.used[h.owner[a]]);
  }

  /** Stores to the payload of a block in use keep the invariant. */
  lemma PayloadInv(h: Arena, a: int, w: Header)
    requires Inv(h, 0, 0) && a in h.owner && h.owner[a] in h.used && a != h.owner[a]
    ensures Inv(h.(hdr := h.hdr[a := w]), 0, 0)
  {
    var h' := h.(hdr := h.hdr[a := w]);
    forall i: nat | i < |h.ring| ensures h.ring[i] != a { ListApart(h, 0, 0, i, a); }
    forall i: nat ensures NodeAt(h', 0, 0, i) && FreeAt(h', i) { assert NodeAt(h, 0, 0, i) && FreeAt(h, i); }
    forall u ensures UsedAt(h', u) && (u in h.used ==> u != a) {
      assert UsedAt(h, u);
      assert u in h.used ==> Owned(h.owner, u, u);
    }
    forall x ensures UnitAt(h', x) { assert UnitAt(h, x); }
  }
}
