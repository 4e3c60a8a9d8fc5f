/** How many blocks a write needs: the slots of an inode that lead nowhere yet, and the free blocks
    of the bitmap.
 */
module FileSpace {
  import opened Params
  import opened Sets
  import opened FileBlocks

  // ---------------------------------------------------------------- free blocks

  /** The blocks whose bit is clear. */
  function FreeSet(bits: seq<bool>): set<nat> {
    set b: nat | b < |bits| && !bits[b]
  }

  function FreeBlocks(bits: seq<bool>): nat {
    |FreeSet(bits)|
  }

  lemma FreeBlocksSet(bits: seq<bool>, b: nat)
    requires b < |bits| && !bits[b]
    ensures FreeBlocks(bits[b := true]) == FreeBlocks(bits) - 1
  {
    assert FreeSet(bits[b := true]) == FreeSet(bits) - {b};
  }

  lemma NoneFree(bits: seq<bool>)
    ensures FreeBlocks(bits) > 0 <==> exists b :: 0 <= b < |bits| && !bits[b]
  {
    if b :| 0 <= b < |bits| && !bits[b] {
      assert b in FreeSet(bits);
    } else {
      assert FreeSet(bits) == {};
    }
  }

  // ---------------------------------------------------------------- missing blocks

  /** 1 if a slot has no block yet. */
  function Missing(v: Vol, inum: nat, k: nat): nat
    requires Shape(v) && inum in v.inodes && k <= IND
  {
    if Addr(v, inum, k) == 0 then 1 else 0
  }

  predicate IsMissing(v: Vol, inum: nat, k: nat) {
    Shape(v) && inum in v.inodes && k <= IND && Addr(v, inum, k) == 0
  }

  /** The slots that blocks lo.. up to hi of a file take: theirs, and that of the indirect block. */
  predicate Takes(lo: nat, hi: nat, k: nat) {
    lo <= k < hi || (k == IND && lo < hi && hi > NDIRECT)
  }

  /** The slots that must get a block for blocks lo.. up to hi of a file to exist. */
  function NeedSet(v: Vol, inum: nat, lo: nat, hi: nat): set<nat> {
    set k: nat | k <= IND && Takes(lo, hi, k) && IsMissing(v, inum, k)
  }

  function Need(v: Vol, inum: nat, lo: nat, hi: nat): nat {
    |NeedSet(v, inum, lo, hi)|
  }

  ghost predicate SlotFilled(v: Vol, v': Vol, inum: nat, lo: nat, hi: nat, k: nat) {
    k <= IND ==> (IsMissing(v', inum, k) <==> IsMissing(v, inum, k) && !Takes(lo, hi, k))
  }

  /** Exactly blocks lo.. up to hi of the file, and the indirect block for them, have been added. */
  ghost predicate Filled(v: Vol, v': Vol, inum: nat, lo: nat, hi: nat) {
    forall k: nat {:trigger SlotFilled(v, v', inum, lo, hi, k)} :: SlotFilled(v, v', inum, lo, hi, k)
  }

  /** Slot `r` leads to `b`; every other slot of every inode leads where it did. */
  ghost predicate OneSlot(v: Vol, v': Vol, r: Ref, b: int) {
    Shape(v) && Shape(v') && forall q: Ref {:trigger AddrAt(v, v', q, r, b)} :: AddrAt(v, v', q, r, b)
  }

  lemma OneFilled(v: Vol, v': Vol, inum: nat, k: nat, b: int)
    requires OneSlot(v, v', Ref(inum, k), b) && inum in v.inodes && inum in v'.inodes && k < NDIRECT && b != 0
    ensures Filled(v, v', inum, k, k + 1)
  {
    var hi := k + 1;
    forall j: nat ensures SlotFilled(v, v', inum, k, hi, j) { assert AddrAt(v, v', Ref(inum, j), Ref(inum, k), b); }
  }

  /** The indirect block first, then the block behind it. */
  lemma TwoFilled(v: Vol, v1: Vol, v2: Vol, inum: nat, k: nat, a: int, b: int)
    requires OneSlot(v, v1, Ref(inum, IND), a) && OneSlot(v1, v2, Ref(inum, k), b) && NDIRECT <= k < MAXFILE
    requires inum in v.inodes && inum in v1.inodes && inum in v2.inodes && a != 0 && b != 0
    ensures Filled(v, v2, inum, k, k + 1)
  {
    var hi := k + 1;
    forall j: nat ensures SlotFilled(v, v2, inum, k, hi, j) {
      assert AddrAt(v, v1, Ref(inum, j), Ref(inum, IND), a) && AddrAt(v1, v2, Ref(inum, j), Ref(inum, k), b);
    }
  }

  /** What bmap needs for one block: its own slot, and that of the indirect block in front of it. */
  lemma NeedOne(v: Vol, inum: nat, k: nat)
    requires Shape(v) && inum in v.inodes && k < MAXFILE
    ensures Need(v, inum, k, k + 1) == Missing(v, inum, k) + if k < NDIRECT then 0 else Missing(v, inum, IND)
  {
    var s := NeedSet(v, inum, k, k + 1);
    assert k in s <==> IsMissing(v, inum, k);
    assert IND in s <==> k >= NDIRECT && IsMissing(v, inum, IND);
    forall j | j in s ensures j == k || j == IND { }
    TwoCard(s, k, IND);
  }

  lemma TwoCard(s: set<nat>, a: nat, b: nat)
    requires a != b && forall j :: j in s ==> j == a || j == b
    ensures |s| == (if a in s then 1 else 0) + (if b in s then 1 else 0)
  {
    assert s == (if a in s then {a} else {}) + (if b in s then {b} else {});
  }

  /** What is needed for blocks lo.. up to hi is what was needed up to mid and what is still needed
      for the rest, which may start with the last block that is there. */
  lemma NeedSplit(v: Vol, v': Vol, inum: nat, lo: nat, mid: nat, a: nat, hi: nat)
    requires Filled(v, v', inum, lo, mid) && lo <= a <= mid <= hi && mid <= a + 1
    ensures Need(v, inum, lo, hi) == Need(v, inum, lo, mid) + Need(v', inum, a, hi)
  {
    var x, y, z := NeedSet(v, inum, lo, hi), NeedSet(v, inum, lo, mid), NeedSet(v', inum, a, hi);
    forall k: nat | k <= IND ensures k in x <==> k in y || k in z {
      assert SlotFilled(v, v', inum, lo, mid, k);
    }
    forall k: nat | k <= IND ensures !(k in y && k in z) { assert SlotFilled(v, v', inum, lo, mid, k); }
    assert x == y + z && y * z == {};
  }

  lemma FilledOn(v: Vol, v1: Vol, v2: Vol, inum: nat, lo: nat, mid: nat, a: nat, hi: nat)
    requires Filled(v, v1, inum, lo, mid) && Filled(v1, v2, inum, a, hi) && lo <= a <= mid <= hi && mid <= a + 1
    ensures Filled(v, v2, inum, lo, hi)
  {
    forall k: nat ensures SlotFilled(v, v2, inum, lo, hi, k) {
      assert SlotFilled(v, v1, inum, lo, mid, k) && SlotFilled(v1, v2, inum, a, hi, k);
    }
  }

  // ---------------------------------------------------------------- enough blocks

  /** The block behind the last one of `n` bytes at `off`. */
  function EndBlock(off: nat, n: nat): nat {
    if n == 0 then off / BSIZE else (off + n - 1) / BSIZE + 1
  }

  /** There are free blocks enough for blocks lo.. up to hi of the file. */
  predicate Enough(v: Vol, inum: nat, lo: nat, hi: nat) {
    FreeBlocks(v.bits) >= Need(v, inum, lo, hi)
  }

  /** Those blocks were added, and no other block was taken. */
  ghost predicate Spent(v: Vol, v': Vol, inum: nat, lo: nat, hi: nat) {
    Filled(v, v', inum, lo, hi) && FreeBlocks(v'.bits) == FreeBlocks(v.bits) - Need(v, inum, lo, hi)
  }

  lemma SpentNone(v: Vol, inum: nat, lo: nat)
    ensures Spent(v, v, inum, lo, lo)
  {
    forall k: nat ensures SlotFilled(v, v, inum, lo, lo, k) { }
    assert NeedSet(v, inum, lo, lo) == {};
  }

  lemma SpentOn(v: Vol, v1: Vol, v2: Vol, inum: nat, lo: nat, mid: nat, a: nat, hi: nat)
    requires Spent(v, v1, inum, lo, mid) && Spent(v1, v2, inum, a, hi) && lo <= a <= mid <= hi && mid <= a + 1
    ensures Spent(v, v2, inum, lo, hi)
  {
    FilledOn(v, v1, v2, inum, lo, mid, a, hi);
    NeedSplit(v, v1, inum, lo, mid, a, hi);
  }

  /** There was enough for all if and only if there is enough for the rest. */
  lemma EnoughOn(v: Vol, v1: Vol, inum: nat, lo: nat, mid: nat, a: nat, hi: nat)
    requires Spent(v, v1, inum, lo, mid) && lo <= a <= mid <= hi && mid <= a + 1
    ensures Enough(v, inum, lo, hi) <==> Enough(v1, inum, a, hi)
  {
    NeedSplit(v, v1, inum, lo, mid, a, hi);
  }

  /** More blocks need more. */
  lemma EnoughPrefix(v: Vol, inum: nat, lo: nat, mid: nat, hi: nat)
    requires Enough(v, inum, lo, hi) && lo <= mid <= hi
    ensures Enough(v, inum, lo, mid)
  {
    SubsetCard(NeedSet(v, inum, lo, mid), NeedSet(v, inum, lo, hi));
  }

  /** A volume with the same bits and the same empty slots. */
  lemma SpentSame(v: Vol, v1: Vol, v2: Vol, inum: nat, lo: nat, hi: nat)
    requires Spent(v, v1, inum, lo, hi) && v2.bits == v1.bits
    requires forall k: nat :: k <= IND ==> (IsMissing(v2, inum, k) <==> IsMissing(v1, inum, k))
    ensures Spent(v, v2, inum, lo, hi)
  {
    forall k: nat ensures SlotFilled(v, v2, inum, lo, hi, k) { assert SlotFilled(v, v1, inum, lo, hi, k); }
  }
}
