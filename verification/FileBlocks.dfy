/** The blocks of files in fs.c: the free bitmap, the direct and indirect addresses of inodes, and
    the bytes they lead to.
 */
module FileBlocks {
  import opened Params

  const NDIRECT := 12
  const NINDIRECT := 128
  const MAXFILE := NDIRECT + NINDIRECT
  const IND := MAXFILE  // the slot of the indirect block itself

  datatype Data = Data(bytes: seq<int>)

  /** The in-memory inode; addrs[NDIRECT] is the indirect block. */
  datatype Inode = Inode(size: nat, addrs: seq<int>)

  /** What an allocated block is for: block number `k` of a file, or its indirect block. */
  datatype Ref = Ref(inum: nat, k: nat)

  /** `meta` is the number of blocks before the data area; `owner` tells what each allocated data
      block is for. */
  datatype Vol = Vol(meta: nat, bits: seq<bool>, blocks: seq<Data>, inodes: map<nat, Inode>, owner: map<int, Ref>)

  // ---------------------------------------------------------------- words in a block

  /** Little-endian word k of a block. */
  function Word(d: Data, k: nat): int
    requires |d.bytes| == BSIZE && k < NINDIRECT
  {
    d.bytes[4 * k] + 0x100 * d.bytes[4 * k + 1] + 0x10000 * d.bytes[4 * k + 2] + 0x1000000 * d.bytes[4 * k + 3]
  }

  function SetWord(d: Data, k: nat, v: nat): (r: Data)
    requires |d.bytes| == BSIZE && k < NINDIRECT
    ensures |r.bytes| == BSIZE
  {
    Data(d.bytes[4 * k := v % 0x100][4 * k + 1 := v / 0x100 % 0x100]
                [4 * k + 2 := v / 0x10000 % 0x100][4 * k + 3 := v / 0x1000000 % 0x100])
  }

  lemma Digits(v: nat)
    requires v < 0x1_0000_0000
    ensures v % 0x100 + 0x100 * (v / 0x100 % 0x100) + 0x10000 * (v / 0x10000 % 0x100)
            + 0x1000000 * (v / 0x1000000 % 0x100) == v
  {
  }

  /** Storing a word changes that word only. */
  lemma SetWordAt(d: Data, k: nat, v: nat, j: nat)
    requires |d.bytes| == BSIZE && k < NINDIRECT && j < NINDIRECT && v < 0x1_0000_0000
    ensures Word(SetWord(d, k, v), j) == if j == k then v else Word(d, j)
  {
    Digits(v);
  }

  /** A block after bzero. */
  function Zero(): (r: Data)
    ensures |r.bytes| == BSIZE
  {
    Data(seq(BSIZE, _ => 0))
  }

  // ---------------------------------------------------------------- the block map

  predicate Shape(v: Vol) {
    && 0 < v.meta && |v.bits| == |v.blocks| < 0x1_0000_0000
    && (forall b :: 0 <= b < |v.blocks| ==> |v.blocks[b].bytes| == BSIZE)
    && (forall inum :: inum in v.inodes ==> |v.inodes[inum].addrs| == NDIRECT + 1)
  }

  /** The block for slot `k` of an inode, or 0. */
  function Addr(v: Vol, inum: nat, k: nat): int
    requires Shape(v) && inum in v.inodes && k <= IND
  {
    var a := v.inodes[inum].addrs;
    if k < NDIRECT then a[k]
    else if k == IND then a[NDIRECT]
    else if 0 < a[NDIRECT] < |v.blocks| then Word(v.blocks[a[NDIRECT]], k - NDIRECT)
    else 0
  }

  ghost predicate RefAt(v: Vol, r: Ref)
    requires Shape(v)
  {
    r.inum in v.inodes && r.k <= IND && Addr(v, r.inum, r.k) != 0 ==>
      Addr(v, r.inum, r.k) in v.owner && v.owner[Addr(v, r.inum, r.k)] == r
  }

  ghost predicate OwnAt(v: Vol, b: int)
    requires Shape(v)
  {
    b in v.owner ==>
      && v.meta <= b < |v.blocks| && v.owner[b].inum in v.inodes && v.owner[b].k <= IND
      && Addr(v, v.owner[b].inum, v.owner[b].k) == b
  }

  ghost predicate BitAt(v: Vol, b: int) {
    0 <= b < |v.bits| ==> (v.bits[b] <==> b < v.meta || b in v.owner)
  }

  /** Slots lo <= k < hi of an inode. */
  datatype Gap = Gap(inum: nat, lo: nat, hi: nat) {
    predicate Has(r: Ref) {
      r.inum == inum && lo <= r.k < hi
    }
  }

  const NONE := Gap(0, 0, 0)

  /** Set bits are exactly the metadata blocks and the disjoint union of the blocks that inodes
      lead to.  Slots in `gap` hold addresses of blocks that are already free. */
  ghost predicate Owned(v: Vol, gap: Gap) {
    && Shape(v)
    && (forall r: Ref :: gap.Has(r) || RefAt(v, r))
    && (forall b :: OwnAt(v, b) && !(b in v.owner && gap.Has(v.owner[b])))
    && (forall b :: BitAt(v, b))
  }

  /** The addresses in `v'` are those in `v`, but slot `r` holds `b`. */
  ghost predicate AddrAt(v: Vol, v': Vol, q: Ref, r: Ref, b: int)
    requires Shape(v) && Shape(v')
  {
    q.inum in v.inodes && q.inum in v'.inodes && q.k <= IND ==>
      Addr(v', q.inum, q.k) == if q == r then b else Addr(v, q.inum, q.k)
  }

  // ---------------------------------------------------------------- bytes

  /** Byte `x` of a file, 0 where no block is. */
  function ByteAt(v: Vol, inum: nat, x: nat): int
    requires Shape(v) && inum in v.inodes && x < MAXFILE * BSIZE
  {
    var a := Addr(v, inum, x / BSIZE);
    if 0 < a < |v.blocks| then v.blocks[a].bytes[x % BSIZE] else 0
  }

  ghost predicate SameByte(v: Vol, v': Vol, inum: nat, x: nat)
    requires Shape(v) && Shape(v')
  {
    inum in v.inodes && inum in v'.inodes && x < MAXFILE * BSIZE ==> ByteAt(v', inum, x) == ByteAt(v, inum, x)
  }

  // ---------------------------------------------------------------- balloc and bmap

  /** balloc of block `b` for slot `r`, and the store of its address. */
  function Allot(v: Vol, r: Ref, b: int): Vol
    requires Shape(v) && r.inum in v.inodes && r.k <= IND && 0 <= b < |v.blocks|
    requires NDIRECT <= r.k < IND ==> 0 < Addr(v, r.inum, IND) < |v.blocks| && Addr(v, r.inum, IND) != b
  {
    var ip := v.inodes[r.inum];
    var bits, blocks, owner := v.bits[b := true], v.blocks[b := Zero()], v.owner[b := r];
    if NDIRECT <= r.k < IND then
      var ind := ip.addrs[NDIRECT];
      Vol(v.meta, bits, blocks[ind := SetWord(blocks[ind], r.k - NDIRECT, b)], v.inodes, owner)
    else
      var slot := if r.k == IND then NDIRECT else r.k;
      Vol(v.meta, bits, blocks, v.inodes[r.inum := Inode(ip.size, ip.addrs[slot := b])], owner)
  }

  lemma AllotShape(v: Vol, r: Ref, b: int)
    requires Owned(v, NONE) && r.inum in v.inodes && r.k <= IND && 0 <= b < |v.blocks| && !v.bits[b]
    requires NDIRECT <= r.k < IND ==> Addr(v, r.inum, IND) != 0
    ensures NDIRECT <= r.k < IND ==> 0 < Addr(v, r.inum, IND) < |v.blocks| && Addr(v, r.inum, IND) != b
    ensures Shape(Allot(v, r, b)) && b !in v.owner && v.meta <= b
  {
    assert BitAt(v, b);
    if NDIRECT <= r.k < IND {
      assert RefAt(v, Ref(r.inum, IND)) && OwnAt(v, Addr(v, r.inum, IND)) && BitAt(v, Addr(v, r.inum, IND));
    }
  }

  lemma AllotAddr(v: Vol, r: Ref, b: int, q: Ref)
    requires Owned(v, NONE) && r.inum in v.inodes && r.k <= IND && 0 <= b < |v.blocks| && !v.bits[b]
    requires Addr(v, r.inum, r.k) == 0 && (NDIRECT <= r.k < IND ==> Addr(v, r.inum, IND) != 0)
    requires NDIRECT <= r.k < IND ==> 0 < Addr(v, r.inum, IND) < |v.blocks| && Addr(v, r.inum, IND) != b
    requires Shape(Allot(v, r, b))
    ensures AddrAt(v, Allot(v, r, b), q, r, b)
  {
    if q.inum in v.inodes && NDIRECT <= q.k < IND {
      var ind := Addr(v, q.inum, IND);
      assert RefAt(v, Ref(q.inum, IND)) && OwnAt(v, ind) && BitAt(v, ind) && BitAt(v, b);
      if NDIRECT <= r.k < IND {
        assert RefAt(v, Ref(r.inum, IND));
        if q.inum == r.inum { SetWordAt(v.blocks[ind], r.k - NDIRECT, b, q.k - NDIRECT); }
      }
    }
  }

  /** A slot and a free block that may be joined. */
  ghost predicate MayAllot(v: Vol, r: Ref, b: int) {
    && Owned(v, NONE) && r.inum in v.inodes && r.k <= IND && 0 <= b < |v.blocks| && !v.bits[b]
    && Addr(v, r.inum, r.k) == 0
    && (NDIRECT <= r.k < IND ==> 0 < Addr(v, r.inum, IND) < |v.blocks| && Addr(v, r.inum, IND) != b)
  }

  lemma AllotOwned(v: Vol, r: Ref, b: int)
    requires MayAllot(v, r, b)
    ensures Owned(Allot(v, r, b), NONE)
  {
    var v' := Allot(v, r, b);
    AllotShape(v, r, b);
    forall q: Ref ensures AddrAt(v, v', q, r, b) { AllotAddr(v, r, b, q); }
    forall q: Ref ensures RefAt(v', q) { assert RefAt(v, q) && AddrAt(v, v', q, r, b); }
    forall c ensures OwnAt(v', c) {
      assert OwnAt(v, c);
      if c in v'.owner { assert AddrAt(v, v', v'.owner[c], r, b); }
    }
    forall c ensures BitAt(v', c) { assert BitAt(v, c); }
  }

  lemma AllotByte(v: Vol, r: Ref, b: int, inum: nat, x: nat)
    requires MayAllot(v, r, b) && Shape(Allot(v, r, b))
    ensures SameByte(v, Allot(v, r, b), inum, x)
  {
    if inum in v.inodes && x < MAXFILE * BSIZE {
      var q := Ref(inum, x / BSIZE);
      AllotAddr(v, r, b, q);
      assert RefAt(v, q) && OwnAt(v, Addr(v, inum, q.k)) && BitAt(v, Addr(v, inum, q.k)) && BitAt(v, b);
      if NDIRECT <= r.k < IND { assert RefAt(v, Ref(r.inum, IND)); }
    }
  }

  /** An address once set stays. */
  ghost predicate Kept(v: Vol, v': Vol, q: Ref)
    requires Shape(v) && Shape(v')
  {
    q.inum in v.inodes && q.inum in v'.inodes && q.k <= IND && Addr(v, q.inum, q.k) != 0 ==>
      Addr(v', q.inum, q.k) == Addr(v, q.inum, q.k)
  }

  /** Only the block map of one inode changed, and only by new, zeroed blocks. */
  ghost predicate Grows(v: Vol, v': Vol, inum: nat) {
    && Owned(v, NONE) && Owned(v', NONE) && inum in v.inodes && inum in v'.inodes && |v'.blocks| == |v.blocks|
    && v'.inodes == v.inodes[inum := Inode(v.inodes[inum].size, v'.inodes[inum].addrs)]
    && (forall q: Ref :: Kept(v, v', q))
    && (forall i: nat, x: nat :: SameByte(v, v', i, x))
  }

  lemma AllotGrows(v: Vol, r: Ref, b: int)
    requires MayAllot(v, r, b)
    ensures Grows(v, Allot(v, r, b), r.inum) && Addr(Allot(v, r, b), r.inum, r.k) == b > 0
  {
    var v' := Allot(v, r, b);
    AllotShape(v, r, b);
    AllotOwned(v, r, b);
    AllotAddr(v, r, b, r);
    forall q: Ref ensures Kept(v, v', q) { AllotAddr(v, r, b, q); }
    forall i: nat, x: nat ensures SameByte(v, v', i, x) { AllotByte(v, r, b, i, x); }
  }

  lemma GrowsTrans(v1: Vol, v2: Vol, v3: Vol, inum: nat)
    requires Grows(v1, v2, inum) && Grows(v2, v3, inum)
    ensures Grows(v1, v3, inum)
  {
    forall q: Ref ensures Kept(v1, v3, q) { assert Kept(v1, v2, q) && Kept(v2, v3, q); }
    forall i: nat, x: nat ensures SameByte(v1, v3, i, x) { assert SameByte(v1, v2, i, x) && SameByte(v2, v3, i, x); }
  }

  lemma GrowsSelf(v: Vol, inum: nat)
    requires Owned(v, NONE) && inum in v.inodes
    ensures Grows(v, v, inum)
  {
  }

  // ---------------------------------------------------------------- writing data

  /** `data` copied over a block from byte `at` on. */
  function Patch(d: Data, at: nat, data: seq<int>): (r: Data)
    requires at + |data| <= |d.bytes|
    ensures |r.bytes| == |d.bytes|
  {
    Data(d.bytes[..at] + data + d.bytes[at + |data|..])
  }

  /** Bytes x.. of a file replaced within one block. */
  function Put(v: Vol, inum: nat, x: nat, data: seq<int>): Vol
    requires Shape(v) && inum in v.inodes && x < MAXFILE * BSIZE && x % BSIZE + |data| <= BSIZE
    requires 0 < Addr(v, inum, x / BSIZE) < |v.blocks|
  {
    var a := Addr(v, inum, x / BSIZE);
    v.(blocks := v.blocks[a := Patch(v.blocks[a], x % BSIZE, data)])
  }

  ghost predicate MayPut(v: Vol, inum: nat, x: nat, data: seq<int>) {
    && Owned(v, NONE) && inum in v.inodes && x < MAXFILE * BSIZE && x % BSIZE + |data| <= BSIZE
    && Addr(v, inum, x / BSIZE) != 0
  }

  lemma PutAddr(v: Vol, inum: nat, x: nat, data: seq<int>, q: Ref)
    requires MayPut(v, inum, x, data)
    ensures 0 < Addr(v, inum, x / BSIZE) < |v.blocks| && Shape(Put(v, inum, x, data))
    ensures q.inum in v.inodes && q.k <= IND ==> Addr(Put(v, inum, x, data), q.inum, q.k) == Addr(v, q.inum, q.k)
  {
    var r := Ref(inum, x / BSIZE);
    assert RefAt(v, r) && OwnAt(v, Addr(v, inum, r.k)) && RefAt(v, Ref(q.inum, IND));
  }

  lemma PutOwned(v: Vol, inum: nat, x: nat, data: seq<int>)
    requires MayPut(v, inum, x, data)
    ensures 0 < Addr(v, inum, x / BSIZE) < |v.blocks| && Owned(Put(v, inum, x, data), NONE)
  {
    PutAddr(v, inum, x, data, Ref(0, 0));
    var v' := Put(v, inum, x, data);
    forall q: Ref ensures RefAt(v', q) { PutAddr(v, inum, x, data, q); assert RefAt(v, q); }
    forall c ensures OwnAt(v', c) {
      assert OwnAt(v, c);
      if c in v.owner { PutAddr(v, inum, x, data, v.owner[c]); }
    }
    forall c ensures BitAt(v', c) { assert BitAt(v, c); }
  }

  /** The write changes exactly those bytes, of that file. */
  lemma PutByte(v: Vol, inum: nat, x: nat, data: seq<int>, i: nat, y: nat)
    requires MayPut(v, inum, x, data) && i in v.inodes && y < MAXFILE * BSIZE
    ensures 0 < Addr(v, inum, x / BSIZE) < |v.blocks| && Shape(Put(v, inum, x, data))
    ensures ByteAt(Put(v, inum, x, data), i, y) ==
            if i == inum && x <= y < x + |data| then data[y - x] else ByteAt(v, i, y)
  {
    PutAddr(v, inum, x, data, Ref(i, y / BSIZE));
    assert RefAt(v, Ref(inum, x / BSIZE)) && RefAt(v, Ref(i, y / BSIZE));
  }

  // ---------------------------------------------------------------- bfree and itrunc

  /** bfree of block `b`; whoever leads to it still does. */
  function Release(v: Vol, b: int): Vol
    requires 0 <= b < |v.bits|
  {
    v.(bits := v.bits[b := false], owner := v.owner - {b})
  }

  /** The block of slot `k` is allocated, so bfree does not panic. */
  lemma SlotAllocated(v: Vol, gap: Gap, inum: nat, k: nat)
    requires Owned(v, gap) && inum in v.inodes && k <= IND && !gap.Has(Ref(inum, k)) && Addr(v, inum, k) != 0
    ensures var b := Addr(v, inum, k);
            v.meta <= b < |v.bits| && v.bits[b] && b in v.owner && v.owner[b] == Ref(inum, k)
  {
    assert RefAt(v, Ref(inum, k)) && OwnAt(v, Addr(v, inum, k)) && BitAt(v, Addr(v, inum, k));
  }

  lemma ReleaseOwned(v: Vol, gap: Gap, gap': Gap, b: int)
    requires Owned(v, gap) && b in v.owner && 0 <= b < |v.bits|
    requires forall r: Ref :: gap'.Has(r) <==> gap.Has(r) || r == v.owner[b]
    ensures Owned(Release(v, b), gap')
  {
    var v' := Release(v, b);
    assert OwnAt(v, b);
    forall r: Ref | !gap'.Has(r) ensures RefAt(v', r) { assert RefAt(v, r); }
    forall c ensures OwnAt(v', c) && !(c in v'.owner && gap'.Has(v'.owner[c])) { assert OwnAt(v, c); }
    forall c ensures BitAt(v', c) { assert BitAt(v, c); }
  }

  /** Slot `slot` of addrs[] set to 0. */
  function Clear(v: Vol, inum: nat, slot: nat): Vol
    requires inum in v.inodes && slot < |v.inodes[inum].addrs|
  {
    var ip := v.inodes[inum];
    v.(inodes := v.inodes[inum := Inode(ip.size, ip.addrs[slot := 0])])
  }

  lemma ClearOwned(v: Vol, gap: Gap, inum: nat, slot: nat)
    requires Owned(v, gap) && inum in v.inodes && slot <= NDIRECT
    requires gap == if slot < NDIRECT then Gap(inum, slot, slot + 1) else Gap(inum, NDIRECT, IND + 1)
    ensures Owned(Clear(v, inum, slot), NONE)
  {
    var v' := Clear(v, inum, slot);
    forall r: Ref ensures RefAt(v', r) { assert gap.Has(r) || RefAt(v, r); }
    forall c ensures OwnAt(v', c) { assert OwnAt(v, c); }
    forall c ensures BitAt(v', c) { assert BitAt(v, c); }
  }

  /** The blocks that remain allocated when slots below `hi` of an inode are freed. */
  function Without(owner: map<int, Ref>, inum: nat, hi: nat): map<int, Ref> {
    map b | b in owner && !Gap(inum, 0, hi).Has(owner[b]) :: owner[b]
  }

  /** Freeing the block of slot `k`, if there is one, is one step towards that. */
  lemma WithoutStep(v: Vol, inum: nat, k: nat)
    requires Owned(v, NONE) && inum in v.inodes && k <= IND
    ensures Without(v.owner, inum, k + 1) == Without(v.owner, inum, k) - {Addr(v, inum, k)}
  {
    var b := Addr(v, inum, k);
    assert RefAt(v, Ref(inum, k)) && OwnAt(v, 0);
    forall c | c in v.owner ensures Gap(inum, 0, k + 1).Has(v.owner[c]) <==> Gap(inum, 0, k).Has(v.owner[c]) || c == b {
      assert OwnAt(v, c);
    }
  }

  /** Without an indirect block there is nothing behind it. */
  lemma NoIndirect(v: Vol, inum: nat)
    requires Owned(v, NONE) && inum in v.inodes && Addr(v, inum, IND) == 0
    ensures Without(v.owner, inum, NDIRECT) == Without(v.owner, inum, IND + 1)
  {
    forall c | c in v.owner ensures Gap(inum, 0, IND + 1).Has(v.owner[c]) <==> Gap(inum, 0, NDIRECT).Has(v.owner[c]) {
      assert OwnAt(v, c);
    }
  }

  /** A slot without a block may join the gap. */
  lemma EmptySlot(v: Vol, gap: Gap, gap': Gap, r: Ref)
    requires Owned(v, gap) && r.inum in v.inodes && r.k <= IND && Addr(v, r.inum, r.k) == 0
    requires forall q: Ref :: gap'.Has(q) <==> gap.Has(q) || q == r
    ensures Owned(v, gap')
  {
    forall b ensures OwnAt(v, b) && !(b in v.owner && gap'.Has(v.owner[b])) { assert OwnAt(v, b); }
  }

  // ---------------------------------------------------------------- files

  predicate Present(v: Vol, inum: nat, k: nat)
    requires Shape(v) && inum in v.inodes && k <= IND
  {
    Addr(v, inum, k) != 0
  }

  /** Every block below the size is there. */
  ghost predicate HoleFree(v: Vol, inum: nat)
    requires Shape(v) && inum in v.inodes
  {
    && v.inodes[inum].size <= MAXFILE * BSIZE
    && forall k: nat :: k * BSIZE < v.inodes[inum].size ==> Present(v, inum, k)
  }

  ghost predicate FilesOk(v: Vol) {
    Owned(v, NONE) && forall inum: nat {:trigger HoleFree(v, inum)} :: inum in v.inodes ==> HoleFree(v, inum)
  }

  /** The first `n` bytes of a file. */
  function Bytes(v: Vol, inum: nat, n: nat): (r: seq<int>)
    requires Shape(v) && inum in v.inodes && n <= MAXFILE * BSIZE
    ensures |r| == n
    decreases n, |v.blocks|
  {
    if n == 0 then [] else Bytes(v, inum, n - 1) + [ByteAt(v, inum, n - 1)]
  }

  lemma {:induction false} BytesAt(v: Vol, inum: nat, n: nat, x: nat)
    requires Shape(v) && inum in v.inodes && x < n <= MAXFILE * BSIZE
    ensures Bytes(v, inum, n)[x] == ByteAt(v, inum, x)
  {
    if x < n - 1 { BytesAt(v, inum, n - 1, x); }
  }

  /** The contents of a file. */
  function Contents(v: Vol, inum: nat): seq<int>
    requires Shape(v) && inum in v.inodes && v.inodes[inum].size <= MAXFILE * BSIZE
  {
    Bytes(v, inum, v.inodes[inum].size)
  }

  /** `file'` is `file` with `data` from `off` on, past its end if need be. */
  ghost predicate Spliced(file: seq<int>, off: nat, data: seq<int>, file': seq<int>) {
    && off <= |file| && |file'| == (if off + |data| > |file| then off + |data| else |file|)
    && forall x {:trigger file'[x]} :: 0 <= x < |file'| ==>
         file'[x] == if off <= x < off + |data| then data[x - off] else file[x]
  }

  /** Consecutive splices are one splice. */
  lemma SpliceOn(f: seq<int>, f1: seq<int>, f2: seq<int>, off: nat, src: seq<int>, i: nat, j: nat)
    requires i <= j <= |src| && Spliced(f, off, src[..i], f1) && Spliced(f1, off + i, src[i..j], f2)
    ensures Spliced(f, off, src[..j], f2)
  {
  }

  /** A run of bytes within one block. */
  lemma ReadChunk(v: Vol, inum: nat, x: nat, m: nat)
    requires Shape(v) && inum in v.inodes && x + m <= v.inodes[inum].size <= MAXFILE * BSIZE
    requires 0 < m && x % BSIZE + m <= BSIZE && 0 < Addr(v, inum, x / BSIZE) < |v.blocks|
    ensures Contents(v, inum)[x..x + m] ==
            v.blocks[Addr(v, inum, x / BSIZE)].bytes[x % BSIZE..x % BSIZE + m]
  {
    var a := Addr(v, inum, x / BSIZE);
    var file := Contents(v, inum);
    forall y: nat | x <= y < x + m ensures file[y] == v.blocks[a].bytes[x % BSIZE + y - x] {
      SameBlock(x, y - x);
      BytesAt(v, inum, v.inodes[inum].size, y);
    }
  }

  lemma SameBlock(x: nat, t: nat)
    requires x % BSIZE + t < BSIZE
    ensures (x + t) / BSIZE == x / BSIZE && (x + t) % BSIZE == x % BSIZE + t
  {
  }

  // ---------------------------------------------------------------- writes that span blocks

  /** Byte `x` of file `i` after bytes lo..hi of a write of `src` at `off` in file `inum`. */
  ghost predicate ByteIs(v: Vol, v': Vol, inum: nat, off: nat, src: seq<int>, lo: nat, hi: nat, i: nat, x: nat)
    requires Shape(v) && Shape(v') && hi <= |src|
  {
    i in v.inodes && i in v'.inodes && x < MAXFILE * BSIZE ==>
      ByteAt(v', i, x) == if i == inum && off + lo <= x < off + hi then src[x - off] else ByteAt(v, i, x)
  }

  /** The same block map, and bytes lo..hi of the write in place. */
  ghost predicate Replaced(v: Vol, v': Vol, inum: nat, off: nat, src: seq<int>, lo: nat, hi: nat) {
    && Owned(v, NONE) && Owned(v', NONE) && v'.inodes == v.inodes && |v'.blocks| == |v.blocks| && lo <= hi <= |src|
    && (forall q: Ref :: SameAddr(v, v', q))
    && (forall i: nat, x: nat :: ByteIs(v, v', inum, off, src, lo, hi, i, x))
  }

  ghost predicate SameAddr(v: Vol, v': Vol, q: Ref)
    requires Shape(v) && Shape(v')
  {
    q.inum in v.inodes && q.inum in v'.inodes && q.k <= IND ==> Addr(v', q.inum, q.k) == Addr(v, q.inum, q.k)
  }

  lemma PutReplaces(v: Vol, inum: nat, off: nat, src: seq<int>, lo: nat, hi: nat)
    requires lo <= hi <= |src| && MayPut(v, inum, off + lo, src[lo..hi])
    ensures 0 < Addr(v, inum, (off + lo) / BSIZE) < |v.blocks|
    ensures Replaced(v, Put(v, inum, off + lo, src[lo..hi]), inum, off, src, lo, hi)
  {
    var chunk := src[lo..hi];
    PutOwned(v, inum, off + lo, chunk);
    var v' := Put(v, inum, off + lo, chunk);
    forall q: Ref ensures SameAddr(v, v', q) { PutAddr(v, inum, off + lo, chunk, q); }
    forall i: nat, x: nat ensures ByteIs(v, v', inum, off, src, lo, hi, i, x) {
      if i in v.inodes && x < MAXFILE * BSIZE { PutByte(v, inum, off + lo, chunk, i, x); }
    }
  }

  /** The first `tot` bytes of `src` are written at `off`; the size is not updated yet. */
  ghost predicate Wrote(v: Vol, v': Vol, inum: nat, off: nat, src: seq<int>, tot: nat) {
    && Owned(v, NONE) && Owned(v', NONE) && inum in v.inodes && inum in v'.inodes
    && tot <= |src| && off + |src| <= MAXFILE * BSIZE && |v'.blocks| == |v.blocks|
    && v'.inodes == v.inodes[inum := Inode(v.inodes[inum].size, v'.inodes[inum].addrs)]
    && (forall q: Ref :: Kept(v, v', q))
    && (forall i: nat, x: nat :: ByteIs(v, v', inum, off, src, 0, tot, i, x))
    && (forall k: nat :: off / BSIZE <= k && k * BSIZE < off + tot && tot > 0 ==> Present(v', inum, k))
  }

  lemma WroteNothing(v: Vol, inum: nat, off: nat, src: seq<int>)
    requires Owned(v, NONE) && inum in v.inodes && off + |src| <= MAXFILE * BSIZE
    ensures Wrote(v, v, inum, off, src, 0)
  {
  }

  /** The next chunk: a block, possibly new, and a copy into it. */
  lemma WroteMore(v: Vol, v1: Vol, v2: Vol, v3: Vol, inum: nat, off: nat, src: seq<int>, tot: nat, m: nat)
    requires Wrote(v, v1, inum, off, src, tot) && Grows(v1, v2, inum) && tot + m <= |src|
    requires Replaced(v2, v3, inum, off, src, tot, tot + m)
    requires 0 < m <= BSIZE - (off + tot) % BSIZE && (tot > 0 ==> (off + tot) % BSIZE == 0)
    requires Addr(v2, inum, (off + tot) / BSIZE) != 0
    ensures Wrote(v, v3, inum, off, src, tot + m)
  {
    forall q: Ref ensures Kept(v, v3, q) && Kept(v1, v3, q) {
      assert Kept(v, v1, q) && Kept(v1, v2, q) && SameAddr(v2, v3, q);
    }
    var end := tot + m;
    forall i: nat, x: nat ensures ByteIs(v, v3, inum, off, src, 0, end, i, x) {
      assert ByteIs(v, v1, inum, off, src, 0, tot, i, x) && SameByte(v1, v2, i, x);
      assert ByteIs(v2, v3, inum, off, src, tot, end, i, x);
    }
    var k0 := (off + tot) / BSIZE;
    assert SameAddr(v2, v3, Ref(inum, k0));
    forall k: nat | off / BSIZE <= k && k * BSIZE < off + tot + m ensures Present(v3, inum, k) {
      if k != k0 { assert Present(v1, inum, k) && Kept(v1, v3, Ref(inum, k)); }
    }
  }

  /** The size update at the end of writei. */
  function Resized(v: Vol, inum: nat, end: nat): Vol
    requires inum in v.inodes
  {
    var ip := v.inodes[inum];
    if end > ip.size then v.(inodes := v.inodes[inum := Inode(end, ip.addrs)]) else v
  }

  lemma ResizedAddr(v: Vol, inum: nat, end: nat, i: nat, k: nat)
    requires Shape(v) && inum in v.inodes && i in v.inodes && k <= IND
    ensures Shape(Resized(v, inum, end)) && Addr(Resized(v, inum, end), i, k) == Addr(v, i, k)
  {
  }

  lemma ResizedOwned(v: Vol, inum: nat, end: nat)
    requires Owned(v, NONE) && inum in v.inodes
    ensures Owned(Resized(v, inum, end), NONE)
  {
    var v' := Resized(v, inum, end);
    forall q: Ref ensures RefAt(v', q) {
      assert RefAt(v, q);
      if q.inum in v.inodes && q.k <= IND { ResizedAddr(v, inum, end, q.inum, q.k); }
    }
    forall c ensures OwnAt(v', c) {
      assert OwnAt(v, c);
      if c in v.owner { ResizedAddr(v, inum, end, v.owner[c].inum, v.owner[c].k); }
    }
    forall c ensures BitAt(v', c) { assert BitAt(v, c); }
  }

  /** Files stay free of holes. */
  lemma WroteFiles(v: Vol, v': Vol, inum: nat, off: nat, src: seq<int>)
    requires FilesOk(v) && Wrote(v, v', inum, off, src, |src|) && src != [] && off <= v.inodes[inum].size
    ensures FilesOk(Resized(v', inum, off + |src|))
  {
    var v'' := Resized(v', inum, off + |src|);
    ResizedOwned(v', inum, off + |src|);
    forall i: nat | i in v''.inodes ensures HoleFree(v'', i) {
      assert HoleFree(v, i);
      forall k: nat | k * BSIZE < v''.inodes[i].size ensures Present(v'', i, k) {
        ResizedAddr(v', inum, off + |src|, i, k);
        assert Kept(v, v', Ref(i, k));
        if k * BSIZE < v.inodes[i].size { assert Present(v, i, k); } else { assert Present(v', i, k); }
      }
    }
  }

  lemma WroteByte(v: Vol, v': Vol, inum: nat, off: nat, src: seq<int>, i: nat, x: nat)
    requires Wrote(v, v', inum, off, src, |src|) && i in v.inodes && x < MAXFILE * BSIZE
    ensures var v'' := Resized(v', inum, off + |src|);
            Shape(v'') && i in v''.inodes &&
            ByteAt(v'', i, x) == if i == inum && off <= x < off + |src| then src[x - off] else ByteAt(v, i, x)
  {
    ResizedAddr(v', inum, off + |src|, i, x / BSIZE);
    assert ByteIs(v, v', inum, off, src, 0, |src|, i, x);
  }

  /** The bytes off.. of the file are replaced, and nothing else of any file. */
  lemma WroteContents(v: Vol, v': Vol, inum: nat, off: nat, src: seq<int>, i: nat)
    requires Wrote(v, v', inum, off, src, |src|) && src != [] && off <= v.inodes[inum].size
    requires i in v.inodes && v.inodes[i].size <= MAXFILE * BSIZE
    ensures var v'' := Resized(v', inum, off + |src|);
            Shape(v'') && i in v''.inodes && v''.inodes[i].size <= MAXFILE * BSIZE &&
            if i == inum then Spliced(Contents(v, inum), off, src, Contents(v'', inum))
            else Contents(v'', i) == Contents(v, i)
  {
    var v'' := Resized(v', inum, off + |src|);
    WroteByte(v, v', inum, off, src, i, 0);
    var old_, new_ := Contents(v, i), Contents(v'', i);
    forall x: nat | x < |new_|
      ensures new_[x] == if i == inum && off <= x < off + |src| then src[x - off] else old_[x]
    {
      WroteByte(v, v', inum, off, src, i, x);
      BytesAt(v'', i, |new_|, x);
      if x < |old_| { BytesAt(v, i, |old_|, x); }
    }
  }

  /** A file that an operation on another one leaves alone. */
  ghost predicate Undisturbed(v: Vol, v': Vol, i: nat)
    requires Shape(v) && Shape(v')
  {
    && i in v.inodes && i in v'.inodes && v'.inodes[i] == v.inodes[i] && v.inodes[i].size <= MAXFILE * BSIZE
    && Contents(v', i) == Contents(v, i)
  }

  // ---------------------------------------------------------------- truncation

  function Zeros(n: nat): (r: seq<int>)
    ensures |r| == n && forall i :: 0 <= i < n ==> r[i] == 0
  {
    seq(n, _ => 0)
  }

  /** An inode without blocks, the blocks of the others where they were. */
  ghost predicate Truncated(v: Vol, v': Vol, inum: nat) {
    && Owned(v', NONE) && inum in v.inodes && v'.meta == v.meta && v'.blocks == v.blocks
    && v'.inodes == v.inodes[inum := Inode(0, Zeros(NDIRECT + 1))] && v'.owner == Without(v.owner, inum, IND + 1)
  }

  /** itrunc frees exactly the blocks of its inode, the indirect block among them. */
  lemma FreesExactly(v: Vol, v': Vol, inum: nat, b: nat)
    requires Owned(v, NONE) && Truncated(v, v', inum) && b < |v.bits|
    ensures |v'.bits| == |v.bits|
    ensures v.bits[b] && !v'.bits[b] <==> b != 0 && exists k: nat :: k <= IND && Addr(v, inum, k) == b
    ensures !v.bits[b] ==> !v'.bits[b]
  {
    assert BitAt(v, b) && BitAt(v', b) && OwnAt(v, b);
    if b != 0 && exists k: nat :: k <= IND && Addr(v, inum, k) == b {
      var k: nat :| k <= IND && Addr(v, inum, k) == b;
      assert RefAt(v, Ref(inum, k));
    }
  }

  lemma {:induction false} SameBytes(v: Vol, v': Vol, i: nat, n: nat)
    requires Shape(v) && Shape(v') && i in v.inodes && i in v'.inodes && n <= MAXFILE * BSIZE
    requires v'.blocks == v.blocks && v'.inodes[i] == v.inodes[i]
    ensures Bytes(v', i, n) == Bytes(v, i, n)
  {
    if n > 0 { SameBytes(v, v', i, n - 1); }
  }

  lemma TruncatedFiles(v: Vol, v': Vol, inum: nat)
    requires FilesOk(v) && Truncated(v, v', inum)
    ensures FilesOk(v')
    ensures forall i: nat :: i in v.inodes && i != inum ==> Undisturbed(v, v', i)
    ensures inum in v'.inodes && Contents(v', inum) == []
  {
    forall i: nat | i in v'.inodes ensures HoleFree(v', i) && (i != inum ==> Undisturbed(v, v', i)) {
      assert HoleFree(v, i);
      if i != inum {
        forall k: nat | k <= IND ensures Addr(v', i, k) == Addr(v, i, k) { }
        forall k: nat | k * BSIZE < v.inodes[i].size ensures Present(v', i, k) { assert Present(v, i, k); }
        SameBytes(v, v', i, v.inodes[i].size);
      }
    }
  }
}
