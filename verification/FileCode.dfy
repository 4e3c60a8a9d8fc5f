/** The code of fs.c over the block model: balloc, bfree, bmap, itrunc, readi, writei, and the
    chunks of filewrite.  `logged` collects the blocks handed to log_write.
 */
module FileCode {
  import opened FileBlocks
  import opened FileSpace
  import opened Params
  import opened Sets

  const BPB := 8 * BSIZE
  const IPB := 8
  const MAXCHUNK := (MAXOPBLOCKS - 1 - 1 - 2) / 2 * 512

  /** A set of logged blocks. */
  datatype Blocks = Blocks(s: set<int>) {
    predicate Has(b: int) {
      b in s
    }

    function Add(b: int): Blocks {
      Blocks(s + {b})
    }
  }

  /** What is logged since `l`: bitmap blocks, the block `addr`, and the indirect block if slot `r`
      is behind it. */
  ghost predicate LogsOnly(l: Blocks, l': Blocks, maps: set<int>, addr: int, v: Vol, r: Ref)
    requires Shape(v) && r.inum in v.inodes
  {
    forall b {:trigger l'.Has(b)} :: l'.Has(b) ==>
      l.Has(b) || b in maps || b == addr || (r.k >= NDIRECT && b == Addr(v, r.inum, IND))
  }

  lemma LogsAddr(l: Blocks, l': Blocks, maps: set<int>, addr: int, v: Vol, r: Ref)
    requires Shape(v) && r.inum in v.inodes && LogsOnly(l, l', maps, addr, v, r)
    ensures LogsOnly(l, l'.Add(addr), maps, addr, v, r)
  {
    forall b | l'.Add(addr).Has(b)
      ensures l.Has(b) || b in maps || b == addr || (r.k >= NDIRECT && b == Addr(v, r.inum, IND))
    {
      if b != addr { assert l'.Has(b); }
    }
  }

  // ---------------------------------------------------------------- every change is logged

  /** If the block has changed it is logged, and if its bit has, its bitmap block is.  `maps` is the
      first bitmap block. */
  ghost predicate RecordAt(v: Vol, v': Vol, l: Blocks, maps: nat, b: nat) {
    && (b < |v.blocks| && b < |v'.blocks| && v'.blocks[b] != v.blocks[b] ==> l.Has(b))
    && (b < |v.bits| && b < |v'.bits| && v'.bits[b] != v.bits[b] ==> l.Has(b / BPB + maps))
  }

  /** Every block of the volume that has changed is logged, and what was logged still is. */
  ghost predicate Records(v: Vol, v': Vol, l: Blocks, l': Blocks, maps: nat) {
    && |v'.blocks| == |v.blocks| && |v'.bits| == |v.bits| && l.s <= l'.s
    && forall b: nat :: RecordAt(v, v', l', maps, b)
  }

  lemma RecordsOn(v: Vol, v1: Vol, v2: Vol, l: Blocks, l1: Blocks, l2: Blocks, maps: nat)
    requires Records(v, v1, l, l1, maps) && Records(v1, v2, l1, l2, maps)
    ensures Records(v, v2, l, l2, maps)
  {
    forall b: nat ensures RecordAt(v, v2, l2, maps, b) {
      assert RecordAt(v, v1, l1, maps, b) && RecordAt(v1, v2, l2, maps, b);
    }
  }

  /** Nothing but inodes and owners has changed. */
  lemma RecordsSame(v: Vol, v': Vol, l: Blocks, l': Blocks, maps: nat)
    requires v'.blocks == v.blocks && v'.bits == v.bits && l.s <= l'.s
    ensures Records(v, v', l, l', maps)
  {
  }

  /** One block has changed, or its bit. */
  lemma RecordsOne(v: Vol, v': Vol, l: Blocks, l': Blocks, maps: nat, b: nat)
    requires |v'.blocks| == |v.blocks| && |v'.bits| == |v.bits| && l.s <= l'.s && RecordAt(v, v', l', maps, b)
    requires forall c: nat :: c != b && c < |v.blocks| ==> v'.blocks[c] == v.blocks[c]
    requires forall c: nat :: c != b && c < |v.bits| ==> v'.bits[c] == v.bits[c]
    ensures Records(v, v', l, l', maps)
  {
  }

  // ---------------------------------------------------------------- counting logged blocks

  /** How many blocks `n` bytes at `off` touch. */
  function Span(off: nat, n: nat): nat {
    if n == 0 then 0 else (off + n - 1) / BSIZE - off / BSIZE + 1
  }

  /** 1 if the first of the blocks touched exists, because the write starts inside it. */
  function Skip(off: nat, n: nat): nat {
    if off % BSIZE != 0 && n > 0 then 1 else 0
  }

  /** The data blocks and bitmap blocks that writei has logged. */
  datatype Tally = Tally(data: set<int>, maps: set<int>)

  /** Of a write that has touched `span` blocks: one data block for each, and one bitmap block for
      each but the `skip` existing ones, and for the indirect block. */
  ghost predicate Tallied(v: Vol, v': Vol, inum: nat, span: nat, skip: nat, was: Blocks, logged: Blocks, t: Tally)
    requires Shape(v) && Shape(v') && inum in v.inodes && inum in v'.inodes
  {
    && (forall b {:trigger logged.Has(b)} :: logged.Has(b) ==>
          was.Has(b) || b in t.data || b in t.maps || (b != 0 && b == Addr(v', inum, IND)))
    && |t.data| <= span && |t.maps| + skip + Missing(v', inum, IND) <= span + Missing(v, inum, IND)
  }

  lemma SpanMore(off: nat, tot: nat, m: nat)
    requires (tot > 0 ==> (off + tot) % BSIZE == 0) && 0 < m <= BSIZE - (off + tot) % BSIZE
    ensures Span(off, tot + m) == Span(off, tot) + 1
  {
  }

  lemma TallyMore(v: Vol, v1: Vol, v2: Vol, inum: nat, k: nat, span: nat, skip: nat, was: Blocks,
                  logged1: Blocks, logged2: Blocks, t: Tally, addr: int, maps: set<int>)
    requires Grows(v1, v2, inum) && Shape(v) && inum in v.inodes && k < MAXFILE
    requires Tallied(v, v1, inum, span, skip, was, logged1, t)
    requires Addr(v2, inum, k) != 0 && LogsOnly(logged1, logged2, maps, addr, v2, Ref(inum, k))
    requires |maps| <= Missing(v1, inum, k) + if k < NDIRECT then 0 else Missing(v1, inum, IND)
    ensures var t' := Tally(t.data + {addr}, t.maps + maps);
            && Tallied(v, v2, inum, span + 1, skip, was, logged2, t')
            && (Addr(v1, inum, k) != 0 ==> Tallied(v, v2, inum, span + 1, skip + 1, was, logged2, t'))
  {
    assert Kept(v1, v2, Ref(inum, IND));
  }

  /** The bytes that one iteration of writei copies. */
  function Chunk(off: nat, n: nat, tot: nat): nat
    requires tot < n
  {
    var room := BSIZE - (off + tot) % BSIZE;
    if n - tot < room then n - tot else room
  }

  lemma ChunkEnds(off: nat, n: nat, tot: nat)
    requires tot < n
    ensures var m := Chunk(off, n, tot);
            && 0 < m <= BSIZE - (off + tot) % BSIZE && tot + m <= n
            && (tot + m < n ==> (off + tot + m) % BSIZE == 0)
  {
  }

  /** The loop of writei stands at a block boundary, but for its first and last iteration. */
  predicate AtBoundary(off: nat, tot: nat, n: nat) {
    0 < tot < n ==> (off + tot) % BSIZE == 0
  }

  /** Where writei's loop stands after `tot` bytes of `src`. */
  ghost predicate Progress(v: Vol, v': Vol, inum: nat, off: nat, src: seq<int>, tot: nat, was: Blocks,
                           logged: Blocks, t: Tally) {
    && tot <= |src| && Wrote(v, v', inum, off, src, tot)
    && Tallied(v, v', inum, Span(off, tot), Skip(off, tot), was, logged, t)
    && AtBoundary(off, tot, |src|)
    && (tot == 0 ==> v' == v)
    && (off + |src| <= v.inodes[inum].size ==> v'.inodes == v.inodes)
  }

  /** No block is allocated below the old end of the file. */
  lemma BlockExists(v: Vol, v1: Vol, inum: nat, off: nat, n: nat, tot: nat)
    requires Shape(v) && Shape(v1) && inum in v.inodes && inum in v1.inodes && HoleFree(v, inum) && tot < n
    requires off <= v.inodes[inum].size && off + n <= MAXFILE * BSIZE
    requires forall q: Ref :: Kept(v, v1, q)
    ensures off + n <= v.inodes[inum].size || (tot == 0 && off % BSIZE != 0) ==>
              Addr(v1, inum, (off + tot) / BSIZE) != 0
  {
    var k := (off + tot) / BSIZE;
    if off + n <= v.inodes[inum].size || (tot == 0 && off % BSIZE != 0) {
      assert Present(v, inum, k) && Kept(v, v1, Ref(inum, k));
    }
  }

  lemma ProgressMore(v: Vol, v1: Vol, v2: Vol, v3: Vol, inum: nat, off: nat, src: seq<int>, tot: nat, m: nat,
                     was: Blocks, logged1: Blocks, logged2: Blocks, t: Tally, addr: int, maps: set<int>)
    requires tot < |src| && m == Chunk(off, |src|, tot)
    requires Progress(v, v1, inum, off, src, tot, was, logged1, t) && Grows(v1, v2, inum)
    requires tot + m <= |src| && Replaced(v2, v3, inum, off, src, tot, tot + m)
    requires off + tot < MAXFILE * BSIZE && Addr(v2, inum, (off + tot) / BSIZE) != 0
    requires tot == 0 && off % BSIZE != 0 ==> Addr(v1, inum, (off + tot) / BSIZE) != 0
    requires off + |src| <= v.inodes[inum].size ==> v2 == v1
    requires LogsOnly(logged1, logged2, maps, addr, v2, Ref(inum, (off + tot) / BSIZE))
    requires |maps| <= Missing(v1, inum, (off + tot) / BSIZE)
                       + if (off + tot) / BSIZE < NDIRECT then 0 else Missing(v1, inum, IND)
    ensures Progress(v, v3, inum, off, src, tot + m, was, logged2, Tally(t.data + {addr}, t.maps + maps))
  {
    ChunkEnds(off, |src|, tot);
    WroteMore(v, v1, v2, v3, inum, off, src, tot, m);
    SpanMore(off, tot, m);
    var k := (off + tot) / BSIZE;
    TallyMore(v, v1, v2, inum, k, Span(off, tot), Skip(off, tot), was, logged1, logged2, t, addr, maps);
    assert SameAddr(v2, v3, Ref(inum, IND));
  }

  /** The 32-bit sum wraps. */
  predicate Wraps(off: nat, n: nat) {
    (off + n) % 0x1_0000_0000 < off
  }

  ghost predicate Readable(v: Vol, inum: nat, file: seq<int>) {
    Owned(v, NONE) && inum in v.inodes && HoleFree(v, inum) && file == Contents(v, inum)
  }

  /** What writei refuses. */
  ghost predicate Refused(v: Vol, inum: nat, off: nat, n: nat)
    requires inum in v.inodes
  {
    off > v.inodes[inum].size || Wraps(off, n) || off + n > MAXFILE * BSIZE
  }

  /** writei does not panic: it refuses, or the blocks missing in the range are there. */
  ghost predicate Fits(v: Vol, inum: nat, off: nat, n: nat)
    requires inum in v.inodes
  {
    Refused(v, inum, off, n) || Enough(v, inum, off / BSIZE, EndBlock(off, n))
  }

  /** The effect of a successful writei on files. */
  ghost predicate Written(v: Vol, v': Vol, inum: nat, off: nat, src: seq<int>) {
    && FilesOk(v) && FilesOk(v') && v'.inodes.Keys == v.inodes.Keys && inum in v.inodes
    && off <= v.inodes[inum].size && HoleFree(v, inum) && HoleFree(v', inum)
    && Spliced(Contents(v, inum), off, src, Contents(v', inum))
    && forall i: nat {:trigger Undisturbed(v, v', i)} :: i in v.inodes && i != inum ==> Undisturbed(v, v', i)
  }

  /** Data and bitmap blocks, the indirect block and the inode block. */
  function LogBound(off: nat, n: nat): int {
    2 * Span(off, n) - Skip(off, n) + 3
  }

  lemma WriteLogs(v: Vol, v': Vol, inum: nat, off: nat, n: nat, was: Blocks, logged: Blocks, t: Tally, ib: int)
    requires Shape(v) && Shape(v') && inum in v.inodes && inum in v'.inodes
    requires Tallied(v, v', inum, Span(off, n), Skip(off, n), was, logged, t)
    ensures |logged.s + {ib} - was.s| <= LogBound(off, n)
  {
    var ind := Addr(v', inum, IND);
    forall b | b in logged.s ensures b in was.s + t.data + t.maps || (b != 0 && b == ind) { assert logged.Has(b); }
    var all := t.data + t.maps + (if ind == 0 then {} else {ind});
    UnionCard(t.data, t.maps);
    SubsetCard(logged.s + {ib} - was.s, all + {ib});
  }

  lemma WriteDone(v: Vol, v': Vol, inum: nat, off: nat, src: seq<int>)
    requires FilesOk(v) && Wrote(v, v', inum, off, src, |src|) && src != [] && off <= v.inodes[inum].size
    ensures Written(v, Resized(v', inum, off + |src|), inum, off, src)
  {
    assert HoleFree(v, inum);
    var v'' := Resized(v', inum, off + |src|);
    WroteFiles(v, v', inum, off, src);
    assert HoleFree(v'', inum);
    WroteContents(v, v', inum, off, src, inum);
    forall i: nat | i in v.inodes && i != inum ensures Undisturbed(v, v'', i) {
      assert HoleFree(v, i);
      WroteContents(v, v', inum, off, src, i);
    }
  }

  lemma WriteNone(v: Vol, inum: nat, off: nat)
    requires FilesOk(v) && inum in v.inodes && off <= v.inodes[inum].size
    ensures Written(v, v, inum, off, [])
  {
    assert HoleFree(v, inum);
    forall i: nat | i in v.inodes ensures Undisturbed(v, v, i) { assert HoleFree(v, i); }
  }

  lemma WithoutNone(owner: map<int, Ref>, inum: nat)
    ensures Without(owner, inum, 0) == owner
  {
    forall c | c in owner ensures !Gap(inum, 0, 0).Has(owner[c]) { }
  }

  lemma ChunkFits(off: nat, n: nat)
    requires n <= MAXCHUNK
    ensures LogBound(off, n) <= MAXOPBLOCKS
  {
  }

  /** Consecutive writes are one write. */
  lemma WrittenOn(v: Vol, v1: Vol, v2: Vol, inum: nat, off: nat, src: seq<int>, i: nat, j: nat)
    requires i <= j <= |src| && inum in v.inodes && off <= v.inodes[inum].size
    requires Written(v, v1, inum, off, src[..i]) && Written(v1, v2, inum, off + i, src[i..j])
    ensures Written(v, v2, inum, off, src[..j])
  {
    SpliceOn(Contents(v, inum), Contents(v1, inum), Contents(v2, inum), off, src, i, j);
    forall k: nat | k in v.inodes && k != inum ensures Undisturbed(v, v2, k) {
      assert Undisturbed(v, v1, k) && Undisturbed(v1, v2, k);
    }
  }

  /** What was written is what is read back. */
  lemma ReadsBack(v: Vol, v': Vol, inum: nat, off: nat, src: seq<int>)
    requires Written(v, v', inum, off, src)
    ensures off + |src| <= |Contents(v', inum)| && Contents(v', inum)[off..off + |src|] == src
  {
  }

  /** The first `i` bytes of `src` are in the file, and no blocks but those they need were taken; none
      if the offset is past its end. */
  ghost predicate Partial(v: Vol, v': Vol, inum: nat, off: nat, src: seq<int>, i: nat)
    requires inum in v.inodes
  {
    && i <= |src|
    && if off > v.inodes[inum].size then i == 0 && v' == v
       else Written(v, v', inum, off, src[..i]) && Spent(v, v', inum, off / BSIZE, EndBlock(off, i))
  }

  /** filewrite's next chunk is refused. */
  predicate Stops(v: Vol, inum: nat, off: nat, i: nat, n: nat)
    requires inum in v.inodes && i <= n
  {
    off > v.inodes[inum].size || off + i + NextChunk(i, n) > MAXFILE * BSIZE
  }

  /** The bytes that filewrite gets written in chunks that writei accepts, from `i` on. */
  function Accepted(v: Vol, inum: nat, off: nat, i: nat, n: nat): (r: nat)
    requires inum in v.inodes && i <= n
    ensures i <= r <= n && (r < n ==> Stops(v, inum, off, r, n))
    decreases n - i
  {
    if i == n || Stops(v, inum, off, i, n) then i else Accepted(v, inum, off, i + NextChunk(i, n), n)
  }

  /** filewrite does not panic: the blocks missing for the bytes it writes are there. */
  predicate FitsAll(v: Vol, inum: nat, off: nat, n: nat)
    requires inum in v.inodes
  {
    off > v.inodes[inum].size || Enough(v, inum, off / BSIZE, EndBlock(off, Accepted(v, inum, off, 0, n)))
  }

  lemma ChunkRefused(v: Vol, v1: Vol, inum: nat, off: nat, src: seq<int>, i: nat, n1: nat)
    requires FilesOk(v1) && inum in v1.inodes && inum in v.inodes && Partial(v, v1, inum, off, src, i)
    requires i < |src| && n1 == NextChunk(i, |src|) && off + |src| < 0x1_0000_0000
    ensures Refused(v1, inum, off + i, n1) <==> Stops(v, inum, off, i, |src|)
  {
    if off <= v.inodes[inum].size { assert |Contents(v1, inum)| == v1.inodes[inum].size; }
  }

  /** What the next chunk meets, told from where filewrite began. */
  lemma ChunkSpace(v: Vol, v1: Vol, inum: nat, off: nat, src: seq<int>, i: nat, n1: nat)
    requires FilesOk(v1) && inum in v1.inodes && inum in v.inodes && Partial(v, v1, inum, off, src, i)
    requires i < |src| && n1 == NextChunk(i, |src|) && off + |src| < 0x1_0000_0000
    ensures Refused(v1, inum, off + i, n1) <==> Stops(v, inum, off, i, |src|)
    ensures Fits(v1, inum, off + i, n1) <==>
            Stops(v, inum, off, i, |src|) || Enough(v, inum, off / BSIZE, EndBlock(off, i + n1))
  {
    ChunkRefused(v, v1, inum, off, src, i, n1);
    if !Stops(v, inum, off, i, |src|) {
      var lo, mid, a, hi := off / BSIZE, EndBlock(off, i), (off + i) / BSIZE, EndBlock(off, i + n1);
      BlocksOn(off, i, n1);
      RestFits(v, v1, inum, lo, mid, a, hi, off + i, n1);
    }
  }

  lemma RestFits(v: Vol, v1: Vol, inum: nat, lo: nat, mid: nat, a: nat, hi: nat, x: nat, n1: nat)
    requires Spent(v, v1, inum, lo, mid) && lo <= a <= mid <= hi && mid <= a + 1 && FilesOk(v1) && inum in v1.inodes
    requires a == x / BSIZE && hi == EndBlock(x, n1) && !Refused(v1, inum, x, n1)
    ensures Fits(v1, inum, x, n1) <==> Enough(v, inum, lo, hi)
  {
    EnoughOn(v, v1, inum, lo, mid, a, hi);
  }

  lemma PartialOn(v: Vol, v1: Vol, v2: Vol, inum: nat, off: nat, src: seq<int>, i: nat, n1: nat)
    requires inum in v.inodes && Partial(v, v1, inum, off, src, i) && 0 < n1 && i + n1 <= |src|
    requires Written(v1, v2, inum, off + i, src[i..i + n1])
    requires Spent(v1, v2, inum, (off + i) / BSIZE, EndBlock(off + i, n1))
    ensures Partial(v, v2, inum, off, src, i + n1)
  {
    if off <= v.inodes[inum].size {
      WrittenOn(v, v1, v2, inum, off, src, i, i + n1);
      BlocksOn(off, i, n1);
      SpentOn(v, v1, v2, inum, off / BSIZE, EndBlock(off, i), (off + i) / BSIZE, EndBlock(off, i + n1));
    }
  }

  lemma BlocksOn(off: nat, i: nat, m: nat)
    requires m > 0
    ensures off / BSIZE <= (off + i) / BSIZE <= EndBlock(off, i) <= EndBlock(off, i + m) == EndBlock(off + i, m)
    ensures EndBlock(off, i) <= (off + i) / BSIZE + 1
    ensures off + i + m <= MAXFILE * BSIZE ==> EndBlock(off, i + m) <= MAXFILE
  {
  }

  /** filewrite's loop has come to byte `i`. */
  ghost predicate InChunks(v: Vol, inum: nat, off: nat, i: nat, n: nat) {
    && inum in v.inodes && WholeChunks(i, n)
    && Accepted(v, inum, off, i, n) == Accepted(v, inum, off, 0, n)
  }

  /** A chunk that is not refused is one of the accepted ones; without blocks for it there are not
      enough for all. */
  lemma ChunkStep(v: Vol, inum: nat, off: nat, i: nat, n: nat, n1: nat)
    requires InChunks(v, inum, off, i, n) && i < n && n1 == NextChunk(i, n)
    ensures 0 < n1 <= n - i
    ensures !Stops(v, inum, off, i, n) ==> InChunks(v, inum, off, i + n1, n)
    ensures !Stops(v, inum, off, i, n) && !Enough(v, inum, off / BSIZE, EndBlock(off, i + n1)) ==>
              !FitsAll(v, inum, off, n)
  {
    NextChunkWhole(i, n);
    var j, a := i + n1, Accepted(v, inum, off, 0, n);
    if !Stops(v, inum, off, i, n) && !Enough(v, inum, off / BSIZE, EndBlock(off, j)) {
      EndBlocks(off, j, a);
      NotEnough(v, inum, off / BSIZE, EndBlock(off, j), EndBlock(off, a));
    }
  }

  lemma ChunksEnd(v: Vol, v1: Vol, inum: nat, off: nat, src: seq<int>, i: nat)
    requires InChunks(v, inum, off, i, |src|) && Partial(v, v1, inum, off, src, i)
    requires i < |src| ==> Stops(v, inum, off, i, |src|)
    ensures i == Accepted(v, inum, off, 0, |src|) && FitsAll(v, inum, off, |src|)
  {
  }

  /** The bytes of filewrite's next transaction, `i` of `n` being written. */
  function NextChunk(i: nat, n: nat): (r: nat)
    requires i <= n
  {
    if n - i > MAXCHUNK then MAXCHUNK else n - i
  }

  /** `i` is a multiple of MAXCHUNK. */
  predicate Whole(i: nat) {
    i == 0 || (i >= MAXCHUNK && Whole(i - MAXCHUNK))
  }

  predicate WholeChunks(i: nat, n: nat) {
    i <= n && (i == n || Whole(i))
  }

  lemma SliceOn(s: seq<int>, a: nat, b: nat, c: nat)
    requires a <= b <= c <= |s|
    ensures s[a..c] == s[a..b] + s[b..c]
  {
  }

  lemma PartialNone(v: Vol, inum: nat, off: nat, src: seq<int>)
    requires FilesOk(v) && inum in v.inodes
    ensures Partial(v, v, inum, off, src, 0)
  {
    if off <= v.inodes[inum].size {
      assert HoleFree(v, inum);
      WriteNone(v, inum, off);
      SpentNone(v, inum, off / BSIZE);
    }
  }

  lemma NextChunkWhole(i: nat, n: nat)
    requires i < n && WholeChunks(i, n)
    ensures 0 < NextChunk(i, n) <= MAXCHUNK && WholeChunks(i + NextChunk(i, n), n)
  {
  }

  lemma SameGap(v: Vol, gap: Gap)
    requires Owned(v, NONE) && gap.lo == gap.hi
    ensures Owned(v, gap)
  {
  }

  lemma ResizedDown(v: Vol, inum: nat)
    requires Owned(v, NONE) && inum in v.inodes
    ensures Owned(v.(inodes := v.inodes[inum := Inode(0, v.inodes[inum].addrs)]), NONE)
  {
    var v' := v.(inodes := v.inodes[inum := Inode(0, v.inodes[inum].addrs)]);
    forall q: Ref ensures RefAt(v', q) { assert RefAt(v, q); }
    forall b ensures OwnAt(v', b) { assert OwnAt(v, b); }
    forall b ensures BitAt(v', b) { assert BitAt(v, b); }
  }

  /** The addresses with the first `n` set to 0. */
  ghost function Cleared(addrs: seq<int>, n: nat): (r: seq<int>)
    requires n <= |addrs|
    ensures |r| == |addrs|
  {
    if n == 0 then addrs else Cleared(addrs, n - 1)[n - 1 := 0]
  }

  lemma {:induction false} ClearedAt(addrs: seq<int>, n: nat, k: nat)
    requires n <= |addrs| && k < |addrs|
    ensures Cleared(addrs, n)[k] == if k < n then 0 else addrs[k]
  {
    if n > 0 { ClearedAt(addrs, n - 1, k); }
  }

  lemma ClearedZeros(addrs: seq<int>, n: nat)
    requires |addrs| == n + 1
    ensures Cleared(addrs, n) == Zeros(n) + [addrs[n]]
  {
    forall k: nat | k < |addrs| ensures Cleared(addrs, n)[k] == (Zeros(n) + [addrs[n]])[k] { ClearedAt(addrs, n, k); }
  }

  lemma PutSpent(v: Vol, v1: Vol, inum: nat, x: nat, data: seq<int>, lo: nat, hi: nat)
    requires Spent(v, v1, inum, lo, hi) && MayPut(v1, inum, x, data)
    ensures 0 < Addr(v1, inum, x / BSIZE) < |v1.blocks| && Spent(v, Put(v1, inum, x, data), inum, lo, hi)
  {
    PutAddr(v1, inum, x, data, Ref(inum, IND));
    var v2 := Put(v1, inum, x, data);
    forall k: nat | k <= IND ensures IsMissing(v2, inum, k) <==> IsMissing(v1, inum, k) {
      PutAddr(v1, inum, x, data, Ref(inum, k));
    }
    SpentSame(v, v1, v2, inum, lo, hi);
  }

  lemma ResizedSpent(v: Vol, v1: Vol, inum: nat, n: nat, lo: nat, hi: nat)
    requires Spent(v, v1, inum, lo, hi) && Shape(v1) && inum in v1.inodes
    ensures Spent(v, Resized(v1, inum, n), inum, lo, hi)
  {
    var v2 := Resized(v1, inum, n);
    forall k: nat | k <= IND ensures IsMissing(v2, inum, k) <==> IsMissing(v1, inum, k) {
      assert Shape(v2) && Addr(v2, inum, k) == Addr(v1, inum, k);
    }
    SpentSame(v, v1, Resized(v1, inum, n), inum, lo, hi);
  }

  /** One turn of writei's loop is about one block, the next one. */
  lemma ChunkBlocks(off: nat, n: nat, tot: nat, m: nat)
    requires tot < n && m == Chunk(off, n, tot) && AtBoundary(off, tot, n) && off + n <= MAXFILE * BSIZE
    ensures EndBlock(off, tot) == (off + tot) / BSIZE < MAXFILE && EndBlock(off, tot + m) == (off + tot) / BSIZE + 1
    ensures off / BSIZE <= (off + tot) / BSIZE
  {
  }

  lemma EndBlocks(off: nat, i: nat, n: nat)
    requires i <= n
    ensures off / BSIZE <= EndBlock(off, i) <= EndBlock(off, n)
    ensures off + n <= MAXFILE * BSIZE ==> EndBlock(off, n) <= MAXFILE
  {
  }

  lemma NotEnough(v: Vol, inum: nat, lo: nat, mid: nat, hi: nat)
    requires !Enough(v, inum, lo, mid) && lo <= mid <= hi
    ensures !Enough(v, inum, lo, hi)
  {
    if Enough(v, inum, lo, hi) { EnoughPrefix(v, inum, lo, mid, hi); }
  }

  lemma AllotOne(v: Vol, r: Ref, b: int)
    requires MayAllot(v, r, b)
    ensures OneSlot(v, Allot(v, r, b), r, b)
  {
    AllotShape(v, r, b);
    forall q: Ref ensures AddrAt(v, Allot(v, r, b), q, r, b) { AllotAddr(v, r, b, q); }
  }

  lemma SameSlots(v: Vol, inum: nat, k: nat)
    requires Shape(v) && inum in v.inodes && k <= IND
    ensures OneSlot(v, v, Ref(inum, k), Addr(v, inum, k))
  {
    forall q: Ref ensures AddrAt(v, v, q, Ref(inum, k), Addr(v, inum, k)) { }
  }

  class FileSystem {
    const meta: nat        // blocks before the data area
    const bmapstart: nat   // first bitmap block
    const inodestart: nat  // first inode block
    var bits: seq<bool>
    var blocks: seq<Data>
    var inodes: map<nat, Inode>   // in memory
    var dinodes: map<nat, Inode>  // on disk
    ghost var owner: map<int, Ref>
    ghost var logged: Blocks

    ghost function V(): Vol
      reads this
    {
      Vol(meta, bits, blocks, inodes, owner)
    }

    /** The bitmap block that holds the bit of block `b`. */
    function Bblock(b: nat): nat {
      b / BPB + bmapstart
    }

    function Iblock(inum: nat): nat {
      inum / IPB + inodestart
    }

    /** balloc: the lowest free block, marked and zeroed; not ok is the panic "out of blocks". */
    method Balloc() returns (b: nat, ok: bool)
      requires |bits| == |blocks|
      modifies this`bits, this`blocks, this`logged
      ensures ok <==> exists c :: 0 <= c < |old(bits)| && !old(bits)[c]
      ensures !ok ==> V() == old(V()) && logged == old(logged)
      ensures ok ==> b < |old(bits)| && !old(bits)[b] && forall c :: 0 <= c < b ==> old(bits)[c]
      ensures ok ==> bits == old(bits)[b := true] && blocks == old(blocks)[b := Zero()]
      ensures ok ==> logged == old(logged).Add(Bblock(b)).Add(b)
    {
      ok := true;
      b := 0;
      while b < |bits|
        invariant b % BPB == 0 && bits == old(bits) && blocks == old(blocks) && logged == old(logged)
        invariant forall c :: 0 <= c < b && c < |bits| ==> bits[c]
      {
        var bi := 0;
        while bi < BPB && b + bi < |bits|
          invariant 0 <= bi <= BPB && bits == old(bits) && blocks == old(blocks) && logged == old(logged)
          invariant forall c :: 0 <= c < b + bi && c < |bits| ==> bits[c]
        {
          if !bits[b + bi] {
            bits := bits[b + bi := true];
            logged := logged.Add(Bblock(b));
            blocks := blocks[b + bi := Zero()];
            logged := logged.Add(b + bi);
            b := b + bi;
            return;
          }
          bi := bi + 1;
        }
        b := b + BPB;
      }
      ok := false;
    }

    /** bfree: clears the bit; the block must be allocated, or the kernel panics. */
    method Bfree(b: nat)
      requires b < |bits| && bits[b]
      modifies this`bits, this`logged
      ensures bits == old(bits)[b := false] && logged == old(logged).Add(Bblock(b))
    {
      bits := bits[b := false];
      logged := logged.Add(Bblock(b));
    }

    /** iupdate: copy the inode to its disk block. */
    method Iupdate(inum: nat)
      requires inum in inodes
      modifies this`dinodes, this`logged
      ensures dinodes == old(dinodes)[inum := inodes[inum]] && logged == old(logged).Add(Iblock(inum))
    {
      dinodes := dinodes[inum := inodes[inum]];
      logged := logged.Add(Iblock(inum));
    }

    /** balloc for a slot of an inode: the address is stored and the block has one owner. */
    method AllotSlot(r: Ref) returns (b: nat, ok: bool)
      requires Owned(V(), NONE) && r.inum in inodes && r.k <= IND && Addr(V(), r.inum, r.k) == 0
      requires NDIRECT <= r.k < IND ==> Addr(V(), r.inum, IND) != 0
      modifies this`bits, this`blocks, this`inodes, this`owner, this`logged
      ensures ok <==> FreeBlocks(old(bits)) > 0
      ensures ok ==> Grows(old(V()), V(), r.inum) && Addr(V(), r.inum, r.k) == b > 0
      ensures ok ==> FreeBlocks(bits) == FreeBlocks(old(bits)) - 1 && OneSlot(old(V()), V(), r, b)
      ensures ok ==> LogsOnly(old(logged), logged, {Bblock(b)}, b, V(), r)
      ensures ok ==> Records(old(V()), V(), old(logged), logged, bmapstart)
    {
      ghost var v, was := V(), logged;
      NoneFree(bits);
      b, ok := Balloc();
      if ok {
        ghost var v1, was1 := V(), logged;
        RecordsOne(v, v1, was, was1, bmapstart, b);
        FreeBlocksSet(v.bits, b);
        AllotShape(v, r, b);
        AllotOne(v, r, b);
        AllotGrows(v, r, b);
        var ip := inodes[r.inum];
        if NDIRECT <= r.k < IND {
          var ind := ip.addrs[NDIRECT];
          blocks := blocks[ind := SetWord(blocks[ind], r.k - NDIRECT, b)];
          logged := logged.Add(ind);
          RecordsOne(v1, V(), was1, logged, bmapstart, ind);
        } else {
          inodes := inodes[r.inum := Inode(ip.size, ip.addrs[(if r.k == IND then NDIRECT else r.k) := b])];
          RecordsSame(v1, V(), was1, logged, bmapstart);
        }
        ghost var v2 := V();
        owner := owner[b := r];
        RecordsSame(v2, V(), logged, logged, bmapstart);
        RecordsOn(v, v1, v2, was, was1, logged, bmapstart);
        RecordsOn(v, v2, V(), was, logged, logged, bmapstart);
        assert V() == Allot(v, r, b);
      }
    }

    /** The slot's block, allocated if there is none: what bmap does at each level. */
    method Ensure(inum: nat, k: nat, found: int) returns (addr: int, ok: bool, ghost bitmaps: set<int>)
      requires Owned(V(), NONE) && inum in inodes && k <= IND && found == Addr(V(), inum, k)
      requires NDIRECT <= k < IND ==> Addr(V(), inum, IND) != 0
      modifies this`bits, this`blocks, this`inodes, this`owner, this`logged
      ensures found != 0 ==> ok && V() == old(V()) && logged == old(logged)
      ensures ok <==> FreeBlocks(old(bits)) >= old(Missing(V(), inum, k))
      ensures ok ==> FreeBlocks(bits) == FreeBlocks(old(bits)) - old(Missing(V(), inum, k))
      ensures ok ==> OneSlot(old(V()), V(), Ref(inum, k), addr)
      ensures ok ==> Grows(old(V()), V(), inum) && Addr(V(), inum, k) == addr && 0 < addr < |blocks|
      ensures ok ==> LogsOnly(old(logged), logged, bitmaps, addr, V(), Ref(inum, k))
      ensures ok ==> Records(old(V()), V(), old(logged), logged, bmapstart)
      ensures |bitmaps| <= old(Missing(V(), inum, k))
    {
      ghost var v := V();
      RecordsSame(v, v, logged, logged, bmapstart);
      addr, ok, bitmaps := found, true, {};
      GrowsSelf(v, inum);
      SameSlots(v, inum, k);
      if addr == 0 {
        addr, ok := AllotSlot(Ref(inum, k));
        bitmaps := {Bblock(addr)};
      }
      if ok {
        SlotAllocated(V(), NONE, inum, k);
      }
    }

    /** bmap: the block for block number `k`, allocated if there is none; not ok, the panic of balloc,
        if and only if there are fewer free blocks than it needs.  Nothing changes for an existing
        block; otherwise at most the data block, the indirect block and `bitmaps` are logged. */
    method Bmap(inum: nat, k: nat) returns (addr: int, ok: bool, ghost bitmaps: set<int>)
      requires Owned(V(), NONE) && inum in inodes && k < MAXFILE
      modifies this`bits, this`blocks, this`inodes, this`owner, this`logged
      ensures old(Addr(V(), inum, k)) != 0 ==> ok && V() == old(V()) && logged == old(logged)
      ensures ok <==> Enough(old(V()), inum, k, k + 1)
      ensures ok ==> Spent(old(V()), V(), inum, k, k + 1)
      ensures ok ==> Grows(old(V()), V(), inum) && Addr(V(), inum, k) == addr && 0 < addr < |blocks|
      ensures ok ==> LogsOnly(old(logged), logged, bitmaps, addr, V(), Ref(inum, k))
      ensures ok ==> Records(old(V()), V(), old(logged), logged, bmapstart)
      ensures |bitmaps| <= old(Missing(V(), inum, k) + if k < NDIRECT then 0 else Missing(V(), inum, IND))
    {
      ghost var v, was := V(), logged;
      NeedOne(v, inum, k);
      if k < NDIRECT {
        addr, ok, bitmaps := Ensure(inum, k, inodes[inum].addrs[k]);
        if ok { OneFilled(v, V(), inum, k, addr); }
        return;
      }
      addr, ok, bitmaps := Ensure(inum, IND, inodes[inum].addrs[NDIRECT]);
      if !ok {
        return;
      }
      ghost var v1, was1 := V(), logged;
      ghost var more;
      assert v1.inodes[inum].addrs[NDIRECT] == addr;
      ghost var ind := addr;
      assert Kept(v, v1, Ref(inum, k)) && AddrAt(v, v1, Ref(inum, k), Ref(inum, IND), ind);
      addr, ok, more := Ensure(inum, k, Word(blocks[addr], k - NDIRECT));
      bitmaps := bitmaps + more;
      if ok {
        GrowsTrans(v, v1, V(), inum);
        TwoFilled(v, v1, V(), inum, k, ind, addr);
        RecordsOn(v, v1, V(), was, was1, logged, bmapstart);
        assert Kept(v1, V(), Ref(inum, IND));
      }
    }
  
    /** One iteration of readi. */
    method ReadSome(inum: nat, x: nat, m: nat, ghost file: seq<int>) returns (chunk: seq<int>)
      requires Readable(V(), inum, file) && x + m <= |file| && 0 < m && x % BSIZE + m <= BSIZE
      modifies this`bits, this`blocks, this`inodes, this`owner, this`logged
      ensures V() == old(V()) && logged == old(logged) && chunk == file[x..x + m]
    {
      assert Present(V(), inum, x / BSIZE);
      var addr, ok, _ := Bmap(inum, x / BSIZE);
      ReadChunk(V(), inum, x, m);
      chunk := blocks[addr].bytes[x % BSIZE..x % BSIZE + m];
    }

    /** readi: the bytes of the file from `off` on, clipped at its end; -1 past the end or if the
        32-bit sum wraps. */
    method Readi(inum: nat, off: nat, n: nat) returns (r: int, dst: seq<int>)
      requires FilesOk(V()) && inum in inodes && HoleFree(V(), inum) && off < 0x1_0000_0000 && n < 0x1_0000_0000
      modifies this`bits, this`blocks, this`inodes, this`owner, this`logged
      ensures V() == old(V()) && logged == old(logged)
      ensures var file := old(Contents(V(), inum));
              if off > |file| || Wraps(off, n) then r == -1 && dst == []
              else r == |dst| && dst == if off + n > |file| then file[off..] else file[off..off + n]
    {
      ghost var v, was, file := V(), logged, Contents(V(), inum);
      assert HoleFree(v, inum);
      assert Readable(v, inum, file);
      dst := [];
      if off > inodes[inum].size || (off + n) % 0x1_0000_0000 < off {
        return -1, [];
      }
      r := n;
      if off + n > inodes[inum].size {
        r := inodes[inum].size - off;
      }
      while |dst| < r
        invariant V() == v && logged == was && |dst| <= r && dst == file[off..off + |dst|]
        decreases r - |dst|
      {
        var x := off + |dst|;
        var m := if r - |dst| < BSIZE - x % BSIZE then r - |dst| else BSIZE - x % BSIZE;
        var chunk := ReadSome(inum, x, m, file);
        SliceOn(file, off, x, x + m);
        dst := dst + chunk;
      }
    }

    /** One iteration of writei, in block `k`: bmap, copy, log_write.  `v1` is the volume after bmap. */
    method WriteSome(inum: nat, off: nat, src: seq<int>, tot: nat, m: nat, ghost k: nat)
      returns (ok: bool, ghost v1: Vol, ghost addr: int, ghost bitmaps: set<int>)
      requires Owned(V(), NONE) && inum in inodes && off + |src| <= MAXFILE * BSIZE && tot < |src|
      requires 0 < m <= |src| - tot && m <= BSIZE - (off + tot) % BSIZE && k == (off + tot) / BSIZE
      modifies this`bits, this`blocks, this`inodes, this`owner, this`logged
      ensures ok <==> Enough(old(V()), inum, k, k + 1)
      ensures ok ==> Spent(old(V()), V(), inum, k, k + 1)
      ensures old(Addr(V(), inum, k)) != 0 ==> ok && v1 == old(V())
      ensures ok ==> Grows(old(V()), v1, inum) && Addr(v1, inum, k) != 0
      ensures ok ==> Replaced(v1, V(), inum, off, src, tot, tot + m)
      ensures ok ==> LogsOnly(old(logged), logged, bitmaps, addr, v1, Ref(inum, k))
      ensures ok ==> Records(old(V()), V(), old(logged), logged, bmapstart)
      ensures |bitmaps| <= old(Missing(V(), inum, k) + if k < NDIRECT then 0 else Missing(V(), inum, IND))
    {
      var x, bno := off + tot, 0;
      bno, ok, bitmaps := Bmap(inum, x / BSIZE);
      v1, addr := V(), bno;
      ghost var was1 := logged;
      if ok {
        PutReplaces(v1, inum, off, src, tot, tot + m);
        PutSpent(old(V()), v1, inum, x, src[tot..tot + m], k, k + 1);
        LogsAddr(old(logged), logged, bitmaps, bno, v1, Ref(inum, k));
        blocks := blocks[bno := Patch(blocks[bno], x % BSIZE, src[tot..tot + m])];
        logged := logged.Add(bno);
        assert V() == Put(v1, inum, x, src[tot..tot + m]);
        RecordsOne(v1, V(), was1, logged, bmapstart, bno);
        RecordsOn(old(V()), v1, V(), old(logged), was1, logged, bmapstart);
      }
    }

    /** The body of writei's loop; blocks lo.. up to mid are written to, and up to hi behind it. */
    method WriteNext(ghost v: Vol, inum: nat, off: nat, src: seq<int>, tot: nat, m: nat, ghost was: Blocks,
                     ghost t: Tally, ghost lo: nat, ghost hi: nat)
      returns (ok: bool, ghost t': Tally)
      requires tot < |src| && Progress(v, V(), inum, off, src, tot, was, logged, t) && HoleFree(v, inum)
      requires off <= v.inodes[inum].size && m == Chunk(off, |src|, tot)
      requires lo == off / BSIZE && hi == EndBlock(off, tot + m) && Spent(v, V(), inum, lo, EndBlock(off, tot))
      modifies this`bits, this`blocks, this`inodes, this`owner, this`logged
      ensures ok <==> Enough(v, inum, lo, hi)
      ensures ok ==> Spent(v, V(), inum, lo, hi)
      ensures ok ==> Progress(v, V(), inum, off, src, tot + m, was, logged, t')
      ensures ok ==> Records(old(V()), V(), old(logged), logged, bmapstart)
    {
      ghost var v1, logged1 := V(), logged;
      ChunkEnds(off, |src|, tot);
      ChunkBlocks(off, |src|, tot, m);
      ghost var k := (off + tot) / BSIZE;
      EnoughOn(v, v1, inum, lo, k, k, hi);
      BlockExists(v, v1, inum, off, |src|, tot);
      ghost var v2, addr, maps;
      ok, v2, addr, maps := WriteSome(inum, off, src, tot, m, k);
      t' := Tally(t.data + {addr}, t.maps + maps);
      if ok {
        SpentOn(v, v1, V(), inum, lo, k, k, hi);
        ProgressMore(v, v1, v2, V(), inum, off, src, tot, m, was, logged1, logged, t, addr, maps);
      }
    }

    /** writei's loop. */
    method WriteLoop(inum: nat, off: nat, src: seq<int>) returns (ok: bool, ghost t: Tally)
      requires Owned(V(), NONE) && inum in inodes && HoleFree(V(), inum)
      requires off <= inodes[inum].size && off + |src| <= MAXFILE * BSIZE
      modifies this`bits, this`blocks, this`inodes, this`owner, this`logged
      ensures ok <==> Enough(old(V()), inum, off / BSIZE, EndBlock(off, |src|))
      ensures ok ==> Spent(old(V()), V(), inum, off / BSIZE, EndBlock(off, |src|))
      ensures ok ==> Progress(old(V()), V(), inum, off, src, |src|, old(logged), logged, t)
      ensures ok ==> Records(old(V()), V(), old(logged), logged, bmapstart)
    {
      ghost var v, was, lo, end := V(), logged, off / BSIZE, EndBlock(off, |src|);
      var tot := 0;
      ghost var mid: nat := lo;
      ok, t := true, Tally({}, {});
      WroteNothing(v, inum, off, src);
      SpentNone(v, inum, lo);
      RecordsSame(v, v, was, was, bmapstart);
      while tot < |src|
        invariant Progress(v, V(), inum, off, src, tot, was, logged, t) && Records(v, V(), was, logged, bmapstart)
        invariant Spent(v, V(), inum, lo, mid) && mid == EndBlock(off, tot)
      {
        var m := Chunk(off, |src|, tot);
        ChunkEnds(off, |src|, tot);
        EndBlocks(off, tot + m, |src|);
        ghost var v1, was1 := V(), logged;
        mid := EndBlock(off, tot + m);
        ok, t := WriteNext(v, inum, off, src, tot, m, was, t, lo, mid);
        if !ok {
          NotEnough(v, inum, lo, mid, end);
          return;
        }
        RecordsOn(v, v1, V(), was, was1, logged, bmapstart);
        tot := tot + m;
      }
    }

    /** The part of writei behind its checks. */
    method WriteChecked(inum: nat, src: seq<int>, off: nat) returns (ok: bool)
      requires FilesOk(V()) && inum in inodes && inum in dinodes && dinodes[inum] == inodes[inum]
      requires off <= inodes[inum].size && off + |src| <= MAXFILE * BSIZE
      modifies this
      ensures ok <==> Enough(old(V()), inum, off / BSIZE, EndBlock(off, |src|))
      ensures ok ==> Spent(old(V()), V(), inum, off / BSIZE, EndBlock(off, |src|))
      ensures ok ==> Written(old(V()), V(), inum, off, src) && dinodes == old(dinodes)[inum := inodes[inum]]
      ensures ok ==> |logged.s - old(logged).s| <= LogBound(off, |src|)
      ensures ok ==> Records(old(V()), V(), old(logged), logged, bmapstart)
      ensures ok ==> dinodes == old(dinodes) || logged.Has(Iblock(inum))
    {
      ghost var v, was := V(), logged;
      assert HoleFree(v, inum);
      ghost var t;
      ok, t := WriteLoop(inum, off, src);
      if !ok {
        return;
      }
      ghost var v', logged' := V(), logged;
      ResizedSpent(v, v', inum, if src == [] then 0 else off + |src|, off / BSIZE, EndBlock(off, |src|));
      if |src| > 0 && off + |src| > inodes[inum].size {
        inodes := inodes[inum := Inode(off + |src|, inodes[inum].addrs)];
        Iupdate(inum);
      }
      RecordsSame(v', V(), logged', logged, bmapstart);
      RecordsOn(v, v', V(), was, logged', logged, bmapstart);
      WriteLogs(v, v', inum, off, |src|, was, logged', t, Iblock(inum));
      SubsetCard(logged.s - was.s, logged'.s + {Iblock(inum)} - was.s);
      if src == [] { WriteNone(v, inum, off); } else { WriteDone(v, v', inum, off, src); }
    }

    /** writei: `src` at `off`, within or just past the end.  -1 and no change if `off` is past the
        end, the 32-bit sum wraps or the file would get too big.  Else not ok, the panic of balloc, if
        and only if fewer blocks are free than are missing in the range, the indirect block included.
        On success exactly those bytes change, other files do not, the inode on disk agrees with the
        one in memory, and the number of blocks logged is bounded. */
    method Writei(inum: nat, src: seq<int>, off: nat) returns (r: int, ok: bool)
      requires FilesOk(V()) && inum in inodes && inum in dinodes && dinodes[inum] == inodes[inum]
      requires off < 0x1_0000_0000 && |src| < 0x1_0000_0000
      modifies this
      ensures Refused(old(V()), inum, off, |src|) ==>
                ok && r == -1 && V() == old(V()) && logged == old(logged) && dinodes == old(dinodes)
      ensures ok <==> Fits(old(V()), inum, off, |src|)
      ensures ok && !Refused(old(V()), inum, off, |src|) ==>
                && r == |src| && Written(old(V()), V(), inum, off, src)
                && Spent(old(V()), V(), inum, off / BSIZE, EndBlock(off, |src|))
      ensures ok ==> dinodes == old(dinodes)[inum := inodes[inum]]
      ensures ok ==> |logged.s - old(logged).s| <= LogBound(off, |src|)
      ensures ok ==> Records(old(V()), V(), old(logged), logged, bmapstart)
      ensures ok ==> dinodes == old(dinodes) || logged.Has(Iblock(inum))
    {
      assert logged.s - old(logged).s == {};
      RecordsSame(V(), V(), logged, logged, bmapstart);
      if off > inodes[inum].size || (off + |src|) % 0x1_0000_0000 < off {
        return -1, true;
      }
      if off + |src| > MAXFILE * BSIZE {
        return -1, true;
      }
      ok := WriteChecked(inum, src, off);
      r := |src|;
    }
  
    /** The body of itrunc's first loop: free direct block `i`. */
    method FreeDirect(inum: nat, i: nat)
      requires Owned(V(), NONE) && inum in inodes && i < NDIRECT
      modifies this`bits, this`inodes, this`owner, this`logged
      ensures Owned(V(), NONE) && owner == old(owner) - {old(inodes)[inum].addrs[i]}
      ensures var ip := old(inodes)[inum]; inodes == old(inodes)[inum := Inode(ip.size, ip.addrs[i := 0])]
      ensures Records(old(V()), V(), old(logged), logged, bmapstart)
    {
      ghost var v, was := V(), logged;
      var ip := inodes[inum];
      if ip.addrs[i] != 0 {
        SlotAllocated(v, NONE, inum, i);
        Bfree(ip.addrs[i]);
        owner := owner - {ip.addrs[i]};
        ReleaseOwned(v, NONE, Gap(inum, i, i + 1), ip.addrs[i]);
        ClearOwned(V(), Gap(inum, i, i + 1), inum, i);
        inodes := inodes[inum := Inode(ip.size, ip.addrs[i := 0])];
        RecordsOne(v, V(), was, logged, bmapstart, ip.addrs[i]);
      } else {
        assert OwnAt(v, 0);
        assert ip.addrs[i := 0] == ip.addrs;
        RecordsSame(v, V(), was, logged, bmapstart);
      }
    }

    /** The body of itrunc's second loop: free the block that word `j` of the indirect block names. */
    method FreeIndirect(inum: nat, j: nat)
      requires j < NINDIRECT && Owned(V(), Gap(inum, NDIRECT, NDIRECT + j)) && inum in inodes
      requires Addr(V(), inum, IND) != 0
      requires 0 < Addr(V(), inum, IND) < |blocks|
      modifies this`bits, this`owner, this`logged
      ensures Owned(V(), Gap(inum, NDIRECT, NDIRECT + j + 1))
      ensures owner == old(owner) - {old(Addr(V(), inum, NDIRECT + j))}
      ensures Records(old(V()), V(), old(logged), logged, bmapstart)
    {
      ghost var v, was := V(), logged;
      ghost var gap, gap' := Gap(inum, NDIRECT, NDIRECT + j), Gap(inum, NDIRECT, NDIRECT + j + 1);
      var a := Word(blocks[inodes[inum].addrs[NDIRECT]], j);
      if a != 0 {
        SlotAllocated(v, gap, inum, NDIRECT + j);
        Bfree(a);
        owner := owner - {a};
        ReleaseOwned(v, gap, gap', a);
        RecordsOne(v, V(), was, logged, bmapstart, a);
      } else {
        assert OwnAt(v, 0);
        RecordsSame(v, V(), was, logged, bmapstart);
        EmptySlot(v, gap, gap', Ref(inum, NDIRECT + j));
      }
    }
  
    /** The first loop of itrunc. */
    method FreeDirects(inum: nat)
      requires Owned(V(), NONE) && inum in inodes
      modifies this`bits, this`inodes, this`owner, this`logged
      ensures Owned(V(), NONE) && owner == Without(old(owner), inum, NDIRECT)
      ensures var ip := old(inodes)[inum];
              inodes == old(inodes)[inum := Inode(ip.size, Zeros(NDIRECT) + [ip.addrs[NDIRECT]])]
      ensures Records(old(V()), V(), old(logged), logged, bmapstart)
    {
      ghost var v, was := V(), logged;
      RecordsSame(v, v, was, was, bmapstart);
      var ip := inodes[inum];
      var i := 0;
      WithoutNone(owner, inum);
      while i < NDIRECT
        invariant 0 <= i <= NDIRECT && Owned(V(), NONE) && owner == Without(v.owner, inum, i)
        invariant inodes == v.inodes[inum := Inode(ip.size, Cleared(ip.addrs, i))]
        invariant Records(v, V(), was, logged, bmapstart)
      {
        ghost var v1, was1 := V(), logged;
        WithoutStep(v, inum, i);
        ClearedAt(ip.addrs, i, i);
        FreeDirect(inum, i);
        RecordsOn(v, v1, V(), was, was1, logged, bmapstart);
        i := i + 1;
      }
      ClearedZeros(ip.addrs, i);
    }

    /** The second half of itrunc: the blocks behind the indirect block, then that block. */
    method FreeIndirects(inum: nat, ghost v: Vol)
      requires Owned(v, NONE) && inum in v.inodes && Owned(V(), NONE) && inum in inodes && blocks == v.blocks
      requires Addr(V(), inum, IND) == Addr(v, inum, IND) != 0 && owner == Without(v.owner, inum, NDIRECT)
      modifies this`bits, this`inodes, this`owner, this`logged
      ensures Owned(V(), NONE) && owner == Without(v.owner, inum, IND + 1)
      ensures var ip := old(inodes)[inum]; inodes == old(inodes)[inum := Inode(ip.size, ip.addrs[NDIRECT := 0])]
      ensures Records(old(V()), V(), old(logged), logged, bmapstart)
    {
      SlotAllocated(V(), NONE, inum, IND);
      ghost var v1, was := V(), logged;
      RecordsSame(v1, v1, was, was, bmapstart);
      var ip := inodes[inum];
      var ind := ip.addrs[NDIRECT];
      var j := 0;
      SameGap(V(), Gap(inum, NDIRECT, NDIRECT));
      while j < NINDIRECT
        invariant 0 <= j <= NINDIRECT && inodes == v1.inodes && Records(v1, V(), was, logged, bmapstart)
        invariant Owned(V(), Gap(inum, NDIRECT, NDIRECT + j)) && owner == Without(v.owner, inum, NDIRECT + j)
      {
        ghost var v2, was2 := V(), logged;
        WithoutStep(v, inum, NDIRECT + j);
        FreeIndirect(inum, j);
        RecordsOn(v1, v2, V(), was, was2, logged, bmapstart);
        j := j + 1;
      }
      ghost var v2, was2 := V(), logged;
      WithoutStep(v, inum, IND);
      SlotAllocated(v2, Gap(inum, NDIRECT, IND), inum, IND);
      Bfree(ind);
      owner := owner - {ind};
      ReleaseOwned(v2, Gap(inum, NDIRECT, IND), Gap(inum, NDIRECT, IND + 1), ind);
      ClearOwned(V(), Gap(inum, NDIRECT, IND + 1), inum, NDIRECT);
      inodes := inodes[inum := Inode(ip.size, ip.addrs[NDIRECT := 0])];
      RecordsOne(v2, V(), was2, logged, bmapstart, ind);
      RecordsOn(v1, v2, V(), was, was2, logged, bmapstart);
    }

    /** itrunc: the inode loses all its blocks, exactly those are freed, and it is empty. */
    method Itrunc(inum: nat)
      requires FilesOk(V()) && inum in inodes
      modifies this
      ensures Truncated(old(V()), V(), inum) && FilesOk(V())
      ensures forall i: nat :: i in old(inodes) && i != inum ==> Undisturbed(old(V()), V(), i)
      ensures dinodes == old(dinodes)[inum := inodes[inum]]
      ensures Records(old(V()), V(), old(logged), logged, bmapstart) && logged.Has(Iblock(inum))
    {
      ghost var v, was := V(), logged;
      FreeDirects(inum);
      ghost var v1, was1 := V(), logged;
      RecordsSame(v1, v1, was1, was1, bmapstart);
      if inodes[inum].addrs[NDIRECT] != 0 {
        FreeIndirects(inum, v);
      } else {
        NoIndirect(v, inum);
      }
      assert inodes[inum].addrs == Zeros(NDIRECT + 1);
      RecordsOn(v, v1, V(), was, was1, logged, bmapstart);
      ghost var v2, was2 := V(), logged;
      ResizedDown(V(), inum);
      inodes := inodes[inum := Inode(0, inodes[inum].addrs)];
      Iupdate(inum);
      RecordsSame(v2, V(), was2, logged, bmapstart);
      RecordsOn(v, v2, V(), was, was2, logged, bmapstart);
      assert Truncated(v, V(), inum);
      TruncatedFiles(v, V(), inum);
    }
  
    /** One transaction of filewrite: at most MAXOPBLOCKS distinct blocks are logged in it. */
    method WriteTransaction(inum: nat, src: seq<int>, off: nat) returns (r: int, ok: bool)
      requires FilesOk(V()) && inum in inodes && inum in dinodes && dinodes[inum] == inodes[inum]
      requires off < 0x1_0000_0000 && |src| <= MAXCHUNK
      modifies this
      ensures ok ==> |logged.s| <= MAXOPBLOCKS && inum in inodes && dinodes == old(dinodes)[inum := inodes[inum]]
      ensures ok ==> Records(old(V()), V(), Blocks({}), logged, bmapstart)
      ensures ok ==> dinodes == old(dinodes) || logged.Has(Iblock(inum))
      ensures ok <==> Fits(old(V()), inum, off, |src|)
      ensures Refused(old(V()), inum, off, |src|) ==> ok && r == -1 && V() == old(V())
      ensures ok && !Refused(old(V()), inum, off, |src|) ==>
                && r == |src| && Written(old(V()), V(), inum, off, src)
                && Spent(old(V()), V(), inum, off / BSIZE, EndBlock(off, |src|))
    {
      logged := Blocks({});
      r, ok := Writei(inum, src, off);
      ChunkFits(off, |src|);
      assert logged.s - {} == logged.s;
    }

    ghost predicate Writable(inum: nat)
      reads this
    {
      FilesOk(V()) && inum in inodes && inum in dinodes && dinodes[inum] == inodes[inum]
    }

    /** Where filewrite's loop stands after `i` bytes of `src`. */
    ghost predicate WrittenTo(v: Vol, inum: nat, off: nat, src: seq<int>, i: nat)
      reads this
    {
      inum in v.inodes && Writable(inum) && Partial(v, V(), inum, off, src, i)
    }

    /** The transaction in filewrite's loop, for the next `n1` bytes of `src` from `i` on. */
    method WriteChunk(ghost v: Vol, inum: nat, src: seq<int>, off: nat, i: nat, n1: nat) returns (r: int, ok: bool)
      requires off + |src| < 0x1_0000_0000 && i < |src| && n1 == NextChunk(i, |src|) && WrittenTo(v, inum, off, src, i)
      modifies this
      ensures ok <==> Stops(v, inum, off, i, |src|) || Enough(v, inum, off / BSIZE, EndBlock(off, i + n1))
      ensures ok ==> |logged.s| <= MAXOPBLOCKS && r == (if Stops(v, inum, off, i, |src|) then -1 else n1)
      ensures ok && r < 0 ==> WrittenTo(v, inum, off, src, i)
      ensures ok && r >= 0 ==> WrittenTo(v, inum, off, src, i + n1)
    {
      ghost var v1 := V();
      var part, x := src[i..i + n1], off + i;
      ChunkSpace(v, v1, inum, off, src, i, n1);
      r, ok := WriteTransaction(inum, part, x);
      if ok && r >= 0 {
        PartialOn(v, v1, V(), inum, off, src, i, n1);
      }
    }

    /** One turn of filewrite's loop; `done` if writei refused. */
    method WriteTurn(ghost v: Vol, inum: nat, src: seq<int>, off: nat, i: nat) returns (i': nat, done: bool, ok: bool)
      requires off + |src| < 0x1_0000_0000 && i < |src|
      requires WrittenTo(v, inum, off, src, i) && InChunks(v, inum, off, i, |src|)
      modifies this
      ensures !ok ==> !FitsAll(v, inum, off, |src|)
      ensures ok ==> i' <= |src| && WrittenTo(v, inum, off, src, i') && InChunks(v, inum, off, i', |src|)
      ensures ok ==> if done then Stops(v, inum, off, i', |src|) else i < i'
    {
      var n1 := NextChunk(i, |src|);
      ChunkStep(v, inum, off, i, |src|, n1);
      var r;
      r, ok := WriteChunk(v, inum, src, off, i, n1);
      i', done := i, r < 0;
      if ok && !done {
        i' := i + n1;
      }
    }

    /** filewrite's loop. */
    method WriteChunks(ghost v: Vol, inum: nat, src: seq<int>, off: nat) returns (i: nat, ok: bool)
      requires off + |src| < 0x1_0000_0000 && WrittenTo(v, inum, off, src, 0)
      modifies this
      ensures ok <==> FitsAll(v, inum, off, |src|)
      ensures ok ==> i == Accepted(v, inum, off, 0, |src|) && WholeChunks(i, |src|) && WrittenTo(v, inum, off, src, i)
    {
      var done := false;
      i, ok := 0, true;
      while i < |src|
        invariant i <= |src| && ok && WrittenTo(v, inum, off, src, i) && InChunks(v, inum, off, i, |src|)
      {
        i, done, ok := WriteTurn(v, inum, src, off, i);
        if !ok {
          return;
        }
        if done {
          break;
        }
      }
      ChunksEnd(v, V(), inum, off, src, i);
    }

    /** filewrite: chunk by chunk, each in a transaction of its own; the result is all or -1, and then
        the whole chunks before the refused one are written.  Not ok, the panic of balloc, if and only
        if the blocks missing for those bytes are not free. */
    method Filewrite(inum: nat, src: seq<int>, off: nat) returns (r: int, off': nat, ok: bool)
      requires Writable(inum) && off + |src| < 0x1_0000_0000
      modifies this
      ensures ok <==> FitsAll(old(V()), inum, off, |src|)
      ensures ok ==> off' == off + Accepted(old(V()), inum, off, 0, |src|)
      ensures ok ==> r == (if off' == off + |src| then |src| else -1)
      ensures ok ==> WrittenTo(old(V()), inum, off, src, off' - off) && WholeChunks(off' - off, |src|)
    {
      PartialNone(V(), inum, off, src);
      var i;
      i, ok := WriteChunks(V(), inum, src, off);
      off' := off + i;
      r := if i == |src| then |src| else -1;
    }
  }
}
