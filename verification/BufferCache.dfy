/** bio.c over the memory disk of memide.c: binit, bget, bread, bwrite and brelse. */
module BufferCache {
  import opened LruList

  datatype Buf = Buf(dev: int, blockno: int, refcnt: int, valid: bool, dirty: bool, data: int)

  predicate SameKey(a: Buf, b: Buf) {
    a.dev == b.dev && a.blockno == b.blockno
  }

  /** Only the key (0, 0), which buffers have at first, may occur twice. */
  ghost predicate KeyAt(bufs: seq<Buf>, b: nat) {
    forall c: nat :: b < |bufs| && c < |bufs| && SameKey(bufs[b], bufs[c]) && b != c ==>
      bufs[b].dev == 0 && bufs[b].blockno == 0
  }

  /** The list runs from newer to older stamps. */
  ghost predicate NewerAt(order: seq<int>, stamp: seq<int>, i: nat) {
    forall j: nat :: i < j < |order| && 0 <= order[i] < |stamp| && 0 <= order[j] < |stamp| ==>
      stamp[order[i]] > stamp[order[j]]
  }

  /** A buffer in use has a user, a valid one a disk block, and one that is clean and that nobody
      may be modifying equals that block. */
  predicate BufAt(bufs: seq<Buf>, locked: seq<bool>, disk: seq<int>, b: nat) {
    b < |bufs| == |locked| ==>
      && bufs[b].refcnt >= (if locked[b] then 1 else 0)
      && (bufs[b].dirty ==> bufs[b].valid) && (bufs[b].valid ==> bufs[b].dev == 1 && 0 <= bufs[b].blockno < |disk|)
      && (bufs[b].valid && !bufs[b].dirty && !locked[b] ==> bufs[b].data == disk[bufs[b].blockno])
  }

  /** Every buffer is in the list; stamps are in the past. */
  predicate StampAt(order: seq<int>, stamp: seq<int>, clock: int, b: nat) {
    b < |stamp| ==> stamp[b] < clock && b in order
  }

  /** Usable for another block. */
  predicate Unused(b: Buf) {
    b.refcnt == 0 && !b.dirty
  }

  predicate Caches(b: Buf, dev: int, blockno: int) {
    b.dev == dev && b.blockno == blockno
  }

  lemma InRange(l: Lru)
    requires ListInv(l)
    ensures forall j: nat :: j < |l.order| ==> 0 <= l.order[j] < l.Head()
  {
    forall j: nat | j < |l.order| ensures 0 <= l.order[j] < l.Head() { assert NodeAt(l, j); }
  }

  /** The list stays ordered by stamp when the i-th buffer, released now, moves to the front. */
  lemma Moved(l: Lru, i: nat, stamp: seq<int>, clock: int, clock': int)
    requires clock' == clock + 1 && ListInv(l) && |l.next| == |stamp| + 1 && i < |l.order| && 0 <= l.order[i] < |stamp|
    requires (forall b: nat :: StampAt(l.order, stamp, clock, b)) && (forall k: nat :: NewerAt(l.order, stamp, k))
    ensures var order' := [l.order[i]] + (l.order[..i] + l.order[i + 1..]); var stamp' := stamp[l.order[i] := clock];
            && (forall b: nat :: StampAt(order', stamp', clock', b))
            && (forall k: nat :: NewerAt(order', stamp', k))
            && forall c: nat :: c < |stamp| && c != l.order[i] ==> stamp'[c] == stamp[c] < clock
  {
    var b := l.order[i];
    var rest := l.order[..i] + l.order[i + 1..];
    var order', stamp' := [b] + rest, stamp[b := clock];
    assert Once(l.order, i);
    forall c: nat | c < |stamp| && c != b ensures stamp'[c] == stamp[c] < clock {
      assert StampAt(l.order, stamp, clock, c);
    }
    forall c: nat ensures StampAt(order', stamp', clock', c) {
      assert StampAt(l.order, stamp, clock, c);
      if c < |stamp| && c != b {
        var j :| 0 <= j < |l.order| && l.order[j] == c;
        assert order'[if j < i then j + 1 else j] == c;
      }
    }
    forall k: nat ensures NewerAt(order', stamp', k) {
      if k == 0 {
        forall j: nat | 0 < j < |order'| && 0 <= order'[j] < |stamp| ensures stamp'[order'[j]] < stamp'[b] {
          assert StampAt(l.order, stamp, clock, order'[j]);
        }
      } else {
        assert NewerAt(l.order, stamp, if k <= i then k - 1 else k);
        forall j: nat | k < j < |order'| ensures order'[j] == l.order[if j <= i then j - 1 else j] { }
      }
    }
  }

  /** Unlinking and linking in again, as one step. */
  lemma ToFront(l: Lru, i: nat) returns (l2: Lru)
    requires ListInv(l) && i < |l.order|
    ensures 0 <= l.order[i] < l.Head() && 0 <= l.next[l.order[i]] < |l.next| && 0 <= l.prev[l.order[i]] < |l.next|
    ensures var l1 := Unlink(l, i);
            && |l1.prev| == |l1.next| == |l.next| && 0 <= l1.next[l.Head()] < |l.next|
            && l2 == PushFront(l1, l.order[i])
    ensures ListInv(l2) && |l2.next| == |l.next| && l2.order == [l.order[i]] + (l.order[..i] + l.order[i + 1..])
  {
    UnlinkInv(l, i);
    PushFrontInv(Unlink(l, i), l.order[i]);
    l2 := PushFront(Unlink(l, i), l.order[i]);
  }

  class Cache {
    var next: seq<int>
    var prev: seq<int>
    var bufs: seq<Buf>
    var locked: seq<bool>  // the buffers' sleep locks
    var disk: seq<int>
    ghost var order: seq<int>
    ghost var stamp: seq<int>  // when each buffer was last released by all its users
    ghost var clock: int

    ghost function L(): Lru
      reads this
    {
      Lru(next, prev, order)
    }

    ghost predicate Valid()
      reads this
    {
      && Listed()
      && (forall b: nat :: KeyAt(bufs, b))
      && (forall b: nat :: BufAt(bufs, locked, disk, b))
      && (forall b: nat :: StampAt(order, stamp, clock, b))
      && (forall i: nat :: NewerAt(order, stamp, i))
    }

    ghost predicate Listed()
      reads this
    {
      ListInv(L()) && |next| == |bufs| + 1 && |locked| == |stamp| == |bufs|
    }

    /** binit: all buffers in the list, in the order in which they were linked. */
    constructor (n: nat, blocks: seq<int>)
      ensures Valid() && |bufs| == n && disk == blocks && forall b: nat :: b < n ==> Unused(bufs[b])
    {
      bufs := seq(n, _ => Buf(0, 0, 0, false, false, 0));
      locked := seq(n, _ => false);
      stamp := seq(n, b => b);
      disk, clock := blocks, n;
      next, prev, order := seq(n + 1, _ => n), seq(n + 1, _ => n), [];
      new;
      LinkAll(n);
      forall c: nat ensures StampAt(order, stamp, clock, c) { if c < n { assert order[n - 1 - c] == c; } }
    }

    /** binit's loop. */
    method LinkAll(n: nat)
      requires ListInv(L()) && |next| == n + 1 && order == []
      modifies this`next, this`prev, this`order
      ensures ListInv(L()) && |next| == n + 1 && |order| == n && forall i: nat :: i < n ==> order[i] == n - 1 - i
    {
      var b := 0;
      while b < n
        invariant 0 <= b <= n && ListInv(L()) && |next| == n + 1 && |order| == b
        invariant forall i: nat :: i < b ==> order[i] == b - 1 - i
      {
        ghost var l := L();
        PushFrontInv(l, b);
        var first := next[n];
        next := next[b := first];
        prev := prev[b := n];
        prev := prev[first := b];
        next := next[n := b];
        order := [b] + order;
        assert L() == PushFront(l, b);
        b := b + 1;
      }
    }
  
    /** bget's first loop: the buffer that caches the block, or -1. */
    method FindCached(dev: int, blockno: int) returns (b: int)
      requires Valid()
      ensures if b == -1 then forall c: nat :: c < |bufs| ==> !Caches(bufs[c], dev, blockno)
              else 0 <= b < |bufs| && Caches(bufs[b], dev, blockno)
    {
      b := next[|bufs|];
      ghost var i := 0;
      while b != |bufs|
        invariant 0 <= i <= |order| && b == L().After(i - 1)
        invariant forall j: nat :: j < i ==> 0 <= order[j] < |bufs| && !Caches(bufs[order[j]], dev, blockno)
        decreases |order| - i
      {
        assert NodeAt(L(), i);
        if bufs[b].dev == dev && bufs[b].blockno == blockno {
          return;
        }
        b := next[b];
        i := i + 1;
      }
      InRange(L());
      forall c: nat | c < |bufs| ensures !Caches(bufs[c], dev, blockno) {
        assert StampAt(order, stamp, clock, c);
        var j :| 0 <= j < |order| && order[j] == c;
      }
      b := -1;
    }

    /** bget's second loop, from the other end: the least recently released buffer that nobody uses
        and that is clean, or -1. */
    method FindUnused() returns (b: int)
      requires Valid()
      ensures if b == -1 then forall c: nat :: c < |bufs| ==> !Unused(bufs[c])
              else 0 <= b < |bufs| && Unused(bufs[b]) &&
                   forall c: nat :: c < |bufs| && Unused(bufs[c]) && c != b ==> stamp[b] < stamp[c]
    {
      b := prev[|bufs|];
      ghost var i := |order|;
      while b != |bufs|
        invariant 0 <= i <= |order| && b == L().Before(i)
        invariant forall j: nat :: i <= j < |order| ==> 0 <= order[j] < |bufs| && !Unused(bufs[order[j]])
        decreases i
      {
        assert NodeAt(L(), i - 1);
        if bufs[b].refcnt == 0 && !bufs[b].dirty {
          forall c: nat | c < |bufs| && Unused(bufs[c]) && c != b ensures stamp[b] < stamp[c] {
            assert StampAt(order, stamp, clock, c);
            var j: nat :| j < |order| && order[j] == c;
            assert NewerAt(order, stamp, j);
          }
          return;
        }
        b := prev[b];
        i := i - 1;
      }
      InRange(L());
      forall c: nat | c < |bufs| ensures !Unused(bufs[c]) {
        assert StampAt(order, stamp, clock, c);
        var j :| 0 <= j < |order| && order[j] == c;
      }
      b := -1;
    }

    /** bget: the buffer of the block with one more user, or a recycled one; -1 is the panic "no
        buffers". */
    method Bget(dev: int, blockno: int) returns (b: int)
      requires Valid()
      modifies this`bufs
      ensures Valid() && |bufs| == |old(bufs)|
      ensures b == -1 <==> forall c: nat :: c < |bufs| ==> !Caches(old(bufs)[c], dev, blockno) && !Unused(old(bufs)[c])
      ensures b == -1 ==> bufs == old(bufs)
      ensures b != -1 ==> 0 <= b < |bufs| && Caches(bufs[b], dev, blockno) && bufs[b].refcnt > 0
      ensures b != -1 && Caches(old(bufs)[b], dev, blockno) ==>
                bufs == old(bufs)[b := old(bufs)[b].(refcnt := old(bufs)[b].refcnt + 1)]
      ensures b != -1 && !Caches(old(bufs)[b], dev, blockno) ==>
                && (forall c: nat :: c < |bufs| ==> !Caches(old(bufs)[c], dev, blockno))
                && Unused(old(bufs)[b]) && bufs == old(bufs)[b := Buf(dev, blockno, 1, false, false, old(bufs)[b].data)]
                && forall c: nat :: c < |bufs| && Unused(old(bufs)[c]) && c != b ==> stamp[b] < stamp[c]
    {
      ghost var was := bufs;
      b := FindCached(dev, blockno);
      if b != -1 {
        assert BufAt(was, locked, disk, b);
        bufs := bufs[b := bufs[b].(refcnt := bufs[b].refcnt + 1)];
        forall c: nat ensures KeyAt(bufs, c) && BufAt(bufs, locked, disk, c) {
          assert KeyAt(was, c) && BufAt(was, locked, disk, c);
        }
        return;
      }
      b := FindUnused();
      if b != -1 {
        bufs := bufs[b := Buf(dev, blockno, 1, false, false, bufs[b].data)];
        forall c: nat ensures KeyAt(bufs, c) && BufAt(bufs, locked, disk, c) {
          assert KeyAt(was, c) && BufAt(was, locked, disk, c);
        }
      }
    }
  
    /** acquiresleep on a buffer that bget returned; it blocks while somebody else holds it. */
    method Lock(b: nat)
      requires Valid() && b < |bufs| && bufs[b].refcnt > 0 && !locked[b]
      modifies this`locked
      ensures Valid() && locked == old(locked)[b := true]
    {
      ghost var was := locked;
      locked := locked[b := true];
      forall c: nat ensures BufAt(bufs, locked, disk, c) { assert BufAt(bufs, was, disk, c); }
    }

    /** iderw: a dirty buffer goes to the disk, an invalid one is read from it. */
    method Iderw(b: nat)
      requires Valid() && b < |bufs| && locked[b] && bufs[b].dev == 1 && 0 <= bufs[b].blockno < |disk|
      requires bufs[b].dirty || !bufs[b].valid
      modifies this`bufs, this`disk
      ensures Valid() && |disk| == |old(disk)| && |bufs| == |old(bufs)|
      ensures if old(bufs)[b].dirty then disk == old(disk)[old(bufs)[b].blockno := old(bufs)[b].data] &&
                                         bufs == old(bufs)[b := old(bufs)[b].(dirty := false, valid := true)]
              else disk == old(disk) &&
                   bufs == old(bufs)[b := old(bufs)[b].(data := disk[old(bufs)[b].blockno], valid := true)]
    {
      ghost var was, wasDisk := bufs, disk;
      var buf := bufs[b];
      if buf.dirty {
        disk := disk[buf.blockno := buf.data];
        bufs := bufs[b := buf.(dirty := false, valid := true)];
      } else {
        bufs := bufs[b := buf.(data := disk[buf.blockno], valid := true)];
      }
      assert KeyAt(was, b);
      forall c: nat ensures KeyAt(bufs, c) && BufAt(bufs, locked, disk, c) {
        assert KeyAt(was, c) && BufAt(was, locked, wasDisk, c);
      }
    }

    /** bread of a block whose buffer nobody holds: its contents, from the buffer if it is valid,
        else from the disk. */
    method Bread(blockno: int) returns (b: int)
      requires Valid() && 0 <= blockno < |disk|
      requires forall c: nat :: c < |bufs| && Caches(bufs[c], 1, blockno) ==> !locked[c]
      modifies this`bufs, this`locked, this`disk
      ensures Valid() && |bufs| == |old(bufs)| && disk == old(disk)
      ensures b == -1 <==> forall c: nat :: c < |bufs| ==> !Caches(old(bufs)[c], 1, blockno) && !Unused(old(bufs)[c])
      ensures b == -1 ==> bufs == old(bufs) && locked == old(locked)
      ensures b != -1 ==> 0 <= b < |bufs| && locked == old(locked)[b := true] && bufs == old(bufs)[b := bufs[b]]
      ensures b != -1 ==>
                var was := old(bufs)[b];
                if Caches(was, 1, blockno) then bufs[b].refcnt == was.refcnt + 1 && bufs[b].dirty == was.dirty
                else && Unused(was) && bufs[b].refcnt == 1 && !bufs[b].dirty
                     && forall c: nat :: c < |bufs| && Unused(old(bufs)[c]) && c != b ==> stamp[b] < stamp[c]
      ensures b != -1 ==> Caches(bufs[b], 1, blockno) && bufs[b].valid
      ensures b != -1 ==>
                var was := old(bufs)[b];
                bufs[b].data == if Caches(was, 1, blockno) && was.dirty then was.data else disk[blockno]
    {
      ghost var was := bufs;
      b := Bget(1, blockno);
      if b == -1 {
        return;
      }
      assert BufAt(was, locked, disk, b);
      Lock(b);
      if !bufs[b].valid {
        Iderw(b);
      }
    }

    /** The holder of a buffer changes its contents. */
    method Modify(b: nat, data: int)
      requires Valid() && b < |bufs| && locked[b]
      modifies this`bufs
      ensures Valid() && bufs == old(bufs)[b := old(bufs)[b].(data := data)]
    {
      ghost var was := bufs;
      bufs := bufs[b := bufs[b].(data := data)];
      forall c: nat ensures KeyAt(bufs, c) && BufAt(bufs, locked, disk, c) {
        assert KeyAt(was, c) && BufAt(was, locked, disk, c);
      }
    }

    /** The end of log_write: B_DIRTY keeps bget from recycling the buffer. */
    method Pin(b: nat)
      requires Valid() && b < |bufs| && locked[b] && bufs[b].valid
      modifies this`bufs
      ensures Valid() && bufs == old(bufs)[b := old(bufs)[b].(dirty := true)] && !Unused(bufs[b])
    {
      ghost var was := bufs;
      bufs := bufs[b := bufs[b].(dirty := true)];
      forall c: nat ensures KeyAt(bufs, c) && BufAt(bufs, locked, disk, c) {
        assert KeyAt(was, c) && BufAt(was, locked, disk, c);
      }
    }

    /** bwrite: the block is on the disk and the buffer clean. */
    method Bwrite(b: nat)
      requires Valid() && b < |bufs| && locked[b] && bufs[b].valid && 0 <= bufs[b].blockno < |disk|
      modifies this`bufs, this`disk
      ensures Valid() && disk == old(disk)[old(bufs)[b].blockno := old(bufs)[b].data]
      ensures bufs == old(bufs)[b := old(bufs)[b].(dirty := false)]
    {
      assert BufAt(bufs, locked, disk, b);
      Pin(b);
      Iderw(b);
    }

    /** brelse: the last user leaves the buffer as the most recently released one.  Whoever changed
        a buffer has logged or written it before. */
    method Brelse(b: nat)
      requires Valid() && b < |bufs| && locked[b]
      requires bufs[b].valid && !bufs[b].dirty && 0 <= bufs[b].blockno < |disk| ==>
                 bufs[b].data == disk[bufs[b].blockno]
      modifies this
      ensures Valid() && disk == old(disk) && locked == old(locked)[b := false]
      ensures bufs == old(bufs)[b := old(bufs)[b].(refcnt := old(bufs)[b].refcnt - 1)]
      ensures if bufs[b].refcnt > 0 then order == old(order)
              else |order| > 0 && order[0] == b &&
                   forall c: nat :: c < |bufs| && c != b ==> stamp[c] == old(stamp)[c] < stamp[b]
    {
      ghost var was, wasLocked := bufs, locked;
      assert BufAt(was, locked, disk, b);
      locked := locked[b := false];
      bufs := bufs[b := bufs[b].(refcnt := bufs[b].refcnt - 1)];
      forall c: nat ensures KeyAt(bufs, c) && BufAt(bufs, locked, disk, c) {
        assert KeyAt(was, c) && BufAt(was, wasLocked, disk, c);
      }
      if bufs[b].refcnt == 0 {
        MoveToFront(b);
      }
    }

    /** The relinking at the end of brelse: out of the list, then in again behind the head. */
    method Relink(b: nat, ghost i: nat, ghost l1: Lru)
      requires ListInv(L()) && |next| == |bufs| + 1 && i < |order| && order[i] == b < |bufs|
      requires 0 <= next[b] < |next| && 0 <= prev[b] < |next| && l1 == Unlink(L(), i)
      requires 0 <= l1.next[|bufs|] < |next|
      modifies this`next, this`prev
      ensures next == PushFront(l1, b).next && prev == PushFront(l1, b).prev
    {
      var head := |bufs|;
      prev := prev[next[b] := prev[b]];
      next := next[prev[b] := next[b]];
      assert next == l1.next && prev == l1.prev by { UnlinkInv(old(L()), i); }
      next := next[b := next[head]];
      prev := prev[b := head];
      prev := prev[next[head] := b];
      next := next[head := b];
    }

    method MoveToFront(b: nat)
      requires Valid() && b < |bufs|
      modifies this`next, this`prev, this`order, this`stamp, this`clock
      ensures Valid() && |order| > 0 && order[0] == b
      ensures forall c: nat :: c < |bufs| && c != b ==> stamp[c] == old(stamp)[c] < stamp[b]
    {
      ghost var l := L();
      assert StampAt(order, stamp, clock, b);
      ghost var i: nat :| i < |order| && order[i] == b;
      ghost var l2 := ToFront(l, i);
      Moved(l, i, stamp, clock, clock + 1);
      Relink(b, i, Unlink(l, i));
      order := l2.order;
      stamp := stamp[b := clock];
      clock := clock + 1;
      assert L() == l2;
    }
  }
}
