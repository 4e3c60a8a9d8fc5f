/** The circular doubly linked list of bio.c.  Buffers are numbered; the list head is number |next| - 1. */
module LruList {

  /** The links in memory, and the buffers from the most to the least recently released. */
  datatype Lru = Lru(next: seq<int>, prev: seq<int>, order: seq<int>) {
    function Head(): int {
      |next| - 1
    }

    function After(i: int): int {
      if i + 1 < |order| && 0 <= i + 1 then order[i + 1] else Head()
    }

    function Before(i: int): int {
      if 0 < i <= |order| then order[i - 1] else Head()
    }
  }

  /** The i-th buffer of the list links to its neighbours, and occurs once. */
  predicate NodeAt(l: Lru, i: nat) {
    i < |l.order| && |l.prev| == |l.next| ==>
      && 0 <= l.order[i] < l.Head() && l.next[l.order[i]] == l.After(i) && l.prev[l.order[i]] == l.Before(i)
  }

  ghost predicate Once(order: seq<int>, i: nat) {
    forall j: nat :: j < |order| && i < |order| && order[j] == order[i] ==> j == i
  }

  /** One circular list through the head, in both directions. */
  ghost predicate ListInv(l: Lru) {
    && |l.prev| == |l.next| > 0 && l.next[l.Head()] == l.After(-1) && l.prev[l.Head()] == l.Before(|l.order|)
    && (forall i: nat :: NodeAt(l, i))
    && (forall i: nat :: Once(l.order, i))
  }

  /** Link buffer `b` in behind the head. */
  function PushFront(l: Lru, b: int): Lru
    requires |l.prev| == |l.next| && 0 <= b < l.Head() && 0 <= l.next[l.Head()] < |l.next|
  {
    var first := l.next[l.Head()];
    Lru(l.next[b := first][l.Head() := b], l.prev[b := l.Head()][first := b], [b] + l.order)
  }

  lemma PushFrontInv(l: Lru, b: int)
    requires ListInv(l) && 0 <= b < l.Head() && b !in l.order
    ensures 0 <= l.next[l.Head()] < |l.next| && ListInv(PushFront(l, b))
  {
    assert NodeAt(l, 0);
    var l' := PushFront(l, b);
    forall i: nat ensures NodeAt(l', i) { if i > 0 { assert NodeAt(l, i - 1) && Once(l.order, i - 1); } }
    forall i: nat ensures Once(l'.order, i) { if i > 0 { assert Once(l.order, i - 1); } }
    if |l.order| > 0 { assert NodeAt(l, |l.order| - 1) && Once(l.order, |l.order| - 1); }
  }

  /** Unlink the i-th buffer. */
  function Unlink(l: Lru, i: nat): Lru
    requires |l.prev| == |l.next| && i < |l.order| && 0 <= l.order[i] < |l.next|
    requires 0 <= l.next[l.order[i]] < |l.next| && 0 <= l.prev[l.order[i]] < |l.next|
  {
    var b := l.order[i];
    Lru(l.next[l.prev[b] := l.next[b]], l.prev[l.next[b] := l.prev[b]], l.order[..i] + l.order[i + 1..])
  }

  /** The buffer in front of the unlinked one and the one behind it link to each other, the rest as
      before. */
  lemma UnlinkNode(l: Lru, l': Lru, i: nat, k: nat)
    requires ListInv(l) && i < |l.order| && 0 <= l.order[i] < |l.next|
    requires 0 <= l.next[l.order[i]] < |l.next| && 0 <= l.prev[l.order[i]] < |l.next| && l' == Unlink(l, i)
    ensures NodeAt(l', k)
  {
    var j := if k < i then k else k + 1;
    assert NodeAt(l, i) && NodeAt(l, j) && Once(l.order, j);
  }

  lemma UnlinkInv(l: Lru, i: nat)
    requires ListInv(l) && i < |l.order|
    ensures 0 <= l.order[i] < l.Head() && 0 <= l.next[l.order[i]] < |l.next| && 0 <= l.prev[l.order[i]] < |l.next|
    ensures ListInv(Unlink(l, i)) && l.order[i] !in Unlink(l, i).order
  {
    assert NodeAt(l, i) && NodeAt(l, i + 1) && Once(l.order, i);
    if i > 0 { assert NodeAt(l, i - 1); }
    var l' := Unlink(l, i);
    forall k: nat ensures NodeAt(l', k) { UnlinkNode(l, l', i, k); }
    forall k: nat ensures Once(l'.order, k) { assert Once(l.order, if k < i then k else k + 1); }
  }
}
