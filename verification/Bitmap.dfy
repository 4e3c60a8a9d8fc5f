/** The byte and mask arithmetic on bitmap blocks in balloc and bfree. */
module Bitmap {

  /** Bit `b` of the bitmap bytes, as the code tests it. */
  predicate Bit(bytes: seq<bv8>, b: nat) {
    b / 8 < |bytes| && Test(bytes[b / 8], b % 8)
  }

  predicate Test(x: bv8, i: nat)
    requires i < 8
  {
    x & (1 << i) != 0
  }

  function Mark(x: bv8, i: nat): bv8
    requires i < 8
  {
    x | (1 << i)
  }

  function Unmark(x: bv8, i: nat): bv8
    requires i < 8
  {
    x & !(1 << i)
  }

  lemma MarkOne(x: bv8, i: nat, j: nat)
    requires i < 8 && j < 8
    ensures Test(Mark(x, i), j) <==> (i == j || Test(x, j))
  {
  }

  lemma UnmarkOne(x: bv8, i: nat, j: nat)
    requires i < 8 && j < 8
    ensures Test(Unmark(x, i), j) <==> (i != j && Test(x, j))
  {
  }

  /** `|= m` sets bit `b` and no other. */
  lemma SetBit(bytes: seq<bv8>, b: nat, c: nat)
    requires b < 8 * |bytes|
    ensures Bit(bytes[b / 8 := Mark(bytes[b / 8], b % 8)], c) <==> (c == b || Bit(bytes, c))
  {
    if c / 8 == b / 8 { MarkOne(bytes[b / 8], b % 8, c % 8); }
  }

  /** `&= ~m` clears bit `b` and no other. */
  lemma ClearBit(bytes: seq<bv8>, b: nat, c: nat)
    requires b < 8 * |bytes|
    ensures Bit(bytes[b / 8 := Unmark(bytes[b / 8], b % 8)], c) <==> (c != b && Bit(bytes, c))
  {
    if c / 8 == b / 8 { UnmarkOne(bytes[b / 8], b % 8, c % 8); }
  }
}
