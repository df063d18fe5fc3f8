/**
 The free-block bitmap of fs.c: one bit per block, eight to a byte, BPB to a
 block, starting at block sb.bmapstart.
 */
module Bitmap {

  import opened Blocks

  const BPB: nat := 4096  // BSIZE * 8

  /** (x & (1 << k)) != 0. */
  predicate Test(x: nat, k: nat) {
    if k == 0 then x % 2 == 1 else Test(x / 2, k - 1)
  }

  /** x | (1 << k), or x & ~(1 << k). */
  function Mark(x: nat, k: nat, on: bool): (y: nat)
    ensures Test(y, k) == on
  {
    if k == 0 then x / 2 * 2 + (if on then 1 else 0) else Mark(x / 2, k - 1, on) * 2 + x % 2
  }

  lemma {:induction false} MarkOthers(x: nat, k: nat, on: bool, j: nat)
    requires j != k
    ensures Test(Mark(x, k, on), j) == Test(x, j)
  {
    if k > 0 && j > 0 {
      MarkOthers(x / 2, k - 1, on, j - 1);
    }
  }

  function Pow2(n: nat): nat {
    if n == 0 then 1 else 2 * Pow2(n - 1)
  }

  /** A mark within the width does not carry out of it. */
  lemma {:induction false} MarkFits(x: nat, k: nat, on: bool, width: nat)
    requires k < width && x < Pow2(width)
    ensures Mark(x, k, on) < Pow2(width)
  {
    if k > 0 {
      MarkFits(x / 2, k - 1, on, width - 1);
    }
  }

  /** The same within a byte. */
  function MarkByte(x: byte, k: nat, on: bool): (y: byte)
    requires k < 8
    ensures Test(y, k) == on
  {
    assert Pow2(8) == 256;
    MarkFits(x, k, on, 8);
    Mark(x, k, on)
  }

  predicate InMap(d: seq<Block>, start: nat, b: nat) {
    start + b / BPB < |d|
  }

  predicate Used(d: seq<Block>, start: nat, b: nat)
    requires InMap(d, start, b)
  {
    Test(d[start + b / BPB][b % BPB / 8], b % 8)
  }

  /** The disk with the bit of block b set or cleared. */
  function Marked(d: seq<Block>, start: nat, b: nat, on: bool): (d': seq<Block>)
    requires InMap(d, start, b)
    ensures |d'| == |d|
    ensures forall q :: 0 <= q < |d| && q != start + b / BPB ==> d'[q] == d[q]
  {
    var q, k := start + b / BPB, b % BPB / 8;
    d[q := d[q][k := MarkByte(d[q][k], b % 8, on)]]
  }

  /** Marking changes the bit of that block and no other. */
  lemma MarkedBits(d: seq<Block>, start: nat, b: nat, on: bool, c: nat)
    requires InMap(d, start, b) && InMap(d, start, c)
    ensures Used(Marked(d, start, b, on), start, c) == if c == b then on else Used(d, start, c)
  {
    hide Test, Mark;
    if c != b {
      Position(b, c);
      if c % 8 != b % 8 {
        MarkOthers(d[start + b / BPB][b % BPB / 8], b % 8, on, c % 8);
      }
    }
  }

  /** A block number is its bitmap block, byte and bit. */
  lemma Position(b: nat, c: nat)
    requires b != c
    ensures c / BPB != b / BPB || c % BPB / 8 != b % BPB / 8 || c % 8 != b % 8
  {
    Split(b);
    Split(c);
  }

  lemma Split(b: nat)
    ensures b == b / BPB * BPB + b % BPB / 8 * 8 + b % 8
  {
    assert b == b / BPB * BPB + b % BPB;
    assert b % BPB == b % BPB / 8 * 8 + b % BPB % 8;
    assert b % BPB % 8 == b % 8;
  }
}
