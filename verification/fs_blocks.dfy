/**
 Disk blocks as bytes: the free-map bits, the little-endian words of an indirect block, and
 copies into part of a block.
 */
module FsBlocks {
  const BSIZE: nat := 1024
  const BPB: nat := BSIZE * 8
  const NINDIRECT: nat := BSIZE / 4
  const WORDMAX: nat := 0x1_0000_0000

  type Byte = x: int | 0 <= x < 256
  type Block = d: seq<Byte> | |d| == BSIZE witness seq(BSIZE, _ => 0)

  function Zeros(): (d: Block)
    ensures forall i :: 0 <= i < BSIZE ==> d[i] == 0
  { seq(BSIZE, _ => 0) }

  // ----- bits of a byte -----

  // 1 << k
  function Mask(k: nat): (m: nat) { if k == 0 then 1 else 2 * Mask(k - 1) }

  // (x & (1 << k)) != 0
  predicate Bit(x: nat, k: nat) { if k == 0 then x % 2 == 1 else Bit(x / 2, k - 1) }

  // x | (1 << k), for a clear bit
  lemma {:induction false} ClearBitAdds(x: nat, n: nat, k: nat, j: nat)
    requires x < Mask(n) && k < n && j < n && !Bit(x, k)
    ensures x + Mask(k) < Mask(n) && (Bit(x + Mask(k), j) <==> j == k || Bit(x, j))
  {
    if k > 0 {
      assert (x + Mask(k)) / 2 == x / 2 + Mask(k - 1);
      ClearBitAdds(x / 2, n - 1, k - 1, if j > 0 then j - 1 else 0);
    }
  }

  // x & ~(1 << k), for a set bit
  lemma {:induction false} SetBitSubtracts(x: nat, k: nat, j: nat)
    requires Bit(x, k)
    ensures x >= Mask(k) && (Bit(x - Mask(k), j) <==> j != k && Bit(x, j))
  {
    if k > 0 {
      SetBitSubtracts(x / 2, k - 1, if j > 0 then j - 1 else 0);
      assert (x - Mask(k)) / 2 == x / 2 - Mask(k - 1);
    }
  }

  // ----- the free map -----

  // Bit b of the map whose first block is bm.
  predicate Used(disk: seq<Block>, bm: nat, b: nat)
    requires bm + b / BPB < |disk|
  { Bit(disk[bm + b / BPB][b % BPB / 8], b % 8) }

  // data[bi/8] |= m, for a clear bit; data[bi/8] &= ~m, for a set one
  function Flip(d: Block, bi: nat): (r: Block)
    requires bi < BPB
  {
    var x: int := d[bi / 8];
    assert Mask(8) == 256;
    if Bit(x, bi % 8) then
      SetBitSubtracts(x, bi % 8, 0); d[bi / 8 := x - Mask(bi % 8)]
    else
      ClearBitAdds(x, 8, bi % 8, 0); d[bi / 8 := x + Mask(bi % 8)]
  }

  lemma {:induction false} FlipBit(disk: seq<Block>, bm: nat, b: nat, c: nat)
    requires bm + b / BPB < |disk| && bm + c / BPB < |disk|
    ensures var disk' := disk[bm + b / BPB := Flip(disk[bm + b / BPB], b % BPB)];
      Used(disk', bm, c) <==> (if c == b then !Used(disk, bm, c) else Used(disk, bm, c))
  {
    hide Bit, Flip;
    BitPlace(b, c);
    FlipIs(disk[bm + b / BPB], b % BPB, c % 8);
  }

  // Where a bit is: block, byte and bit within it determine the number.
  lemma {:induction false} BitPlace(b: nat, c: nat)
    ensures b % BPB % 8 == b % 8
    ensures c / BPB == b / BPB && c % BPB / 8 == b % BPB / 8 && c % 8 == b % 8 ==> c == b
  {
    LowBits(b);
    LowBits(c);
    assert b == BPB * (b / BPB) + b % BPB && c == BPB * (c / BPB) + c % BPB;
    assert b % BPB == 8 * (b % BPB / 8) + b % BPB % 8 && c % BPB == 8 * (c % BPB / 8) + c % BPB % 8;
  }

  lemma {:induction false} LowBits(b: nat)
    ensures b % BPB % 8 == b % 8
  {
    var q, r := b / BPB, b % BPB;
    assert b == 8 * (BSIZE * q + r / 8) + r % 8;
  }

  // What flipping bit bi does to the bits of its byte, and to the other bytes.
  lemma {:induction false} FlipIs(d: Block, bi: nat, j: nat)
    requires bi < BPB && j < 8
    ensures var r := Flip(d, bi);
      && (Bit(r[bi / 8], j) <==> if j == bi % 8 then !Bit(d[bi / 8], j) else Bit(d[bi / 8], j))
      && forall k :: 0 <= k < BSIZE && k != bi / 8 ==> r[k] == d[k]
  {
    var x: int := d[bi / 8];
    assert Mask(8) == 256;
    if Bit(x, bi % 8) { SetBitSubtracts(x, bi % 8, j); } else { ClearBitAdds(x, 8, bi % 8, j); }
  }

  // ----- words -----

  function Word(d: Block, j: nat): (w: nat)
    requires j < NINDIRECT
  {
    var b0: int, b1: int, b2: int, b3: int := d[4 * j], d[4 * j + 1], d[4 * j + 2], d[4 * j + 3];
    b0 + 0x100 * b1 + 0x1_0000 * b2 + 0x100_0000 * b3
  }

  function SetWord(d: Block, j: nat, w: nat): (r: Block)
    requires j < NINDIRECT && w < WORDMAX
  {
    d[4 * j := w % 0x100][4 * j + 1 := w / 0x100 % 0x100]
     [4 * j + 2 := w / 0x1_0000 % 0x100][4 * j + 3 := w / 0x100_0000]
  }

  lemma {:induction false} WordOfSet(d: Block, j: nat, w: nat, i: nat)
    requires j < NINDIRECT && i < NINDIRECT && w < WORDMAX
    ensures Word(SetWord(d, j, w), i) == if i == j then w else Word(d, i)
  {
    Digits(w);
    if i < j { assert 4 * i + 3 < 4 * j; } else if j < i { assert 4 * j + 3 < 4 * i; }
  }

  lemma {:induction false} Digits(w: nat)
    requires w < WORDMAX
    ensures w / 0x100_0000 < 0x100
    ensures w ==
            w % 0x100 + 0x100 * (w / 0x100 % 0x100) + 0x1_0000 * (w / 0x1_0000 % 0x100)
            + 0x100_0000 * (w / 0x100_0000)
  {
    var a := w / 0x100;
    var b := a / 0x100;
    assert b == w / 0x1_0000 && b / 0x100 == w / 0x100_0000;
    assert w == 0x100 * a + w % 0x100 && a == 0x100 * b + a % 0x100 && b == 0x100 * (b / 0x100) + b % 0x100;
  }

  lemma {:induction false} WordOfZeros(j: nat)
    requires j < NINDIRECT
    ensures Word(Zeros(), j) == 0
  {
  }

  // ----- copies -----

  // memmove(d + at, src, |src|)
  function Patch(d: Block, at: nat, src: seq<Byte>): (r: Block)
    requires at + |src| <= BSIZE
    ensures forall i :: 0 <= i < BSIZE ==> r[i] == if at <= i < at + |src| then src[i - at] else d[i]
  { d[..at] + src + d[at + |src|..] }
}
