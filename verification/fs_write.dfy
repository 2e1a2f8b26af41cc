/**
 The arithmetic of writei's loop, what one round of it does to the file, and how many blocks it logs.
 */
module FsWrite {
  import opened Param
  import opened Common
  import opened FsBlocks
  import opened FsModel
  import opened FsContent
  import opened FsOps

  // ----- arithmetic of the loop -----

  // Which block of the file, counted from the first one touched, byte off + tot is in.
  function AtBlock(off: nat, tot: nat): int { (off + tot) / BSIZE - off / BSIZE }

  // The write is at its start or at the start of a block.
  predicate OnBlock(off: nat, tot: nat) { tot == 0 || (off + tot) % BSIZE == 0 }

  // How many blocks the bytes tot..n of a write at off touch.
  function Blocks(off: nat, n: nat,
                  tot: nat): (r: nat) { if n <= tot then 0 else AtBlock(off, n - 1) - AtBlock(off, tot) + 1 }

  // min(n - tot, BSIZE - off % BSIZE)
  function ChunkLen(off: nat, n: nat, tot: nat): (m: nat)
    requires tot < n && off + n <= MAXFILE * BSIZE && OnBlock(off, tot)
    ensures 0 < m && tot + m <= n && (off + tot) / BSIZE < MAXFILE && (off + tot) % BSIZE + m <= BSIZE
    ensures OnBlock(off, tot + m) || tot + m == n
    ensures Blocks(off, n, tot) == 1 + Blocks(off, n, tot + m)
  {
    var o := off + tot;
    if n - tot < BSIZE - o % BSIZE then n - tot else BSIZE - o % BSIZE
  }

  // min(n, BSIZE - o % BSIZE)
  function ChunkAt(o: nat, n: nat): (m: nat)
    requires 0 < n
    ensures 0 < m <= n && o % BSIZE + m <= BSIZE
  { Min(n, BSIZE - o % BSIZE) }

  // ----- one round -----

  predicate Args(g: Geo, i: nat, off: nat, s: seq<Byte>) {
    i < g.ninodes && s != [] && off / BSIZE < MAXFILE && off % BSIZE + |s| <= BSIZE && off + |s| <= MAXFILE * BSIZE
  }

  /** A write of src at offset off of file i, tot bytes done. */
  predicate Loop(g: Geo, i: nat, off: nat, src: seq<Byte>, tot: nat) {
    i < g.ninodes && off + |src| <= MAXFILE * BSIZE && tot <= |src| && (OnBlock(off, tot) || tot == |src|)
  }

  lemma {:induction false} LoopStep(g: Geo, i: nat, off: nat, src: seq<Byte>, tot: nat)
    requires Loop(g, i, off, src, tot) && tot < |src|
    ensures var m := ChunkLen(off, |src|, tot);
      Args(g, i, off + tot, src[tot..tot + m]) && Loop(g, i, off, src, tot + m)
  {
  }

  /** One more block's worth, or as much of it as was copied. */
  lemma {:induction false} ChunkWritten(fs0: Fs, fs: Fs, fs': Fs, i: nat, off: nat, src: seq<Byte>, tot: nat, m: nat)
    requires tot < |src| && off + |src| <= MAXFILE * BSIZE && OnBlock(off, tot) && m <= ChunkLen(off, |src|, tot)
    requires i < |fs0.inodes| && off <= fs0.inodes[i].size && Written(fs0, fs, i, off, src, tot)
    ensures Wrote(fs, fs', i, off + tot, src[tot..tot + m]) ==> Written(fs0, fs', i, off, src, tot + m)
  {
    hide Written, Wrote;
    WrittenStep(fs0, fs, fs', i, off, src, tot, m);
  }

  // ----- what a write logs -----

  /** Everything logged is a data block, a free-map block or the indirect block. */
  ghost predicate Charged(log: seq<nat>, data: seq<nat>, maps: seq<nat>, ind: nat) {
    forall x :: x in log ==> x in data || x in maps || (x == ind != 0)
  }

  function One(b: bool): (r: nat) { if b then 1 else 0 }

  /** What one round logged, when the block's slot held s0, the indirect block was ind before and is
      ind' now: the block at addr, the indirect block, and a free-map block for each new one. */
  ghost predicate ChunkLogs(s0: nat, ind: nat, ind': nat, addr: nat, log: seq<nat>, maps: seq<nat>) {
    && Charged(log, [addr], maps, ind') && (ind != 0 ==> ind' == ind)
    && |maps| <= One(s0 == 0) + One(ind == 0 && ind' != 0)
  }

  lemma {:induction false} BmapCharged(g: Geo, fs: Fs, i: nat, bn: nat)
    requires Tidy(g, fs, {}) && Shape(g, fs) && i < g.ninodes && bn < MAXFILE
    ensures var r := Bmap(g, fs, i, bn);
      && i < |r.fs.slots| && NDIRECT < |r.fs.slots[i]|
      && ChunkLogs(fs.slots[i][SlotOf(bn)], fs.slots[i][NDIRECT], r.fs.slots[i][NDIRECT], r.addr, r.log,
                   BmapMaps(g, fs, i, bn))
  {
    BmapMapped(g, fs, i, bn);
    var r := Bmap(g, fs, i, bn);
    EntryValue(g, fs, i, bn);
    EntryValue(g, r.fs, i, bn);
    forall x | x in r.log ensures x in [r.addr] || x in BmapMaps(g, fs, i, bn) || (x == r.fs.slots[i][NDIRECT] != 0) {
      BmapLogs(g, fs, i, bn, x);
    }
  }

  /** After cnt rounds: cnt data blocks, and a free-map block for each new block; the first block,
      unless the write starts on a block boundary, is not new. */
  ghost predicate Budget(log: seq<nat>, data: seq<nat>, maps: seq<nat>, cnt: nat, off: nat, ind0: nat, ind: nat) {
    && Charged(log, data, maps, ind) && |data| == cnt && (ind0 != 0 ==> ind == ind0)
    && |maps| + One(off % BSIZE != 0 && cnt > 0) <= cnt + One(ind0 == 0 && ind != 0)
  }

  lemma {:induction false} BudgetStart(off: nat, ind: nat)
    ensures Budget([], [], [], 0, off, ind, ind) && forall n: nat :: Blocks(off, n, n) == 0
  {
  }

  lemma {:induction false} BudgetStep(log: seq<nat>, data: seq<nat>, maps: seq<nat>, cnt: nat, off: nat, ind0: nat,
                   s0: nat, ind: nat, ind': nat, addr: nat, log': seq<nat>, maps': seq<nat>)
    requires cnt == 0 && off % BSIZE != 0 ==> s0 != 0
    requires Budget(log, data, maps, cnt, off, ind0, ind) && ChunkLogs(s0, ind, ind', addr, log', maps')
    ensures Budget(log + log', data + [addr], maps + maps', cnt + 1, off, ind0, ind')
  {
  }

  /** An unaligned first block exists already, because the file has no holes. */
  lemma {:induction false} FirstBlock(fs: Fs, mid: Fs, i: nat, off: nat, src: seq<Byte>)
    requires off + |src| <= MAXFILE * BSIZE && Written(fs, mid, i, off, src, 0) && off % BSIZE != 0
    requires off <= fs.inodes[i].size
    ensures off / BSIZE < MAXFILE && mid.slots[i][SlotOf(off / BSIZE)] != 0
  {
    assert off / BSIZE * BSIZE < off;
  }

  function Elems(log: seq<nat>): set<nat> { set x | x in log }

  function Distinct(log: seq<nat>): (n: nat) { |Elems(log)| }

  lemma {:induction false} AtMostOneEach(s: seq<nat>)
    ensures Distinct(s) <= |s|
  {
    if s != [] {
      AtMostOneEach(s[1..]);
      assert Elems(s) == Elems(s[1..]) + {s[0]};
    }
  }

  /** What a write of at most three blocks' worth of bytes logs, with the inode's block, fits in
      one operation's share of the log. */
  lemma {:induction false} BudgetFits(log: seq<nat>, data: seq<nat>, maps: seq<nat>, cnt: nat, off: nat, n: nat,
                                      ind0: nat, ind: nat, iblock: nat)
    requires Budget(log, data, maps, cnt, off, ind0, ind) && cnt <= Blocks(off, n, 0) && n <= 3 * BSIZE
    ensures Distinct(log + [iblock]) <= MAXOPBLOCKS
  {
    var all := data + maps + [ind, iblock];
    AtMostOneEach(all);
    SubsetSize(Elems(log + [iblock]), Elems(all));
    BlocksOfChunk(off, n);
  }

  lemma {:induction false} BlocksOfChunk(off: nat, n: nat)
    requires n <= 3 * BSIZE
    ensures Blocks(off, n, 0) <= 3 + One(off % BSIZE != 0)
  {
  }
}
