/**
 balloc and bmap as functions from a file system to the next one, with the blocks each passes to
 log_write; and what they do to slots and blocks.
 */
module FsOps {
  import opened FsBlocks
  import opened FsModel
  import opened FsContent

  /** The file system after an operation, the block it returned, and what it logged, in order. */
  datatype Step = Step(fs: Fs, addr: nat, log: seq<nat>)

  predicate Shape(g: Geo, fs: Fs) {
    && GoodGeo(g) && |fs.disk| == g.size && |fs.inodes| == |fs.slots| == g.ninodes
    && forall i :: 0 <= i < g.ninodes ==> GoodInode(fs.inodes[i], g.size) && |fs.slots[i]| == NSLOTS
  }

  lemma {:induction false} TidyShape(g: Geo, fs: Fs)
    requires Tidy(g, fs, {})
    ensures Shape(g, fs)
  {
  }

  // Inode i still has its addresses.
  predicate SameSizes(fs: Fs, fs': Fs, i: nat) {
    i < |fs.inodes| == |fs'.inodes| && |fs'.inodes[i].addrs| == |fs.inodes[i].addrs|
  }

  // ----- balloc -----

  /** The first block from b on that the free map does not mark, or size. */
  function NextFree(g: Geo, disk: seq<Block>, b: nat): (r: nat)
    requires GoodGeo(g) && |disk| == g.size && b <= g.size
    ensures b <= r <= g.size
    decreases g.size - b
  {
    if b == g.size then b
    else
      BitBlockBelow(g, b);
      if Used(disk, g.bm, b) then NextFree(g, disk, b + 1) else b
  }

  lemma {:induction false} NextFreeIsFree(g: Geo, disk: seq<Block>, used: set<nat>, b: nat)
    requires GoodGeo(g) && |disk| == g.size && b <= g.size && UsedIs(g, disk, used)
    ensures NextFree(g, disk, b) < g.size ==> NextFree(g, disk, b) !in used
    ensures forall c: nat :: b <= c < NextFree(g, disk, b) ==> c in used
    decreases g.size - b
  {
    if b < g.size {
      BitBlockBelow(g, b);
      assert Used(disk, g.bm, b) <==> b in used;
      if Used(disk, g.bm, b) { NextFreeIsFree(g, disk, used, b + 1); }
    }
  }

  function Balloc(g: Geo, fs: Fs): (r: Step)
    requires Shape(g, fs)
  {
    var b := NextFree(g, fs.disk, 0);
    if b == g.size then Step(fs, 0, []) else Step(Allocated(g, fs, b), b, [BitBlock(g, b), b])
  }

  ghost predicate Full(g: Geo, fs: Fs) { forall c: nat :: c < g.size ==> c in fs.used }

  /** balloc returns a block nobody owned, marked and zeroed; 0 exactly when every block is used. */
  lemma {:induction false} BallocTidy(g: Geo, fs: Fs)
    requires Tidy(g, fs, {}) && Shape(g, fs)
    ensures Balloc(g, fs).addr == 0 <==> Full(g, fs)
    ensures Balloc(g, fs).addr == 0 ==> Balloc(g, fs).fs == fs
    ensures var r := Balloc(g, fs); r.addr != 0 ==>
      && g.nmeta <= r.addr < g.size && r.addr !in fs.owner && r.fs.disk[r.addr] == Zeros()
      && r.fs == Allocated(g, fs, r.addr) && Tidy(g, r.fs, {r.addr})
      && forall c: nat :: c < r.addr ==> c in fs.used
  {
    NextFreeIsFree(g, fs.disk, fs.used, 0);
    assert 0 in fs.used by { assert InMeta(g, 0); }
    var b := NextFree(g, fs.disk, 0);
    if b < g.size { AllocatedTidy(g, fs, b); }
  }

  // ----- bmap -----

  // An empty address of inode i gets a new block.
  function AllocAddr(g: Geo, fs: Fs, i: nat, k: nat): (r: Step)
    requires Shape(g, fs) && i < g.ninodes && k <= NDIRECT
    ensures SameSizes(fs, r.fs, i) && Shape(g, r.fs)
  {
    var s := Balloc(g, fs);
    if s.addr == 0 then s else s.(fs := SetAddr(s.fs, i, k, s.addr))
  }

  // An empty entry of the indirect block gets a new block.
  function AllocEntry(g: Geo, fs: Fs, i: nat, k: nat): (r: Step)
    requires Shape(g, fs) && i < g.ninodes && NDIRECT < k < NSLOTS
    ensures SameSizes(fs, r.fs, i)
  {
    var s := Balloc(g, fs);
    if s.addr == 0 then s
    else s.(fs := SetEntry(s.fs, i, k, s.addr), log := s.log + [fs.inodes[i].addrs[NDIRECT]])
  }

  function BmapEntry(g: Geo, fs: Fs, i: nat, bn: nat): (r: Step)
    requires Shape(g, fs) && i < g.ninodes && NDIRECT <= bn < MAXFILE
    ensures SameSizes(fs, r.fs, i)
  {
    var addr := Word(fs.disk[fs.inodes[i].addrs[NDIRECT]], bn - NDIRECT);
    if addr != 0 then Step(fs, addr, []) else AllocEntry(g, fs, i, bn + 1)
  }

  function Bmap(g: Geo, fs: Fs, i: nat, bn: nat): (r: Step)
    requires Shape(g, fs) && i < g.ninodes && bn < MAXFILE
    ensures SameSizes(fs, r.fs, i)
  {
    if bn < NDIRECT then
      if fs.inodes[i].addrs[bn] != 0 then Step(fs, fs.inodes[i].addrs[bn], []) else AllocAddr(g, fs, i, bn)
    else if fs.inodes[i].addrs[NDIRECT] != 0 then BmapEntry(g, fs, i, bn)
    else
      var s := AllocAddr(g, fs, i, NDIRECT);
      if s.addr == 0 then s
      else
        var t := BmapEntry(g, s.fs, i, bn);
        t.(log := s.log + t.log)
  }

  /** One allocation for slot k of inode i: the slot gets the block, or the disk is full. */
  ghost predicate Gained(g: Geo, fs: Fs, r: Step, i: nat, k: nat) {
    && Grew(fs, r.fs, i, {k}) && k < |r.fs.slots[i]| && r.fs.slots[i][k] == r.addr
    && (r.addr == 0 ==> r.fs == fs && Full(g, fs))
    && (r.addr != 0 ==> r.addr < |r.fs.disk| && r.fs.disk[r.addr] == Zeros())
  }

  lemma {:induction false} AllocAddrTidy(g: Geo, fs: Fs, i: nat, k: nat)
    requires Tidy(g, fs, {}) && Shape(g, fs) && i < g.ninodes && k <= NDIRECT && fs.slots[i][k] == 0
    ensures Tidy(g, AllocAddr(g, fs, i, k).fs, {})
  {
    BallocTidy(g, fs);
    var s := Balloc(g, fs);
    if s.addr != 0 { SetAddrTidy(g, s.fs, i, k, s.addr); }
  }

  lemma {:induction false} AllocAddrGained(g: Geo, fs: Fs, i: nat, k: nat)
    requires Tidy(g, fs, {}) && Shape(g, fs) && i < g.ninodes && k <= NDIRECT && fs.slots[i][k] == 0
    ensures Gained(g, fs, AllocAddr(g, fs, i, k), i, k)
  {
    BallocTidy(g, fs);
  }

  lemma {:induction false} AllocEntryTidy(g: Geo, fs: Fs, i: nat, k: nat)
    requires Tidy(g, fs, {}) && Shape(g, fs) && i < g.ninodes && NDIRECT < k < NSLOTS && fs.slots[i][k] == 0
    requires fs.inodes[i].addrs[NDIRECT] != 0
    ensures Tidy(g, AllocEntry(g, fs, i, k).fs, {})
  {
    BallocTidy(g, fs);
    var s := Balloc(g, fs);
    if s.addr != 0 { SetEntryTidy(g, s.fs, i, k, s.addr); }
  }

  lemma {:induction false} OwnedAbove(g: Geo, fs: Fs)
    requires Tidy(g, fs, {})
    ensures forall b :: b in fs.owner ==> g.nmeta <= b < g.size
  {
  }

  lemma {:induction false} AllocEntryGained(g: Geo, fs: Fs, i: nat, k: nat)
    requires Tidy(g, fs, {}) && Shape(g, fs) && i < g.ninodes && NDIRECT < k < NSLOTS && fs.slots[i][k] == 0
    requires fs.inodes[i].addrs[NDIRECT] != 0
    ensures Gained(g, fs, AllocEntry(g, fs, i, k), i, k)
  {
    hide Tidy, SetWord;
    BallocTidy(g, fs);
    OwnedAbove(g, fs);
    SlotBounds(g, fs, i, NDIRECT);
    EntryValue(g, fs, i, 0);
  }

  /** What bmap did: block bn of file i is at r.addr, the file may have gained that block and the indirect
      block on the way to it, and nothing else happened; r.addr is 0 only if the disk is full. */
  ghost predicate Mapped(g: Geo, fs: Fs, r: Step, i: nat, bn: nat)
    requires bn < MAXFILE
  {
    var k := SlotOf(bn);
    && Grew(fs, r.fs, i, Chain(bn)) && |fs.slots[i]| == NSLOTS && r.fs.slots[i][k] == r.addr
    && (fs.slots[i][k] != 0 ==> r == Step(fs, fs.slots[i][k], []))
    && (fs.slots[i][k] == 0 && r.addr != 0 ==> r.addr < |r.fs.disk| && r.fs.disk[r.addr] == Zeros())
    && (r.addr == 0 ==> Full(g, r.fs))
  }

  lemma {:induction false} GainedMapped(g: Geo, fs: Fs, r: Step, i: nat, bn: nat)
    requires bn < MAXFILE && i < |fs.slots| && |fs.slots[i]| == NSLOTS && fs.slots[i][SlotOf(bn)] == 0
    ensures Gained(g, fs, r, i, SlotOf(bn)) ==> Mapped(g, fs, r, i, bn)
  {
    GrewMono(fs, r.fs, i, {SlotOf(bn)}, Chain(bn));
  }

  lemma {:induction false} AlreadyMapped(g: Geo, fs: Fs, i: nat, bn: nat)
    requires Shape(g, fs) && i < g.ninodes && bn < MAXFILE && fs.slots[i][SlotOf(bn)] != 0
    ensures Mapped(g, fs, Step(fs, fs.slots[i][SlotOf(bn)], []), i, bn)
  {
  }

  lemma {:induction false} EntryValue(g: Geo, fs: Fs, i: nat, bn: nat)
    requires Tidy(g, fs, {}) && i < g.ninodes
    ensures fs.slots[i][NDIRECT] == fs.inodes[i].addrs[NDIRECT]
    ensures bn < NDIRECT ==> fs.slots[i][bn] == fs.inodes[i].addrs[bn]
    ensures NDIRECT <= bn < MAXFILE ==>
      fs.slots[i][bn + 1] ==
      if fs.slots[i][NDIRECT] == 0 then 0 else Word(fs.disk[fs.inodes[i].addrs[NDIRECT]], bn - NDIRECT)
  {
  }

  lemma {:induction false} BmapEntryMapped(g: Geo, fs: Fs, i: nat, bn: nat)
    requires Tidy(g, fs, {}) && Shape(g, fs) && i < g.ninodes && NDIRECT <= bn < MAXFILE
    requires fs.inodes[i].addrs[NDIRECT] != 0
    ensures Tidy(g, BmapEntry(g, fs, i, bn).fs, {}) && Mapped(g, fs, BmapEntry(g, fs, i, bn), i, bn)
  {
    hide Tidy, Grew;
    EntryValue(g, fs, i, bn);
    if fs.slots[i][bn + 1] != 0 {
      AlreadyMapped(g, fs, i, bn);
    } else {
      AllocEntryTidy(g, fs, i, bn + 1);
      AllocEntryGained(g, fs, i, bn + 1);
      GainedMapped(g, fs, AllocEntry(g, fs, i, bn + 1), i, bn);
    }
  }

  lemma {:induction false} MappedAfterIndirect(g: Geo, fs: Fs, s: Step, t: Step, i: nat, bn: nat, log: seq<nat>)
    requires NDIRECT <= bn < MAXFILE && i < |fs.slots| && |fs.slots[i]| == NSLOTS && fs.slots[i][bn + 1] == 0
    ensures Gained(g, fs, s, i, NDIRECT) && Mapped(g, s.fs, t, i, bn) ==> Mapped(g, fs, t.(log := log), i, bn)
  {
  }

  lemma {:induction false} BmapMapped(g: Geo, fs: Fs, i: nat, bn: nat)
    requires Tidy(g, fs, {}) && Shape(g, fs) && i < g.ninodes && bn < MAXFILE
    ensures Tidy(g, Bmap(g, fs, i, bn).fs, {}) && Mapped(g, fs, Bmap(g, fs, i, bn), i, bn)
  {
    EntryValue(g, fs, i, bn);
    if bn < NDIRECT {
      if fs.slots[i][bn] != 0 {
        AlreadyMapped(g, fs, i, bn);
      } else {
        AllocAddrTidy(g, fs, i, bn);
        AllocAddrGained(g, fs, i, bn);
        GainedMapped(g, fs, AllocAddr(g, fs, i, bn), i, bn);
      }
    } else if fs.slots[i][NDIRECT] != 0 {
      BmapEntryMapped(g, fs, i, bn);
    } else {
      BmapNewIndirect(g, fs, i, bn);
    }
  }

  lemma {:induction false} BmapNewIndirect(g: Geo, fs: Fs, i: nat, bn: nat)
    requires Tidy(g, fs, {}) && Shape(g, fs) && i < g.ninodes && NDIRECT <= bn < MAXFILE
    requires fs.slots[i][NDIRECT] == 0 && fs.inodes[i].addrs[NDIRECT] == 0 && fs.slots[i][bn + 1] == 0
    ensures Tidy(g, Bmap(g, fs, i, bn).fs, {}) && Mapped(g, fs, Bmap(g, fs, i, bn), i, bn)
  {
    var s := AllocAddr(g, fs, i, NDIRECT);
    AllocAddrTidy(g, fs, i, NDIRECT);
    AllocAddrGained(g, fs, i, NDIRECT);
    if s.addr == 0 {
      GrewRefl(fs, i, {bn + 1, NDIRECT});
    } else {
      EntryValue(g, s.fs, i, bn);
      TidyShape(g, s.fs);
      BmapEntryMapped(g, s.fs, i, bn);
      var t := BmapEntry(g, s.fs, i, bn);
      MappedAfterIndirect(g, fs, s, t, i, bn, s.log + t.log);
    }
  }

  // ----- what bmap logs -----

  // The free-map blocks among what bmap logs: one per allocation.
  function BmapMaps(g: Geo, fs: Fs, i: nat, bn: nat): (r: seq<nat>)
    requires Shape(g, fs) && i < g.ninodes && bn < MAXFILE
  {
    var a := Bmap(g, fs, i, bn);
    var ind := a.fs.inodes[i].addrs[NDIRECT];
    (if fs.inodes[i].addrs[NDIRECT] == 0 && ind != 0 then [BitBlock(g, ind)] else [])
    + (if a.addr != 0 && a.log != [] then [BitBlock(g, a.addr)] else [])
  }

  lemma {:induction false} BallocLog(g: Geo, fs: Fs)
    requires Tidy(g, fs, {}) && Shape(g, fs)
    ensures Balloc(g, fs).log == if Balloc(g, fs).addr ==
              0 then [] else [BitBlock(g, Balloc(g, fs).addr), Balloc(g, fs).addr]
  {
    BallocTidy(g, fs);
  }

  lemma {:induction false} EntryLog(g: Geo, fs: Fs, i: nat, bn: nat)
    requires Tidy(g, fs, {}) && Shape(g, fs) && i < g.ninodes && NDIRECT <= bn < MAXFILE
    ensures var r := BmapEntry(g, fs, i, bn); var ind := fs.inodes[i].addrs[NDIRECT];
      r.fs.inodes == fs.inodes && (r.log == [] || (r.addr != 0 && r.log == [BitBlock(g, r.addr), r.addr, ind]))
  {
    BallocLog(g, fs);
  }

  /** bmap logs at most the block, the indirect block, and one free-map block per allocation. */
  lemma {:induction false} BmapLogs(g: Geo, fs: Fs, i: nat, bn: nat, x: nat)
    requires Tidy(g, fs, {}) && Shape(g, fs) && i < g.ninodes && bn < MAXFILE && x in Bmap(g, fs, i, bn).log
    ensures var r := Bmap(g, fs, i, bn);
      x in BmapMaps(g, fs, i, bn) || (x == r.addr != 0) || (x == r.fs.inodes[i].addrs[NDIRECT] != 0)
  {
    hide Tidy, NextFree;
    BallocLog(g, fs);
    EntryValue(g, fs, i, bn);
    if bn >= NDIRECT {
      if fs.inodes[i].addrs[NDIRECT] != 0 {
        EntryLog(g, fs, i, bn);
      } else {
        AllocAddrTidy(g, fs, i, NDIRECT);
        var s := AllocAddr(g, fs, i, NDIRECT);
        TidyShape(g, s.fs);
        EntryLog(g, s.fs, i, bn);
      }
    }
  }
}
