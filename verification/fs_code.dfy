/**
 balloc, bmap, readi, writei, itrunc and filewrite, in place. The disk is what bread returns; the logical
 disk that the log provides is the same but for copies torn into blocks that are not in the log.
 */
module FsCode {
  import opened Param
  import opened FsBlocks
  import opened FsModel
  import opened FsContent
  import opened FsOps
  import opened FsTrunc
  import opened FsWrite
  import opened FsTorn
  import opened FsRoom
  import opened FsTurns

  class FileSystem {
    const g: Geo
    // The code reads and writes fs.disk and fs.inodes; the rest of fs is what they mean.
    var fs: Fs
    var dinodes: seq<Inode>    // the inodes in the inode blocks
    var log: seq<nat>          // the blocks passed to log_write since begin_op
    ghost var ops: seq<seq<nat>>   // the same for every operation that has ended
    var under: Under           // what the log has for blocks whose buffers hold a torn copy

    constructor (g: Geo, fs: Fs)
      ensures this.g == g && this.fs == fs && dinodes == fs.inodes && log == [] && ops == [] && under == map[]
    {
      this.g, this.fs, dinodes, log, ops, under := g, fs, fs.inodes, [], [], map[];
    }

    // log_write, as far as this model goes
    method LogWrite(b: nat)
      modifies this`log, this`under
      ensures log == old(log) + [b] && under == Forget(old(under), [b])
    {
      log := log + [b];
      under := Forget(under, [b]);
    }

    /** bget recycles the buffer of a block with a torn copy in it: the block is again what the log has.
        The logical file system does not change. */
    method Recycle(b: nat)
      requires Valid(g, fs) && DataOnly(g, fs, under) && b in under
      modifies this`fs, this`under
      ensures fs == old(fs).(disk := old(fs.disk)[b := old(under)[b]]) && under == old(under) - {b}
      ensures Valid(g, fs) && DataOnly(g, fs, under) && Logical(fs, under) == Logical(old(fs), old(under))
    {
      hide Tidy, Covered;
      TidyShape(g, fs);
      RecycleKeeps(g, fs, under, b);
      fs := fs.(disk := fs.disk[b := under[b]]);
      under := under - {b};
    }

    // ----- balloc -----

    // The search loops of balloc.
    method FirstFree() returns (b: nat)
      requires Shape(g, fs)
      ensures b == NextFree(g, fs.disk, 0)
    {
      hide NextFree, Used, Bit;
      b := 0;
      ghost var q := 0;
      while b < g.size
        invariant b == q * BPB
        invariant NextFree(g, fs.disk, 0) == if b < g.size then NextFree(g, fs.disk, b) else g.size
      {
        var bi := FreeIn(b, q);
        if bi < BPB && b + bi < g.size { return b + bi; }
        b, q := b + BPB, q + 1;
      }
      b := g.size;
    }

    // The search in the free-map block for blocks b..; BPB, or the end of the disk, if none is free.
    method FreeIn(b: nat, ghost q: nat) returns (bi: nat)
      requires Shape(g, fs) && b < g.size && b == q * BPB
      ensures bi <= BPB && b + bi <= g.size && NextFree(g, fs.disk, b) == NextFree(g, fs.disk, b + bi)
      ensures bi < BPB && b + bi < g.size ==> NextFree(g, fs.disk, b + bi) == b + bi
      ensures b + bi == g.size ==> NextFree(g, fs.disk, b) == g.size
    {
      hide NextFree, Used, Bit;
      BitBlockBelow(g, b);
      var bp := fs.disk[g.bm + b / BPB];
      bi := 0;
      while bi < BPB && b + bi < g.size
        invariant 0 <= bi <= BPB && b + bi <= g.size
        invariant NextFree(g, fs.disk, b) == NextFree(g, fs.disk, b + bi)
      {
        BitAt(g, fs.disk, q, bi);
        SkipUsed(g, fs.disk, b + bi);
        if !Bit(bp[bi / 8], bi % 8) { return; }
        bi := bi + 1;
      }
      SkipUsed(g, fs.disk, b + bi);
    }

    /** balloc: the first block the free map does not mark, now marked and zeroed; 0 if there is none. */
    method Balloc() returns (b: nat)
      requires Shape(g, fs)
      modifies this`fs, this`log, this`under
      ensures Step(fs, b, log) == FsOps.Balloc(g, old(fs)).(log := old(log) + FsOps.Balloc(g, old(fs)).log)
      ensures under == Forget(old(under), FsOps.Balloc(g, old(fs)).log)
    {
      hide Forget;
      ForgetNone(under);
      b := FirstFree();
      if b == g.size { return 0; }
      BitBlockBelow(g, b);
      var bp := BitBlock(g, b);
      fs := fs.(disk := fs.disk[bp := Flip(fs.disk[bp], b % BPB)], used := fs.used + {b});
      LogWrite(bp);
      ForgetTwo(old(under), [bp], [b]);
      assert [bp] + [b] == [bp, b];
      Bzero(b);
    }

    method Bzero(b: nat)
      requires b < |fs.disk|
      modifies this`fs, this`log, this`under
      ensures fs == old(fs).(disk := old(fs.disk)[b := Zeros()]) && log == old(log) + [b]
      ensures under == Forget(old(under), [b])
    {
      fs := fs.(disk := fs.disk[b := Zeros()]);
      LogWrite(b);
    }

    // ----- bmap -----

    method BmapEntry(i: nat, bn: nat) returns (addr: nat)
      requires Shape(g, fs) && i < g.ninodes && NDIRECT <= bn < MAXFILE
      modifies this`fs, this`log, this`under
      ensures Step(fs, addr, log) ==
                FsOps.BmapEntry(g, old(fs), i, bn).(log := old(log) + FsOps.BmapEntry(g, old(fs), i, bn).log)
      ensures under == Forget(old(under), FsOps.BmapEntry(g, old(fs), i, bn).log)
    {
      hide Forget, NextFree;
      ForgetNone(under);
      var ind := fs.inodes[i].addrs[NDIRECT];
      addr := Word(fs.disk[ind], bn - NDIRECT);
      if addr == 0 {
        addr := Balloc();
        if addr != 0 {
          fs := SetEntry(fs, i, bn + 1, addr);
          ForgetTwo(old(under), FsOps.Balloc(g, old(fs)).log, [ind]);
          LogWrite(ind);
        }
      }
    }

    /** bmap: the block of the file's bn-th block, allocated and zeroed if there was none. */
    method Bmap(i: nat, bn: nat) returns (addr: nat)
      requires Shape(g, fs) && i < g.ninodes && bn < MAXFILE
      modifies this`fs, this`log, this`under
      ensures Step(fs, addr, log) == FsOps.Bmap(g, old(fs), i, bn).(log := old(log) + FsOps.Bmap(g, old(fs), i, bn).log)
      ensures under == Forget(old(under), FsOps.Bmap(g, old(fs), i, bn).log)
    {
      hide FsOps.AllocAddr, FsOps.BmapEntry, Forget;
      ForgetNone(under);
      if bn < NDIRECT {
        addr := fs.inodes[i].addrs[bn];
        if addr == 0 { addr := AllocAddr(i, bn); }
        return;
      }
      if fs.inodes[i].addrs[NDIRECT] == 0 {
        addr := AllocAddr(i, NDIRECT);
        if addr == 0 { return 0; }
        ForgetTwo(old(under), FsOps.AllocAddr(g, old(fs), i, NDIRECT).log, FsOps.BmapEntry(g, fs, i, bn).log);
      }
      addr := BmapEntry(i, bn);
    }

    // balloc for an empty address of the inode
    method AllocAddr(i: nat, k: nat) returns (addr: nat)
      requires Shape(g, fs) && i < g.ninodes && k <= NDIRECT
      modifies this`fs, this`log, this`under
      ensures Step(fs, addr, log) ==
              FsOps.AllocAddr(g, old(fs), i, k).(log := old(log) + FsOps.AllocAddr(g, old(fs), i, k).log)
      ensures under == Forget(old(under), FsOps.AllocAddr(g, old(fs), i, k).log)
    {
      hide NextFree;
      addr := Balloc();
      if addr != 0 { fs := SetAddr(fs, i, k, addr); }
    }

    // ----- writei -----

    /** One round of writei: the bytes s, all in one block, go to offset off, unless there is no
        block for them. When the copy faults after `good` bytes, those are in the buffer, unlogged; `base`
        is the file system without them. `pinned` says which blocks other operations have logged. */
    method WriteChunk(i: nat, off: nat, s: seq<Byte>, good: nat, pinned: nat -> bool)
      returns (addr: nat, ghost l: seq<nat>, ghost maps: seq<nat>, ghost base: Fs)
      requires Tidy(g, fs, {}) && Args(g, i, off, s) && good <= |s|
      modifies this`fs, this`log, this`under
      ensures Tidy(g, fs, {}) && Shape(g, fs)
      ensures Wrote(old(fs), fs, i, off, if addr == 0 then [] else s[..good])
      ensures addr == 0 ==> Full(g, fs)
      ensures Filled(old(fs).slots, fs.slots, i, Chain(off / BSIZE))
      ensures log == old(log) + l
      ensures ChunkLogs(old(fs).slots[i][SlotOf(off / BSIZE)], old(fs).slots[i][NDIRECT], fs.slots[i][NDIRECT],
                        addr, l, maps)
      ensures Tidy(g, base, {}) && (addr == 0 || good < |s| ==> Wrote(old(fs), base, i, off, []))
      ensures addr == fs.slots[i][SlotOf(off / BSIZE)]
      ensures Tracks(g, old(fs), old(under), fs, under, l, base, addr, addr != 0 && 0 < good < |s|,
                     Kept(log, pinned, addr))
    {
      hide Tidy, Wrote, FsOps.Bmap, BmapMaps, Grew, Forget, Full, Tracks, ChunkLogs, Filled, Chain;
      var bn := off / BSIZE;
      TidyShape(g, fs);
      BmapMapped(g, fs, i, bn);
      BmapCharged(g, fs, i, bn);
      BmapTracks(g, fs, i, bn, under);
      addr := Bmap(i, bn);
      base, l, maps := fs, FsOps.Bmap(g, old(fs), i, bn).log, BmapMaps(g, old(fs), i, bn);
      TidyShape(g, fs);
      GrewWrote(g, old(fs), fs, i, Chain(bn), off);
      GrewFilled(old(fs), fs, i, Chain(bn));
      if addr == 0 {
        TracksAny(g, old(fs), old(under), fs, under, l, addr, Kept(log, pinned, addr));
        return;
      }
      ghost var mid, u1, l1 := fs, under, l;
      ghost var more;
      more, base := Copy(i, off, s, good, pinned, addr);
      l := l1 + more;
      WroteTrans(old(fs), mid, fs, i, off, s[..good]);
      WroteTrans(old(fs), mid, base, i, off, []);
      TracksThen(g, old(fs), old(under), mid, u1, l1, fs, under, more, base, addr, 0 < good < |s|,
                 Kept(log, pinned, addr));
      assert l1 + [] == l1;
      OneMoreLogged(old(fs).slots[i][SlotOf(bn)], old(fs).slots[i][NDIRECT], fs.slots[i][NDIRECT], addr, l1, maps);
      LogMore(old(log), l1, more);
    }

    // either_copyin into the block at addr, and log_write unless it faults
    method Copy(i: nat, off: nat, s: seq<Byte>, good: nat, pinned: nat -> bool, addr: nat)
      returns (ghost more: seq<nat>, ghost base: Fs)
      requires Tidy(g, fs, {}) && Shape(g, fs) && Args(g, i, off, s) && good <= |s|
      requires addr == fs.slots[i][SlotOf(off / BSIZE)] != 0
      modifies this`fs, this`log, this`under
      ensures Tidy(g, fs, {}) && Tidy(g, base, {}) && fs.slots == old(fs).slots && Shape(g, fs)
      ensures Wrote(old(fs), fs, i, off, s[..good]) && (good < |s| ==> Wrote(old(fs), base, i, off, []))
      ensures more == (if good == |s| then [addr] else []) && log == old(log) + more
      ensures Tracks(g, old(fs), old(under), fs, under, more, base, addr, 0 < good < |s|, Kept(log, pinned, addr))
    {
      hide Tidy, Wrote, Forget, Tracks;
      base, more := fs, [];
      NothingWrote(g, fs, i, off);
      if good == 0 {
        assert s[..0] == [];
        TracksSame(g, fs, under, addr, Kept(log, pinned, addr));
        return;
      }
      var mid := fs;
      PatchWrote(g, fs, i, off, s[..good]);
      fs := fs.(disk := fs.disk[addr := Patch(fs.disk[addr], off % BSIZE, s[..good])]);
      if good == |s| {
        base, more := fs, [addr];
        TracksLogged(g, mid, fs, under, addr, Kept(log + [addr], pinned, addr));
        LogWrite(addr);
      } else {
        TracksTorn(g, mid, fs, under, i, SlotOf(off / BSIZE), addr, Kept(log, pinned, addr));
        if !(addr in log || pinned(addr)) { under := Undo(under, addr, mid.disk[addr]); }
      }
    }

    /** writei's loop: tot bytes of src go to offset off, all of them unless a copy faults or the
        disk is full; torn more are in the buffer of block addr when a copy faults half-way, and `base` is
        the file system without them. cnt rounds, which logged what fits their Budget. */
    method WriteLoop(i: nat, off: nat, src: seq<Byte>, good: nat -> nat, pinned: nat -> bool)
      returns (tot: nat, ghost torn: nat, ghost cnt: nat, ghost l: seq<nat>, ghost data: seq<nat>, ghost maps: seq<nat>,
               ghost base: Fs, ghost addr: nat)
      requires Tidy(g, fs, {}) && Loop(g, i, off, src, 0) && off <= fs.inodes[i].size && Written(fs, fs, i, off, src, 0)
      modifies this`fs, this`log, this`under
      ensures tot + torn <= |src| && Tidy(g, fs, {}) && Written(old(fs), fs, i, off, src, tot + torn)
      ensures Stopped(g, fs, i, off, src, good, tot, torn) && Filled(old(fs).slots, fs.slots, i, Spots(off, |src|))
      ensures log == old(log) + l && cnt <= Blocks(off, |src|, 0)
      ensures Budget(l, data, maps, cnt, off, old(fs).slots[i][NDIRECT], fs.slots[i][NDIRECT])
      ensures Tidy(g, base, {}) && Written(old(fs), base, i, off, src, tot)
      ensures torn > 0 ==> (off + tot) / BSIZE < MAXFILE && addr == fs.slots[i][SlotOf((off + tot) / BSIZE)] != 0
      ensures Tracks(g, old(fs), old(under), fs, under, l, base, addr, torn > 0, Kept(log, pinned, addr))
    {
      hide Tidy, Written, Wrote, ChunkLogs, ChunkLen, Budget, Full, Blocks, InLoop, OnBlock, Tracks, Kept, Args, SlotOf,
           Filled, Spots, Chain, Stopped;
      ghost var fs0, u0 := fs, under;
      TidyShape(g, fs);
      LoopBegins(g, fs, i, off, src);
      TracksSame(g, fs, under, 0, false);
      FilledRefl(fs.slots, i, Spots(off, |src|));
      tot, torn, cnt, l, data, maps := 0, 0, 0, [], [], [];
      while tot < |src|
        invariant torn == 0 && log == old(log) + l && InLoop(g, fs0, fs, i, off, src, tot, cnt, l, data, maps)
        invariant Tracks(g, fs0, u0, fs, under, l, fs, 0, false, false)
        invariant Filled(fs0.slots, fs.slots, i, Spots(off, |src|))
        decreases |src| - tot
      {
        LoopFacts(g, fs0, fs, i, off, src, tot, cnt, l, data, maps);
        var m := ChunkLen(off, |src|, tot);
        var c := Min(good(tot), m);
        ghost var fs1, u1 := fs, under;
        var at; ghost var l', maps';
        at, l', maps', base := WriteChunk(i, off + tot, src[tot..tot + m], c, pinned);
        TidyShape(g, fs);
        Round(g, fs0, fs1, fs, i, off, src, tot, cnt, l, data, maps, at, c, l', maps');
        TracksThen(g, fs0, u0, fs1, u1, l, fs, under, l', base, at, at != 0 && 0 < c < m, Kept(log, pinned, at));
        ChainInSpots(off, |src|, off + tot);
        FilledTrans(fs0.slots, fs1.slots, fs.slots, i, Spots(off, |src|), Chain((off + tot) / BSIZE));
        LogMore(old(log), l, l');
        if at == 0 || c < m {
          Stays(g, fs0, fs1, base, i, off, src, tot, cnt, l, data, maps);
          StopsHere(g, fs, i, off, src, good, tot, at);
          torn, addr := if at == 0 then 0 else c, at;
          cnt, l, data, maps := cnt + 1, l + l', data + [at], maps + maps';
          return;
        }
        cnt, l, data, maps := cnt + 1, l + l', data + [at], maps + maps';
        TracksWhole(g, fs0, u0, fs, under, l, base, at, Kept(log, pinned, at));
        TracksAny(g, fs0, u0, fs, under, l, 0, false);
        tot := tot + m;
      }
      base, addr := fs, 0;
      TracksAny(g, fs0, u0, fs, under, l, 0, Kept(log, pinned, 0));
      LoopEnds(g, fs0, fs, i, off, src, tot, cnt, l, data, maps);
      AllDone(g, fs, i, off, src, good);
    }

    method Iupdate(i: nat)
      requires i < |fs.inodes| && i < |dinodes|
      modifies this`dinodes, this`log, this`under
      ensures dinodes == old(dinodes)[i := fs.inodes[i]] && log == old(log) + [g.inodestart + i / IPB]
      ensures under == Forget(old(under), [g.inodestart + i / IPB])
    {
      dinodes := dinodes[i := fs.inodes[i]];
      LogWrite(g.inodestart + i / IPB);
    }

    // writei after its tests: the loop, the size, and iupdate
    method WriteBody(i: nat, off: nat, src: seq<Byte>, good: nat -> nat, pinned: nat -> bool)
      returns (tot: nat, ghost torn: nat, ghost kept: bool)
      requires Valid(g, fs) && i < g.ninodes && |dinodes| == g.ninodes
      requires off <= fs.inodes[i].size && off + |src| <= MAXFILE * BSIZE
      modifies this`fs, this`dinodes, this`log, this`under
      ensures tot + torn <= |src| && Valid(g, fs) && SameOthers(old(fs), fs, i) && SameFiles(old(fs), fs, i)
      ensures Content(fs, i) == TornSplice(Content(old(fs), i), off, src[..tot + torn], tot)
      ensures Stopped(g, fs, i, off, src, good, tot, torn) && dinodes == old(dinodes)[i := fs.inodes[i]]
      ensures Filled(old(fs).slots, fs.slots, i, Spots(off, |src|))
      ensures old(log) <= log && (|src| <= 3 * BSIZE ==> Distinct(log[|old(log)|..]) <= MAXOPBLOCKS)
      ensures torn > 0 ==> KeptAt(fs, i, off + tot, log, pinned, kept)
      ensures LogSees(g, old(fs), old(under), fs, under, log[|old(log)|..], i, off, src, tot, torn, kept)
    {
      hide Valid, Shape, Loop, Kept, Tidy, Written, Budget, Blocks, ChunkLogs, Content, TornSplice, SameOthers,
           SameFiles, Distinct, Covered, Stopped, Tracks, LogSees, KeptAt, Forget, Extended, SlotOf,
           Filled, Spots;
      ValidShape(g, fs);
      ShapeRow(g, fs, i);
      ghost var fs0, ind, ib := fs, fs.slots[i][NDIRECT], g.inodestart + i / IPB;
      WrittenStart(g, fs, i, off, src);
      LoopStart(g, i, off, src);
      ghost var cnt, l, data, maps, base, addr;
      tot, torn, cnt, l, data, maps, base, addr := WriteLoop(i, off, src, good, pinned);
      TidyShape(g, fs);
      ShapeRow(g, fs, i);
      WriteDone(g, fs0, fs, i, off, src, tot, tot + torn);
      if |src| <= 3 * BSIZE { BudgetFits(l, data, maps, cnt, off, |src|, ind, fs.slots[i][NDIRECT], ib); }
      StoppedFrame(g, fs, i, off, src, good, tot, torn);
      ghost var fs1 := fs;
      kept := Kept(log, pinned, addr);
      LoggedKept(old(log), l, pinned, addr);
      WriteUnder(g, fs0, old(under), fs1, under, base, i, off, src, tot, torn, addr, l, kept);
      if torn > 0 { KeptStill(g, fs, i, off + tot, log, pinned, addr); }
      WriteEnd(i, off + tot);
      assert log == old(log) + (l + [ib]);
      LogTail(old(log), log, l + [ib]);
    }

    // the size, if the write reaches past it, and iupdate
    method WriteEnd(i: nat, end: nat)
      requires i < |fs.inodes| && i < |dinodes|
      modifies this`fs, this`dinodes, this`log, this`under
      ensures fs == Extended(old(fs), i, end) && dinodes == old(dinodes)[i := fs.inodes[i]]
      ensures log == old(log) + [g.inodestart + i / IPB] && under == Forget(old(under), [g.inodestart + i / IPB])
    {
      if end > fs.inodes[i].size { fs := Resized(fs, i, end); }
      Iupdate(i);
    }

    /** writei: refused when off is beyond the end of the file or the file would get too long;
        otherwise the first r bytes of src replace those at offset off, the file growing as needed,
        and the inode goes to its block. All of src is written unless a copy faults or the disk has no block
        for the next bytes, and then whole blocks of it: if no copy faults, exactly if the disk has a free
        block for every slot that lacks one. When a copy faults half-way, torn bytes more replace those of
        the file in that block, as far as the file reaches: in what bread returns, and in the logical file
        system exactly if the block is in the log. What a write of up to three blocks' worth logs is
        within one operation's share. */
    method WriteI(i: nat, off: nat, src: seq<Byte>, good: nat -> nat, pinned: nat -> bool)
      returns (r: int, ghost torn: nat, ghost kept: bool)
      requires Valid(g, fs) && i < g.ninodes && |dinodes| == g.ninodes && off < UINT && |src| < UINT
      modifies this`fs, this`dinodes, this`log, this`under
      ensures r == -1 <==> old(fs).inodes[i].size < off || MAXFILE * BSIZE < off + |src|
      ensures r == -1 ==>
                fs == old(fs) && dinodes == old(dinodes) && log == old(log) && under == old(under) && torn == 0
      ensures r != -1 ==>
                0 <= r && r + torn <= |src| && Valid(g, fs) && SameOthers(old(fs), fs, i) && SameFiles(old(fs), fs, i)
      ensures r != -1 ==> Content(fs, i) == TornSplice(Content(old(fs), i), off, src[..r + torn], r)
      ensures r != -1 ==> var c := Content(old(fs), i);
        Content(fs, i) == Splice(c, off, src[..r]) <==>
        forall k :: r <= k < r + torn && off + k < |c| ==> src[k] == c[off + k]
      ensures r != -1 ==> Stopped(g, fs, i, off, src, good, r, torn) && (NoneInside(off, src, good) ==> torn == 0)
      ensures r != -1 ==> Filled(old(fs).slots, fs.slots, i, Spots(off, |src|))
      ensures r != -1 && Clear(src, good) ==> (r == |src| <==> HasRoom(g, old(fs), i, off, |src|))
      ensures r != -1 ==> dinodes == old(dinodes)[i := fs.inodes[i]]
      ensures r != -1 ==> old(log) <= log && (|src| <= 3 * BSIZE ==> Distinct(log[|old(log)|..]) <= MAXOPBLOCKS)
      ensures torn > 0 ==> KeptAt(fs, i, off + r, log, pinned, kept)
      ensures r != -1 ==> LogSees(g, old(fs), old(under), fs, under, log[|old(log)|..], i, off, src, r, torn, kept)
    {
      hide Valid, Shape, Tidy, Content, TornSplice, SameOthers, SameFiles, Distinct, Covered, Stopped, LogSees,
           Splice, NoneInside, KeptAt, Filled, Spots, HasRoom, Clear;
      ValidShape(g, fs);
      ShapeRow(g, fs, i);
      var n, size := |src|, fs.inodes[i].size;
      if off > size || Wraps(off, n) { return -1, 0, false; }
      if (off + n) % UINT > MAXFILE * BSIZE { return -1, 0, false; }
      ghost var c := Content(fs, i);
      r, torn, kept := WriteBody(i, off, src, good, pinned);
      ValidShape(g, fs);
      ShapeRow(g, fs, i);
      TornBytes(c, off, src, r, torn);
      NeverTorn(g, fs, i, off, src, good, r, torn);
      if Clear(src, good) { RoomIff(g, old(fs), fs, i, off, src, good, r, torn); }
    }

    // bmap and bread: m bytes from offset o, all in one block. There always is that block.
    method ReadBlock(i: nat, o: nat, m: nat) returns (d: seq<Byte>)
      requires Valid(g, fs) && i < g.ninodes && HasRow(fs, i) && o + m <= fs.inodes[i].size && o % BSIZE + m <= BSIZE
      requires 0 < m
      modifies this`fs, this`log, this`under
      ensures fs == old(fs) && log == old(log) && under == old(under) && d == Content(fs, i)[o..o + m]
    {
      hide Tidy, Content, Covered, FsOps.Bmap, Grew, Forget;
      ForgetNone(under);
      TidyShape(g, fs);
      BlockSlice(g, fs, i, o, m);
      BmapMapped(g, fs, i, o / BSIZE);
      var addr := Bmap(i, o / BSIZE);
      assert addr != 0;
      d := fs.disk[addr][o % BSIZE..o % BSIZE + m];
    }

    /** readi: the file's bytes from off on, n of them or as many as there are; -1 exactly when the copy of
        some block's part of them faults. Nothing changes: the file has no holes, so bmap allocates
        nothing. */
    method ReadI(i: nat, off: nat, n: nat, copyOk: nat -> bool) returns (r: int, dst: seq<Byte>)
      requires Valid(g, fs) && i < g.ninodes && off < UINT && n < UINT
      modifies this`fs, this`log, this`under
      ensures fs == old(fs) && log == old(log) && under == old(under)
      ensures off > fs.inodes[i].size || off + n >= UINT ==> r == 0 && dst == []
      ensures off <= fs.inodes[i].size && off + n < UINT ==>
        var m := Min(n, fs.inodes[i].size - off);
        if AllCopied(off, m, copyOk) then r == m && dst == Content(fs, i)[off..off + m] else r == -1
    {
      hide Valid, Shape, Tidy, Content, Covered, FsOps.Bmap, Got, ChunkAt, Wraps, OnBlock, AllCopied;
      ValidShape(g, fs);
      ShapeRow(g, fs, i);
      dst := [];
      if off > fs.inodes[i].size || Wraps(off, n) { return 0, []; }
      var n' := if off + n > fs.inodes[i].size then fs.inodes[i].size - off else n;
      var tot := 0;
      GotNone(Content(fs, i), off);
      NoCopies(off, copyOk);
      while tot < n'
        invariant tot <= n' && fs == old(fs) && log == old(log) && under == old(under)
        invariant Got(Content(fs, i), off, tot, dst) && AllCopied(off, tot, copyOk) && (tot < n' ==> OnBlock(off, tot))
      {
        var m := ChunkAt(off + tot, n' - tot);
        var d := ReadBlock(i, off + tot, m);
        if !copyOk(tot) {
          NotAll(off, n', tot, copyOk);
          return -1, dst;
        }
        CopiedNext(off, n', tot, copyOk);
        GotMore(Content(fs, i), off, tot, dst, m);
        dst := dst + d;
        tot := tot + m;
      }
      GotAll(Content(fs, i), off, tot, dst);
      r := tot;
    }

    // ----- itrunc -----

    /** bfree: halts exactly when the block is free already. */
    method Bfree(b: nat) returns (halted: bool)
      requires GoodGeo(g) && |fs.disk| == g.size && UsedIs(g, fs.disk, fs.used) && b < g.size
      modifies this`fs, this`log, this`under
      ensures halted <==> b !in old(fs).used
      ensures halted ==> fs == old(fs) && log == old(log) && under == old(under)
      ensures !halted ==> fs == Freed(g, old(fs), b) && log == old(log) + [BitBlock(g, b)]
      ensures High(g, old(under)) ==> under == old(under)
    {
      hide Bit, Flip, Forget, High;
      BitBlockBelow(g, b);
      LowBits(b);
      HighLogged(g, under, BitBlock(g, b));
      var bp := BitBlock(g, b);
      var bi := b % BPB;
      assert Used(fs.disk, g.bm, b) <==> b in fs.used;
      if !Bit(fs.disk[bp][bi / 8], bi % 8) { return true; }
      fs := fs.(disk := fs.disk[bp := Flip(fs.disk[bp], bi)], used := fs.used - {b});
      LogWrite(bp);
      halted := false;
    }

    // The loop over the direct blocks.
    method TruncDirect(i: nat)
      requires Tidy(g, fs, {}) && Shape(g, fs) && i < g.ninodes
      modifies this`fs, this`log, this`under
      ensures Freeing(g, old(fs), fs, RowBlocks(old(fs).slots[i], 0, NDIRECT))
      ensures fs.inodes == ClearedTo(old(fs).inodes, i, NDIRECT)
      ensures Logged(g, old(log), log, RowBlocks(old(fs).slots[i], 0, NDIRECT))
      ensures High(g, old(under)) ==> under == old(under)
    {
      hide Tidy, Freeing, RowBlocks, Flipped, UsedIs, ClearedTo, Logged, High;
      ghost var fs0, row := fs, fs.slots[i];
      FreeingStart(g, fs);
      LoggedStart(g, log);
      TruncStart(g, fs0, i);
      var k := 0;
      while k < NDIRECT
        invariant 0 <= k <= NDIRECT && Freeing(g, fs0, fs, RowBlocks(row, 0, k))
        invariant fs.inodes == ClearedTo(fs0.inodes, i, k) && Logged(g, old(log), log, RowBlocks(row, 0, k))
        invariant High(g, old(under)) ==> under == old(under)
      {
        EntryValue(g, fs0, i, k);
        NextDirect(g, fs0, i, k);
        ClearNext(fs0.inodes, i, k);
        FreeingWf(g, fs0, fs, RowBlocks(row, 0, k));
        var b := fs.inodes[i].addrs[k];
        if b != 0 {
          FreeingStep(g, fs0, fs, RowBlocks(row, 0, k), b);
          LoggedStep(g, old(log), log, RowBlocks(row, 0, k), b);
          var halted := Bfree(b);
          assert !halted;
          var inodes := fs.inodes[i := fs.inodes[i].(addrs := fs.inodes[i].addrs[k := 0])];
          FreeingFrame(g, fs0, fs, RowBlocks(row, 0, k + 1), inodes);
          fs := fs.(inodes := inodes);
        }
        k := k + 1;
      }
    }

    // The loop over the entries of the indirect block; fs0 is the file system before itrunc.
    method TruncEntries(i: nat, ghost fs0: Fs, ghost log0: seq<nat>)
      requires Tidy(g, fs0, {}) && Shape(g, fs0) && i < g.ninodes && fs0.inodes[i].addrs[NDIRECT] != 0
      requires fs.inodes == ClearedTo(fs0.inodes, i, NDIRECT)
      requires Freeing(g, fs0, fs, RowBlocks(fs0.slots[i], 0, NDIRECT))
      requires Logged(g, log0, log, RowBlocks(fs0.slots[i], 0, NDIRECT))
      modifies this`fs, this`log, this`under
      ensures fs.inodes == old(fs).inodes
      ensures Freeing(g, fs0, fs, RowBlocks(fs0.slots[i], 0, NDIRECT) + RowBlocks(fs0.slots[i], NDIRECT + 1, NSLOTS))
      ensures Logged(g, log0, log, RowBlocks(fs0.slots[i], 0, NDIRECT) + RowBlocks(fs0.slots[i], NDIRECT + 1, NSLOTS))
      ensures High(g, old(under)) ==> under == old(under)
    {
      hide Tidy, Freeing, RowBlocks, Flipped, UsedIs, ClearedTo, Logged, High;
      ghost var row, direct := fs0.slots[i], RowBlocks(fs0.slots[i], 0, NDIRECT);
      ClearNext(fs0.inodes, i, NDIRECT);
      IndirectKept(g, fs0, fs, i, direct);
      NoneYet(row, NDIRECT + 1, direct);
      var a := fs.disk[fs.inodes[i].addrs[NDIRECT]];
      var j := 0;
      while j < NINDIRECT
        invariant 0 <= j <= NINDIRECT && fs.inodes == old(fs).inodes
        invariant Freeing(g, fs0, fs, direct + RowBlocks(row, NDIRECT + 1, NDIRECT + 1 + j))
        invariant Logged(g, log0, log, direct + RowBlocks(row, NDIRECT + 1, NDIRECT + 1 + j))
        invariant High(g, old(under)) ==> under == old(under)
      {
        ghost var k := NDIRECT + 1 + j;
        EntryValue(g, fs0, i, NDIRECT + j);
        NextSlot(g, fs0, i, direct, NDIRECT + 1, k);
        FreeingWf(g, fs0, fs, direct + RowBlocks(row, NDIRECT + 1, k));
        var b := Word(a, j);
        if b != 0 {
          FreeingStep(g, fs0, fs, direct + RowBlocks(row, NDIRECT + 1, k), b);
          LoggedStep(g, log0, log, direct + RowBlocks(row, NDIRECT + 1, k), b);
          var halted := Bfree(b);
          assert !halted;
        }
        j := j + 1;
      }
    }

    // itrunc up to setting the size
    method TruncAll(i: nat)
      requires Tidy(g, fs, {}) && Shape(g, fs) && i < g.ninodes
      modifies this`fs, this`log, this`under
      ensures Freeing(g, old(fs), fs, AllBlocks(old(fs).slots[i]))
      ensures fs.inodes == ClearedTo(old(fs).inodes, i, NDIRECT + 1)
      ensures Logged(g, old(log), log, AllBlocks(old(fs).slots[i]))
      ensures High(g, old(under)) ==> under == old(under)
    {
      hide Tidy, Freeing, RowBlocks, Flipped, UsedIs, ClearedTo, Logged, High;
      ghost var fs0, row := fs, fs.slots[i];
      EntryValue(g, fs, i, 0);
      IndirectLast(g, fs, i);
      TruncDirect(i);
      ClearNext(fs0.inodes, i, NDIRECT);
      ghost var gone := RowBlocks(row, 0, NDIRECT) + RowBlocks(row, NDIRECT + 1, NSLOTS);
      if fs.inodes[i].addrs[NDIRECT] != 0 {
        TruncEntries(i, fs0, old(log));
        FreeingWf(g, fs0, fs, gone);
        FreeingStep(g, fs0, fs, gone, row[NDIRECT]);
        LoggedStep(g, old(log), log, gone, row[NDIRECT]);
        var halted := Bfree(fs.inodes[i].addrs[NDIRECT]);
        assert !halted;
        var inodes := fs.inodes[i := fs.inodes[i].(addrs := fs.inodes[i].addrs[NDIRECT := 0])];
        FreeingFrame(g, fs0, fs, AllBlocks(row), inodes);
        fs := fs.(inodes := inodes);
      } else {
        assert AllBlocks(row) == RowBlocks(row, 0, NDIRECT);
      }
    }

    /** itrunc: frees exactly the inode's blocks, every one of them marked used until then, leaves
        the file empty and every other file as it was. It logs the free-map blocks of the blocks it frees
        and the inode's block, so at most one block more than the free map has for data blocks. */
    method Itrunc(i: nat)
      requires Valid(g, fs) && i < g.ninodes && |dinodes| == g.ninodes
      modifies this`fs, this`dinodes, this`log, this`under
      ensures Valid(g, fs) && SameOthers(old(fs), fs, i) && SameFiles(old(fs), fs, i)
      ensures fs.inodes[i] == Inode(NoAddrs(), 0) && dinodes == old(dinodes)[i := fs.inodes[i]]
      ensures fs.used == old(fs).used - OwnedBy(old(fs).owner, i) && OwnedBy(fs.owner, i) == {}
      ensures old(log) <= log
      ensures Elems(log[|old(log)|..]) == Maps(g, OwnedBy(old(fs).owner, i)) + {g.inodestart + i / IPB}
      ensures Distinct(log[|old(log)|..]) == |Maps(g, OwnedBy(old(fs).owner, i))| + 1 <= DataMaps(g) + 1
      ensures DataOnly(g, old(fs), old(under)) ==> under == old(under) && DataOnly(g, fs, under)
    {
      hide Tidy, Freeing, RowBlocks, AllBlocks, UsedIs, ClearedTo, Covered, SameOthers, SameFiles, Logged, Elems,
           Distinct, Maps, DataOnly, High, Forget;
      ghost var fs0 := fs;
      TidyShape(g, fs);
      DataHigh(g, fs, under);
      TruncAll(i);
      AllAreOwned(g, fs0, i);
      ClearedAll(g, fs0, i);
      FreeingWf(g, fs0, fs, OwnedBy(fs0.owner, i));
      var inodes := fs.inodes[i := fs.inodes[i].(size := 0)];
      FreeingFrame(g, fs0, fs, OwnedBy(fs0.owner, i), inodes);
      fs := fs.(inodes := inodes);
      TruncDone(g, fs0, fs, i);
      fs := Emptied(fs, i);
      OthersSameFiles(g, fs0, fs, i);
      OwnedBelow(g, fs0, i);
      TruncLogs(g, old(log), log, OwnedBy(fs0.owner, i), i);
      if DataOnly(g, fs0, under) {
        EmptiedData(g, fs0, fs, under);
        InodeLogged(g, fs, under, i);
      }
      Iupdate(i);
    }

    // ----- filewrite -----

    /** begin_op, writei, end_op: one turn at the file. */
    method WriteOp(i: nat, off: nat, src: seq<Byte>, good: nat -> nat, pinned: nat -> bool)
      returns (r: int, ghost u: Turn)
      requires GoodWorld(g, World(fs, dinodes, off, under)) && i < g.ninodes && |src| <= 3 * BSIZE
      modifies this
      ensures TurnOk(g, i, u) && u.before == World(old(fs), old(dinodes), off, old(under)) && u.asked == src
      ensures u.after == World(fs, dinodes, off + |u.part|, under) && r == if u.end.Refused? then -1 else |u.part|
      ensures (u.end.Whole? <==> r == |src|) && (u.end.Fault? ==> u.end.copied == good(|u.part|))
      ensures ops == old(ops) + [u.logged] && Distinct(u.logged) <= MAXOPBLOCKS
    {
      hide Tidy, Content, TornSplice, SameOthers, SameFiles, Covered, Distinct, Stopped, DataOnly, Logical, Splice,
           NoneInside, KeptAt, Filled, Spots, HasRoom, EndOk, Clear, Spliced, LogSees, KeepsTorn;
      log := [];
      AtMostOneEach(log);
      TidyShape(g, fs);
      Untouched(g, fs, i, off);
      FilledRefl(fs.slots, i, Spots(off, |src|));
      ghost var torn, kept;
      r, torn, kept := WriteI(i, off, src, good, pinned);
      TidyShape(g, fs);
      assert log[0..] == log;
      ops := ops + [log];
      ghost var n: nat := if r == -1 then 0 else r;
      ghost var end := Ending(fs, i, off, src, good, r);
      u := Turn(World(old(fs), old(dinodes), off, old(under)), World(fs, dinodes, off + n, under), src, src[..n],
                src[n..n + torn], end, log);
      assert u.part + u.torn == src[..n + torn];
      EndsSo(g, i, u, good, r, torn);
      SplicedSo(g, i, u, r, torn, kept);
    }

    /** filewrite to an inode: one operation per three blocks' worth of bytes, each one turn at the file
        within its share of the log, whatever others do to the file system and to the offset in between.
        What the turns write is a first part of src, in order. The result is |src| if that is all of it, and
        -1 otherwise: then the last turn ended for one of the reasons that EndOk gives. */
    method FileWrite(i: nat, off: nat, src: seq<Byte>, good: nat -> nat, pinned: (nat, nat) -> bool,
                     others: (nat, World) -> World)
      returns (ret: int, off': nat, ghost hist: seq<Turn>)
      requires GoodWorld(g, World(fs, dinodes, off, under)) && i < g.ninodes && |src| < UINT / 2
      requires forall k: nat, w :: GoodWorld(g, w) ==> GoodWorld(g, others(k, w))
      modifies this
      ensures History(g, i, src, good, hist, World(old(fs), old(dinodes), off, old(under)), others)
      ensures World(fs, dinodes, off', under) == After(hist, World(old(fs), old(dinodes), off, old(under)))
      ensures Parts(hist) + Torn(hist) <= src
      ensures ret == (if AllWhole(hist) then |src| else -1) && (AllWhole(hist) <==> Parts(hist) == src)
      ensures Parts(hist) == src ==> Torn(hist) == []
      ensures ops == old(ops) + Logs(hist) && forall k :: 0 <= k < |hist| ==> Distinct(hist[k].logged) <= MAXOPBLOCKS
    {
      hide GoodWorld, TurnOk, Distinct, Parts, Torn, History, Turned, EndOk, Chunk, Logs;
      var max := (MAXOPBLOCKS - 1 - 1 - 2) / 2 * BSIZE;
      ghost var w0 := World(fs, dinodes, off, under);
      off', hist := off, [];
      var n: nat, done: nat, k: nat := |src|, 0, 0;
      NoTurns(g, i, src, good, w0, others);
      while done < n
        invariant 0 <= done <= n && |hist| == k && GoodWorld(g, World(fs, dinodes, off', under))
        invariant History(g, i, src, good, hist, w0, others) && World(fs, dinodes, off', under) == After(hist, w0)
        invariant Parts(hist) == src[..done] && Torn(hist) == [] && AllWhole(hist)
        invariant ops == old(ops) + Logs(hist)
        invariant forall k :: 0 <= k < |hist| ==> Distinct(hist[k].logged) <= MAXOPBLOCKS
        decreases n - done
      {
        var n1: nat := if n - done > max then max else n - done;
        var w := others(k, World(fs, dinodes, off', under));
        fs, dinodes, off', under := w.fs, w.dinodes, w.off, w.under;
        var r; ghost var u;
        r, u := WriteOp(i, off', src[done..done + n1], (t: nat) => good(done + t),
                        (b: nat) => pinned(k, b));
        if r > 0 { off' := off' + r; }
        NextTurn(g, i, src, good, hist, u, w0, others, done);
        OneMore(g, i, src, good, hist, w0, others, u);
        MorePrefix(src, done, n1, u.part, u.torn);
        hist, k := hist + [u], k + 1;
        if r != n1 { break; }
        done := done + r;
      }
      ret := if done == n then n else -1;
    }
  }

  // How one writei ended, by what it returned.
  ghost function Ending(fs: Fs, i: nat, off: nat, src: seq<Byte>, good: nat -> nat, r: int): (e: End)
    requires HasRow(fs, i)
  {
    if r == -1 then Refused
    else if r == |src| then Whole
    else if 0 <= r && Unmapped(fs, i, off + r) then NoRoom
    else if 0 <= r then Fault(good(r))
    else Whole
  }

  lemma {:induction false} ChunkIs(off: nat, n: nat, tot: nat)
    requires tot < n && off + n <= MAXFILE * BSIZE && OnBlock(off, tot)
    ensures ChunkLen(off, n, tot) == ChunkAt(off + tot, n - tot)
  {
  }

  lemma {:induction false} TwoParts(s: seq<Byte>, n: nat, m: nat)
    requires n + m <= |s|
    ensures s[..n] + s[n..n + m] <= s
  {
  }

  lemma {:induction false} EndsSo(g: Geo, i: nat, u: Turn, good: nat -> nat, r: int, torn: nat)
    requires HasRow(u.before.fs, i) && HasRow(u.after.fs, i)
    requires u.end == Ending(u.after.fs, i, u.before.off, u.asked, good, r)
    requires r == -1 <==> Beyond(u.before.fs, i, u.before.off, |u.asked|)
    requires r == -1 ==> torn == 0 && u.after == u.before
    requires r != -1 ==>
               0 <= r && r + torn <= |u.asked| && Stopped(g, u.after.fs, i, u.before.off, u.asked, good, r, torn)
    requires u.part == u.asked[..if r == -1 then 0 else r]
    requires var n := if r == -1 then 0 else r; n + torn <= |u.asked| && u.torn == u.asked[n..n + torn]
    ensures EndOk(g, i, u) && (u.end.Whole? <==> r == |u.asked|) && (u.end.Fault? ==> u.end.copied == good(|u.part|))
  {
    hide Full, ChunkLen, OnBlock;
    TwoParts(u.asked, if r == -1 then 0 else r, torn);
    if r != -1 && r < |u.asked| { ChunkIs(u.before.off, |u.asked|, r); }
  }

  lemma {:induction false} SplicedSo(g: Geo, i: nat, u: Turn, r: int, torn: nat, kept: bool)
    requires HasRow(u.before.fs, i) && HasRow(u.after.fs, i)
    requires r == -1 <==> Beyond(u.before.fs, i, u.before.off, |u.asked|)
    requires r == -1 ==> torn == 0 && u.after == u.before && u.logged == [] && Valid(g, u.before.fs) && i < g.ninodes
    requires r != -1 ==> 0 <= r && r + torn <= |u.asked|
    requires u.part == u.asked[..if r == -1 then 0 else r] && u.part + u.torn == u.asked[..|u.part| + torn]
    requires r != -1 ==>
               && Content(u.after.fs, i) == TornSplice(Content(u.before.fs, i), u.before.off, u.asked[..r + torn], r)
               && LogSees(g, u.before.fs, u.before.under, u.after.fs, u.after.under, u.logged, i, u.before.off, u.asked,
                          r, torn, kept)
    ensures Spliced(i, u) && (DataOnly(g, u.before.fs, u.before.under) ==> DataOnly(g, u.after.fs, u.after.under))
    ensures KeepsTorn(u.before.under, u.after.under, u.logged)
    ensures u.torn == [] ==> forall b :: b in u.after.under ==> b in u.before.under
  {
    hide Content, TornSplice, DataOnly, Logical, Splice, Valid;
    if r == -1 {
      Untouched(g, u.before.fs, i, u.before.off);
      assert u.part + u.torn == [];
    }
  }

  // The turn is the next one.
  lemma {:induction false} NextTurn(g: Geo, i: nat, src: seq<Byte>, good: nat -> nat, hist: seq<Turn>, u: Turn,
                                    w: World, others: (nat, World) -> World, done: nat)
    requires done < |src| && Parts(hist) == src[..done] && TurnOk(g, i, u) && u.before == others(|hist|, After(hist, w))
    requires u.asked == src[done..Min(done + 3 * BSIZE, |src|)]
    requires u.end.Fault? ==> u.end.copied == good(done + |u.part|)
    ensures Turned(g, i, src, good, hist, u, w, others) && u.part + u.torn <= u.asked
    ensures u.end.Whole? ==> u.torn == [] && |u.part| == |u.asked|
    ensures !u.end.Whole? ==> |u.part| < |u.asked|
    ensures u.end.Refused? ==> u.part == []
  {
    hide GoodWorld, Content, TornSplice, SameFiles, Logical, Splice, Filled, Spots;
  }

  lemma {:induction false} GrewFilled(fs: Fs, fs': Fs, i: nat, ks: set<nat>)
    requires Grew(fs, fs', i, ks)
    ensures Filled(fs.slots, fs'.slots, i, ks)
  {
  }

  // off + n < off, in 32 bits
  predicate Wraps(off: nat, n: nat)
    requires off < UINT && n < UINT
    ensures Wraps(off, n) <==> off + n >= UINT
  { (off + n) % UINT < off }

  /** No copy of the m bytes from off on, block by block, faults. */
  ghost predicate AllCopied(off: nat, m: nat, copyOk: nat -> bool) {
    forall t: nat :: t < m && OnBlock(off, t) ==> copyOk(t)
  }

  lemma {:induction false} NoCopies(off: nat, copyOk: nat -> bool)
    ensures AllCopied(off, 0, copyOk) && OnBlock(off, 0)
  {
  }

  lemma {:induction false} NotAll(off: nat, n: nat, tot: nat, copyOk: nat -> bool)
    requires tot < n && OnBlock(off, tot) && !copyOk(tot)
    ensures !AllCopied(off, n, copyOk)
  {
  }

  lemma {:induction false} CopiedNext(off: nat, n: nat, tot: nat, copyOk: nat -> bool)
    requires tot < n && OnBlock(off, tot) && copyOk(tot) && AllCopied(off, tot, copyOk)
    ensures var m := ChunkAt(off + tot, n - tot);
      AllCopied(off, tot + m, copyOk) && (tot + m < n ==> OnBlock(off, tot + m))
  {
    var m := ChunkAt(off + tot, n - tot);
    forall t: nat | t < tot + m && OnBlock(off, t) ensures copyOk(t) {
      if t > tot { SameBlock(off + tot, m, off + t); }
    }
  }

  // dst holds the tot bytes of c from off on.
  predicate Got(c: seq<Byte>, off: nat, tot: nat, dst: seq<Byte>) {
    off + tot <= |c| && dst == c[off..off + tot]
  }

  lemma {:induction false} GotNone(c: seq<Byte>, off: nat)
    requires off <= |c|
    ensures Got(c, off, 0, [])
  {
  }

  lemma {:induction false} GotMore(c: seq<Byte>, off: nat, tot: nat, dst: seq<Byte>, m: nat)
    requires Got(c, off, tot, dst) && off + tot + m <= |c|
    ensures Got(c, off, tot + m, dst + c[off + tot..off + tot + m])
  {
  }

  lemma {:induction false} GotAll(c: seq<Byte>, off: nat, tot: nat, dst: seq<Byte>)
    requires Got(c, off, tot, dst)
    ensures off + tot <= |c| && dst == c[off..off + tot]
  {
  }

  lemma {:induction false} ValidShape(g: Geo, fs: Fs)
    requires Valid(g, fs)
    ensures Tidy(g, fs, {}) && Shape(g, fs)
  {
    hide Covered;
    TidyShape(g, fs);
  }

  lemma {:induction false} ShapeRow(g: Geo, fs: Fs, i: nat)
    requires Shape(g, fs) && i < g.ninodes
    ensures HasRow(fs, i) && |fs.inodes| == |fs.slots| == g.ninodes && |fs.disk| == g.size
  {
  }

  // ----- torn copies -----

  // fs is base, but for a torn copy in block b.
  predicate Torn1(fs: Fs, base: Fs, b: nat, torn: bool) {
    if torn then b < |fs.disk| == |base.disk| && fs == base.(disk := base.disk[b := fs.disk[b]]) else fs == base
  }

  lemma {:induction false} RecycleKeeps(g: Geo, fs: Fs, u: Under, b: nat)
    requires Valid(g, fs) && DataOnly(g, fs, u) && b in u && |fs.disk| == g.size
    ensures b < |fs.disk|
    ensures var fs', u' := fs.(disk := fs.disk[b := u[b]]), u - {b};
      Valid(g, fs') && DataOnly(g, fs', u') && Logical(fs', u') == Logical(fs, u)
  {
    var fs', u' := fs.(disk := fs.disk[b := u[b]]), u - {b};
    assert fs' == Logical(fs, map[b := u[b]]) by { assert fs'.disk == Logical(fs, map[b := u[b]]).disk; }
    LogicalValid(g, fs, map[b := u[b]]);
    assert Logical(fs', u').disk == Logical(fs, u).disk;
  }

  lemma {:induction false} LogMore(log: seq<nat>, l: seq<nat>, l': seq<nat>)
    ensures log + (l + l') == log + l + l'
  {
  }

  lemma {:induction false} LogTail(log0: seq<nat>, log: seq<nat>, l: seq<nat>)
    requires log == log0 + l
    ensures log0 <= log && log[|log0|..] == l
  {
  }

  // DataOnly speaks of owners only.
  lemma {:induction false} DataOnlyFrame(g: Geo, fs: Fs, fs': Fs, u: Under)
    requires fs'.owner == fs.owner
    ensures DataOnly(g, fs, u) <==> DataOnly(g, fs', u)
  {
  }

  lemma {:induction false} NothingTorn(g: Geo, fs: Fs)
    ensures DataOnly(g, fs, map[])
  {
  }

  predicate High(g: Geo, u: Under) { forall b :: b in u ==> g.nmeta <= b }

  lemma {:induction false} DataHigh(g: Geo, fs: Fs, u: Under)
    ensures DataOnly(g, fs, u) ==> High(g, u)
  {
  }

  lemma {:induction false} HighLogged(g: Geo, u: Under, b: nat)
    requires b < g.nmeta
    ensures High(g, u) ==> Forget(u, [b]) == u
  {
  }

  lemma {:induction false} InodeLogged(g: Geo, fs: Fs, u: Under, i: nat)
    requires DataOnly(g, fs, u) && GoodGeo(g) && i < g.ninodes
    ensures Forget(u, [g.inodestart + i / IPB]) == u
  {
    InodeBlock(g, i);
    MetaLogged(g, fs, u, g.inodestart + i / IPB);
  }

  lemma {:induction false} EmptiedData(g: Geo, fs0: Fs, fs: Fs, u: Under)
    requires DataOnly(g, fs0, u) && forall b :: b in fs.owner ==> b in fs0.owner && fs.owner[b] == fs0.owner[b]
    ensures DataOnly(g, fs, u)
  {
  }

  // The torn block is not the inode's block.
  lemma {:induction false} TornApart(g: Geo, fs: Fs, i: nat, bn: nat, addr: nat)
    requires Tidy(g, fs, {}) && i < g.ninodes && bn < MAXFILE && addr == fs.slots[i][SlotOf(bn)] != 0
    ensures addr != g.inodestart + i / IPB
  {
    assert addr in fs.owner && GoodGeo(g) by {
      SlotBounds(g, fs, i, SlotOf(bn));
      GeoOf(g, fs);
    }
    hide Tidy, GoodGeo, SlotOf;
    OwnedAbove(g, fs);
    InodeBlock(g, i);
    assert g.bm <= g.nmeta by { BitmapBelow(g); }
  }

  lemma {:induction false} BitmapBelow(g: Geo)
    requires GoodGeo(g)
    ensures g.bm <= g.nmeta
  {
  }

  /** The block that byte p of file i is in has been logged, by this operation or another one. */
  predicate KeptAt(fs: Fs, i: nat, p: nat, log: seq<nat>, pinned: nat -> bool, kept: bool) {
    && i < |fs.slots| && |fs.slots[i]| == NSLOTS && p / BSIZE < MAXFILE
    && (kept <==> Kept(log, pinned, fs.slots[i][SlotOf(p / BSIZE)]))
  }

  lemma {:induction false} KeptStill(g: Geo, fs: Fs, i: nat, p: nat, log: seq<nat>, pinned: nat -> bool, addr: nat)
    requires Tidy(g, fs, {}) && Shape(g, fs) && i < g.ninodes && p / BSIZE < MAXFILE
    requires addr == fs.slots[i][SlotOf(p / BSIZE)] != 0
    ensures forall end: nat :: KeptAt(Extended(fs, i, end), i, p, log + [g.inodestart + i / IPB], pinned,
                                      Kept(log, pinned, addr))
  {
    TornApart(g, fs, i, p / BSIZE, addr);
  }

  /** From fs0 and u0 to fs and u, blocks l were logged and, if torn, a copy was torn into block addr, which
      base is without. The log's view follows, and only data blocks are torn. */
  ghost predicate Tracks(g: Geo, fs0: Fs, u0: Under, fs: Fs, u: Under, l: seq<nat>, base: Fs, addr: nat,
                         torn: bool, kept: bool) {
    && Torn1(fs, base, addr, torn)
    && u == TornUnder(u0, l, torn && !kept, addr, if addr < |base.disk| then base.disk[addr] else Zeros())
    && (DataOnly(g, fs0, u0) ==> DataOnly(g, fs, u))
  }

  lemma {:induction false} TracksSame(g: Geo, fs: Fs, u: Under, addr: nat, kept: bool)
    ensures Tracks(g, fs, u, fs, u, [], fs, addr, false, kept)
  {
    ForgetNone(u);
  }

  lemma {:induction false} TracksAny(g: Geo, fs0: Fs, u0: Under, fs: Fs, u: Under, l: seq<nat>, addr: nat, kept: bool)
    requires exists a, k :: Tracks(g, fs0, u0, fs, u, l, fs, a, false, k)
    ensures Tracks(g, fs0, u0, fs, u, l, fs, addr, false, kept)
  {
  }

  lemma {:induction false} TracksWhole(g: Geo, fs0: Fs, u0: Under, fs: Fs, u: Under, l: seq<nat>, base: Fs,
                                       addr: nat, kept: bool)
    requires Tracks(g, fs0, u0, fs, u, l, base, addr, false, kept)
    ensures base == fs
  {
  }

  lemma {:induction false} BmapTracks(g: Geo, fs: Fs, i: nat, bn: nat, u: Under)
    requires Shape(g, fs) && i < g.ninodes && bn < MAXFILE
    ensures var r := FsOps.Bmap(g, fs, i, bn); Tracks(g, fs, u, r.fs, Forget(u, r.log), r.log, r.fs, 0, false, false)
  {
    hide FsOps.Bmap;
    if DataOnly(g, fs, u) { BmapData(g, fs, i, bn, u); }
  }

  lemma {:induction false} TracksLogged(g: Geo, mid: Fs, fs: Fs, u: Under, addr: nat, kept: bool)
    requires fs.owner == mid.owner
    ensures Tracks(g, mid, u, fs, Forget(u, [addr]), [addr], fs, addr, false, kept)
  {
  }

  lemma {:induction false} TracksTorn(g: Geo, mid: Fs, fs: Fs, u: Under, i: nat, k: nat, addr: nat, kept: bool)
    requires Tidy(g, mid, {}) && i < g.ninodes && k < NSLOTS && k != NDIRECT && addr == mid.slots[i][k] != 0
    requires addr < |mid.disk| && |fs.disk| == |mid.disk| && fs == mid.(disk := mid.disk[addr := fs.disk[addr]])
    ensures Tracks(g, mid, u, fs, if kept then u else Undo(u, addr, mid.disk[addr]), [], mid, addr, true, kept)
  {
    hide Tidy;
    ForgetNone(u);
    if DataOnly(g, mid, u) { UndoData(g, mid, u, i, k, addr, mid.disk[addr]); }
  }

  lemma {:induction false} TracksThen(g: Geo, fs0: Fs, u0: Under, fs1: Fs, u1: Under, l: seq<nat>,
                                      fs: Fs, u: Under, l': seq<nat>, base: Fs, addr: nat, torn: bool, kept: bool)
    requires exists a, k :: Tracks(g, fs0, u0, fs1, u1, l, fs1, a, false, k)
    requires Tracks(g, fs1, u1, fs, u, l', base, addr, torn, kept)
    ensures Tracks(g, fs0, u0, fs, u, l + l', base, addr, torn, kept)
  {
    hide Forget, DataOnly;
    ForgetTwo(u0, l, l');
  }

  lemma {:induction false} NothingWrote(g: Geo, fs: Fs, i: nat, off: nat)
    requires Tidy(g, fs, {}) && Shape(g, fs) && i < g.ninodes && off <= MAXFILE * BSIZE
    ensures Wrote(fs, fs, i, off, [])
  {
    GrewRefl(fs, i, {});
    GrewWrote(g, fs, fs, i, {}, off);
  }

  lemma {:induction false} OneMoreLogged(s0: nat, ind: nat, ind': nat, addr: nat, l: seq<nat>, maps: seq<nat>)
    requires ChunkLogs(s0, ind, ind', addr, l, maps)
    ensures ChunkLogs(s0, ind, ind', addr, l + [addr], maps)
  {
  }

  /** What a write of tot bytes of src, and torn bytes more, does to the log's view of the file system.
      Only data blocks are ever torn. If nothing was torn before, nothing is after a write that was not torn
      or torn into a logged block; otherwise the logical file is without the torn bytes. */
  ghost predicate LogSees(g: Geo, fs0: Fs, u0: Under, fs: Fs, u: Under, l: seq<nat>, i: nat, off: nat, src: seq<Byte>,
                          tot: nat, torn: nat, kept: bool)
    requires HasRow(fs0, i) && off <= fs0.inodes[i].size && tot <= |src|
  {
    && (DataOnly(g, fs0, u0) ==> DataOnly(g, fs, u)) && KeepsTorn(u0, u, l)
    && (forall b :: b in u && b !in u0 ==> torn > 0 && !kept && BlockAt(fs, i, off + tot, b))
    && (u0 == map[] && (torn == 0 || kept) ==> u == map[])
    && (u0 == map[] && torn > 0 && !kept ==>
          HasRow(Logical(fs, u), i) && Content(Logical(fs, u), i) == Splice(Content(fs0, i), off, src[..tot]))
  }

  // Byte p of file i is in block b.
  predicate BlockAt(fs: Fs, i: nat, p: nat, b: nat) {
    i < |fs.slots| && |fs.slots[i]| == NSLOTS && p / BSIZE < MAXFILE && fs.slots[i][SlotOf(p / BSIZE)] == b
  }

  lemma {:induction false} LoggedKept(log: seq<nat>, l: seq<nat>, pinned: nat -> bool, b: nat)
    ensures b in l ==> Kept(log + l, pinned, b)
  {
  }

  lemma {:induction false} WriteUnder(g: Geo, fs0: Fs, u0: Under, fs: Fs, u: Under, base: Fs, i: nat, off: nat,
                                      src: seq<Byte>, tot: nat, torn: nat, addr: nat, l: seq<nat>, kept: bool)
    requires Valid(g, fs0) && Tidy(g, base, {}) && i < g.ninodes && HasRow(fs0, i) && off <= fs0.inodes[i].size
    requires tot <= |src| && off + |src| <= MAXFILE * BSIZE && Written(fs0, base, i, off, src, tot)
    requires Tracks(g, fs0, u0, fs, u, l, base, addr, torn > 0, kept) && i < |fs.inodes| && (addr in l ==> kept)
    requires torn > 0 ==> BlockAt(fs, i, off + tot, addr)
    ensures LogSees(g, fs0, u0, Extended(fs, i, off + tot), Forget(u, [g.inodestart + i / IPB]),
                    l + [g.inodestart + i / IPB], i, off, src, tot, torn, kept)
  {
    hide Tidy, Written, Content, Covered, Splice, Logical, Forget, DataOnly, KeepsTorn, SlotOf;
    var fs', ib := Extended(fs, i, off + tot), g.inodestart + i / IPB;
    TornUnderKeeps(u0, l, torn > 0 && !kept, addr, if addr < |base.disk| then base.disk[addr] else Zeros(), ib);
    assert GoodGeo(g) by { GeoOf(g, fs0); }
    DataOnlyFrame(g, fs, fs', u);
    if DataOnly(g, fs, u) { InodeLogged(g, fs, u, i); }
    if u0 == map[] {
      NothingTorn(g, fs0);
      assert Forget(u0, l) == map[] by { ForgetEmpty(l); }
      if torn > 0 && !kept {
        WriteDone(g, fs0, base, i, off, src, tot, tot);
        LogicalBase(fs, base, addr);
        ExtendedLogical(fs, i, off + tot, u);
        NotTorn(Content(fs0, i), off, src[..tot]);
      }
    }
  }

  lemma {:induction false} GeoOf(g: Geo, fs: Fs)
    requires Tidy(g, fs, {})
    ensures GoodGeo(g)
  {
  }

  lemma {:induction false} ForgetEmpty(l: seq<nat>)
    ensures Forget(map[], l) == map[]
  {
  }

  lemma {:induction false} ExtendedLogical(fs: Fs, i: nat, end: nat, u: Under)
    requires i < |fs.inodes|
    ensures Logical(Extended(fs, i, end), u) == Extended(Logical(fs, u), i, end)
  {
  }

  lemma {:induction false} TornBytes(c: seq<Byte>, off: nat, src: seq<Byte>, r: nat, torn: nat)
    requires off <= |c| && r + torn <= |src|
    ensures TornSplice(c, off, src[..r + torn], r) == Splice(c, off, src[..r]) <==>
            forall k :: r <= k < r + torn && off + k < |c| ==> src[k] == c[off + k]
  {
    hide TornSplice, Splice;
    var s := src[..r + torn];
    assert s[..r] == src[..r];
    TornIff(c, off, s, r);
  }

  /** No copy of the bytes up to the end of a block faults inside it. */
  ghost predicate NoneInside(off: nat, src: seq<Byte>, good: nat -> nat) {
    forall p: nat :: p < |src| ==> good(p) == 0 || good(p) >= ChunkAt(off + p, |src| - p)
  }

  lemma {:induction false} NeverTorn(g: Geo, fs: Fs, i: nat, off: nat, src: seq<Byte>, good: nat -> nat, tot: nat,
                                     torn: nat)
    requires Stopped(g, fs, i, off, src, good, tot, torn) && tot + torn <= |src|
    ensures NoneInside(off, src, good) ==> torn == 0
  {
  }

  /** Why writei stopped after tot bytes: nothing is left; or the next byte has no block, and the disk is
      full; or it has one, and the copy of the next bytes, up to the end of the block, faulted after torn of
      them. */
  ghost predicate Stopped(g: Geo, fs: Fs, i: nat, off: nat, src: seq<Byte>, good: nat -> nat, tot: nat, torn: nat) {
    && (tot == |src| ==> torn == 0)
    && (tot < |src| ==>
          && off + |src| <= MAXFILE * BSIZE && OnBlock(off, tot) && i < |fs.slots| && |fs.slots[i]| == NSLOTS
          && var m := ChunkLen(off, |src|, tot);
             if fs.slots[i][SlotOf((off + tot) / BSIZE)] == 0 then torn == 0 && Full(g, fs) else torn == good(tot) < m)
  }

  lemma {:induction false} StoppedFrame(g: Geo, fs: Fs, i: nat, off: nat, src: seq<Byte>, good: nat -> nat, tot: nat,
                                        torn: nat)
    requires Stopped(g, fs, i, off, src, good, tot, torn) && i < |fs.inodes|
    ensures Stopped(g, Extended(fs, i, off + tot), i, off, src, good, tot, torn)
    ensures Extended(fs, i, off + tot).slots == fs.slots
  {
  }

  lemma {:induction false} StopsHere(g: Geo, fs: Fs, i: nat, off: nat, src: seq<Byte>, good: nat -> nat, tot: nat,
                                     at: nat)
    requires tot < |src| && off + |src| <= MAXFILE * BSIZE && OnBlock(off, tot)
    requires i < |fs.slots| && |fs.slots[i]| == NSLOTS
    requires at == 0 ==> Full(g, fs)
    requires var m := ChunkLen(off, |src|, tot);
      at == fs.slots[i][SlotOf((off + tot) / BSIZE)] && (at == 0 || good(tot) < m)
    ensures Stopped(g, fs, i, off, src, good, tot, if at == 0 then 0 else good(tot))
  {
    hide Full;
  }

  lemma {:induction false} AllDone(g: Geo, fs: Fs, i: nat, off: nat, src: seq<Byte>, good: nat -> nat)
    ensures Stopped(g, fs, i, off, src, good, |src|, 0)
  {
  }

  // If no copy faults, writei writes everything exactly if there is room.
  lemma {:induction false} RoomIff(g: Geo, fs0: Fs, fs: Fs, i: nat, off: nat, src: seq<Byte>, good: nat -> nat,
                                   r: nat, torn: nat)
    requires Valid(g, fs0) && Valid(g, fs) && i < g.ninodes && HasRow(fs0, i) && HasRow(fs, i) && r + torn <= |src|
    requires off <= fs0.inodes[i].size && off + |src| <= MAXFILE * BSIZE
    requires Filled(fs0.slots, fs.slots, i, Spots(off, |src|)) && Clear(src, good)
    requires Content(fs, i) == TornSplice(Content(fs0, i), off, src[..r + torn], r)
    requires Stopped(g, fs, i, off, src, good, r, torn)
    ensures r == |src| <==> HasRoom(g, fs0, i, off, |src|)
  {
    hide Valid, Filled, Spots, HasRoom, Content;
    if r == |src| {
      assert off + |src| <= |Content(fs, i)|;
      RoomWas(g, fs0, fs, i, off, |src|);
    } else {
      var p := off + r;
      assert good(r) >= Min(BSIZE, |src| - r);
      ChainInSpots(off, |src|, p);
      assert SlotOf(p / BSIZE) in Chain(p / BSIZE);
      NoRoomWas(g, fs0, fs, i, off, |src|, SlotOf(p / BSIZE));
    }
  }

  // ----- writei's loop -----

  /** After cnt rounds of writei's loop, which wrote tot bytes. */
  ghost predicate InLoop(g: Geo, fs0: Fs, fs: Fs, i: nat, off: nat, src: seq<Byte>, tot: nat, cnt: nat,
                         l: seq<nat>, data: seq<nat>, maps: seq<nat>) {
    && Shape(g, fs0) && Shape(g, fs) && Tidy(g, fs, {}) && Loop(g, i, off, src, tot) && off <= fs0.inodes[i].size
    && Written(fs0, fs, i, off, src, tot)
    && cnt + Blocks(off, |src|, tot) == Blocks(off, |src|, 0) && (tot > 0 ==> cnt > 0)
    && Budget(l, data, maps, cnt, off, fs0.slots[i][NDIRECT], fs.slots[i][NDIRECT])
  }

  lemma {:induction false} LoopBegins(g: Geo, fs: Fs, i: nat, off: nat, src: seq<Byte>)
    requires Shape(g, fs) && Tidy(g, fs, {}) && Loop(g, i, off, src, 0) && off <= fs.inodes[i].size
    requires Written(fs, fs, i, off, src, 0)
    ensures InLoop(g, fs, fs, i, off, src, 0, 0, [], [], [])
  {
    hide Tidy, Written, Budget, Blocks;
    BudgetStart(off, fs.slots[i][NDIRECT]);
  }

  lemma {:induction false} LoopFacts(g: Geo, fs0: Fs, fs: Fs, i: nat, off: nat, src: seq<Byte>, tot: nat, cnt: nat,
                                     l: seq<nat>, data: seq<nat>, maps: seq<nat>)
    requires InLoop(g, fs0, fs, i, off, src, tot, cnt, l, data, maps) && tot < |src|
    ensures Shape(g, fs) && Tidy(g, fs, {}) && Loop(g, i, off, src, tot) && OnBlock(off, tot)
    ensures var m := ChunkLen(off, |src|, tot); Args(g, i, off + tot, src[tot..tot + m])
  {
    hide Tidy, Written, Budget, Blocks;
    LoopStep(g, i, off, src, tot);
  }

  lemma {:induction false} LoopEnds(g: Geo, fs0: Fs, fs: Fs, i: nat, off: nat, src: seq<Byte>, tot: nat, cnt: nat,
                                    l: seq<nat>, data: seq<nat>, maps: seq<nat>)
    requires InLoop(g, fs0, fs, i, off, src, tot, cnt, l, data, maps) && tot >= |src|
    ensures tot == |src| && Shape(g, fs) && Tidy(g, fs, {}) && Written(fs0, fs, i, off, src, tot)
    ensures cnt <= Blocks(off, |src|, 0)
    ensures Budget(l, data, maps, cnt, off, fs0.slots[i][NDIRECT], fs.slots[i][NDIRECT])
  {
    hide Tidy, Written, Budget, Blocks;
  }

  /** One more round, of which c bytes were copied if there was a block for them. */
  lemma {:induction false} Round(g: Geo, fs0: Fs, fs: Fs, fs': Fs, i: nat, off: nat, src: seq<Byte>, tot: nat, cnt: nat,
                                 l: seq<nat>, data: seq<nat>, maps: seq<nat>,
                                 addr: nat, c: nat, l': seq<nat>, maps': seq<nat>)
    requires InLoop(g, fs0, fs, i, off, src, tot, cnt, l, data, maps) && tot < |src| && Loop(g, i, off, src, tot)
    requires c <= ChunkLen(off, |src|, tot) && Args(g, i, off + tot, src[tot..tot + ChunkLen(off, |src|, tot)])
    requires Shape(g, fs) && Shape(g, fs') && Tidy(g, fs', {})
    requires Wrote(fs, fs', i, off + tot, if addr == 0 then [] else src[tot..tot + ChunkLen(off, |src|, tot)][..c])
    requires ChunkLogs(fs.slots[i][SlotOf((off + tot) / BSIZE)], fs.slots[i][NDIRECT], fs'.slots[i][NDIRECT],
                       addr, l', maps')
    ensures Shape(g, fs0) && Written(fs0, fs', i, off, src, tot + if addr == 0 then 0 else c)
    ensures cnt + 1 <= Blocks(off, |src|, 0)
    ensures Budget(l + l', data + [addr], maps + maps', cnt + 1, off, fs0.slots[i][NDIRECT], fs'.slots[i][NDIRECT])
    ensures addr != 0 && c == ChunkLen(off, |src|, tot) ==>
              InLoop(g, fs0, fs', i, off, src, tot + c, cnt + 1, l + l', data + [addr], maps + maps')
  {
    hide Tidy, Written, Wrote, ChunkLogs, Budget, Blocks;
    var m := ChunkLen(off, |src|, tot);
    var got := if addr == 0 then 0 else c;
    LoopStep(g, i, off, src, tot);
    if tot == 0 && off % BSIZE != 0 { FirstBlock(fs0, fs, i, off, src); }
    assert src[tot..tot + m][..c] == src[tot..tot + c] && src[tot..tot + 0] == [];
    ChunkWritten(fs0, fs, fs', i, off, src, tot, got);
    BudgetStep(l, data, maps, cnt, off, fs0.slots[i][NDIRECT], fs.slots[i][SlotOf((off + tot) / BSIZE)],
               fs.slots[i][NDIRECT], fs'.slots[i][NDIRECT], addr, l', maps');
  }

  // A round that wrote nothing.
  lemma {:induction false} Stays(g: Geo, fs0: Fs, fs: Fs, base: Fs, i: nat, off: nat, src: seq<Byte>, tot: nat,
                                 cnt: nat, l: seq<nat>, data: seq<nat>, maps: seq<nat>)
    requires InLoop(g, fs0, fs, i, off, src, tot, cnt, l, data, maps) && tot < |src| && Loop(g, i, off, src, tot)
    requires Wrote(fs, base, i, off + tot, [])
    ensures Written(fs0, base, i, off, src, tot)
  {
    hide Tidy, Written, Wrote, Budget, Blocks;
    assert src[tot..tot + 0] == [];
    ChunkWritten(fs0, fs, base, i, off, src, tot, 0);
  }

  lemma {:induction false} LoopStart(g: Geo, i: nat, off: nat, src: seq<Byte>)
    requires i < g.ninodes && off + |src| <= MAXFILE * BSIZE
    ensures Loop(g, i, off, src, 0)
  {
  }

  lemma {:induction false} SkipUsed(g: Geo, disk: seq<Block>, b: nat)
    requires GoodGeo(g) && |disk| == g.size && b <= g.size
    ensures b == g.size ==> NextFree(g, disk, b) == b
    ensures b < g.size ==>
              && BitBlock(g, b) < g.size
              && NextFree(g, disk, b) == if Used(disk, g.bm, b) then NextFree(g, disk, b + 1) else b
  {
  }

  lemma {:induction false} BitAt(g: Geo, disk: seq<Block>, q: nat, bi: nat)
    requires GoodGeo(g) && |disk| == g.size && bi < BPB && q * BPB + bi < g.size
    ensures g.bm + q * BPB / BPB < g.size && g.bm + (q * BPB + bi) / BPB < g.size
    ensures Bit(disk[g.bm + q * BPB / BPB][bi / 8], bi % 8) <==> Used(disk, g.bm, q * BPB + bi)
  {
    BitIndex(q, bi);
    BitBlockBelow(g, q * BPB + bi);
  }

  lemma {:induction false} BitIndex(q: nat, bi: nat)
    requires bi < BPB
    ensures (q * BPB + bi) / BPB == q && (q * BPB + bi) % BPB == bi && (q * BPB + bi) % 8 == bi % 8
    ensures q * BPB / BPB == q
  {
  }
}
