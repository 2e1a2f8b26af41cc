/**
 filewrite as a history of turns at a file: operations of one process, between which others may change
 anything.
 */
module FsTurns {
  import opened FsBlocks
  import opened FsModel
  import opened FsContent
  import opened FsOps
  import opened FsWrite
  import opened FsTorn
  import opened FsRoom

  /** What others may change between two operations: the file system, the inode blocks, the offset of the
      open file, the torn blocks. */
  datatype World = World(fs: Fs, dinodes: seq<Inode>, off: nat, under: Under)

  /** How an operation ended: all was written; writei refused; the disk had no block for the next byte; or
      the copy of the next bytes, up to the end of their block, faulted when so many were copied. */
  datatype End = Whole | Refused | NoRoom | Fault(copied: nat)

  /** One operation, asked to write `asked`: `part` was written; `torn` is what a faulting copy left behind
      it; the blocks in `logged` were passed to log_write. */
  datatype Turn = Turn(before: World, after: World, asked: seq<Byte>, part: seq<Byte>, torn: seq<Byte>, end: End,
                       logged: seq<nat>)

  ghost predicate GoodWorld(g: Geo, w: World) {
    Valid(g, w.fs) && |w.dinodes| == g.ninodes && w.off < UINT && DataOnly(g, w.fs, w.under)
  }

  /** In every such world the logical file system, which is what a commit makes durable, is valid. */
  lemma {:induction false} WorldRecovers(g: Geo, w: World)
    requires GoodWorld(g, w)
    ensures Valid(g, Logical(w.fs, w.under))
  {
    LogicalValid(g, w.fs, w.under);
  }

  ghost predicate TurnOk(g: Geo, i: nat, u: Turn) {
    && GoodWorld(g, u.before) && GoodWorld(g, u.after) && u.after.off == u.before.off + |u.part|
    && HasRow(u.before.fs, i) && HasRow(u.after.fs, i) && SameFiles(u.before.fs, u.after.fs, i)
    && |u.after.fs.inodes| == |u.before.fs.inodes|
    && Filled(u.before.fs.slots, u.after.fs.slots, i, Spots(u.before.off, |u.asked|))
    && EndOk(g, i, u) && Spliced(i, u) && KeepsTorn(u.before.under, u.after.under, u.logged)
    && (u.torn == [] ==> forall b :: b in u.after.under ==> b in u.before.under)
  }

  /** What the operation did to the file, and to the logical file if it is the first to leave a torn block. */
  ghost predicate Spliced(i: nat, u: Turn)
    requires HasRow(u.before.fs, i) && HasRow(u.after.fs, i)
  {
    var c := Content(u.before.fs, i);
    if u.before.off <= |c| then
      && Content(u.after.fs, i) == TornSplice(c, u.before.off, u.part + u.torn, |u.part|)
      && (u.before.under == map[] && u.after.under != map[] ==>
            u.torn != [] && Content(Logical(u.after.fs, u.after.under), i) == Splice(c, u.before.off, u.part))
    else u.part == u.torn == [] && u.after.fs == u.before.fs && u.after.under == u.before.under
  }

  // What writei refuses.
  predicate Beyond(fs: Fs, i: nat, off: nat, n: nat)
    requires i < |fs.inodes|
  { fs.inodes[i].size < off || MAXFILE * BSIZE < off + n }

  predicate Unmapped(fs: Fs, i: nat, p: nat)
    requires HasRow(fs, i)
  { p / BSIZE < MAXFILE && fs.slots[i][SlotOf(p / BSIZE)] == 0 }

  /** The operation ended as it says, and for that reason. */
  ghost predicate EndOk(g: Geo, i: nat, u: Turn)
    requires HasRow(u.before.fs, i) && HasRow(u.after.fs, i)
  {
    && u.part + u.torn <= u.asked
    && (u.end.Refused? <==> Beyond(u.before.fs, i, u.before.off, |u.asked|))
    && match u.end
       case Whole => u.part == u.asked
       case Refused => u.part == u.torn == [] && u.after == u.before
       case NoRoom =>
         u.part != u.asked && u.torn == [] && Full(g, u.after.fs) && Unmapped(u.after.fs, i, u.before.off + |u.part|)
       case Fault(c) =>
         |u.part| < |u.asked| && |u.torn| == c < ChunkAt(u.before.off + |u.part|, |u.asked| - |u.part|)
  }

  // The world after the last turn.
  function After(hist: seq<Turn>, w: World): (r: World) { if hist == [] then w else hist[|hist| - 1].after }

  function Parts(hist: seq<Turn>): (s: seq<Byte>) {
    if hist == [] then [] else Parts(hist[..|hist| - 1]) + hist[|hist| - 1].part
  }

  function Logs(hist: seq<Turn>): (r: seq<seq<nat>>) { seq(|hist|, k requires 0 <= k < |hist| => hist[k].logged) }

  function Torn(hist: seq<Turn>): (s: seq<Byte>) { if hist == [] then [] else hist[|hist| - 1].torn }

  // What filewrite passes to one writei.
  function Chunk(src: seq<Byte>, done: nat): (s: seq<Byte>)
    requires done <= |src|
  { src[done..Min(done + 3 * BSIZE, |src|)] }

  /** The k-th turn starts from what others made of the one before and is asked to write the next chunk. If
      a copy faulted, it did so where `good` says. */
  ghost predicate Turned(g: Geo, i: nat, src: seq<Byte>, good: nat -> nat, h: seq<Turn>, u: Turn, w: World,
                         others: (nat, World) -> World) {
    && TurnOk(g, i, u) && u.before == others(|h|, After(h, w))
    && |Parts(h)| < |src| && u.asked == Chunk(src, |Parts(h)|)
    && (u.end.Fault? ==> u.end.copied == good(|Parts(h)| + |u.part|))
  }

  /** Only the last turn can have stopped short. */
  ghost predicate History(g: Geo, i: nat, src: seq<Byte>, good: nat -> nat, hist: seq<Turn>, w: World,
                          others: (nat, World) -> World) {
    && (forall k :: 0 <= k < |hist| ==> Turned(g, i, src, good, hist[..k], hist[k], w, others))
    && (forall k :: 0 <= k < |hist| - 1 ==> hist[k].end.Whole?)
  }

  // The last turn, if any, wrote all it was asked to.
  predicate AllWhole(hist: seq<Turn>) { hist != [] ==> hist[|hist| - 1].end.Whole? }

  lemma {:induction false} NoTurns(g: Geo, i: nat, src: seq<Byte>, good: nat -> nat, w: World,
                                   others: (nat, World) -> World)
    ensures History(g, i, src, good, [], w, others) && Parts([]) == [] && Torn([]) == [] && AllWhole([])
    ensures Logs([]) == []
  {
  }

  lemma {:induction false} OneMore(g: Geo, i: nat, src: seq<Byte>, good: nat -> nat, hist: seq<Turn>, w: World,
                                   others: (nat, World) -> World, u: Turn)
    requires History(g, i, src, good, hist, w, others) && AllWhole(hist)
    requires Turned(g, i, src, good, hist, u, w, others)
    ensures History(g, i, src, good, hist + [u], w, others) && After(hist + [u], w) == u.after
    ensures GoodWorld(g, u.after) && AllWhole(hist + [u]) == u.end.Whole?
    ensures Parts(hist + [u]) == Parts(hist) + u.part && Torn(hist + [u]) == u.torn
    ensures Logs(hist + [u]) == Logs(hist) + [u.logged]
  {
    hide TurnOk, Turned;
    AfterGood(g, i, src, good, hist, u, w, others);
    var h := hist + [u];
    assert h[..|hist|] == hist;
    forall k | 0 <= k < |h| ensures Turned(g, i, src, good, h[..k], h[k], w, others) {
      assert h[..k] == hist[..k];
    }
  }

  lemma {:induction false} MorePrefix(src: seq<Byte>, done: nat, n1: nat, part: seq<Byte>, torn: seq<Byte>)
    requires done + n1 <= |src| && part + torn <= src[done..done + n1]
    ensures src[..done] + part == src[..done + |part|] && src[..done] + part + torn <= src
  {
    var s := src[done..done + n1];
    assert part == (part + torn)[..|part|] == s[..|part|];
    assert src[..done] + part + torn == src[..done] + (part + torn);
    assert src == src[..done] + s + src[done + n1..];
    assert src[..done] + s[..|part + torn|] == src[..done + |part + torn|];
  }

  lemma {:induction false} AfterGood(g: Geo, i: nat, src: seq<Byte>, good: nat -> nat, h: seq<Turn>, u: Turn,
                                     w: World, others: (nat, World) -> World)
    requires Turned(g, i, src, good, h, u, w, others)
    ensures TurnOk(g, i, u) && GoodWorld(g, u.after)
  {
  }

  // The file system is as it was.
  lemma {:induction false} Untouched(g: Geo, fs: Fs, i: nat, off: nat)
    requires Valid(g, fs) && i < g.ninodes && HasRow(fs, i)
    ensures SameFiles(fs, fs, i)
    ensures off <= fs.inodes[i].size ==> Content(fs, i) == TornSplice(Content(fs, i), off, [], 0)
  {
  }

  lemma {:induction false} TornAfter(c: seq<Byte>, off: nat, a: seq<Byte>, b: seq<Byte>, t: seq<Byte>)
    requires off <= |c|
    ensures TornSplice(Splice(c, off, a), off + |a|, b + t, |b|) == TornSplice(c, off, a + b + t, |a + b|)
  {
    SpliceSplice(c, off, a, b + t);
    assert a + (b + t) == a + b + t;
  }

  /** filewrite alone: the file is the old one with what was written spliced in at the offset. If nothing
      was torn before and something is now, the logical file is that without the torn bytes. */
  lemma {:induction false} Alone(g: Geo, i: nat, src: seq<Byte>, good: nat -> nat, hist: seq<Turn>, w: World,
                                 others: (nat, World) -> World)
    requires History(g, i, src, good, hist, w, others) && GoodWorld(g, w) && i < g.ninodes && HasRow(w.fs, i)
    requires forall k: nat, v :: others(k, v) == v
    requires w.off <= w.fs.inodes[i].size
    ensures var r := After(hist, w); r.off == w.off + |Parts(hist)| && HasRow(r.fs, i) && SameFiles(w.fs, r.fs, i)
    ensures Content(After(hist, w).fs, i) ==
              TornSplice(Content(w.fs, i), w.off, Parts(hist) + Torn(hist), |Parts(hist)|)
    ensures |After(hist, w).fs.inodes| == |w.fs.inodes|
    ensures var r := After(hist, w);
      w.under == map[] && r.under != map[] ==>
        Torn(hist) != [] && Content(Logical(r.fs, r.under), i) == Splice(Content(w.fs, i), w.off, Parts(hist))
    decreases |hist|
  {
    hide GoodWorld, Content, TornSplice, SameFiles, Logical, Splice;
    if hist == [] {
      Untouched(g, w.fs, i, w.off) by { ValidWorld(g, w); }
      assert Parts(hist) + Torn(hist) == [];
    } else {
      var h, u := hist[..|hist| - 1], hist[|hist| - 1];
      LastTurn(g, i, src, good, hist, w, others);
      Alone(g, i, src, good, h, w, others);
      assert Parts(h) + [] == Parts(h) && u.before == After(h, w);
      AloneStep(g, i, w, u, Parts(h));
      assert Parts(h) + u.part + u.torn == Parts(hist) + Torn(hist);
    }
  }

  // One more turn, after the bytes p.
  lemma {:induction false} AloneStep(g: Geo, i: nat, w: World, u: Turn, p: seq<Byte>)
    requires TurnOk(g, i, u) && HasRow(w.fs, i) && w.off <= w.fs.inodes[i].size && HasRow(u.before.fs, i)
    requires u.before.off == w.off + |p| && SameFiles(w.fs, u.before.fs, i)
    requires |u.before.fs.inodes| == |w.fs.inodes|
    requires Content(u.before.fs, i) == TornSplice(Content(w.fs, i), w.off, p, |p|)
    requires w.under == map[] ==> u.before.under == map[]
    ensures HasRow(u.after.fs, i) && u.after.off == w.off + |p + u.part| && SameFiles(w.fs, u.after.fs, i)
    ensures |u.after.fs.inodes| == |w.fs.inodes|
    ensures Content(u.after.fs, i) == TornSplice(Content(w.fs, i), w.off, p + u.part + u.torn, |p + u.part|)
    ensures w.under == map[] && u.after.under != map[] ==>
      u.torn != [] && Content(Logical(u.after.fs, u.after.under), i) == Splice(Content(w.fs, i), w.off, p + u.part)
  {
    hide GoodWorld, Content, TornSplice, SameFiles, Logical, Splice;
    var c := Content(w.fs, i);
    NotTorn(c, w.off, p);
    SpliceLen(c, w.off, p);
    TornAfter(c, w.off, p, u.part, u.torn);
    SpliceSplice(c, w.off, p, u.part);
    SameFilesTrans(w.fs, u.before.fs, u.after.fs, i);
  }

  lemma {:induction false} SpliceLen(c: seq<Byte>, off: nat, s: seq<Byte>)
    requires off <= |c|
    ensures off + |s| <= |Splice(c, off, s)|
  {
  }

  lemma {:induction false} NotTorn(c: seq<Byte>, off: nat, s: seq<Byte>)
    requires off <= |c|
    ensures TornSplice(c, off, s, |s|) == Splice(c, off, s)
  {
  }

  lemma {:induction false} ValidWorld(g: Geo, w: World)
    requires GoodWorld(g, w)
    ensures Valid(g, w.fs)
  {
  }

  // A history without its last turn, which follows it.
  lemma {:induction false} LastTurn(g: Geo, i: nat, src: seq<Byte>, good: nat -> nat, hist: seq<Turn>, w: World,
                                    others: (nat, World) -> World)
    requires History(g, i, src, good, hist, w, others) && hist != []
    ensures var h := hist[..|hist| - 1];
      && History(g, i, src, good, h, w, others) && AllWhole(h) && Torn(h) == []
      && Turned(g, i, src, good, h, hist[|hist| - 1], w, others)
  {
    hide TurnOk, Turned, Parts;
    var h := hist[..|hist| - 1];
    forall k | 0 <= k < |h| ensures Turned(g, i, src, good, h[..k], h[k], w, others) {
      assert h[..k] == hist[..k];
    }
    if h != [] {
      var u := h[|h| - 1];
      AfterGood(g, i, src, good, h[..|h| - 1], u, w, others);
      WholeNotTorn(g, i, u);
    }
  }

  lemma {:induction false} WholeNotTorn(g: Geo, i: nat, u: Turn)
    requires TurnOk(g, i, u) && u.end.Whole?
    ensures u.torn == []
  {
    hide GoodWorld, Content, TornSplice, SameFiles, Logical, Splice, KeepsTorn, Filled;
  }

  // ----- a lone writer -----

  /** No copy faults. */
  ghost predicate Clear(src: seq<Byte>, good: nat -> nat) {
    forall p: nat :: p < |src| ==> good(p) >= Min(BSIZE, |src| - p)
  }

  // Where the last turn started.
  lemma {:induction false} AloneBefore(g: Geo, i: nat, src: seq<Byte>, good: nat -> nat, hist: seq<Turn>, w: World,
                                       others: (nat, World) -> World)
    requires History(g, i, src, good, hist, w, others) && GoodWorld(g, w) && i < g.ninodes && HasRow(w.fs, i)
    requires forall k: nat, v :: others(k, v) == v
    requires w.off <= w.fs.inodes[i].size && hist != []
    ensures var h, u := hist[..|hist| - 1], hist[|hist| - 1];
      && History(g, i, src, good, h, w, others) && TurnOk(g, i, u) && |Parts(h)| < |src|
      && u.before == After(h, w) && u.asked == Chunk(src, |Parts(h)|) && Parts(hist) == Parts(h) + u.part
      && HasRow(u.before.fs, i) && u.before.off == w.off + |Parts(h)| <= u.before.fs.inodes[i].size
      && (u.end.Fault? ==> u.end.copied == good(|Parts(h)| + |u.part|))
  {
    hide GoodWorld, Content, TornSplice, SameFiles, Logical, Splice, KeepsTorn, Filled, EndOk, Chunk;
    var h := hist[..|hist| - 1];
    LastTurn(g, i, src, good, hist, w, others);
    Alone(g, i, src, good, h, w, others);
    assert Parts(h) + [] == Parts(h);
    NotTorn(Content(w.fs, i), w.off, Parts(h));
    SpliceLen(Content(w.fs, i), w.off, Parts(h));
  }

  // The slots that the turns together filled are on the way to the bytes of src.
  lemma {:induction false} AloneFilled(g: Geo, i: nat, src: seq<Byte>, good: nat -> nat, hist: seq<Turn>, w: World,
                                       others: (nat, World) -> World)
    requires History(g, i, src, good, hist, w, others) && GoodWorld(g, w) && i < g.ninodes && HasRow(w.fs, i)
    requires forall k: nat, v :: others(k, v) == v
    requires w.off <= w.fs.inodes[i].size
    ensures Filled(w.fs.slots, After(hist, w).fs.slots, i, Spots(w.off, |src|))
    decreases |hist|
  {
    hide GoodWorld, Content, TornSplice, SameFiles, Logical, Splice, KeepsTorn, Filled, EndOk, Spots;
    if hist == [] {
      FilledRefl(w.fs.slots, i, Spots(w.off, |src|));
    } else {
      var h, u := hist[..|hist| - 1], hist[|hist| - 1];
      AloneBefore(g, i, src, good, hist, w, others);
      AloneFilled(g, i, src, good, h, w, others);
      SpotsIn(w.off, |src|, u.before.off, |u.asked|);
      FilledTrans(w.fs.slots, u.before.fs.slots, u.after.fs.slots, i, Spots(w.off, |src|),
                  Spots(u.before.off, |u.asked|));
    }
  }

  // The turn that stopped short says what was wrong before the first.
  lemma {:induction false} WhyShort(g: Geo, i: nat, src: seq<Byte>, w: World, u: Turn, done: nat)
    requires Valid(g, w.fs) && TurnOk(g, i, u) && !u.end.Whole? && !u.end.Fault? && i < g.ninodes && HasRow(w.fs, i)
    requires done < |src| && u.asked == Chunk(src, done) && u.before.off == w.off + done <= u.before.fs.inodes[i].size
    requires Filled(w.fs.slots, u.after.fs.slots, i, Spots(w.off, |src|))
    ensures Beyond(w.fs, i, w.off, |src|) || !HasRoom(g, w.fs, i, w.off, |src|)
  {
    hide Content, TornSplice, SameFiles, Logical, Splice, Filled, Spots, Valid, HasRoom, DataOnly;
    if u.end.NoRoom? {
      var p := u.before.off + |u.part|;
      if w.off + |src| <= MAXFILE * BSIZE {
        ChainInSpots(w.off, |src|, p);
        assert SlotOf(p / BSIZE) in Chain(p / BSIZE);
        NoRoomWas(g, w.fs, u.after.fs, i, w.off, |src|, SlotOf(p / BSIZE));
      }
    }
  }

  /** A copy that faulted was not clear. */
  lemma {:induction false} ClearNoFault(g: Geo, i: nat, src: seq<Byte>, good: nat -> nat, u: Turn, done: nat)
    requires TurnOk(g, i, u) && done < |src| && u.asked == Chunk(src, done) && Clear(src, good)
    requires u.end.Fault? ==> u.end.copied == good(done + |u.part|)
    ensures !u.end.Fault?
  {
    hide GoodWorld, Content, TornSplice, SameFiles, Logical, Splice, KeepsTorn, Filled, Spots;
    if u.end.Fault? {
      assert false;
    }
  }

  // All of src was written: it was within bounds, and there was room.
  lemma {:induction false} WhyWhole(g: Geo, i: nat, src: seq<Byte>, w: World, u: Turn, done: nat)
    requires Valid(g, w.fs) && TurnOk(g, i, u) && u.end.Whole? && i < g.ninodes && HasRow(w.fs, i)
    requires w.off <= w.fs.inodes[i].size
    requires done < |src| && u.asked == Chunk(src, done) && done + |u.part| == |src| && u.before.off == w.off + done
    requires Filled(w.fs.slots, u.after.fs.slots, i, Spots(w.off, |src|)) && w.off + |src| <= u.after.fs.inodes[i].size
    ensures !Beyond(w.fs, i, w.off, |src|) && HasRoom(g, w.fs, i, w.off, |src|)
  {
    hide Content, TornSplice, SameFiles, Logical, Splice, Filled, Spots, Valid, HasRoom, DataOnly;
    RoomWas(g, w.fs, u.after.fs, i, w.off, |src|);
  }

  /** filewrite alone, when no copy faults, writes all of src exactly if it starts within the file, ends
      within the largest file, and the disk has a free block for every slot that lacks one. Then the file is
      the old one with src spliced in. */
  lemma {:induction false} AloneWhole(g: Geo, i: nat, src: seq<Byte>, good: nat -> nat, hist: seq<Turn>, w: World,
                                      others: (nat, World) -> World)
    requires History(g, i, src, good, hist, w, others) && GoodWorld(g, w) && i < g.ninodes && HasRow(w.fs, i)
    requires (AllWhole(hist) <==> Parts(hist) == src) && Clear(src, good) && src != []
    requires forall k: nat, v :: others(k, v) == v
    ensures Parts(hist) == src <==> !Beyond(w.fs, i, w.off, |src|) && HasRoom(g, w.fs, i, w.off, |src|)
    ensures Parts(hist) == src ==>
              var r := After(hist, w);
              HasRow(r.fs, i) && Content(r.fs, i) == Splice(Content(w.fs, i), w.off, src) && r.off == w.off + |src|
  {
    hide GoodWorld, Content, TornSplice, SameFiles, Logical, Splice, KeepsTorn, Filled, Spots, HasRoom, EndOk, Clear,
         History, TurnOk, Turned, Chunk;
    assert Parts([]) == [] != src;
    var h, u := hist[..|hist| - 1], hist[|hist| - 1];
    if w.off <= w.fs.inodes[i].size {
      AloneBefore(g, i, src, good, hist, w, others);
      AloneFilled(g, i, src, good, hist, w, others);
      ClearNoFault(g, i, src, good, u, |Parts(h)|);
      ValidWorld(g, w);
      if u.end.Whole? {
        AloneAll(g, i, src, good, hist, w, others);
        WhyWhole(g, i, src, w, u, |Parts(h)|);
      } else {
        WhyShort(g, i, src, w, u, |Parts(h)|);
      }
    } else {
      FirstRefused(g, i, src, good, hist, w, others);
    }
  }

  lemma {:induction false} AloneAll(g: Geo, i: nat, src: seq<Byte>, good: nat -> nat, hist: seq<Turn>, w: World,
                                    others: (nat, World) -> World)
    requires History(g, i, src, good, hist, w, others) && GoodWorld(g, w) && i < g.ninodes && HasRow(w.fs, i)
    requires forall k: nat, v :: others(k, v) == v
    requires w.off <= w.fs.inodes[i].size && Parts(hist) == src && AllWhole(hist) && hist != []
    ensures var r := After(hist, w);
      && HasRow(r.fs, i) && Content(r.fs, i) == Splice(Content(w.fs, i), w.off, src)
      && r.off == w.off + |src| <= r.fs.inodes[i].size
  {
    hide GoodWorld, Content, TornSplice, SameFiles, Logical, Splice, KeepsTorn, Filled, Spots, EndOk;
    Alone(g, i, src, good, hist, w, others);
    LastTurn(g, i, src, good, hist, w, others);
    WholeNotTorn(g, i, hist[|hist| - 1]);
    assert Parts(hist) + Torn(hist) == src;
    NotTorn(Content(w.fs, i), w.off, src);
    SpliceLen(Content(w.fs, i), w.off, src);
  }

  lemma {:induction false} FirstRefused(g: Geo, i: nat, src: seq<Byte>, good: nat -> nat, hist: seq<Turn>, w: World,
                                        others: (nat, World) -> World)
    requires History(g, i, src, good, hist, w, others) && hist != [] && HasRow(w.fs, i)
    requires forall k: nat, v :: others(k, v) == v
    requires w.off > w.fs.inodes[i].size
    ensures !AllWhole(hist)
  {
    hide GoodWorld, Content, TornSplice, SameFiles, Logical, Splice, KeepsTorn, Filled, Spots;
    assert hist[..0] == [];
    assert Turned(g, i, src, good, hist[..0], hist[0], w, others);
    assert hist[0].end.Refused?;
  }
}
