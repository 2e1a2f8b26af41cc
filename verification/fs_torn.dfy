/**
 Two views of the disk. `fs` has what bread returns. Where a copy from user memory was torn, that is in
 the cache only, and `under` has what the log has for the block: it comes back when the buffer is
 recycled or the machine crashes, and goes away when the block is logged.
 */
module FsTorn {
  import opened FsBlocks
  import opened FsModel
  import opened FsContent
  import opened FsOps
  import opened FsWrite

  type Under = map<nat, Block>

  // The blocks l were passed to log_write.
  function Forget(u: Under, l: seq<nat>): (r: Under) { map b | b in u && b !in l :: u[b] }

  // Block b, with contents d in the log's eyes, was torn.
  function Undo(u: Under, b: nat, d: Block): (r: Under) { if b in u then u else u[b := d] }

  lemma {:induction false} ForgetNone(u: Under)
    ensures Forget(u, []) == u
  {
  }

  lemma {:induction false} ForgetTwo(u: Under, a: seq<nat>, b: seq<nat>)
    ensures Forget(Forget(u, a), b) == Forget(u, a + b)
  {
  }

  /** The logical file system: the torn copies undone. */
  function Logical(fs: Fs, u: Under): (r: Fs) {
    fs.(disk := seq(|fs.disk|, b requires 0 <= b < |fs.disk| => if b in u then u[b] else fs.disk[b]))
  }

  /** Only blocks that are, or were, data blocks of files are torn. */
  ghost predicate DataOnly(g: Geo, fs: Fs, u: Under) {
    forall b :: b in u ==> g.nmeta <= b < g.size && !Indirect(fs.owner, b)
  }

  /** So the logical file system is as valid as the one the cache shows. */
  lemma {:induction false} LogicalValid(g: Geo, fs: Fs, u: Under)
    requires Valid(g, fs) && DataOnly(g, fs, u)
    ensures Valid(g, Logical(fs, u))
  {
    var r := Logical(fs, u);
    SlotsFrame(g, fs.disk, fs.inodes, fs.slots, fs.owner, r.disk);
    UsedFrame(g, fs.disk, r.disk, fs.used);
  }

  /** Undoing one torn copy is all it takes. */
  lemma {:induction false} LogicalBase(fs: Fs, base: Fs, b: nat)
    requires b < |fs.disk| == |base.disk| && fs == base.(disk := base.disk[b := fs.disk[b]])
    ensures Logical(fs, Undo(map[], b, base.disk[b])) == base
  {
    assert Logical(fs, map[b := base.disk[b]]).disk == base.disk;
  }

  // ----- bmap -----

  lemma {:induction false} AllocAddrData(g: Geo, fs: Fs, i: nat, k: nat, b: nat)
    requires Shape(g, fs) && i < g.ninodes && k <= NDIRECT
    ensures var r := AllocAddr(g, fs, i, k);
      Indirect(r.fs.owner, b) ==> Indirect(fs.owner, b) || b in r.log
  {
    hide NextFree;
  }

  lemma {:induction false} BmapEntryData(g: Geo, fs: Fs, i: nat, bn: nat, b: nat)
    requires Shape(g, fs) && i < g.ninodes && NDIRECT <= bn < MAXFILE
    ensures var r := BmapEntry(g, fs, i, bn);
      Indirect(r.fs.owner, b) ==> Indirect(fs.owner, b) || b in r.log
  {
    hide NextFree;
  }

  lemma {:induction false} BmapIndirect(g: Geo, fs: Fs, i: nat, bn: nat, b: nat)
    requires Shape(g, fs) && i < g.ninodes && bn < MAXFILE
    ensures var r := Bmap(g, fs, i, bn);
      Indirect(r.fs.owner, b) ==> Indirect(fs.owner, b) || b in r.log
  {
    hide AllocAddr, BmapEntry;
    if bn < NDIRECT {
      AllocAddrData(g, fs, i, bn, b);
    } else {
      var s := AllocAddr(g, fs, i, NDIRECT);
      AllocAddrData(g, fs, i, NDIRECT, b);
      BmapEntryData(g, fs, i, bn, b);
      BmapEntryData(g, s.fs, i, bn, b);
    }
  }

  /** bmap logs every block it makes an indirect block of. */
  lemma {:induction false} BmapData(g: Geo, fs: Fs, i: nat, bn: nat, u: Under)
    requires Shape(g, fs) && i < g.ninodes && bn < MAXFILE && DataOnly(g, fs, u)
    ensures var r := Bmap(g, fs, i, bn); DataOnly(g, r.fs, Forget(u, r.log))
  {
    hide Bmap;
    var r := Bmap(g, fs, i, bn);
    forall b | b in Forget(u, r.log) ensures g.nmeta <= b < g.size && !Indirect(r.fs.owner, b) {
      BmapIndirect(g, fs, i, bn, b);
    }
  }

  // ----- one torn copy -----

  predicate Kept(log: seq<nat>, pinned: nat -> bool, b: nat) { b in log || pinned(b) }

  /** What the log has for torn blocks after a round of writei that logged l and left a torn copy in
      block b, or none if b is 0. A block already in the log takes the torn bytes with it. */
  function TornUnder(u: Under, l: seq<nat>, torn: bool, b: nat, d: Block): (r: Under) {
    if torn then Undo(Forget(u, l), b, d) else Forget(u, l)
  }

  /** What the log has for torn blocks after an operation that logged l: the same, but for the blocks logged
      and those torn since. */
  predicate KeepsTorn(u: Under, u': Under, l: seq<nat>) {
    (forall b :: b in u && b !in l ==> b in u' && u'[b] == u[b]) && (forall b :: b in l ==> b !in u')
  }

  lemma {:induction false} TornUnderKeeps(u: Under, l: seq<nat>, torn: bool, b: nat, d: Block, ib: nat)
    requires torn ==> b !in l
    ensures var u' := Forget(TornUnder(u, l, torn, b, d), [ib]);
      KeepsTorn(u, u', l + [ib]) && forall c :: c in u' && c !in u ==> torn && c == b
  {
  }

  lemma {:induction false} UndoData(g: Geo, fs: Fs, u: Under, i: nat, k: nat, b: nat, d: Block)
    requires Tidy(g, fs, {}) && i < g.ninodes && k < NSLOTS && k != NDIRECT && b == fs.slots[i][k] != 0
    requires DataOnly(g, fs, u)
    ensures DataOnly(g, fs, Undo(u, b, d))
  {
    SlotBounds(g, fs, i, k);
    OwnedAbove(g, fs);
  }

  // Logging a block of metadata forgets nothing.
  lemma {:induction false} MetaLogged(g: Geo, fs: Fs, u: Under, b: nat)
    requires DataOnly(g, fs, u) && b < g.nmeta
    ensures Forget(u, [b]) == u
  {
  }
}
