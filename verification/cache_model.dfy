/**
 The buffer cache as values: one step per region that bio.c runs under bcache.lock, under a
 buffer's sleep lock, or as one disk transfer. `logical` is the disk as the file system sees
 it; `pins` are the blocks logged and not yet installed; `mid` is the one block whose buffer
 has been filled with new contents and whose bwrite has not happened yet.
 */
module CacheModel {
  import opened Param
  import opened Common

  const ROOTDEV: nat := 1
  const BWORDS: nat := 256

  // A disk block, as the 32-bit words the log header is made of.
  type Block = seq<nat>

  /** `refcnt` is the field of the source; `users` (who called bget and has not called brelse) and
      `owner` (who holds the sleep lock) say what it and the lock stand for. A buffer is `dirty` when its
      owner has changed it and not passed it to log_write yet, which the code does before any brelse. It
      is `torn` when a copy from user memory faulted half-way into it while its block was not in the log:
      writei then releases it as it is, and it stays so until the block is logged or the buffer recycled. */
  datatype Buf = Buf(dev: nat, blockno: nat, valid: bool, refcnt: nat, data: Block,
                     users: set<nat>, owner: Option<nat>, dirty: bool, torn: bool)

  datatype Mid = Mid(b: nat, d: Block)

  datatype Cache = Cache(disk: seq<Block>, logical: seq<Block>, bufs: seq<Buf>,
                         pins: set<nat>, mid: Option<Mid>)

  predicate Caches(u: Buf, b: nat) { u.dev == ROOTDEV && u.blockno == b }
  predicate Cached(bufs: seq<Buf>, b: nat) { exists i :: 0 <= i < |bufs| && Caches(bufs[i], b) }
  predicate Resident(bufs: seq<Buf>, b: nat) {
    exists i :: 0 <= i < |bufs| && Caches(bufs[i], b) && bufs[i].valid
  }
  predicate Blocks(d: seq<Block>) { forall b :: 0 <= b < |d| ==> |d[b]| == BWORDS }
  predicate Holds(c: Cache, t: nat, i: nat, b: nat) {
    i < |c.bufs| && Caches(c.bufs[i], b) && c.bufs[i].owner == Some(t) && c.bufs[i].valid
  }

  // ----- the invariant -----

  /** What a valid buffer for block b holds unless its owner is in the middle of changing it. */
  function Expected(c: Cache, b: nat): (d: Block)
    requires b < |c.disk| == |c.logical|
  {
    if c.mid.Some? && c.mid.value.b == b then c.mid.value.d
    else if b in c.pins then c.logical[b] else c.disk[b]
  }

  predicate BufOk(c: Cache, u: Buf)
    requires |c.disk| == |c.logical|
  {
    && |u.data| == BWORDS
    && (u.dev != 0 ==> u.dev == ROOTDEV && u.blockno < |c.disk|)
    && (u.dev == 0 ==> u.users == {})
    && u.refcnt == |u.users| + (if u.dev == ROOTDEV && u.blockno in c.pins then 1 else 0)
    && (u.owner.Some? ==> u.owner.value in u.users)
    && (u.dirty ==> u.dev == ROOTDEV && u.valid && u.owner.Some?)
    && (u.torn ==> u.dev == ROOTDEV && u.valid && u.blockno !in c.pins)
    && (u.dev == ROOTDEV && u.valid && !u.dirty && !u.torn ==> u.data == Expected(c, u.blockno))
    && (u.dev == ROOTDEV && c.mid.Some? && u.blockno == c.mid.value.b ==> u.owner.Some? && !u.dirty && !u.torn)
    && (u.dev == ROOTDEV && !u.valid ==>
          u.blockno !in c.pins && (c.mid.Some? ==> u.blockno != c.mid.value.b))
  }

  // At most one buffer caches a block of a device other than 0.
  predicate Unique(bufs: seq<Buf>) {
    forall i, j :: 0 <= i < j < |bufs| && bufs[i].dev != 0 && bufs[i].dev == bufs[j].dev
                   ==> bufs[i].blockno != bufs[j].blockno
  }

  ghost predicate CacheInv(c: Cache) {
    && |c.disk| == |c.logical| && |c.bufs| == NBUF
    && Blocks(c.disk) && Blocks(c.logical)
    && (forall i :: 0 <= i < NBUF ==> BufOk(c, c.bufs[i]))
    && Unique(c.bufs)
    && (forall b :: b in c.pins ==> b < |c.disk| && Resident(c.bufs, b))
    && (c.mid.Some? ==> Resident(c.bufs, c.mid.value.b) && |c.mid.value.d| == BWORDS
                        && c.mid.value.b < |c.disk|)
  }

  // ----- the steps -----

  // bget, block already cached
  predicate CanHit(c: Cache, t: nat, i: nat, b: nat) {
    i < |c.bufs| && Caches(c.bufs[i], b) && t !in c.bufs[i].users
  }
  function BgetHit(c: Cache, t: nat, i: nat): Cache
    requires i < |c.bufs|
  {
    var u := c.bufs[i];
    c.(bufs := c.bufs[i := u.(refcnt := u.refcnt + 1, users := u.users + {t})])
  }

  // bget, not cached: any buffer nobody refers to may be recycled
  predicate CanMiss(c: Cache, i: nat, b: nat) {
    i < |c.bufs| && b < |c.disk| && !Cached(c.bufs, b) && c.bufs[i].refcnt == 0
  }
  function BgetMiss(c: Cache, t: nat, i: nat, b: nat): Cache
    requires i < |c.bufs|
  { c.(bufs := c.bufs[i := Buf(ROOTDEV, b, false, 1, c.bufs[i].data, {t}, None, false, false)]) }

  // acquiresleep
  predicate CanLock(c: Cache, t: nat, i: nat) {
    i < |c.bufs| && t in c.bufs[i].users && c.bufs[i].owner == None
  }
  function Lock(c: Cache, t: nat, i: nat): Cache
    requires i < |c.bufs|
  { c.(bufs := c.bufs[i := c.bufs[i].(owner := Some(t))]) }

  // the disk read of bread
  predicate CanFill(c: Cache, t: nat, i: nat) {
    && i < |c.bufs| && c.bufs[i].dev == ROOTDEV && c.bufs[i].blockno < |c.disk|
    && c.bufs[i].owner == Some(t) && !c.bufs[i].valid
  }
  function Fill(c: Cache, i: nat): Cache
    requires i < |c.bufs| && c.bufs[i].blockno < |c.disk|
  { c.(bufs := c.bufs[i := c.bufs[i].(valid := true, data := c.disk[c.bufs[i].blockno])]) }

  // the owner changes b->data
  function Modify(c: Cache, i: nat, d: Block): Cache
    requires i < |c.bufs|
  { c.(bufs := c.bufs[i := c.bufs[i].(data := d, dirty := true)]) }

  // A copy from user memory faults half-way. The buffer of a logged block is what write_log will write,
  // so the bytes are in the logical disk at once; those of any other block are in this buffer only.
  function Tear(c: Cache, i: nat, d: Block): Cache
    requires i < |c.bufs| && c.bufs[i].blockno < |c.logical|
  {
    var u := c.bufs[i];
    if u.blockno in c.pins then c.(logical := c.logical[u.blockno := d], bufs := c.bufs[i := u.(data := d)])
    else c.(bufs := c.bufs[i := u.(data := d, torn := true)])
  }

  // log_write's effect on the buffer: publish the contents, and bpin on first use
  function Publish(c: Cache, i: nat): Cache
    requires i < |c.bufs| && c.bufs[i].blockno < |c.logical|
  {
    var u := c.bufs[i];
    var pin := u.blockno !in c.pins;
    c.(logical := c.logical[u.blockno := u.data],
       bufs := c.bufs[i := u.(dirty := false, torn := false, refcnt := u.refcnt + if pin then 1 else 0)],
       pins := if pin then c.pins + {u.blockno} else c.pins)
  }

  // brelse
  predicate CanRelease(c: Cache, t: nat, i: nat) {
    && i < |c.bufs| && c.bufs[i].owner == Some(t) && !c.bufs[i].dirty && c.bufs[i].refcnt > 0
    && (c.mid.Some? && c.bufs[i].dev == ROOTDEV ==> c.bufs[i].blockno != c.mid.value.b)
  }
  function Brelse(c: Cache, t: nat, i: nat): Cache
    requires i < |c.bufs| && c.bufs[i].refcnt > 0
  {
    var u := c.bufs[i];
    c.(bufs := c.bufs[i := u.(owner := None, users := u.users - {t}, refcnt := u.refcnt - 1)])
  }

  // memmove of new contents into a buffer that is about to be written
  function Stage(c: Cache, i: nat, d: Block): Cache
    requires i < |c.bufs|
  { c.(bufs := c.bufs[i := c.bufs[i].(data := d)], mid := Some(Mid(c.bufs[i].blockno, d))) }

  // bwrite, with bunpin when the block was pinned
  function Bwrite(c: Cache, i: nat): Cache
    requires i < |c.bufs| && c.bufs[i].blockno < |c.disk| && c.bufs[i].refcnt > 0
  {
    var u := c.bufs[i];
    var unpin := u.blockno in c.pins;
    c.(disk := c.disk[u.blockno := u.data], mid := None,
       bufs := c.bufs[i := u.(refcnt := u.refcnt - if unpin then 1 else 0)],
       pins := if unpin then c.pins - {u.blockno} else c.pins)
  }

  function Empty(): Buf { Buf(0, 0, false, 0, seq(BWORDS, _ => 0), {}, None, false, false) }

  // power failure: memory is lost, the disk stays
  function PowerOn(disk: seq<Block>, logical: seq<Block>): Cache {
    Cache(disk, logical, seq(NBUF, _ => Empty()), {}, None)
  }

  // ----- every step keeps the invariant -----

  lemma {:induction false} Others(c: Cache, i: nat, j: nat)
    requires CacheInv(c) && i < NBUF && j < NBUF && i != j && c.bufs[i].dev == ROOTDEV
    ensures c.bufs[j].dev == ROOTDEV ==> c.bufs[j].blockno != c.bufs[i].blockno
  {
  }

  lemma {:induction false} KeepResident(bufs: seq<Buf>, i: nat, u: Buf, b: nat)
    requires i < |bufs| && Resident(bufs, b)
    requires Caches(bufs[i], b) && bufs[i].valid ==> Caches(u, b) && u.valid
    ensures Resident(bufs[i := u], b)
  {
    var j :| 0 <= j < |bufs| && Caches(bufs[j], b) && bufs[j].valid;
    assert Caches(bufs[i := u][j], b);
  }

  /** A change of one buffer that keeps its block and its validity, or of a recycled buffer. */
  lemma {:induction false} KeepInv(c: Cache, i: nat, u: Buf)
    requires CacheInv(c) && i < NBUF && BufOk(c, u)
    requires u.dev == c.bufs[i].dev && u.blockno == c.bufs[i].blockno && (c.bufs[i].valid ==> u.valid)
    ensures CacheInv(c.(bufs := c.bufs[i := u]))
  {
    var c' := c.(bufs := c.bufs[i := u]);
    forall b | b in c.pins ensures Resident(c'.bufs, b) { KeepResident(c.bufs, i, u, b); }
    if c.mid.Some? { KeepResident(c.bufs, i, u, c.mid.value.b); }
    forall j | 0 <= j < NBUF ensures BufOk(c', c'.bufs[j]) {
      assert BufOk(c, c'.bufs[j]);
    }
  }

  lemma {:induction false} KeepHit(c: Cache, t: nat, i: nat, b: nat)
    requires CacheInv(c) && CanHit(c, t, i, b)
    ensures CacheInv(BgetHit(c, t, i))
  {
    assert BufOk(c, c.bufs[i]);
    KeepInv(c, i, BgetHit(c, t, i).bufs[i]);
  }

  lemma {:induction false} KeepLock(c: Cache, t: nat, i: nat)
    requires CacheInv(c) && CanLock(c, t, i)
    ensures CacheInv(Lock(c, t, i))
  {
    assert BufOk(c, c.bufs[i]);
    KeepInv(c, i, Lock(c, t, i).bufs[i]);
  }

  lemma {:induction false} KeepFill(c: Cache, t: nat, i: nat)
    requires CacheInv(c) && CanFill(c, t, i)
    ensures CacheInv(Fill(c, i))
  {
    assert BufOk(c, c.bufs[i]);
    KeepInv(c, i, Fill(c, i).bufs[i]);
  }

  lemma {:induction false} KeepModify(c: Cache, t: nat, i: nat, d: Block)
    requires CacheInv(c) && i < NBUF && Holds(c, t, i, c.bufs[i].blockno) && |d| == BWORDS
    requires c.mid == None
    ensures CacheInv(Modify(c, i, d))
  {
    assert BufOk(c, c.bufs[i]);
    KeepInv(c, i, Modify(c, i, d).bufs[i]);
  }

  lemma {:induction false} KeepRelease(c: Cache, t: nat, i: nat)
    requires CacheInv(c) && CanRelease(c, t, i)
    ensures CacheInv(Brelse(c, t, i))
  {
    assert BufOk(c, c.bufs[i]);
    KeepInv(c, i, Brelse(c, t, i).bufs[i]);
  }

  lemma {:induction false} KeepMiss(c: Cache, t: nat, i: nat, b: nat)
    requires CacheInv(c) && CanMiss(c, i, b)
    ensures CacheInv(BgetMiss(c, t, i, b))
  {
    var c' := BgetMiss(c, t, i, b);
    var u := c'.bufs[i];
    assert BufOk(c, c.bufs[i]);
    assert c.bufs[i].users == {};
    forall p | p in c.pins ensures Resident(c'.bufs, p) { KeepResident(c.bufs, i, u, p); }
    if c.mid.Some? { KeepResident(c.bufs, i, u, c.mid.value.b); }
    forall j | 0 <= j < NBUF ensures BufOk(c', c'.bufs[j]) {
      if j != i { assert BufOk(c, c.bufs[j]); }
    }
    assert forall j :: 0 <= j < NBUF ==> !Caches(c.bufs[j], b);
  }

  lemma {:induction false} PublishBuf(c: Cache, t: nat, i: nat, j: nat)
    requires CacheInv(c) && i < NBUF && Holds(c, t, i, c.bufs[i].blockno) && c.mid == None && j < NBUF
    ensures BufOk(Publish(c, i), Publish(c, i).bufs[j])
  {
    assert BufOk(c, c.bufs[j]);
    if j != i { Others(c, i, j); }
  }

  lemma {:induction false} DataSize(c: Cache, i: nat)
    requires CacheInv(c) && i < NBUF
    ensures |c.bufs[i].data| == BWORDS && (c.bufs[i].dev == ROOTDEV ==> c.bufs[i].blockno < |c.disk|)
  {
    assert BufOk(c, c.bufs[i]);
  }

  lemma {:induction false} KeepPublish(c: Cache, t: nat, i: nat)
    requires CacheInv(c) && i < NBUF && Holds(c, t, i, c.bufs[i].blockno) && c.mid == None
    ensures CacheInv(Publish(c, i))
  {
    hide BufOk;
    DataSize(c, i);
    var c' := Publish(c, i);
    forall p | p in c'.pins ensures Resident(c'.bufs, p) {
      if p in c.pins { KeepResident(c.bufs, i, c'.bufs[i], p); } else { assert Caches(c'.bufs[i], p); }
    }
    forall j | 0 <= j < NBUF ensures BufOk(c', c'.bufs[j]) { PublishBuf(c, t, i, j); }
  }

  lemma {:induction false} TearBuf(c: Cache, t: nat, i: nat, d: Block, j: nat)
    requires CacheInv(c) && i < NBUF && Holds(c, t, i, c.bufs[i].blockno) && !c.bufs[i].dirty && c.mid == None
    requires |d| == BWORDS && j < NBUF && c.bufs[i].blockno < |c.logical|
    ensures BufOk(Tear(c, i, d), Tear(c, i, d).bufs[j])
  {
    assert BufOk(c, c.bufs[j]);
    if j != i { Others(c, i, j); }
  }

  lemma {:induction false} KeepTear(c: Cache, t: nat, i: nat, d: Block)
    requires CacheInv(c) && i < NBUF && Holds(c, t, i, c.bufs[i].blockno) && !c.bufs[i].dirty && c.mid == None
    requires |d| == BWORDS
    ensures c.bufs[i].blockno < |c.logical| && CacheInv(Tear(c, i, d))
  {
    hide BufOk;
    DataSize(c, i);
    var c' := Tear(c, i, d);
    forall p | p in c'.pins ensures Resident(c'.bufs, p) { KeepResident(c.bufs, i, c'.bufs[i], p); }
    forall j | 0 <= j < NBUF ensures BufOk(c', c'.bufs[j]) { TearBuf(c, t, i, d, j); }
  }

  lemma {:induction false} KeepStage(c: Cache, t: nat, i: nat, d: Block)
    requires CacheInv(c) && i < NBUF && Holds(c, t, i, c.bufs[i].blockno) && !c.bufs[i].dirty && !c.bufs[i].torn
    requires c.mid == None && |d| == BWORDS
    ensures CacheInv(Stage(c, i, d))
  {
    var c' := Stage(c, i, d);
    assert BufOk(c, c.bufs[i]);
    forall p | p in c'.pins ensures Resident(c'.bufs, p) { KeepResident(c.bufs, i, c'.bufs[i], p); }
    forall j | 0 <= j < NBUF ensures BufOk(c', c'.bufs[j]) {
      assert BufOk(c, c.bufs[j]);
      if j != i { Others(c, i, j); }
    }
    assert Caches(c'.bufs[i], c.bufs[i].blockno);
  }

  lemma {:induction false} KeepWrite(c: Cache, t: nat, i: nat)
    requires CacheInv(c) && i < NBUF && Holds(c, t, i, c.bufs[i].blockno)
    requires c.mid.Some? && c.mid.value.b == c.bufs[i].blockno
    ensures c.bufs[i].refcnt > 0 && c.bufs[i].data == c.mid.value.d
    ensures CacheInv(Bwrite(c, i))
  {
    assert BufOk(c, c.bufs[i]);
    var c' := Bwrite(c, i);
    forall p | p in c'.pins ensures Resident(c'.bufs, p) { KeepResident(c.bufs, i, c'.bufs[i], p); }
    forall j | 0 <= j < NBUF ensures BufOk(c', c'.bufs[j]) {
      assert BufOk(c, c.bufs[j]);
      if j != i { Others(c, i, j); }
    }
  }

  lemma {:induction false} KeepPowerOn(disk: seq<Block>, logical: seq<Block>)
    requires |disk| == |logical| && Blocks(disk) && Blocks(logical)
    ensures CacheInv(PowerOn(disk, logical))
  {
  }
}
