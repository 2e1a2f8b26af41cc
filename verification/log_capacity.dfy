/**
 When bget finds a buffer. There are as many buffers as log blocks, and a logged block stays in its
 buffer until it is installed, so a commit competes for the rest with whoever is reading.
 */
module LogCapacity {
  import opened Param
  import opened Common
  import opened CacheModel
  import opened LogModel
  import opened LogInvariant

  // ----- counting buffers -----

  function Blocknos(bufs: seq<Buf>): (r: set<nat>) {
    if bufs == [] then {} else {bufs[0].blockno} + Blocknos(bufs[1..])
  }

  lemma {:induction false} BlocknosMember(bufs: seq<Buf>, b: nat)
    ensures b in Blocknos(bufs) <==> exists i :: 0 <= i < |bufs| && bufs[i].blockno == b
  {
    if bufs != [] {
      BlocknosMember(bufs[1..], b);
      assert forall i :: 1 <= i < |bufs| ==> bufs[i] == bufs[1..][i - 1];
      assert forall i :: 0 <= i < |bufs[1..]| ==> bufs[1..][i] == bufs[i + 1];
    }
  }

  lemma {:induction false} BlocknosSize(bufs: seq<Buf>)
    ensures |Blocknos(bufs)| <= |bufs|
    ensures (forall i, j :: 0 <= i < j < |bufs| ==> bufs[i].blockno != bufs[j].blockno) ==> |Blocknos(bufs)| == |bufs|
  {
    if bufs != [] {
      BlocknosSize(bufs[1..]);
      BlocknosMember(bufs[1..], bufs[0].blockno);
    }
  }

  lemma {:induction false} ToSetSize(l: seq<nat>)
    requires Distinct(l)
    ensures |ToSet(l)| == |l|
  {
    if l != [] {
      ToSetSize(l[1..]);
      assert ToSet(l) == {l[0]} + ToSet(l[1..]);
    }
  }

  /** The blocks whose buffers somebody got and has not released. */
  function InUse(bufs: seq<Buf>): (r: set<nat>) {
    set i | 0 <= i < |bufs| && bufs[i].users != {} :: bufs[i].blockno
  }

  predicate Unused(bufs: seq<Buf>) { exists i :: 0 <= i < |bufs| && bufs[i].refcnt == 0 }

  // Blocks that are in some buffer other than buffer i are fewer than the buffers.
  lemma {:induction false} InOthers(bufs: seq<Buf>, i: nat, held: set<nat>)
    requires i < |bufs|
    requires forall b :: b in held ==> exists j :: 0 <= j < |bufs| && j != i && bufs[j].blockno == b
    ensures |held| < |bufs|
  {
    var rest := bufs[..i] + bufs[i + 1..];
    forall b | b in held ensures b in Blocknos(rest) {
      var j :| 0 <= j < |bufs| && j != i && bufs[j].blockno == b;
      assert rest[if j < i then j else j - 1].blockno == b;
      BlocknosMember(rest, b);
    }
    BlocknosSize(rest);
    SubsetSize(held, Blocknos(rest));
  }

  /** A buffer can be recycled exactly when the blocks pinned or in use are fewer than the buffers. */
  lemma {:induction false} FreeBuffer(c: Cache)
    requires CacheInv(c)
    ensures Unused(c.bufs) <==> |c.pins + InUse(c.bufs)| < NBUF
  {
    hide BufOk;
    var held := c.pins + InUse(c.bufs);
    forall i: nat | i < NBUF ensures CountOk(c, i) { CountIs(c, i); }
    if Unused(c.bufs) {
      var i: nat :| i < |c.bufs| && c.bufs[i].refcnt == 0;
      forall b | b in held ensures exists j :: 0 <= j < NBUF && j != i && c.bufs[j].blockno == b {
        InAnother(c, i, b);
      }
      InOthers(c.bufs, i, held);
    } else {
      BlocknosSize(c.bufs);
      forall i: nat | i < NBUF ensures c.bufs[i].blockno in held && c.bufs[i].dev == ROOTDEV { assert CountOk(c, i); }
      forall b | b in Blocknos(c.bufs) ensures b in held { BlocknosMember(c.bufs, b); }
      SubsetSize(Blocknos(c.bufs), held);
    }
  }

  // What it takes for a buffer's reference count to be positive.
  predicate CountOk(c: Cache, i: nat)
    requires i < |c.bufs|
  {
    var u := c.bufs[i];
    && (u.refcnt > 0 <==> u.users != {} || (u.dev == ROOTDEV && u.blockno in c.pins))
    && (u.users != {} ==> u.dev == ROOTDEV)
  }

  lemma {:induction false} CountIs(c: Cache, i: nat)
    requires CacheInv(c) && i < NBUF
    ensures CountOk(c, i)
  {
    assert BufOk(c, c.bufs[i]);
  }

  lemma {:induction false} InAnother(c: Cache, i: nat, b: nat)
    requires CacheInv(c) && i < NBUF && c.bufs[i].refcnt == 0 && b in c.pins + InUse(c.bufs)
    ensures exists j :: 0 <= j < NBUF && j != i && c.bufs[j].blockno == b
  {
    hide BufOk;
    CountIs(c, i);
    var j: nat :| j < NBUF && c.bufs[j].blockno == b
                  && (c.bufs[j].users != {} || (b in c.pins && c.bufs[j].dev == ROOTDEV));
  }

  /** When as many blocks as there are buffers are cached, nothing else is. */
  lemma {:induction false} AllHeld(bufs: seq<Buf>, held: set<nat>, b: nat)
    requires |held| >= |bufs| && Cached(bufs, b)
    requires forall h :: h in held ==> Cached(bufs, h)
    ensures b in held
  {
    var i: nat :| i < |bufs| && Caches(bufs[i], b);
    if b !in held {
      forall h | h in held ensures exists j :: 0 <= j < |bufs| && j != i && bufs[j].blockno == h {
        var j :| 0 <= j < |bufs| && Caches(bufs[j], h);
      }
      InOthers(bufs, i, held);
    }
  }

  // ----- the committer -----

  /** The committer's bget of block b can go on: it finds b, or a buffer to recycle. */
  ghost predicate CanGet(s: State, b: nat)
    requires Wf(s)
  {
    exists i: nat :: Enabled(s, BgetHit(s.committer, i, b)) || Enabled(s, BgetMiss(s.committer, i, b))
  }

  // The committer has called bget on block b and not yet brelse.
  predicate Mine(s: State, b: nat) {
    exists i :: 0 <= i < |s.c.bufs| && Caches(s.c.bufs[i], b) && s.committer in s.c.bufs[i].users
  }

  // When bget can use buffer i.
  lemma {:induction false} GetIs(s: State, i: nat, b: nat)
    requires Wf(s) && MayUse(s, s.committer, b)
    ensures Enabled(s, BgetHit(s.committer, i, b)) <==> CanHit(s.c, s.committer, i, b)
    ensures Enabled(s, BgetMiss(s.committer, i, b)) <==> CanMiss(s.c, i, b)
  {
  }

  /** A cached block can be had unless the committer has it already; any other one exactly when
      the pinned blocks and those in anybody's use leave a buffer over. */
  lemma {:induction false} CommitterGets(s: State, b: nat)
    requires Inv(s) && Wf(s) && MayUse(s, s.committer, b)
    ensures CanGet(s, b) <==>
            if Cached(s.c.bufs, b) then !Mine(s, b) else |s.c.pins + InUse(s.c.bufs)| < NBUF
  {
    hide LogOk, Admission, DirtyOk, HeldOk, BufOk, Enabled;
    FreeBuffer(s.c);
    if CanGet(s, b) {
      var i: nat :| Enabled(s, BgetHit(s.committer, i, b)) || Enabled(s, BgetMiss(s.committer, i, b));
      GetIs(s, i, b);
    }
    if Cached(s.c.bufs, b) {
      var i: nat :| i < |s.c.bufs| && Caches(s.c.bufs[i], b);
      GetIs(s, i, b);
    } else if Unused(s.c.bufs) {
      var i: nat :| i < |s.c.bufs| && s.c.bufs[i].refcnt == 0;
      GetIs(s, i, b);
    }
  }

  /** In particular, a commit of a full log gets no buffer for a log block. */
  lemma {:induction false} FullLogGetsNone(s: State, b: nat)
    requires Inv(s) && Wf(s) && s.phase.WLog? && |s.lh| == LOGBLOCKS && LogRegion(s.start, b)
    ensures !Cached(s.c.bufs, b) && !CanGet(s, b)
  {
    ToSetSize(s.lh);
    assert s.c.pins == ToSet(s.lh);
    if Cached(s.c.bufs, b) { AllHeld(s.c.bufs, s.c.pins, b); assert false; }
    CommitterGets(s, b);
    SubsetSize(s.c.pins, s.c.pins + InUse(s.c.bufs));
  }
}
