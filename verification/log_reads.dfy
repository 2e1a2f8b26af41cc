/**
 Buffers that a copy from user memory was torn into: what is in them from that copy on until the block
 is logged, the buffer recycled or the machine crashes.
 */
module LogReads {
  import opened Param
  import opened Common
  import opened CacheModel
  import opened LogModel
  import opened LogInvariant
  import opened LogTheorems

  /** The blocks whose cached contents are torn, with these contents, after a step from s. */
  function TornBy(s: State, a: Action, torn: map<nat, Block>): (torn': map<nat, Block>)
    requires Wf(s) && Enabled(s, a)
  {
    match a
    case Tear(t, i, d) => if s.c.bufs[i].blockno in s.lh then torn else torn[s.c.bufs[i].blockno := d]
    case LogWrite(t, i) => torn - {s.c.bufs[i].blockno}
    case BgetMiss(t, i, b) => if s.c.bufs[i].dev == ROOTDEV then torn - {s.c.bufs[i].blockno} else torn
    case Crash(t) => map[]
    case _ => torn
  }

  // The torn buffers are those of the blocks in `torn`, and hold that.
  ghost predicate TornIs(bufs: seq<Buf>, torn: map<nat, Block>) {
    && (forall i :: 0 <= i < |bufs| && bufs[i].torn ==>
          bufs[i].blockno in torn && (!bufs[i].dirty ==> bufs[i].data == torn[bufs[i].blockno]))
    && (forall b :: b in torn ==> TornBuf(bufs, b))
  }

  predicate TornBuf(bufs: seq<Buf>, b: nat) {
    exists i :: 0 <= i < |bufs| && Caches(bufs[i], b) && bufs[i].torn
  }

  // ----- one step -----

  // A buffer is as torn as before, with the same contents unless its owner is changing it.
  predicate AsTorn(u: Buf, u': Buf) {
    && u'.torn == u.torn
    && (u.torn ==> u'.dev == u.dev && u'.blockno == u.blockno && (!u'.dirty ==> !u.dirty && u'.data == u.data))
  }

  predicate ChangesTorn(a: Action) { a.Tear? || a.LogWrite? || a.BgetMiss? || a.Crash? }

  // The buffer the step works on.
  function At(a: Action): (i: nat) {
    match a
    case BgetHit(_, i, _) => i
    case BgetMiss(_, i, _) => i
    case Lock(_, i) => i
    case Fill(_, i) => i
    case Modify(_, i, _) => i
    case Tear(_, i, _) => i
    case LogWrite(_, i) => i
    case Brelse(_, i) => i
    case CopyLog(to, _) => to
    case WriteLog(i) => i
    case FillHead(i) => i
    case WriteHead(i) => i
    case CopyInst(_, dbuf) => dbuf
    case WriteInst(i) => i
    case FillClear(i) => i
    case WriteClear(i) => i
    case _ => 0
  }

  lemma {:induction false} OneBufferOperation(s: State, a: Action)
    requires Wf(s) && Enabled(s, a) && ByOperation(a)
    ensures var s' := Apply(s, a);
      At(a) < NBUF && |s'.c.bufs| == NBUF && s'.c.bufs == s.c.bufs[At(a) := s'.c.bufs[At(a)]]
  {
  }

  lemma {:induction false} OneBufferCommit(s: State, a: Action)
    requires Wf(s) && Enabled(s, a) && !ByOperation(a) && !a.Crash?
    ensures var s' := Apply(s, a);
      At(a) < NBUF && |s'.c.bufs| == NBUF && s'.c.bufs == s.c.bufs[At(a) := s'.c.bufs[At(a)]]
  {
  }

  lemma {:induction false} OneBuffer(s: State, a: Action)
    requires Wf(s) && Enabled(s, a) && !a.Crash?
    ensures var s' := Apply(s, a);
      At(a) < NBUF && |s'.c.bufs| == NBUF && s'.c.bufs == s.c.bufs[At(a) := s'.c.bufs[At(a)]]
  {
    hide ByOperation, Enabled, Apply, At;
    if ByOperation(a) { OneBufferOperation(s, a); } else { OneBufferCommit(s, a); }
  }

  lemma {:induction false} StagesWhole(s: State, a: Action)
    requires Inv(s) && Wf(s) && Enabled(s, a) && (a.CopyLog? || a.CopyInst? || a.FillHead? || a.FillClear?)
    ensures At(a) < NBUF && !s.c.bufs[At(a)].torn
  {
    hide CacheInv, LogOk, Admission, DirtyOk, HeldOk;
    if a.CopyInst? {
      NothingStaged(s);
      CopyInstDisk(s.c.disk, s.c.logical, s.c.pins, s.start, s.lh, s.phase.k, s.recovering);
    }
    NotTorn(s, At(a));
  }

  lemma {:induction false} KeepsTornCommit(s: State, a: Action)
    requires Inv(s) && Wf(s) && Enabled(s, a) && !ChangesTorn(a) && !ByOperation(a)
    ensures var s' := Apply(s, a); At(a) < |s.c.bufs| == |s'.c.bufs| && AsTorn(s.c.bufs[At(a)], s'.c.bufs[At(a)])
  {
    hide Inv;
    if a.CopyLog? || a.CopyInst? || a.FillHead? || a.FillClear? { StagesWhole(s, a); }
  }

  lemma {:induction false} KeepsTornOperation(s: State, a: Action)
    requires Inv(s) && Wf(s) && Enabled(s, a) && !ChangesTorn(a) && ByOperation(a)
    ensures var s' := Apply(s, a); At(a) < |s.c.bufs| == |s'.c.bufs| && AsTorn(s.c.bufs[At(a)], s'.c.bufs[At(a)])
  {
    hide Inv;
    if a.Fill? { FillsWhole(s, a.t, a.i); }
  }

  lemma {:induction false} KeepsTorn(s: State, a: Action)
    requires Inv(s) && Wf(s) && Enabled(s, a) && !ChangesTorn(a)
    ensures |Apply(s, a).c.bufs| == NBUF == |s.c.bufs|
    ensures forall i :: 0 <= i < NBUF ==> AsTorn(s.c.bufs[i], Apply(s, a).c.bufs[i])
  {
    hide Inv, Enabled, Apply, At;
    OneBuffer(s, a);
    if ByOperation(a) { KeepsTornOperation(s, a); } else { KeepsTornCommit(s, a); }
  }

  lemma {:induction false} FillsWhole(s: State, t: nat, i: nat)
    requires Inv(s) && Wf(s) && Enabled(s, Fill(t, i))
    ensures !s.c.bufs[i].torn
  {
    assert BufOk(s.c, s.c.bufs[i]);
  }

  lemma {:induction false} SameTorn(bufs: seq<Buf>, bufs': seq<Buf>, torn: map<nat, Block>)
    requires TornIs(bufs, torn) && |bufs'| == |bufs|
    requires forall i :: 0 <= i < |bufs| ==> AsTorn(bufs[i], bufs'[i])
    ensures TornIs(bufs', torn)
  {
    forall b | b in torn ensures TornBuf(bufs', b) {
      var i :| 0 <= i < |bufs| && Caches(bufs[i], b) && bufs[i].torn;
      assert AsTorn(bufs[i], bufs'[i]);
    }
    forall i | 0 <= i < |bufs'| && bufs'[i].torn
      ensures bufs'[i].blockno in torn && (!bufs'[i].dirty ==> bufs'[i].data == torn[bufs'[i].blockno])
    { assert AsTorn(bufs[i], bufs'[i]); }
  }

  // No buffer but i caches block i's block.
  predicate Only(bufs: seq<Buf>, i: nat)
    requires i < |bufs|
  { forall j :: 0 <= j < |bufs| && j != i && bufs[j].dev == ROOTDEV ==> bufs[j].blockno != bufs[i].blockno }

  lemma {:induction false} OnlyOne(c: Cache, i: nat)
    requires CacheInv(c) && i < NBUF && c.bufs[i].dev == ROOTDEV
    ensures Only(c.bufs, i) && forall j :: 0 <= j < NBUF && c.bufs[j].torn ==> c.bufs[j].dev == ROOTDEV
  {
    forall j | 0 <= j < NBUF && c.bufs[j].torn ensures c.bufs[j].dev == ROOTDEV { assert BufOk(c, c.bufs[j]); }
    forall j: nat | j < NBUF && j != i && c.bufs[j].dev == ROOTDEV ensures c.bufs[j].blockno != c.bufs[i].blockno {
      Others(c, i, j);
    }
  }

  // Buffer i is whole again, or another block's.
  lemma {:induction false} Mended(bufs: seq<Buf>, i: nat, u: Buf, torn: map<nat, Block>)
    requires TornIs(bufs, torn) && i < |bufs| && bufs[i].dev == ROOTDEV && Only(bufs, i) && !u.torn
    requires forall j :: 0 <= j < |bufs| && bufs[j].torn ==> bufs[j].dev == ROOTDEV
    ensures TornIs(bufs[i := u], torn - {bufs[i].blockno})
  {
    var bufs', torn' := bufs[i := u], torn - {bufs[i].blockno};
    forall b | b in torn' ensures TornBuf(bufs', b) {
      var j :| 0 <= j < |bufs| && Caches(bufs[j], b) && bufs[j].torn;
      assert bufs'[j] == bufs[j];
    }
  }

  lemma {:induction false} Ripped(bufs: seq<Buf>, i: nat, u: Buf, torn: map<nat, Block>)
    requires TornIs(bufs, torn) && i < |bufs| && bufs[i].dev == ROOTDEV && Only(bufs, i)
    requires forall j :: 0 <= j < |bufs| && bufs[j].torn ==> bufs[j].dev == ROOTDEV
    requires u.torn && u.dev == ROOTDEV && u.blockno == bufs[i].blockno
    ensures TornIs(bufs[i := u], torn[u.blockno := u.data])
  {
    var bufs', torn' := bufs[i := u], torn[u.blockno := u.data];
    forall b | b in torn' ensures TornBuf(bufs', b) {
      if b == u.blockno {
        assert Caches(bufs'[i], b);
      } else {
        var j :| 0 <= j < |bufs| && Caches(bufs[j], b) && bufs[j].torn;
        assert bufs'[j] == bufs[j];
      }
    }
  }

  lemma {:induction false} StepTearTorn(s: State, t: nat, i: nat, d: Block, torn: map<nat, Block>)
    requires Inv(s) && Wf(s) && Enabled(s, Tear(t, i, d)) && TornIs(s.c.bufs, torn)
    ensures TornIs(Apply(s, Tear(t, i, d)).c.bufs, TornBy(s, Tear(t, i, d), torn))
  {
    hide LogOk, Admission, DirtyOk, HeldOk, TornIs, BufOk, CacheInv;
    OpsOnly(s, t);
    PinnedLogged(s.c.disk, s.c.logical, s.c.pins, s.start, s.lh, s.c.bufs[i].blockno);
    OnlyOne(s.c, i);
    var u := Apply(s, Tear(t, i, d)).c.bufs[i];
    if s.c.bufs[i].blockno in s.lh {
      LoggedWhole(s.c, i);
      SameTorn(s.c.bufs, s.c.bufs[i := u], torn);
    } else {
      Ripped(s.c.bufs, i, u, torn);
    }
  }

  lemma {:induction false} LoggedWhole(c: Cache, i: nat)
    requires CacheInv(c) && i < NBUF && c.bufs[i].blockno in c.pins
    ensures !c.bufs[i].torn
  {
    assert BufOk(c, c.bufs[i]);
  }

  lemma {:induction false} NeverTorn(c: Cache, i: nat)
    requires CacheInv(c) && i < NBUF && c.bufs[i].dev != ROOTDEV
    ensures !c.bufs[i].torn
  {
    assert BufOk(c, c.bufs[i]);
  }

  lemma {:induction false} StepTorn(s: State, a: Action, torn: map<nat, Block>)
    requires Inv(s) && Wf(s) && Enabled(s, a) && TornIs(s.c.bufs, torn)
    ensures TornIs(Apply(s, a).c.bufs, TornBy(s, a, torn))
  {
    hide LogOk, Admission, DirtyOk, HeldOk, TornIs, BufOk, CacheInv;
    if !ChangesTorn(a) {
      KeepsTorn(s, a);
      SameTorn(s.c.bufs, Apply(s, a).c.bufs, torn);
    } else if a.Tear? {
      StepTearTorn(s, a.t, a.i, a.d, torn);
    } else if a.Crash? {
      NoneTorn(Apply(s, a).c.bufs);
    } else {
      OneBuffer(s, a);
      var u := Apply(s, a).c.bufs[a.i];
      if s.c.bufs[a.i].dev == ROOTDEV {
        OnlyOne(s.c, a.i);
        Mended(s.c.bufs, a.i, u, torn);
      } else {
        NeverTorn(s.c, a.i);
        SameTorn(s.c.bufs, Apply(s, a).c.bufs, torn);
      }
    }
  }

  lemma {:induction false} NoneTorn(bufs: seq<Buf>)
    requires forall i :: 0 <= i < |bufs| ==> !bufs[i].torn
    ensures TornIs(bufs, map[])
  {
  }

  lemma {:induction false} TornData(s: State, t: nat, i: nat, b: nat, torn: map<nat, Block>)
    requires Inv(s) && TornIs(s.c.bufs, torn) && Holds(s.c, t, i, b) && !s.c.bufs[i].dirty
    ensures s.c.bufs[i].torn <==> b in torn
    ensures b in torn ==> s.c.bufs[i].data == torn[b]
  {
    hide LogOk, Admission, DirtyOk, HeldOk, BufOk, CacheInv;
    OnlyOne(s.c, i) by { InvCache(s); }
    if b in torn {
      var j :| 0 <= j < |s.c.bufs| && Caches(s.c.bufs[j], b) && s.c.bufs[j].torn;
    }
  }
}
