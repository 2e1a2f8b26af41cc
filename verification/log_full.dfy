/**
 The other half: when the blocks logged or about to be logged fill the cache, nobody is ever admitted
 again without a crash.
 */
module LogFull {
  import opened Param
  import opened Common
  import opened CacheModel
  import opened LogModel
  import opened LogInvariant
  import opened LogTheorems
  import opened LogCapacity
  import opened LogProgress

  ghost predicate Jammed(s: State) { Inv(s) && Wf(s) && WithinShare(s) && !BufferOver(s) }

  // ----- no log block is cached -----

  lemma {:induction false} TakenHome(s: State, b: nat)
    requires Inv(s) && b in Taken(s.c)
    ensures Cached(s.c.bufs, b) && !LogRegion(s.start, b)
  {
    hide Admission, HeaderOk, HomeOk, MidOk;
    if b in s.c.pins {
      var i :| 0 <= i < |s.c.bufs| && Caches(s.c.bufs[i], b) && s.c.bufs[i].valid;
    } else {
      var i :| 0 <= i < |s.c.bufs| && s.c.bufs[i].dirty && s.c.bufs[i].blockno == b;
      assert BufOk(s.c, s.c.bufs[i]);
      assert Caches(s.c.bufs[i], b);
    }
  }

  lemma {:induction false} OnlyTaken(s: State, b: nat)
    requires Jammed(s) && Cached(s.c.bufs, b)
    ensures b in Taken(s.c) && !LogRegion(s.start, b)
  {
    hide Inv, Taken;
    forall h | h in Taken(s.c) ensures Cached(s.c.bufs, h) { TakenHome(s, h); }
    AllHeld(s.c.bufs, Taken(s.c), b);
    TakenHome(s, b);
  }

  lemma {:induction false} NotHeld(s: State, i: nat, b: nat)
    requires Jammed(s) && HoldsBlock(s, i, b)
    ensures !LogRegion(s.start, b)
  {
    hide Jammed;
    assert Caches(s.c.bufs[i], b);
    OnlyTaken(s, b);
  }

  lemma {:induction false} NotWriting(s: State)
    requires Jammed(s)
    ensures !Writing(s)
  {
    hide Inv, Wf, Taken, WithinShare, HoldsBlock;
    if Writing(s) {
      Start(From(s));
      StagedBlock(From(s), s);
      var i := HoldsStaged(From(s), s);
      NotHeld(s, i, s.c.mid.value.b);
    }
  }

  lemma {:induction false} JammedPhase(s: State)
    requires Jammed(s)
    ensures s.phase.Ops? || s.phase.WLog? || s.phase.Inst?
    ensures !s.recovering && (!s.phase.Ops? ==> s.ops == map[] && s.committing)
  {
    hide CacheInv, LogOk, DirtyOk, HeldOk, BufferOver, Taken, WithinShare;
    Start(From(s));
    PinFacts(From(s), s);
    NotWriting(s);
    NothingTaken(s);
  }

  lemma {:induction false} NothingTaken(s: State)
    requires Jammed(s)
    ensures (!s.phase.Ops? || s.recovering ==> s.c.pins != {})
  {
    hide Inv;
    if !s.phase.Ops? || s.recovering {
      Calm(s);
      assert DirtyBlocks(s.c.bufs) == {};
    }
  }

  lemma {:induction false} Calm(s: State)
    requires Inv(s) && (!s.phase.Ops? || s.recovering)
    ensures Clean(s.c.bufs) && !s.phase.Ops?
  {
    if s.phase.Ops? { OpsNotRecovering(s); assert false; }
    Quiet(s);
  }

  // ----- nobody gets in -----

  lemma {:induction false} ShareBound(bufs: seq<Buf>, lh: seq<nat>, ops: map<nat, nat>, held: set<nat>)
    requires forall b :: b in held ==> exists t :: t in ops && b in Unlogged(bufs, lh, t)
    requires forall t :: t in ops ==> |Unlogged(bufs, lh, t)| <= ops[t]
    ensures |held| <= Sum(ops)
    decreases |ops|
  {
    if ops == map[] {
      assert held == {};
    } else {
      var k :| k in ops;
      var mine, rest := Unlogged(bufs, lh, k), ops - {k};
      assert rest.Keys == ops.Keys - {k};
      ShareBound(bufs, lh, rest, held - mine);
      SumRemove(ops, k);
      SubsetSize(held, (held - mine) + mine);
    }
  }

  lemma {:induction false} JammedNoRoom(s: State)
    requires Jammed(s) && s.phase.Ops?
    ensures NoRoom(s)
  {
    hide CacheInv, LogOk, HeldOk, Unlogged, DirtyBlocks;
    var held := DirtyBlocks(s.c.bufs) - ToSet(s.lh);
    forall b | b in held ensures exists t :: t in s.ops && b in Unlogged(s.c.bufs, s.lh, t) {
      var t := WhoChanged(s, b);
    }
    ShareBound(s.c.bufs, s.lh, s.ops, held);
    SumBound(s.ops);
    PinsAre(s);
    OpsNotRecovering(s);
    assert Taken(s.c) == s.c.pins + held;
  }

  lemma {:induction false} WhoChanged(s: State, b: nat) returns (t: nat)
    requires Jammed(s) && b in DirtyBlocks(s.c.bufs) && b !in s.lh
    ensures t in s.ops && b in Unlogged(s.c.bufs, s.lh, t)
  {
    hide Inv, Wf, WithinShare, BufferOver;
    var i: nat :| i < |s.c.bufs| && s.c.bufs[i].dirty && s.c.bufs[i].blockno == b;
    DirtyFacts(From(s), s, i) by { Start(From(s)); }
    t := s.c.bufs[i].owner.value;
  }

  lemma {:induction false} JammedAdmitsNone(s: State, t: nat)
    requires Jammed(s)
    ensures !Admits(s, t)
  {
    hide Jammed;
    JammedPhase(s);
    if s.phase.Ops? { JammedNoRoom(s); }
  }

  // ----- and it stays so -----

  // The same buffers are changed, by the same threads; the same blocks are logged.
  predicate SameDirt(s: State, s': State) {
    && s'.c.pins == s.c.pins && s'.lh == s.lh && |s'.c.bufs| == |s.c.bufs|
    && (forall t :: t in s'.ops ==> t in s.ops && s'.ops[t] == s.ops[t])
    && (forall i :: 0 <= i < |s.c.bufs| ==> s'.c.bufs[i].dirty == s.c.bufs[i].dirty)
    && (forall i :: 0 <= i < |s.c.bufs| && s.c.bufs[i].dirty ==>
          s'.c.bufs[i].owner == s.c.bufs[i].owner && s'.c.bufs[i].blockno == s.c.bufs[i].blockno)
  }

  lemma {:induction false} SameTaken(s: State, s': State)
    requires SameDirt(s, s') && WithinShare(s)
    ensures Taken(s'.c) == Taken(s.c) && WithinShare(s')
  {
    assert DirtyBlocks(s'.c.bufs) == DirtyBlocks(s.c.bufs);
    forall t | t in s'.ops ensures |Unlogged(s'.c.bufs, s'.lh, t)| <= s'.ops[t] {
      assert Unlogged(s'.c.bufs, s'.lh, t) == Unlogged(s.c.bufs, s.lh, t);
    }
  }

  // The changes of a buffer by its owner are of blocks that are changed or logged already.
  lemma {:induction false} OldBlock(s: State, i: nat)
    requires Jammed(s) && i < |s.c.bufs| && s.c.bufs[i].dev == ROOTDEV
    ensures s.c.bufs[i].dirty || s.c.bufs[i].blockno in s.c.pins
  {
    hide LogOk, Admission, DirtyOk, HeldOk, WithinShare, BufferOver;
    var b := s.c.bufs[i].blockno;
    assert Caches(s.c.bufs[i], b);
    OnlyTaken(s, b);
    if b !in s.c.pins {
      var j :| 0 <= j < |s.c.bufs| && s.c.bufs[j].dirty && s.c.bufs[j].blockno == b;
      assert BufOk(s.c, s.c.bufs[j]);
    }
  }

  predicate OnCache(a: Action) { a.BgetHit? || a.BgetMiss? || a.Lock? || a.Fill? || a.Brelse? }

  lemma {:induction false} CacheSameDirt(s: State, a: Action)
    requires CacheInv(s.c) && Wf(s) && Enabled(s, a) && OnCache(a)
    ensures SameDirt(s, Apply(s, a)) && Apply(s, a).phase == s.phase
  {
    hide CacheInv, SameDirt;
    assert BufOk(s.c, s.c.bufs[a.i]) by { OneOk(s.c, a.i); }
    OneBuffer(s, Apply(s, a), a.i);
  }

  lemma {:induction false} OneOk(c: Cache, i: nat)
    requires CacheInv(c) && i < NBUF
    ensures |c.disk| == |c.logical| && |c.bufs| == NBUF && BufOk(c, c.bufs[i])
  {
    hide BufOk;
  }

  lemma {:induction false} OneBuffer(s: State, s': State, i: nat)
    requires i < |s.c.bufs| == |s'.c.bufs| && s' == WithBuf(s, i, s'.c.bufs[i])
    requires s'.c.bufs[i].dirty == s.c.bufs[i].dirty
    requires s.c.bufs[i].dirty ==>
               s'.c.bufs[i].owner == s.c.bufs[i].owner && s'.c.bufs[i].blockno == s.c.bufs[i].blockno
    ensures SameDirt(s, s')
  {
  }

  lemma {:induction false} JammedOnCache(s: State, a: Action)
    requires Jammed(s) && Enabled(s, a) && OnCache(a)
    ensures WithinShare(Apply(s, a)) && !BufferOver(Apply(s, a))
  {
    hide LogOk, Admission, DirtyOk, HeldOk, WithinShare, CacheInv, Wf, Enabled, Apply, SameDirt, OnCache, Taken;
    CacheSameDirt(s, a);
    SameTaken(s, Apply(s, a));
  }

  // A change of a block that is in the log
  lemma {:induction false} ChangeLogged(bufs: seq<Buf>, lh: seq<nat>, i: nat, u: Buf, t: nat)
    requires i < |bufs| && u.blockno == bufs[i].blockno && u.blockno in lh && u.dirty
    ensures Unlogged(bufs[i := u], lh, t) == Unlogged(bufs, lh, t)
    ensures DirtyBlocks(bufs) <= DirtyBlocks(bufs[i := u])
  {
    var bufs' := bufs[i := u];
    assert forall j :: 0 <= j < |bufs| && j != i ==> bufs'[j] == bufs[j];
    forall b | b in DirtyBlocks(bufs) ensures b in DirtyBlocks(bufs') {
      var j :| 0 <= j < |bufs| && bufs[j].dirty && bufs[j].blockno == b;
      assert bufs'[j].dirty && bufs'[j].blockno == b;
    }
    forall b ensures b in Unlogged(bufs', lh, t) <==> b in Unlogged(bufs, lh, t) {
      if b in Unlogged(bufs, lh, t) {
        var j :| 0 <= j < |bufs| && bufs[j].dirty && bufs[j].owner == Some(t) && bufs[j].blockno == b;
        assert bufs'[j].blockno == b;
      }
    }
  }

  lemma {:induction false} JammedModify(s: State, t: nat, i: nat, d: Block)
    requires Jammed(s) && Enabled(s, Modify(t, i, d))
    ensures WithinShare(Apply(s, Modify(t, i, d))) && !BufferOver(Apply(s, Modify(t, i, d)))
  {
    hide Inv, Wf, Unlogged, DirtyBlocks, SameDirt;
    var s' := Apply(s, Modify(t, i, d));
    OldBlock(s, i);
    PinsInOps(s, t);
    if s.c.bufs[i].dirty {
      OneBuffer(s, s', i);
      SameTaken(s, s');
    } else {
      forall u | u in s'.ops ensures |Unlogged(s'.c.bufs, s'.lh, u)| <= s'.ops[u] {
        ChangeLogged(s.c.bufs, s.lh, i, s'.c.bufs[i], u);
      }
      ChangeLogged(s.c.bufs, s.lh, i, s'.c.bufs[i], t);
      SubsetSize(Taken(s.c), Taken(s'.c));
    }
  }

  // A copy torn into a block that is in the log: all others in the cache are being changed.
  lemma {:induction false} JammedTear(s: State, t: nat, i: nat, d: Block)
    requires Jammed(s) && Enabled(s, Tear(t, i, d))
    ensures WithinShare(Apply(s, Tear(t, i, d))) && !BufferOver(Apply(s, Tear(t, i, d)))
  {
    hide Inv, Wf, WithinShare, Taken;
    OldBlock(s, i);
    SameTaken(s, Apply(s, Tear(t, i, d)));
  }

  lemma {:induction false} PinsInOps(s: State, t: nat)
    requires Inv(s) && t in s.ops
    ensures s.phase.Ops? && s.c.pins == ToSet(s.lh)
  {
    hide CacheInv, DirtyOk, HeldOk;
    OpsOnly(s, t);
  }

  lemma {:induction false} JammedLogWrite(s: State, t: nat, i: nat)
    requires Jammed(s) && Enabled(s, LogWrite(t, i))
    ensures WithinShare(Apply(s, LogWrite(t, i))) && !BufferOver(Apply(s, LogWrite(t, i)))
  {
    hide Inv, Wf, WithinShare, Taken;
    OldBlock(s, i);
    PinsInOps(s, t);
    LoggedShare(s, Apply(s, LogWrite(t, i)), t, i);
  }

  lemma {:induction false} JammedBeginEnd(s: State, a: Action)
    requires Jammed(s) && Enabled(s, a) && (a.Begin? || a.End?)
    ensures WithinShare(Apply(s, a)) && !BufferOver(Apply(s, a))
  {
    hide Inv, Wf, WithinShare, Taken;
    JammedPhase(s);
    if s.phase.Ops? { JammedNoRoom(s); }
    SameTaken(s, Apply(s, a));
  }

  // Every step of a commit needs a log block.
  lemma {:induction false} NoCommitStep(s: State, a: Action)
    requires Jammed(s) && !ByOperation(a) && !a.Crash?
    ensures !Enabled(s, a)
  {
    hide Jammed, HoldsBlock;
    JammedPhase(s);
    assert Wf(s) by { JammedWf(s); }
    if Enabled(s, a) {
      if a.CopyLog? { NotHeld(s, a.to, s.start + 1 + s.phase.k); }
      if a.CopyInst? { NotHeld(s, a.lbuf, s.start + 1 + s.phase.k); }
      if a.FillHead? || a.FillClear? { NotHeld(s, a.i, s.start); }
    }
  }

  lemma {:induction false} JammedWf(s: State)
    requires Jammed(s)
    ensures Wf(s)
  {
  }

  lemma {:induction false} JammedStep(s: State, a: Action)
    requires Jammed(s) && Wf(s) && Enabled(s, a) && !a.Crash?
    ensures Jammed(Apply(s, a))
  {
    hide Inv, Wf, Enabled, Apply, WithinShare, BufferOver;
    StepInv(s, a);
    if !ByOperation(a) {
      NoCommitStep(s, a);
    } else if OnCache(a) {
      JammedOnCache(s, a);
    } else if a.Modify? {
      JammedModify(s, a.t, a.i, a.d);
    } else if a.Tear? {
      JammedTear(s, a.t, a.i, a.d);
    } else if a.LogWrite? {
      JammedLogWrite(s, a.t, a.i);
    } else {
      JammedBeginEnd(s, a);
    }
  }

  lemma {:induction false} JammedRun(ss: seq<State>, acts: seq<Action>, k: nat)
    requires Run(ss, acts) && Jammed(ss[0]) && k < |ss| && forall j :: 0 <= j < |acts| ==> !acts[j].Crash?
    ensures Jammed(ss[k])
  {
    hide Jammed, Wf, Enabled, Apply;
    if k > 0 {
      JammedRun(ss, acts, k - 1);
      assert Step(ss[k - 1], acts[k - 1], ss[k]);
      JammedStep(ss[k - 1], acts[k - 1]);
    }
  }

  /** Some run from s, without a crash, comes to where a begin_op by t is admitted. */
  ghost predicate MayGetIn(s: State, t: nat) { exists s' :: Leads(s, s') && Admits(s', t) }

  /** From a state whose operations keep to their shares, a thread may still get in exactly if the
      blocks logged or about to be logged leave a buffer over. */
  lemma {:induction false} WaitEnds(s: State, t: nat)
    requires Inv(s) && WithinShare(s)
    ensures MayGetIn(s, t) <==> BufferOver(s)
  {
    hide Inv, WithinShare, BufferOver, Admits;
    if BufferOver(s) {
      var s' := SomebodyGetsIn(s, t);
    } else if s' :| Leads(s, s') && Admits(s', t) {
      var ss, acts :| Path(ss, acts, s, s');
      InvWf(s);
      JammedRun(ss, acts, |acts|);
      JammedAdmitsNone(s', t);
    }
  }
}
