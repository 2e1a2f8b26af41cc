/**
 The invariant of the log machine: cache, log and disk together always represent one
 logical disk, and the on-disk log always recovers to a committed one.
 */
module LogInvariant {
  import opened Param
  import opened Common
  import opened CacheModel
  import opened LogModel

  // ----- sums over the budgets of the running operations -----

  ghost function Sum(m: map<nat, nat>): (r: nat)
    decreases |m|
  {
    if m == map[] then 0 else
      var k :| k in m;
      assert |m - {k}| < |m| by { assert (m - {k}).Keys == m.Keys - {k}; }
      m[k] + Sum(m - {k})
  }

  lemma {:induction false} SumRemove(m: map<nat, nat>, k: nat)
    requires k in m
    ensures Sum(m) == m[k] + Sum(m - {k})
    decreases |m|
  {
    var j :| j in m && Sum(m) == m[j] + Sum(m - {j});
    if j != k {
      assert (m - {j}).Keys == m.Keys - {j};
      assert (m - {k}).Keys == m.Keys - {k};
      SumRemove(m - {j}, k);
      SumRemove(m - {k}, j);
      assert m - {j} - {k} == m - {k} - {j};
    }
  }

  lemma {:induction false} SumUpdate(m: map<nat, nat>, k: nat, v: nat)
    ensures Sum(m[k := v]) == v + Sum(m - {k})
  {
    SumRemove(m[k := v], k);
    assert m[k := v] - {k} == m - {k};
  }

  lemma {:induction false} SumBound(m: map<nat, nat>)
    requires forall t :: t in m ==> m[t] <= MAXOPBLOCKS
    ensures Sum(m) <= |m| * MAXOPBLOCKS
    decreases |m|
  {
    if m != map[] {
      var k :| k in m;
      assert (m - {k}).Keys == m.Keys - {k};
      SumRemove(m, k);
      SumBound(m - {k});
    }
  }

  // ----- the invariant -----

  predicate Home(start: nat, n: nat, b: nat) { b < n && !LogRegion(start, b) }

  // The part of lh that is not installed yet: its buffers are pinned.
  function Pending(lh: seq<nat>, phase: Phase, recovering: bool): (l: seq<nat>) {
    if recovering then []
    else if (phase.Inst? || phase.InstW?) && phase.k <= |lh| then lh[phase.k..]
    else lh
  }

  function ToSet(l: seq<nat>): set<nat> { set b | b in l }

  predicate PhaseOk(lh: seq<nat>, phase: Phase, recovering: bool) {
    && (phase.WLog? || phase.Inst? ==> phase.k <= |lh|)
    && (phase.WLogW? || phase.InstW? ==> phase.k < |lh|)
    && (phase.ClearW? || phase.Done? || phase.Boot? ==> lh == [])
    && (recovering ==> phase.Boot? || phase.Inst? || phase.InstW? || phase.ClearW?)
    && (phase.Boot? ==> recovering)
    && |lh| <= LOGBLOCKS && Distinct(lh)
  }

  // The staged buffer, if any, and its contents.
  predicate MidOk(mid: Option<Mid>, disk: seq<Block>, logical: seq<Block>, start: nat, lh: seq<nat>, phase: Phase)
    requires GoodDisk(disk, start) && |lh| <= LOGBLOCKS
  {
    match phase
    case WLogW(k) =>
      k < |lh| && lh[k] < |logical| && mid == Some(Mid(start + 1 + k, logical[lh[k]]))
    case InstW(k) => k < |lh| && lh[k] < |logical| && mid == Some(Mid(lh[k], logical[lh[k]]))
    case HeadW => mid == Some(Mid(start, HeaderInto(disk[start], lh)))
    case ClearW => mid == Some(Mid(start, HeaderInto(disk[start], [])))
    case _ => mid == None
  }

  /** The log on the disk holds the logical contents of the blocks its header names. */
  predicate HeaderOk(disk: seq<Block>, logical: seq<Block>, start: nat)
    requires GoodDisk(disk, start) && |disk| == |logical|
  {
    var h := Header(disk[start]);
    && Distinct(h)
    && (forall k :: 0 <= k < |h| ==> Home(start, |disk|, h[k]) && disk[start + 1 + k] == logical[h[k]])
  }

  /** A home block that is neither in the on-disk log nor pinned is up to date. */
  ghost predicate HomeOk(disk: seq<Block>, logical: seq<Block>, start: nat, pins: set<nat>)
    requires GoodDisk(disk, start) && |disk| == |logical|
  {
    forall b: nat {:trigger disk[b]} :: Home(start, |disk|, b) && b !in Header(disk[start]) && b !in pins ==>
      disk[b] == logical[b]
  }

  /** How far the commit has come. */
  ghost predicate ProgressOk(disk: seq<Block>, logical: seq<Block>, start: nat, lh: seq<nat>, phase: Phase)
    requires GoodDisk(disk, start) && |disk| == |logical| && |lh| <= LOGBLOCKS
  {
    && (forall k :: 0 <= k < |lh| ==> Home(start, |disk|, lh[k]))
    && (phase.Ops? || phase.WLog? || phase.WLogW? || phase.HeadW? || phase.Done? ==> Header(disk[start]) == [])
    && (phase.Inst? || phase.InstW? ==> Header(disk[start]) == lh)
    && (phase.WLog? || phase.WLogW? || phase.HeadW? ==>
          forall k :: 0 <= k < (if phase.HeadW? then |lh| else phase.k) && k < |lh| ==>
            disk[start + 1 + k] == logical[lh[k]])
    && (phase.Inst? || phase.InstW? ==>
          forall k :: 0 <= k < phase.k && k < |lh| ==> disk[lh[k]] == logical[lh[k]])
    && (phase.ClearW? ==> forall b: nat :: Home(start, |disk|, b) ==> disk[b] == logical[b])
  }

  ghost predicate LogOk(disk: seq<Block>, logical: seq<Block>, pins: set<nat>, mid: Option<Mid>,
                        start: nat, lh: seq<nat>, phase: Phase, recovering: bool) {
    && GoodDisk(disk, start) && |disk| == |logical|
    && PhaseOk(lh, phase, recovering)
    && pins == ToSet(Pending(lh, phase, recovering))
    && MidOk(mid, disk, logical, start, lh, phase)
    && HeaderOk(disk, logical, start)
    && HomeOk(disk, logical, start, pins)
    && ProgressOk(disk, logical, start, lh, phase)
  }

  /** Admission control: what is logged plus what may still be logged fits in the log, no
      operation runs during a commit, an idle log is empty, and nobody sleeps in begin_op
      when it could be admitted. */
  ghost predicate Admission(s: State) {
    && s.outstanding == |s.ops|
    && (forall t :: t in s.ops ==> s.ops[t] <= MAXOPBLOCKS)
    && |s.lh| + Sum(s.ops) <= LOGBLOCKS
    && (s.committing <==> !s.phase.Ops? && !s.recovering)
    && (!s.phase.Ops? ==> s.ops == map[])
    && (s.phase.Ops? && s.outstanding == 0 ==> s.lh == [])
    && (s.sleepers != {} ==> !s.recovering && (s.committing || NoRoom(s)))
  }

  // Only a running operation has changes still to be logged; neither these nor torn copies are of the
  // log's own blocks, and there are none before recovery is over.
  predicate DirtyOk(bufs: seq<Buf>, ops: map<nat, nat>, start: nat, recovering: bool) {
    && (forall i :: 0 <= i < |bufs| && bufs[i].dirty && bufs[i].owner.Some? ==>
          bufs[i].owner.value in ops && !LogRegion(start, bufs[i].blockno))
    && (forall i :: 0 <= i < |bufs| && bufs[i].torn ==> !recovering && !LogRegion(start, bufs[i].blockno))
  }

  // A staged buffer is locked by the thread that staged it.
  predicate HeldOk(bufs: seq<Buf>, mid: Option<Mid>, committer: nat) {
    mid.Some? ==> forall i :: 0 <= i < |bufs| && Caches(bufs[i], mid.value.b) ==> bufs[i].owner == Some(committer)
  }

  ghost predicate Inv(s: State) {
    && CacheInv(s.c)
    && LogOk(s.c.disk, s.c.logical, s.c.pins, s.c.mid, s.start, s.lh, s.phase, s.recovering)
    && Admission(s)
    && DirtyOk(s.c.bufs, s.ops, s.start, s.recovering)
    && HeldOk(s.c.bufs, s.c.mid, s.committer)
  }

  lemma {:induction false} InvWf(s: State)
    requires Inv(s)
    ensures Wf(s)
  {
    forall i | 0 <= i < NBUF
      ensures |s.c.bufs[i].data| == BWORDS && (s.c.bufs[i].dev == ROOTDEV ==> s.c.bufs[i].blockno < |s.c.disk|)
    { assert BufOk(s.c, s.c.bufs[i]); }
  }

  // ----- small facts -----

  lemma {:induction false} HeaderRoundTrip(d: Block, l: seq<nat>)
    requires |d| == BWORDS && |l| <= LOGBLOCKS
    ensures GoodHeader(HeaderInto(d, l)) && Header(HeaderInto(d, l)) == l
  {
    assert HeaderInto(d, l)[1..1 + |l|] == l;
  }

  lemma {:induction false} IndexOfDistinct(l: seq<nat>, k: nat)
    requires Distinct(l) && k < |l|
    ensures IndexOf(l, l[k]) == k
  {
    if k > 0 {
      assert l[0] != l[k];
      IndexOfDistinct(l[1..], k - 1);
    }
  }

  // ----- every step keeps the invariant -----

  // Room for the new operation's full budget follows from the test begin_op makes.
  lemma {:induction false} Admit(ops: map<nat, nat>, t: nat)
    requires t !in ops && forall u :: u in ops ==> ops[u] <= MAXOPBLOCKS
    ensures Sum(ops[t := MAXOPBLOCKS]) <= (|ops| + 1) * MAXOPBLOCKS && |ops[t := MAXOPBLOCKS]| == |ops| + 1
  {
    assert ops[t := MAXOPBLOCKS].Keys == ops.Keys + {t};
    SumBound(ops[t := MAXOPBLOCKS]);
  }

  lemma {:induction false} StepBegin(s: State, t: nat)
    requires Inv(s) && Wf(s) && Enabled(s, Begin(t))
    ensures Inv(Apply(s, Begin(t)))
  {
    var s' := Apply(s, Begin(t));
    if !(s.committing || NoRoom(s)) { Admit(s.ops, t); }
    assert Admission(s');
  }

  lemma {:induction false} Retire(ops: map<nat, nat>, t: nat)
    requires t in ops
    ensures Sum(ops - {t}) <= Sum(ops) && |ops - {t}| == |ops| - 1
  {
    SumRemove(ops, t);
    assert (ops - {t}).Keys == ops.Keys - {t};
  }

  lemma {:induction false} StepEnd(s: State, t: nat)
    requires Inv(s) && Wf(s) && Enabled(s, End(t))
    ensures Inv(Apply(s, End(t)))
  {
    Retire(s.ops, t);
    assert Admission(Apply(s, End(t)));
  }

  lemma {:induction false} StepFinish(s: State)
    requires Inv(s) && Wf(s) && Enabled(s, Finish)
    ensures Inv(Apply(s, Finish))
  {
  }

  /** A step that changes one buffer only. */
  lemma {:induction false} CacheOnly(s: State, i: nat, c: Cache)
    requires Inv(s) && i < NBUF && CacheInv(c)
    requires c == s.c.(bufs := s.c.bufs[i := c.bufs[i]])
    requires c.bufs[i].dirty ==>
               s.c.bufs[i].dirty && c.bufs[i].owner == s.c.bufs[i].owner && c.bufs[i].blockno == s.c.bufs[i].blockno
    requires c.bufs[i].torn ==> s.c.bufs[i].torn && c.bufs[i].blockno == s.c.bufs[i].blockno
    requires c.mid.Some? && Caches(c.bufs[i], c.mid.value.b) ==>
               Caches(s.c.bufs[i], c.mid.value.b) && c.bufs[i].owner == s.c.bufs[i].owner
    ensures Inv(s.(c := c))
  {
    hide LogOk, BufOk;
  }

  lemma {:induction false} StepHit(s: State, t: nat, i: nat, b: nat)
    requires Inv(s) && Wf(s) && Enabled(s, BgetHit(t, i, b))
    ensures Inv(Apply(s, BgetHit(t, i, b)))
  {
    hide Inv;
    assert CacheInv(s.c) by { InvCache(s); }
    KeepHit(s.c, t, i, b);
    CacheOnly(s, i, CacheModel.BgetHit(s.c, t, i));
  }

  lemma {:induction false} StepMiss(s: State, t: nat, i: nat, b: nat)
    requires Inv(s) && Wf(s) && Enabled(s, BgetMiss(t, i, b))
    ensures Inv(Apply(s, BgetMiss(t, i, b)))
  {
    hide Inv, BufOk;
    InvCache(s);
    KeepMiss(s.c, t, i, b);
    CacheOnly(s, i, CacheModel.BgetMiss(s.c, t, i, b));
  }

  lemma {:induction false} InvCache(s: State)
    requires Inv(s)
    ensures CacheInv(s.c)
  {
  }

  lemma {:induction false} StepLock(s: State, t: nat, i: nat)
    requires Inv(s) && Wf(s) && Enabled(s, Lock(t, i))
    ensures Inv(Apply(s, Lock(t, i)))
  {
    assert BufOk(s.c, s.c.bufs[i]);
    KeepLock(s.c, t, i);
    CacheOnly(s, i, CacheModel.Lock(s.c, t, i));
  }

  lemma {:induction false} StepFill(s: State, t: nat, i: nat)
    requires Inv(s) && Wf(s) && Enabled(s, Fill(t, i))
    ensures Inv(Apply(s, Fill(t, i)))
  {
    KeepFill(s.c, t, i);
    CacheOnly(s, i, CacheModel.Fill(s.c, i));
  }

  lemma {:induction false} StepRelease(s: State, t: nat, i: nat)
    requires Inv(s) && Wf(s) && Enabled(s, Brelse(t, i))
    ensures Inv(Apply(s, Brelse(t, i)))
  {
    KeepRelease(s.c, t, i);
    CacheOnly(s, i, CacheModel.Brelse(s.c, t, i));
  }

  lemma {:induction false} OpsOnly(s: State, t: nat)
    requires Inv(s) && t in s.ops
    ensures s.phase.Ops? && !s.recovering && s.c.mid == None
    ensures Pending(s.lh, s.phase, s.recovering) == s.lh
  {
  }

  lemma {:induction false} StepModify(s: State, t: nat, i: nat, d: Block)
    requires Inv(s) && Wf(s) && Enabled(s, Modify(t, i, d))
    ensures Inv(Apply(s, Modify(t, i, d)))
  {
    OpsOnly(s, t);
    KeepModify(s.c, t, i, d);
    var c := CacheModel.Modify(s.c, i, d);
    assert DirtyOk(c.bufs, s.ops, s.start, s.recovering);
  }

  lemma {:induction false} PublishLog(disk: seq<Block>, logical: seq<Block>, pins: set<nat>, start: nat, lh: seq<nat>,
                                      b: nat, d: Block)
    requires LogOk(disk, logical, pins, None, start, lh, Ops, false)
    requires Home(start, |disk|, b) && |d| == BWORDS
    ensures b in lh ==> b in pins && LogOk(disk, logical[b := d], pins, None, start, lh, Ops, false)
    ensures b !in lh && |lh| < LOGBLOCKS ==>
              b !in pins && LogOk(disk, logical[b := d], pins + {b}, None, start, lh + [b], Ops, false)
  {
  }

  lemma {:induction false} StepTear(s: State, t: nat, i: nat, d: Block)
    requires Inv(s) && Wf(s) && Enabled(s, Tear(t, i, d))
    ensures Inv(Apply(s, Tear(t, i, d)))
  {
    hide CacheInv, LogOk;
    OpsOnly(s, t);
    KeepTear(s.c, t, i, d);
    var b := s.c.bufs[i].blockno;
    PublishLog(s.c.disk, s.c.logical, s.c.pins, s.start, s.lh, b, d);
    PinnedLogged(s.c.disk, s.c.logical, s.c.pins, s.start, s.lh, b);
  }

  lemma {:induction false} PinnedLogged(disk: seq<Block>, logical: seq<Block>, pins: set<nat>, start: nat,
                                        lh: seq<nat>, b: nat)
    requires LogOk(disk, logical, pins, None, start, lh, Ops, false)
    ensures b in pins <==> b in lh
  {
  }

  lemma {:induction false} StepLogWrite(s: State, t: nat, i: nat)
    requires Inv(s) && Wf(s) && Enabled(s, LogWrite(t, i))
    ensures Inv(Apply(s, LogWrite(t, i)))
  {
    hide CacheInv, LogOk, HeldOk, DirtyOk;
    OpsOnly(s, t);
    KeepPublish(s.c, t, i);
    PublishLog(s.c.disk, s.c.logical, s.c.pins, s.start, s.lh, s.c.bufs[i].blockno, s.c.bufs[i].data);
    if s.c.bufs[i].blockno !in s.lh {
      SumRemove(s.ops, t);
      SumUpdate(s.ops, t, s.ops[t] - 1);
      assert s.ops[t := s.ops[t] - 1].Keys == s.ops.Keys;
    }
    NothingHeld(Publish(s.c, i).bufs, s.committer);
    LoggedClean(s.c, i, s.ops, s.start, s.recovering);
  }

  lemma {:induction false} LoggedClean(c: Cache, i: nat, ops: map<nat, nat>, start: nat, recovering: bool)
    requires i < |c.bufs| && c.bufs[i].blockno < |c.logical| && DirtyOk(c.bufs, ops, start, recovering)
    ensures forall ops': map<nat, nat> :: ops'.Keys == ops.Keys ==> DirtyOk(Publish(c, i).bufs, ops', start, recovering)
  {
  }

  lemma {:induction false} NothingHeld(bufs: seq<Buf>, committer: nat)
    ensures HeldOk(bufs, None, committer)
  {
  }

  // ----- commit and recovery -----

  // Outside Ops there are no operations, so nothing is dirty.
  lemma {:induction false} Quiet(s: State)
    requires Inv(s) && !s.phase.Ops?
    ensures s.ops == map[] && s.outstanding == 0 && Sum(s.ops) == 0
    ensures forall i :: 0 <= i < NBUF ==> !s.c.bufs[i].dirty
  {
    forall i | 0 <= i < NBUF ensures !s.c.bufs[i].dirty { assert BufOk(s.c, s.c.bufs[i]); }
  }

  // A block that no copy from user memory can be torn into without the log noticing.
  predicate Solid(s: State, b: nat) { LogRegion(s.start, b) || b in s.c.pins || s.recovering }

  lemma {:induction false} NotTorn(s: State, i: nat)
    requires Inv(s) && i < NBUF && Solid(s, s.c.bufs[i].blockno)
    ensures !s.c.bufs[i].torn
  {
    assert BufOk(s.c, s.c.bufs[i]);
  }

  /** The committer stages new contents in a buffer it holds. */
  lemma {:induction false} StageStep(s: State, i: nat, d: Block, lh: seq<nat>, phase: Phase)
    requires Inv(s) && i < NBUF && Holds(s.c, s.committer, i, s.c.bufs[i].blockno) && |d| == BWORDS
    requires !s.phase.Ops? && s.c.mid == None && !phase.Ops? && |lh| <= |s.lh| && Solid(s, s.c.bufs[i].blockno)
    requires LogOk(s.c.disk, s.c.logical, s.c.pins, Some(Mid(s.c.bufs[i].blockno, d)), s.start, lh, phase, s.recovering)
    ensures Inv(s.(c := Stage(s.c, i, d), lh := lh, phase := phase))
  {
    hide LogOk, BufOk;
    Quiet(s);
    NotTorn(s, i);
    KeepStage(s.c, s.committer, i, d);
  }

  /** The committer writes the staged buffer to the disk. */
  lemma {:induction false} WriteStep(s: State, i: nat, phase: Phase, rec: bool)
    requires Inv(s) && i < NBUF && Holds(s.c, s.committer, i, s.c.bufs[i].blockno)
    requires !s.phase.Ops? && s.c.mid.Some? && s.c.mid.value.b == s.c.bufs[i].blockno < |s.c.disk|
    requires s.c.bufs[i].refcnt > 0
    requires phase.Ops? ==> s.recovering && !rec && s.lh == []
    requires !phase.Ops? ==> rec == s.recovering
    requires LogOk(s.c.disk[s.c.mid.value.b := s.c.mid.value.d], s.c.logical, s.c.pins - {s.c.mid.value.b}, None,
                   s.start, s.lh, phase, rec)
    ensures Inv(s.(c := Bwrite(s.c, i), phase := phase, recovering := rec))
  {
    hide LogOk, BufOk;
    Quiet(s);
    KeepWrite(s.c, s.committer, i);
    var c := Bwrite(s.c, i);
    assert c.pins == s.c.pins - {s.c.mid.value.b};
    assert c.disk == s.c.disk[s.c.mid.value.b := s.c.mid.value.d];
  }

  lemma {:induction false} DataOf(s: State, i: nat, b: nat)
    requires Inv(s) && HoldsBlock(s, i, b) && b < |s.c.disk| && !s.phase.Ops? && Solid(s, b)
    ensures s.c.bufs[i].data == Expected(s.c, b) && !s.c.bufs[i].dirty
  {
    NotTorn(s, i);
    assert BufOk(s.c, s.c.bufs[i]);
  }

  lemma {:induction false} LogicalBlocks(c: Cache)
    requires CacheInv(c)
    ensures Blocks(c.logical)
  {
  }

  // What is staged in the phases between filling a buffer and writing it.
  lemma {:induction false} Staged(s: State)
    requires Inv(s) && (s.phase.WLogW? || s.phase.InstW?)
    ensures var k := s.phase.k;
      && k < |s.lh| && s.lh[k] < |s.c.logical| && Blocks(s.c.logical) && (s.phase.WLogW? ==> !s.recovering)
      && s.c.mid == Some(Mid(if s.phase.WLogW? then s.start + 1 + k else s.lh[k], s.c.logical[s.lh[k]]))
  {
    hide CacheInv, Admission, DirtyOk, HeldOk, HeaderOk, HomeOk, ProgressOk;
    LogicalBlocks(s.c);
  }

  lemma {:induction false} NothingStaged(s: State)
    requires Inv(s) && (s.phase.WLog? || s.phase.Inst?)
    ensures (s.phase.WLog? ==> !s.recovering) && s.c.mid == None && |s.c.disk| == |s.c.logical|
    ensures s.start + LOGBLOCKS < |s.c.disk| && |s.lh| <= LOGBLOCKS
    ensures forall k :: 0 <= k < |s.lh| ==> s.lh[k] < |s.c.disk|
  {
    hide Admission, DirtyOk;
  }

  lemma {:induction false} CopyLogDisk(disk: seq<Block>, logical: seq<Block>, pins: set<nat>, start: nat, lh: seq<nat>,
                                       k: nat)
    requires LogOk(disk, logical, pins, None, start, lh, WLog(k), false) && k < |lh|
    ensures lh[k] in pins && lh[k] < |logical|
    ensures LogOk(disk, logical, pins, Some(Mid(start + 1 + k, logical[lh[k]])), start, lh, WLogW(k), false)
  {
    assert Home(start, |disk|, lh[k]);
  }

  lemma {:induction false} StepCopyLog(s: State, to: nat, from: nat)
    requires Inv(s) && Wf(s) && Enabled(s, CopyLog(to, from))
    ensures Inv(Apply(s, CopyLog(to, from)))
  {
    hide LogOk, Admission, DirtyOk;
    var k := s.phase.k;
    NothingStaged(s);
    CopyLogDisk(s.c.disk, s.c.logical, s.c.pins, s.start, s.lh, k);
    DataOf(s, from, s.lh[k]);
    StageStep(s, to, s.c.bufs[from].data, s.lh, WLogW(k));
  }

  lemma {:induction false} WriteLogDisk(disk: seq<Block>, logical: seq<Block>, pins: set<nat>, start: nat,
                                        lh: seq<nat>, k: nat)
    requires k < |lh| && lh[k] < |logical| && Blocks(logical)
    requires LogOk(disk, logical, pins, Some(Mid(start + 1 + k, logical[lh[k]])), start, lh, WLogW(k), false)
    ensures start + 1 + k < |disk|
    ensures LogOk(disk[start + 1 + k := logical[lh[k]]], logical, pins - {start + 1 + k}, None,
                  start, lh, WLog(k + 1), false)
  {
    var disk' := disk[start + 1 + k := logical[lh[k]]];
    assert pins - {start + 1 + k} == pins;
    assert disk'[start] == disk[start];
    assert ProgressOk(disk', logical, start, lh, WLog(k + 1));
    assert HomeOk(disk', logical, start, pins);
  }

  lemma {:induction false} StepWriteLog(s: State, i: nat)
    requires Inv(s) && Wf(s) && Enabled(s, WriteLog(i))
    ensures Inv(Apply(s, WriteLog(i)))
  {
    hide CacheInv, LogOk, Admission, DirtyOk;
    var k := s.phase.k;
    Staged(s);
    WriteLogDisk(s.c.disk, s.c.logical, s.c.pins, s.start, s.lh, k);
    WriteStep(s, i, WLog(k + 1), false);
  }

  lemma {:induction false} FillHeadDisk(disk: seq<Block>, logical: seq<Block>, pins: set<nat>, start: nat, lh: seq<nat>)
    requires LogOk(disk, logical, pins, None, start, lh, WLog(|lh|), false)
    ensures start !in pins
    ensures LogOk(disk, logical, pins, Some(Mid(start, HeaderInto(disk[start], lh))), start, lh, HeadW, false)
  {
  }

  lemma {:induction false} StepFillHead(s: State, i: nat)
    requires Inv(s) && Wf(s) && Enabled(s, FillHead(i))
    ensures Inv(Apply(s, FillHead(i)))
  {
    FillHeadDisk(s.c.disk, s.c.logical, s.c.pins, s.start, s.lh);
    DataOf(s, i, s.start);
    StageStep(s, i, HeaderInto(s.c.bufs[i].data, s.lh), s.lh, HeadW);
  }

  lemma {:induction false} WriteHeadDisk(disk: seq<Block>, logical: seq<Block>, pins: set<nat>, start: nat,
                                         lh: seq<nat>, mid: Option<Mid>)
    requires LogOk(disk, logical, pins, mid, start, lh, HeadW, false)
    ensures mid == Some(Mid(start, HeaderInto(disk[start], lh)))
    ensures LogOk(disk[start := HeaderInto(disk[start], lh)], logical, pins - {start}, None, start, lh, Inst(0), false)
  {
    HeaderRoundTrip(disk[start], lh);
    assert lh[0..] == lh;
    assert pins - {start} == pins;
  }

  lemma {:induction false} StepWriteHead(s: State, i: nat)
    requires Inv(s) && Wf(s) && Enabled(s, WriteHead(i))
    ensures Inv(Apply(s, WriteHead(i)))
  {
    WriteHeadDisk(s.c.disk, s.c.logical, s.c.pins, s.start, s.lh, s.c.mid);
    WriteStep(s, i, Inst(0), false);
  }

  lemma {:induction false} CopyInstDisk(disk: seq<Block>, logical: seq<Block>, pins: set<nat>, start: nat,
                                        lh: seq<nat>, k: nat, rec: bool)
    requires LogOk(disk, logical, pins, None, start, lh, Inst(k), rec) && k < |lh|
    ensures lh[k] < |logical| && start + 1 + k !in pins && disk[start + 1 + k] == logical[lh[k]]
    ensures rec || lh[k] in pins
    ensures LogOk(disk, logical, pins, Some(Mid(lh[k], logical[lh[k]])), start, lh, InstW(k), rec)
  {
    assert Home(start, |disk|, lh[k]);
  }

  lemma {:induction false} StepCopyInst(s: State, lbuf: nat, dbuf: nat)
    requires Inv(s) && Wf(s) && Enabled(s, CopyInst(lbuf, dbuf))
    ensures Inv(Apply(s, CopyInst(lbuf, dbuf)))
  {
    hide LogOk, Admission, DirtyOk;
    var k := s.phase.k;
    NothingStaged(s);
    CopyInstDisk(s.c.disk, s.c.logical, s.c.pins, s.start, s.lh, k, s.recovering);
    DataOf(s, lbuf, s.start + 1 + k);
    StageStep(s, dbuf, s.c.bufs[lbuf].data, s.lh, InstW(k));
  }

  lemma {:induction false} PinsAfterInstall(pins: set<nat>, lh: seq<nat>, k: nat, rec: bool)
    requires k < |lh| && Distinct(lh)
    requires pins == ToSet(Pending(lh, InstW(k), rec))
    ensures pins - {lh[k]} == ToSet(Pending(lh, Inst(k + 1), rec))
  {
    assert lh[k..] == [lh[k]] + lh[k + 1..];
  }

  lemma {:induction false} InstallHome(disk: seq<Block>, logical: seq<Block>, pins: set<nat>, start: nat, b: nat)
    requires GoodDisk(disk, start) && |disk| == |logical| && Blocks(logical) && Home(start, |disk|, b)
    requires HeaderOk(disk, logical, start) && HomeOk(disk, logical, start, pins)
    ensures disk[b := logical[b]][start] == disk[start] && GoodDisk(disk[b := logical[b]], start)
    ensures HeaderOk(disk[b := logical[b]], logical, start)
    ensures HomeOk(disk[b := logical[b]], logical, start, pins - {b})
  {
  }

  lemma {:induction false} WriteInstDisk(disk: seq<Block>, logical: seq<Block>, pins: set<nat>, start: nat,
                                         lh: seq<nat>, k: nat, rec: bool)
    requires k < |lh| && lh[k] < |logical| && Blocks(logical)
    requires LogOk(disk, logical, pins, Some(Mid(lh[k], logical[lh[k]])), start, lh, InstW(k), rec)
    ensures LogOk(disk[lh[k] := logical[lh[k]]], logical, pins - {lh[k]}, None, start, lh, Inst(k + 1), rec)
  {
    hide HeaderOk, HomeOk, Pending, Blocks;
    PinsAfterInstall(pins, lh, k, rec);
    assert Home(start, |disk|, lh[k]);
    InstallHome(disk, logical, pins, start, lh[k]);
    assert ProgressOk(disk[lh[k] := logical[lh[k]]], logical, start, lh, Inst(k + 1));
  }

  lemma {:induction false} StepWriteInst(s: State, i: nat)
    requires Inv(s) && Wf(s) && Enabled(s, WriteInst(i))
    ensures Inv(Apply(s, WriteInst(i)))
  {
    hide CacheInv, LogOk, Admission, DirtyOk;
    var k := s.phase.k;
    Staged(s);
    WriteInstDisk(s.c.disk, s.c.logical, s.c.pins, s.start, s.lh, k, s.recovering);
    WriteStep(s, i, Inst(k + 1), s.recovering);
  }

  lemma {:induction false} FillClearDisk(disk: seq<Block>, logical: seq<Block>, pins: set<nat>, start: nat,
                                         lh: seq<nat>, rec: bool)
    requires LogOk(disk, logical, pins, None, start, lh, Inst(|lh|), rec)
    ensures pins == {}
    ensures LogOk(disk, logical, pins, Some(Mid(start, HeaderInto(disk[start], []))), start, [], ClearW, rec)
  {
    forall b: nat | Home(start, |disk|, b) ensures disk[b] == logical[b] {
      if b in lh { var k :| 0 <= k < |lh| && lh[k] == b; }
    }
  }

  lemma {:induction false} StepFillClear(s: State, i: nat)
    requires Inv(s) && Wf(s) && Enabled(s, FillClear(i))
    ensures Inv(Apply(s, FillClear(i)))
  {
    FillClearDisk(s.c.disk, s.c.logical, s.c.pins, s.start, s.lh, s.recovering);
    DataOf(s, i, s.start);
    StageStep(s, i, HeaderInto(s.c.bufs[i].data, []), [], ClearW);
  }

  lemma {:induction false} WriteClearDisk(disk: seq<Block>, logical: seq<Block>, pins: set<nat>, start: nat,
                                          mid: Option<Mid>, rec: bool)
    requires LogOk(disk, logical, pins, mid, start, [], ClearW, rec)
    ensures mid == Some(Mid(start, HeaderInto(disk[start], [])))
    ensures LogOk(disk[start := HeaderInto(disk[start], [])], logical, pins - {start}, None, start, [],
                  if rec then Ops else Done, false)
  {
    HeaderRoundTrip(disk[start], []);
  }

  lemma {:induction false} StepWriteClear(s: State, i: nat)
    requires Inv(s) && Wf(s) && Enabled(s, WriteClear(i))
    ensures Inv(Apply(s, WriteClear(i)))
  {
    WriteClearDisk(s.c.disk, s.c.logical, s.c.pins, s.start, s.c.mid, s.recovering);
    WriteStep(s, i, if s.recovering then Ops else Done, false);
  }

  lemma {:induction false} CrashDisk(disk: seq<Block>, start: nat)
    requires GoodDisk(disk, start) && Distinct(Header(disk[start]))
    requires forall k :: 0 <= k < |Header(disk[start])| ==> Home(start, |disk|, Header(disk[start])[k])
    ensures Blocks(RecoveredDisk(disk, start))
    ensures LogOk(disk, RecoveredDisk(disk, start), {}, None, start, [], Boot, true)
  {
    var h := Header(disk[start]);
    forall k | 0 <= k < |h| ensures disk[start + 1 + k] == RecoveredDisk(disk, start)[h[k]] {
      IndexOfDistinct(h, k);
    }
  }

  lemma {:induction false} StepCrash(s: State, t: nat)
    requires Inv(s) && Wf(s)
    ensures Inv(Apply(s, Crash(t)))
  {
    CrashDisk(s.c.disk, s.start);
    KeepPowerOn(s.c.disk, RecoveredDisk(s.c.disk, s.start));
  }

  lemma {:induction false} StepReadHead(s: State, i: nat)
    requires Inv(s) && Wf(s) && Enabled(s, ReadHead(i))
    ensures Inv(Apply(s, ReadHead(i)))
  {
    DataOf(s, i, s.start);
  }

  predicate ByOperation(a: Action) {
    a.Begin? || a.End? || a.BgetHit? || a.BgetMiss? || a.Lock? || a.Fill? || a.Modify? || a.Tear? || a.LogWrite?
    || a.Brelse?
  }

  lemma {:induction false} StepInvOperation(s: State, a: Action)
    requires Inv(s) && Wf(s) && Enabled(s, a) && ByOperation(a)
    ensures Inv(Apply(s, a))
  {
    hide Inv;
    match a {
      case Begin(t) => StepBegin(s, t);
      case End(t) => StepEnd(s, t);
      case BgetHit(t, i, b) => StepHit(s, t, i, b);
      case BgetMiss(t, i, b) => StepMiss(s, t, i, b);
      case Lock(t, i) => StepLock(s, t, i);
      case Fill(t, i) => StepFill(s, t, i);
      case Modify(t, i, d) => StepModify(s, t, i, d);
      case Tear(t, i, d) => StepTear(s, t, i, d);
      case LogWrite(t, i) => StepLogWrite(s, t, i);
      case Brelse(t, i) => StepRelease(s, t, i);
    }
  }

  lemma {:induction false} StepInvCommit(s: State, a: Action)
    requires Inv(s) && Wf(s) && Enabled(s, a) && !ByOperation(a)
    ensures Inv(Apply(s, a))
  {
    hide Inv;
    match a {
      case CopyLog(to, from) => StepCopyLog(s, to, from);
      case WriteLog(i) => StepWriteLog(s, i);
      case FillHead(i) => StepFillHead(s, i);
      case WriteHead(i) => StepWriteHead(s, i);
      case CopyInst(lbuf, dbuf) => StepCopyInst(s, lbuf, dbuf);
      case WriteInst(i) => StepWriteInst(s, i);
      case FillClear(i) => StepFillClear(s, i);
      case WriteClear(i) => StepWriteClear(s, i);
      case Finish => StepFinish(s);
      case Crash(t) => StepCrash(s, t);
      case ReadHead(i) => StepReadHead(s, i);
    }
  }

  /** Every step of every thread, and a crash at any point, keeps the invariant. */
  lemma {:induction false} StepInv(s: State, a: Action)
    requires Inv(s) && Wf(s) && Enabled(s, a)
    ensures Inv(Apply(s, a)) && Wf(Apply(s, a))
  {
    if ByOperation(a) { StepInvOperation(s, a); } else { StepInvCommit(s, a); }
    InvWf(Apply(s, a));
  }
}
