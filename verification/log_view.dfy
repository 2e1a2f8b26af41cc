/**
 What a run means, from its actions alone: the file system's disk, what of it is committed, and what
 each buffer holds. Every run of the machine shows exactly that.
 */
module LogView {
  import opened Param
  import opened Common
  import opened CacheModel
  import opened LogModel
  import opened LogInvariant
  import opened LogTheorems
  import opened LogReads

  /** `logical` is the disk with everything logged so far, `committed` what of it survives a crash; `at`
      says which block each buffer was given to, `changed` what its owner has stored in a buffer and not
      logged yet, `torn` what a copy that faulted left in a block that is not in the log; `logged` are the
      blocks in the log. */
  datatype View = View(logical: seq<Block>, committed: seq<Block>, at: map<nat, nat>, changed: map<nat, Block>,
                       torn: map<nat, Block>, logged: set<nat>)

  /** What is in buffer i. */
  function Contents(v: View, i: nat): (d: Block) {
    if i in v.changed then v.changed[i]
    else if i !in v.at then []
    else if v.at[i] in v.torn then v.torn[v.at[i]]
    else if v.at[i] < |v.logical| then v.logical[v.at[i]]
    else []
  }

  function Put(d: seq<Block>, b: nat, x: Block): (d': seq<Block>) { if b < |d| then d[b := x] else d }

  /** One step, seen from outside the cache. */
  function Seen(v: View, a: Action): (v': View) {
    match a
    case BgetMiss(_, i, b) => v.(at := v.at[i := b], torn := if i in v.at then v.torn - {v.at[i]} else v.torn)
    case Modify(_, i, d) => v.(changed := v.changed[i := d])
    case Tear(_, i, d) =>
      if i !in v.at then v
      else if v.at[i] in v.logged then v.(logical := Put(v.logical, v.at[i], d))
      else v.(torn := v.torn[v.at[i] := d])
    case LogWrite(_, i) =>
      if i !in v.at then v
      else v.(logical := Put(v.logical, v.at[i], Contents(v, i)), changed := v.changed - {i},
              torn := v.torn - {v.at[i]}, logged := v.logged + {v.at[i]})
    case WriteHead(_) => v.(committed := v.logical)
    case FillClear(_) => v.(logged := {})
    case Crash(_) => Fresh(v.committed)
    case _ => v
  }

  function Fresh(d: seq<Block>): (v: View) { View(d, d, map[], map[], map[], {}) }

  function After(v: View, acts: seq<Action>): (v': View) {
    if acts == [] then v else Seen(After(v, acts[..|acts| - 1]), acts[|acts| - 1])
  }

  // ----- the machine shows it -----

  ghost predicate SameHome(start: nat, d: seq<Block>, d': seq<Block>) {
    |d| == |d'| && forall b: nat :: Home(start, |d|, b) ==> d[b] == d'[b]
  }

  predicate AtIs(bufs: seq<Buf>, at: map<nat, nat>) {
    && (forall i :: i in at ==> i < |bufs|)
    && forall i :: 0 <= i < |bufs| ==>
         (i in at <==> bufs[i].dev == ROOTDEV) && (i in at ==> at[i] == bufs[i].blockno)
  }

  predicate ChangedIs(bufs: seq<Buf>, changed: map<nat, Block>) {
    && (forall i :: i in changed ==> i < |bufs|)
    && forall i :: 0 <= i < |bufs| ==>
         (i in changed <==> bufs[i].dirty) && (i in changed ==> changed[i] == bufs[i].data)
  }

  ghost predicate Follows(s: State, v: View) {
    && GoodDisk(s.c.disk, s.start) && SameHome(s.start, s.c.logical, v.logical) && |v.logical| == |s.c.disk|
    && RecoversTo(s.c.disk, s.start, v.committed)
    && AtIs(s.c.bufs, v.at) && ChangedIs(s.c.bufs, v.changed) && TornIs(s.c.bufs, v.torn)
    && v.logged == if s.recovering then {} else ToSet(s.lh)
  }

  // ----- where buffers belong -----

  predicate SamePlace(u: Buf, u': Buf) { u'.dev == u.dev && u'.blockno == u.blockno }

  lemma {:induction false} KeepsPlace(s: State, a: Action)
    requires Wf(s) && Enabled(s, a) && !a.BgetMiss? && !a.Crash?
    ensures var s' := Apply(s, a); At(a) < |s.c.bufs| == |s'.c.bufs| && SamePlace(s.c.bufs[At(a)], s'.c.bufs[At(a)])
  {
    hide ByOperation;
    if ByOperation(a) { KeepsPlaceOperation(s, a); } else { KeepsPlaceCommit(s, a); }
  }

  lemma {:induction false} KeepsPlaceOperation(s: State, a: Action)
    requires Wf(s) && Enabled(s, a) && !a.BgetMiss? && ByOperation(a)
    ensures var s' := Apply(s, a); At(a) < |s.c.bufs| == |s'.c.bufs| && SamePlace(s.c.bufs[At(a)], s'.c.bufs[At(a)])
  {
  }

  lemma {:induction false} KeepsPlaceCommit(s: State, a: Action)
    requires Wf(s) && Enabled(s, a) && !a.Crash? && !ByOperation(a)
    ensures var s' := Apply(s, a); At(a) < |s.c.bufs| == |s'.c.bufs| && SamePlace(s.c.bufs[At(a)], s'.c.bufs[At(a)])
  {
  }

  lemma {:induction false} MissPlace(s: State, t: nat, i: nat, b: nat)
    requires Wf(s) && Enabled(s, BgetMiss(t, i, b))
    ensures Caches(Apply(s, BgetMiss(t, i, b)).c.bufs[i], b)
  {
  }

  lemma {:induction false} AtSet(bufs: seq<Buf>, at: map<nat, nat>, i: nat, u: Buf)
    requires AtIs(bufs, at) && i < |bufs|
    ensures SamePlace(bufs[i], u) ==> AtIs(bufs[i := u], at)
    ensures u.dev == ROOTDEV ==> AtIs(bufs[i := u], at[i := u.blockno])
  {
  }

  lemma {:induction false} StepAt(s: State, a: Action, v: View)
    requires Wf(s) && Enabled(s, a) && AtIs(s.c.bufs, v.at)
    ensures AtIs(Apply(s, a).c.bufs, Seen(v, a).at)
  {
    hide Enabled, Apply, At, Contents, AtIs;
    if a.Crash? {
      CrashBufs(s, a);
      NoneAt(Apply(s, a).c.bufs);
    } else {
      OneBuffer(s, a);
      AtSet(s.c.bufs, v.at, At(a), Apply(s, a).c.bufs[At(a)]);
      if a.BgetMiss? {
        MissPlace(s, a.t, a.i, a.b);
        MissAt(a);
      } else {
        KeepsPlace(s, a);
      }
    }
  }

  lemma {:induction false} NoneAt(bufs: seq<Buf>)
    requires forall i :: 0 <= i < |bufs| ==> bufs[i].dev == 0
    ensures AtIs(bufs, map[])
  {
  }

  lemma {:induction false} MissAt(a: Action)
    requires a.BgetMiss?
    ensures At(a) == a.i
  {
  }

  lemma {:induction false} CrashBufs(s: State, a: Action)
    requires Wf(s) && Enabled(s, a) && a.Crash?
    ensures var bufs := Apply(s, a).c.bufs;
      |bufs| == NBUF && forall i :: 0 <= i < NBUF ==> bufs[i].dev == 0 && !bufs[i].dirty && !bufs[i].torn
  {
  }

  // ----- what owners have stored -----

  predicate SameChange(u: Buf, u': Buf) { u'.dirty == u.dirty && (u.dirty ==> u'.data == u.data) }

  predicate Changes(a: Action) { a.Modify? || a.LogWrite? || a.Crash? }

  lemma {:induction false} NotDirty(s: State, i: nat)
    requires Inv(s) && i < |s.c.bufs| && (!s.c.bufs[i].valid || s.c.bufs[i].refcnt == 0 || !s.phase.Ops?)
    ensures !s.c.bufs[i].dirty
  {
    if !s.phase.Ops? { Quiet(s); }
    assert BufOk(s.c, s.c.bufs[i]);
  }

  lemma {:induction false} KeepsChangeOperation(s: State, a: Action)
    requires Inv(s) && Wf(s) && Enabled(s, a) && !Changes(a) && ByOperation(a)
    ensures var s' := Apply(s, a); At(a) < |s.c.bufs| == |s'.c.bufs| && SameChange(s.c.bufs[At(a)], s'.c.bufs[At(a)])
  {
    hide Inv;
    if a.Fill? || a.BgetMiss? { NotDirty(s, a.i); }
  }

  lemma {:induction false} KeepsChangeCommit(s: State, a: Action)
    requires Inv(s) && Wf(s) && Enabled(s, a) && !Changes(a) && !ByOperation(a)
    ensures var s' := Apply(s, a); At(a) < |s.c.bufs| == |s'.c.bufs| && SameChange(s.c.bufs[At(a)], s'.c.bufs[At(a)])
  {
    hide Inv;
    if !a.Finish? { NotDirty(s, At(a)); }
  }

  lemma {:induction false} ChangedSet(bufs: seq<Buf>, changed: map<nat, Block>, i: nat, u: Buf)
    requires ChangedIs(bufs, changed) && i < |bufs|
    ensures SameChange(bufs[i], u) ==> ChangedIs(bufs[i := u], changed)
    ensures ChangedIs(bufs[i := u], if u.dirty then changed[i := u.data] else changed - {i})
  {
  }

  lemma {:induction false} StepChanged(s: State, a: Action, v: View)
    requires Inv(s) && Wf(s) && Enabled(s, a) && AtIs(s.c.bufs, v.at) && ChangedIs(s.c.bufs, v.changed)
    ensures ChangedIs(Apply(s, a).c.bufs, Seen(v, a).changed)
  {
    hide Inv, Contents, ByOperation, Enabled, Apply, ChangedIs, At;
    if a.Crash? {
      CrashBufs(s, a);
      NoneChanged(Apply(s, a).c.bufs);
    } else {
      OneBuffer(s, a);
      ChangedSet(s.c.bufs, v.changed, At(a), Apply(s, a).c.bufs[At(a)]);
      if a.Modify? || a.LogWrite? {
        ChangeAt(s, a);
      } else if ByOperation(a) {
        KeepsChangeOperation(s, a);
      } else {
        KeepsChangeCommit(s, a);
      }
    }
  }

  lemma {:induction false} NoneChanged(bufs: seq<Buf>)
    requires forall i :: 0 <= i < |bufs| ==> !bufs[i].dirty
    ensures ChangedIs(bufs, map[])
  {
  }

  lemma {:induction false} ChangeAt(s: State, a: Action)
    requires Wf(s) && Enabled(s, a) && (a.Modify? || a.LogWrite?)
    ensures a.i < |s.c.bufs| == |Apply(s, a).c.bufs| && At(a) == a.i && s.c.bufs[a.i].dev == ROOTDEV
    ensures var u := Apply(s, a).c.bufs[a.i]; (u.dirty <==> a.Modify?) && (a.Modify? ==> u.data == a.d)
  {
  }

  // ----- the rest -----

  lemma {:induction false} StepTornSeen(s: State, a: Action, v: View)
    requires Inv(s) && Wf(s) && Enabled(s, a) && Follows(s, v)
    ensures TornIs(Apply(s, a).c.bufs, Seen(v, a).torn)
  {
    hide Inv, Contents, TornIs, RecoversTo, SameHome, ChangedIs;
    StepTorn(s, a, v.torn);
    if a.Tear? || a.LogWrite? { OperationAt(s, a.t, a.i); }
  }

  // An operation holds a buffer: the machine is not recovering.
  lemma {:induction false} OperationAt(s: State, t: nat, i: nat)
    requires Inv(s) && OpHolds(s, t, i)
    ensures !s.recovering && s.c.bufs[i].dev == ROOTDEV && s.c.bufs[i].blockno < |s.c.disk|
  {
    hide CacheInv, LogOk, DirtyOk, HeldOk;
    OpsOnly(s, t);
  }

  lemma {:induction false} StepLogged(s: State, a: Action, v: View)
    requires Inv(s) && Wf(s) && Enabled(s, a) && Follows(s, v)
    ensures var s' := Apply(s, a); Seen(v, a).logged == if s'.recovering then {} else ToSet(s'.lh)
  {
    hide Inv, Contents, TornIs, RecoversTo, SameHome, ChangedIs;
    if a.LogWrite? {
      OperationAt(s, a.t, a.i);
    } else {
      SameList(s, a);
    }
  }

  // Which steps change the list of logged blocks.
  lemma {:induction false} SameList(s: State, a: Action)
    requires Inv(s) && Wf(s) && Enabled(s, a) && !a.LogWrite?
    ensures var s' := Apply(s, a);
      if a.FillClear? then s'.lh == []
      else if a.Crash? || a.ReadHead? then s'.recovering && (a.ReadHead? ==> s.recovering)
      else s'.lh == s.lh && (s'.recovering == s.recovering || s.lh == [])
  {
    hide CacheInv, HeaderOk, HomeOk, MidOk, ProgressOk, HeldOk, DirtyOk, Admission;
  }

  /** Whoever holds a home block's buffer finds in it what the view says. */
  lemma {:induction false} Shows(s: State, v: View, t: nat, i: nat, b: nat)
    requires Inv(s) && Follows(s, v) && !s.recovering && Holds(s.c, t, i, b) && Home(s.start, |s.c.disk|, b)
    ensures i in v.at && v.at[i] == b && s.c.bufs[i].data == Contents(v, i)
  {
    hide CacheInv, LogOk, Admission, DirtyOk, HeldOk, RecoversTo, TornIs;
    if !s.c.bufs[i].dirty {
      TornData(s, t, i, b, v.torn);
      if b !in v.torn { ReadsLatest(s, t, i, b); }
    }
  }

  lemma {:induction false} StepLogical(s: State, a: Action, v: View)
    requires Inv(s) && Wf(s) && Enabled(s, a) && Follows(s, v)
    ensures SameHome(s.start, Apply(s, a).c.logical, Seen(v, a).logical)
  {
    hide Inv, Contents, TornIs, ChangedIs, RecoversTo;
    if a.Crash? {
      CrashSeen(s, a, v);
    } else if a.Tear? {
      TearsLogged(s, a);
      OperationAt(s, a.t, a.i);
    } else if a.LogWrite? {
      LogWrites(s, a);
      OperationAt(s, a.t, a.i);
      Shows(s, v, a.t, a.i, s.c.bufs[a.i].blockno);
    } else {
      OnlyLogWrite(s, a);
    }
  }

  lemma {:induction false} CrashSeen(s: State, a: Action, v: View)
    requires Inv(s) && Wf(s) && Enabled(s, a) && a.Crash? && Follows(s, v)
    ensures SameHome(s.start, Apply(s, a).c.logical, v.committed)
  {
    hide Inv, Recovered, TornIs, ChangedIs, AtIs;
    CrashLogical(s, a, Apply(s, a), v.committed);
  }

  lemma {:induction false} StepCommitted(s: State, a: Action, s': State, v: View)
    requires Inv(s) && Step(s, a, s') && Follows(s, v)
    ensures GoodDisk(s'.c.disk, s'.start) && s'.start == s.start && |s'.c.disk| == |s.c.disk|
    ensures RecoversTo(s'.c.disk, s'.start, Seen(v, a).committed)
  {
    hide Inv, Wf, Enabled, Apply, Recovered, TornIs, ChangedIs, AtIs, Contents;
    StepKeeps(s, a, s');
    StepRecovers(s, a, s', v.committed);
    assert GoodDisk(s'.c.disk, s'.start) by { Sizes(s'); }
  }

  lemma {:induction false} SizesSeen(v: View, a: Action)
    requires |v.logical| == |v.committed|
    ensures |Seen(v, a).logical| == |v.logical|
  {
    hide Contents;
  }

  /** Each step of the machine is that step of the view. */
  lemma {:induction false} StepFollows(s: State, a: Action, s': State, v: View)
    requires Inv(s) && Step(s, a, s') && Follows(s, v)
    ensures Follows(s', Seen(v, a))
  {
    hide Inv, Wf, Enabled, Apply, TornIs, ChangedIs, AtIs, RecoversTo, SameHome, Seen;
    StepAt(s, a, v);
    StepChanged(s, a, v);
    StepTornSeen(s, a, v);
    StepLogged(s, a, v);
    StepLogical(s, a, v);
    StepCommitted(s, a, s', v);
    assert |v.logical| == |v.committed| by { CommittedSize(s, v); }
    SizesSeen(v, a);
  }

  lemma {:induction false} CommittedSize(s: State, v: View)
    requires Follows(s, v)
    ensures |v.logical| == |v.committed|
  {
  }

  // ----- runs -----

  lemma {:induction false} StartFollows(disk: seq<Block>, start: nat, t: nat)
    requires GoodImage(disk, start)
    ensures Follows(PoweredOn(disk, start, t), Fresh(RecoveredDisk(disk, start)))
  {
    hide Recovered;
  }

  /** Every state of a run from power-on shows the view of the actions that led to it. */
  lemma {:induction false} RunFollows(ss: seq<State>, acts: seq<Action>, k: nat, v: View)
    requires Run(ss, acts) && Inv(ss[0]) && Follows(ss[0], v) && k < |ss|
    ensures Inv(ss[k]) && Follows(ss[k], After(v, acts[..k]))
  {
    hide Inv, Wf, Enabled, Apply, Follows, Seen;
    if k > 0 {
      RunFollows(ss, acts, k - 1, v);
      assert Step(ss[k - 1], acts[k - 1], ss[k]);
      StepKeeps(ss[k - 1], acts[k - 1], ss[k]);
      StepFollows(ss[k - 1], acts[k - 1], ss[k], After(v, acts[..k - 1]));
      assert acts[..k][..k - 1] == acts[..k - 1];
    }
  }

  /** Wherever a run from power-on is stopped: the logical disk is the one that recovery would have left,
      changed by the actions alone; the disk recovers to what of it was committed; and whoever holds a
      home block's buffer finds there what the actions say, whether it is changed, torn or as logged. */
  lemma {:induction false} RunMeans(disk: seq<Block>, start: nat, t0: nat, ss: seq<State>, acts: seq<Action>, k: nat)
    requires GoodImage(disk, start) && Run(ss, acts) && ss[0] == PoweredOn(disk, start, t0) && k < |ss|
    ensures var s, v := ss[k], After(Fresh(RecoveredDisk(disk, start)), acts[..k]);
      && Inv(s) && s.start == start && GoodDisk(s.c.disk, start) && SameHome(start, s.c.logical, v.logical)
      && RecoversTo(s.c.disk, start, v.committed)
      && forall t: nat, i: nat, b: nat :: !s.recovering && Holds(s.c, t, i, b) && Home(start, |s.c.disk|, b) ==>
           i in v.at && v.at[i] == b && s.c.bufs[i].data == Contents(v, i)
  {
    hide Inv, Contents, RecoversTo, SameHome, AtIs, ChangedIs, TornIs;
    PoweredOnInv(disk, start, t0);
    StartFollows(disk, start, t0);
    RunFollows(ss, acts, k, Fresh(RecoveredDisk(disk, start)));
    RunInv(ss, acts, k);
    var s, v := ss[k], After(Fresh(RecoveredDisk(disk, start)), acts[..k]);
    forall t: nat, i: nat, b: nat | !s.recovering && Holds(s.c, t, i, b) && Home(start, |s.c.disk|, b)
      ensures i in v.at && v.at[i] == b && s.c.bufs[i].data == Contents(v, i)
    { Shows(s, v, t, i, b); }
  }

  // ----- what an operation stores is what is logged -----

  // No action from j on before k is about the contents of buffer i.
  predicate LeftAlone(acts: seq<Action>, j: nat, k: nat, i: nat) {
    forall m :: j <= m < k && m < |acts| ==>
      !(acts[m].Modify? && acts[m].i == i) && !(acts[m].LogWrite? && acts[m].i == i) && !acts[m].Crash?
  }

  lemma {:induction false} ChangedStays(v: View, acts: seq<Action>, j: nat, k: nat, i: nat)
    requires j <= k <= |acts| && LeftAlone(acts, j, k, i) && i in After(v, acts[..j]).changed
    ensures i in After(v, acts[..k]).changed && After(v, acts[..k]).changed[i] == After(v, acts[..j]).changed[i]
  {
    hide Contents;
    if j < k {
      ChangedStays(v, acts, j, k - 1, i);
      assert acts[..k][..k - 1] == acts[..k - 1];
    }
  }

  /** What a thread last stored in a buffer before its log_write is what the block holds after it,
      whatever others do in between. */
  lemma {:induction false} StoredIsLogged(disk: seq<Block>, start: nat, t0: nat, ss: seq<State>, acts: seq<Action>,
                                          j: nat, k: nat)
    requires GoodImage(disk, start) && Run(ss, acts) && ss[0] == PoweredOn(disk, start, t0) && j < k < |acts|
    requires acts[j].Modify? && acts[k].LogWrite? && acts[k].i == acts[j].i && LeftAlone(acts, j + 1, k, acts[j].i)
    ensures acts[k].i < |ss[k].c.bufs|
    ensures var b := ss[k].c.bufs[acts[k].i].blockno; b < |ss[k + 1].c.logical| && ss[k + 1].c.logical[b] == acts[j].d
  {
    hide Inv, RecoversTo, AtIs, ChangedIs, TornIs, SameHome, Wf, After;
    var v0, i := Fresh(RecoveredDisk(disk, start)), acts[j].i;
    var s, v := ss[k], After(v0, acts[..k]);
    RunMeans(disk, start, t0, ss, acts, k);
    assert Step(s, acts[k], ss[k + 1]);
    AfterStep(v0, acts, j);
    ChangedStays(v0, acts, j + 1, k, i);
    OperationAt(s, acts[k].t, i);
    assert Holds(s.c, acts[k].t, i, s.c.bufs[i].blockno);
    LogWrites(s, acts[k]);
  }

  lemma {:induction false} AfterStep(v: View, acts: seq<Action>, j: nat)
    requires j < |acts|
    ensures After(v, acts[..j + 1]) == Seen(After(v, acts[..j]), acts[j])
  {
    hide Seen;
    assert acts[..j + 1][..j] == acts[..j];
  }

  // No action from j on before k gives block b new contents.
  predicate Unwritten(v: View, acts: seq<Action>, j: nat, k: nat, b: nat) {
    forall m :: j <= m < k && m < |acts| ==>
      && !acts[m].Crash?
      && (acts[m].LogWrite? || acts[m].Tear? ==>
            acts[m].i !in After(v, acts[..m]).at || After(v, acts[..m]).at[acts[m].i] != b)
  }

  lemma {:induction false} LogicalStays(v: View, acts: seq<Action>, j: nat, k: nat, b: nat)
    requires j <= k <= |acts| && Unwritten(v, acts, j, k, b) && b < |After(v, acts[..j]).logical|
    ensures b < |After(v, acts[..k]).logical| && After(v, acts[..k]).logical[b] == After(v, acts[..j]).logical[b]
  {
    hide Contents;
    if j < k {
      LogicalStays(v, acts, j, k - 1, b);
      AfterStep(v, acts, k - 1);
    }
  }

  /** And what the block recovers to from the next commit on, unless it is written again before. */
  lemma {:induction false} StoredIsCommitted(disk: seq<Block>, start: nat, t0: nat, ss: seq<State>, acts: seq<Action>,
                                             j: nat, k: nat, m: nat, b: nat)
    requires GoodImage(disk, start) && Run(ss, acts) && ss[0] == PoweredOn(disk, start, t0) && j < k < m < |acts|
    requires acts[j].Modify? && acts[k].LogWrite? && acts[k].i == acts[j].i && LeftAlone(acts, j + 1, k, acts[j].i)
    requires acts[k].i < |ss[k].c.bufs| && b == ss[k].c.bufs[acts[k].i].blockno && acts[m].WriteHead?
    requires Unwritten(Fresh(RecoveredDisk(disk, start)), acts, k + 1, m, b)
    ensures GoodDisk(ss[m + 1].c.disk, start) && Home(start, |ss[m + 1].c.disk|, b)
    ensures Recovered(ss[m + 1].c.disk, start, b) == acts[j].d
  {
    hide Inv, AtIs, ChangedIs, TornIs, Wf, After, Recovered, Enabled, Apply, Contents;
    var v0 := Fresh(RecoveredDisk(disk, start));
    StoredIsLogged(disk, start, t0, ss, acts, j, k);
    assert Step(ss[k], acts[k], ss[k + 1]);
    assert Home(start, |ss[k].c.disk|, b) by { HomeLogged(ss[k], acts[k]); RunMeans(disk, start, t0, ss, acts, k); }
    RunInv(ss, acts, k) by { PoweredOnInv(disk, start, t0); }
    RunInv(ss, acts, k + 1) by { PoweredOnInv(disk, start, t0); }
    RunInv(ss, acts, m + 1) by { PoweredOnInv(disk, start, t0); }
    RunMeans(disk, start, t0, ss, acts, k + 1);
    LogicalStays(v0, acts, k + 1, m, b) by { Sizes(ss[k + 1]); }
    AfterStep(v0, acts, m);
    RunMeans(disk, start, t0, ss, acts, m + 1);
    Sizes(ss[k + 1]);
  }

  lemma {:induction false} HomeLogged(s: State, a: Action)
    requires Wf(s) && Enabled(s, a) && a.LogWrite?
    ensures Home(s.start, |s.c.disk|, s.c.bufs[a.i].blockno)
  {
  }
}
