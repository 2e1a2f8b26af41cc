/**
 What the log promises, over every run of the machine: any interleaving of operations, any
 number of crashes, each at any point between two block writes.
 */
module LogTheorems {
  import opened Param
  import opened Common
  import opened CacheModel
  import opened LogModel
  import opened LogInvariant

  /** The machine when it powers on with the given disk. */
  function PoweredOn(disk: seq<Block>, start: nat, t: nat): (s: State)
    requires GoodDisk(disk, start)
  {
    State(start, PowerOn(disk, RecoveredDisk(disk, start)), [], Boot, true, t, map[], 0, false, {})
  }

  /** An image whose log header names distinct home blocks (mkfs leaves an empty one). */
  predicate GoodImage(disk: seq<Block>, start: nat) {
    && GoodDisk(disk, start) && Distinct(Header(disk[start]))
    && forall k :: 0 <= k < |Header(disk[start])| ==> Home(start, |disk|, Header(disk[start])[k])
  }

  predicate Step(s: State, a: Action, s': State) { Wf(s) && Enabled(s, a) && s' == Apply(s, a) }

  /** A run: the states the machine goes through, and what it does between them. */
  predicate Run(ss: seq<State>, acts: seq<Action>) {
    |ss| == |acts| + 1 && forall k :: 0 <= k < |acts| ==> Step(ss[k], acts[k], ss[k + 1])
  }

  lemma {:induction false} PoweredOnInv(disk: seq<Block>, start: nat, t: nat)
    requires GoodImage(disk, start)
    ensures Inv(PoweredOn(disk, start, t)) && Wf(PoweredOn(disk, start, t))
  {
    CrashDisk(disk, start);
    KeepPowerOn(disk, RecoveredDisk(disk, start));
    assert Sum(map[]) == 0;
    InvWf(PoweredOn(disk, start, t));
  }

  lemma {:induction false} StepKeeps(s: State, a: Action, s': State)
    requires Inv(s) && Step(s, a, s')
    ensures Inv(s') && s'.start == s.start && |s'.c.disk| == |s.c.disk|
  {
    hide Inv;
    StepInv(s, a);
    SameDevice(s, a);
  }

  lemma {:induction false} SameDevice(s: State, a: Action)
    requires Wf(s) && Enabled(s, a)
    ensures Apply(s, a).start == s.start && |Apply(s, a).c.disk| == |s.c.disk|
  {
    if WritesDisk(a) {
      assert |Apply(s, a).c.disk| == |s.c.disk|;
    } else {
      SameDisk(s, a);
    }
  }

  lemma {:induction false} RunInv(ss: seq<State>, acts: seq<Action>, k: nat)
    requires Run(ss, acts) && Inv(ss[0]) && k < |ss|
    ensures Inv(ss[k]) && ss[k].start == ss[0].start && |ss[k].c.disk| == |ss[0].c.disk|
  {
    hide Inv, Wf, Enabled, Apply;
    if k > 0 {
      RunInv(ss, acts, k - 1);
      StepKeeps(ss[k - 1], acts[k - 1], ss[k]);
    }
  }

  // ----- atomicity -----

  /** Two disks that recover to the same home blocks. */
  ghost predicate RecoversTo(disk: seq<Block>, start: nat, logical: seq<Block>)
    requires GoodDisk(disk, start)
  {
    && |logical| == |disk|
    && forall b: nat :: Home(start, |disk|, b) ==> Recovered(disk, start, b) == logical[b]
  }

  // Where the disk and its log hold the logical disk between them.
  predicate Settled(phase: Phase) {
    phase.Inst? || phase.InstW? || phase.ClearW? || phase.Done? || phase.Boot? || phase.Ops?
  }

  lemma {:induction false} NotPinned(lh: seq<nat>, phase: Phase, recovering: bool, b: nat)
    requires PhaseOk(lh, phase, recovering) && Settled(phase) && (phase.Ops? ==> lh == [])
    ensures b in ToSet(Pending(lh, phase, recovering)) ==> (phase.Inst? || phase.InstW?) && b in lh
  {
  }

  lemma {:induction false} RecoversAt(disk: seq<Block>, logical: seq<Block>, pins: set<nat>, mid: Option<Mid>,
                                      start: nat, lh: seq<nat>, phase: Phase, recovering: bool, b: nat)
    requires LogOk(disk, logical, pins, mid, start, lh, phase, recovering) && Home(start, |disk|, b)
    requires Settled(phase) && (phase.Ops? ==> lh == [])
    ensures Recovered(disk, start, b) == logical[b]
  {
    hide PhaseOk, MidOk, Pending;
    var h := Header(disk[start]);
    NotPinned(lh, phase, recovering, b);
    if b in h { assert h[IndexOf(h, b)] == b; }
  }

  /** A committed transaction, or an idle disk, recovers to the logical disk. */
  lemma {:induction false} RecoversLogical(s: State)
    requires Inv(s) && Settled(s.phase) && (s.phase.Ops? ==> s.outstanding == 0)
    ensures RecoversTo(s.c.disk, s.start, s.c.logical)
  {
    hide CacheInv, DirtyOk, HeldOk, LogOk, Recovered;
    assert GoodDisk(s.c.disk, s.start) && |s.c.disk| == |s.c.logical| by { Sizes(s); }
    forall b: nat | Home(s.start, |s.c.disk|, b)
      ensures Recovered(s.c.disk, s.start, b) == s.c.logical[b]
    {
      RecoversAt(s.c.disk, s.c.logical, s.c.pins, s.c.mid, s.start, s.lh, s.phase, s.recovering, b);
    }
  }

  lemma {:induction false} Sizes(s: State)
    requires Inv(s)
    ensures GoodDisk(s.c.disk, s.start) && |s.c.disk| == |s.c.logical|
  {
    hide CacheInv, Admission, DirtyOk, HeldOk;
  }

  predicate WritesDisk(a: Action) { a.WriteLog? || a.WriteHead? || a.WriteInst? || a.WriteClear? }

  lemma {:induction false} SameDisk(s: State, a: Action)
    requires Wf(s) && Enabled(s, a) && !WritesDisk(a)
    ensures Apply(s, a).c.disk == s.c.disk && Apply(s, a).start == s.start
  {
    hide Enabled;
  }

  // write_log writes into the log region only, and not the header.
  lemma {:induction false} DurableLog(s: State, i: nat, b: nat)
    requires Inv(s) && Wf(s) && Enabled(s, WriteLog(i)) && Home(s.start, |s.c.disk|, b)
    ensures var disk := Apply(s, WriteLog(i)).c.disk;
      GoodDisk(disk, s.start) && |disk| == |s.c.disk| && Recovered(disk, s.start, b) == Recovered(s.c.disk, s.start, b)
  {
    hide DirtyOk, Admission;
    KeepWrite(s.c, s.committer, i);
    assert Apply(s, WriteLog(i)).c.disk[s.start] == s.c.disk[s.start];
  }

  // The other three write what recovery would, or make it so.
  lemma {:induction false} DurableCommit(s: State, a: Action, b: nat)
    requires Inv(s) && Wf(s) && Enabled(s, a) && (a.WriteHead? || a.WriteInst? || a.WriteClear?)
    requires Home(s.start, |s.c.disk|, b)
    requires Inv(Apply(s, a))
    ensures var s' := Apply(s, a);
      && GoodDisk(s'.c.disk, s'.start) && |s'.c.disk| == |s.c.disk| && s'.start == s.start
      && Recovered(s'.c.disk, s.start, b) == if a.WriteHead? then s.c.logical[b] else Recovered(s.c.disk, s.start, b)
  {
    hide CacheInv, LogOk, Admission, DirtyOk;
    var s' := Apply(s, a);
    Quiet(s);
    InvWf(s');
    RecoversLogical(s');
    if !a.WriteHead? { RecoversLogical(s); }
  }

  /** No step but the commit's header write changes what the disk recovers to, and that one
      replaces it by the logical disk at a moment when no operation is in progress. */
  lemma {:induction false} StepDurable(s: State, a: Action, s': State, b: nat)
    requires Inv(s) && Step(s, a, s') && Home(s.start, |s.c.disk|, b)
    ensures GoodDisk(s'.c.disk, s.start) && |s'.c.disk| == |s.c.disk|
    ensures Recovered(s'.c.disk, s.start, b) ==
            if a.WriteHead? then s.c.logical[b] else Recovered(s.c.disk, s.start, b)
    ensures a.WriteHead? ==> s.ops == map[] && s.outstanding == 0
  {
    hide Inv, Enabled, Apply, Recovered;
    StepInv(s, a);
    if a.WriteLog? {
      DurableLog(s, a.i, b);
    } else if WritesDisk(a) {
      DurableCommit(s, a, b);
      if a.WriteHead? { QuietHead(s, a.i); }
    } else {
      SameDisk(s, a);
    }
  }

  lemma {:induction false} QuietHead(s: State, i: nat)
    requires Inv(s) && Wf(s) && Enabled(s, WriteHead(i))
    ensures s.ops == map[] && s.outstanding == 0
  {
    hide CacheInv, LogOk, DirtyOk;
    Quiet(s);
  }

  lemma {:induction false} StepRecovers(s: State, a: Action, s': State, committed: seq<Block>)
    requires Inv(s) && Step(s, a, s') && RecoversTo(s.c.disk, s.start, committed)
    ensures Inv(s') && RecoversTo(s'.c.disk, s'.start, if a.WriteHead? then s.c.logical else committed)
  {
    StepKeeps(s, a, s');
    forall b: nat | Home(s.start, |s.c.disk|, b)
      ensures Recovered(s'.c.disk, s.start, b) == (if a.WriteHead? then s.c.logical else committed)[b]
    { StepDurable(s, a, s', b); }
  }

  /** The logical disk at the last commit before step k of a run, or the given one. */
  function LastCommitted(ss: seq<State>, acts: seq<Action>, k: nat, initial: seq<Block>): (d: seq<Block>)
    requires Run(ss, acts) && k < |ss|
  {
    if k == 0 then initial
    else if acts[k - 1].WriteHead? then ss[k - 1].c.logical
    else LastCommitted(ss, acts, k - 1, initial)
  }

  /** Atomicity: stop any run anywhere; the disk then recovers to exactly the logical disk of
      the last commit, never to a mixture. */
  lemma {:induction false} RunAtomic(ss: seq<State>, acts: seq<Action>, k: nat, initial: seq<Block>)
    requires Run(ss, acts) && Inv(ss[0]) && k < |ss| && RecoversTo(ss[0].c.disk, ss[0].start, initial)
    ensures Inv(ss[k]) && RecoversTo(ss[k].c.disk, ss[k].start, LastCommitted(ss, acts, k, initial))
  {
    hide Inv, Step, RecoversTo;
    if k > 0 {
      RunAtomic(ss, acts, k - 1, initial);
      StepRecovers(ss[k - 1], acts[k - 1], ss[k], LastCommitted(ss, acts, k - 1, initial));
    }
  }

  // ----- recovery -----

  lemma {:induction false} StepRecovering(s: State, a: Action, s': State, b: nat)
    requires Inv(s) && s.recovering && Step(s, a, s') && !a.WriteClear? && Home(s.start, |s.c.disk|, b)
    ensures Inv(s') && s'.recovering && s'.start == s.start && |s'.c.disk| == |s.c.disk|
    ensures Recovered(s'.c.disk, s.start, b) == Recovered(s.c.disk, s.start, b)
  {
    hide Recovered, Inv;
    StepKeeps(s, a, s');
    StepDurable(s, a, s', b);
    StaysRecovering(s, a);
  }

  lemma {:induction false} StaysRecovering(s: State, a: Action)
    requires Inv(s) && s.recovering && Wf(s) && Enabled(s, a) && !a.WriteClear?
    ensures !a.WriteHead? && Apply(s, a).recovering
  {
    hide CacheInv, Admission, DirtyOk, HeldOk, HeaderOk, HomeOk, ProgressOk, MidOk;
  }

  // While recovering, nothing commits, so the recovered contents stay what they were.
  lemma {:induction false} RecoveryKeeps(ss: seq<State>, acts: seq<Action>, k: nat, b: nat)
    requires Run(ss, acts) && Inv(ss[0]) && ss[0].recovering && k < |ss|
    requires forall j :: 0 <= j < k ==> !acts[j].WriteClear?
    requires Home(ss[0].start, |ss[0].c.disk|, b)
    ensures Inv(ss[k]) && ss[k].recovering && ss[k].start == ss[0].start && |ss[k].c.disk| == |ss[0].c.disk|
    ensures Recovered(ss[k].c.disk, ss[0].start, b) == Recovered(ss[0].c.disk, ss[0].start, b)
  {
    hide Inv, Step, Recovered;
    if k > 0 {
      RecoveryKeeps(ss, acts, k - 1, b);
      StepRecovering(ss[k - 1], acts[k - 1], ss[k], b);
    }
  }

  /** Recovery, however often it is itself interrupted by a crash, ends with every home block
      equal to what the disk recovered to when it began, and with an empty log. */
  lemma {:induction false} RunRecovers(ss: seq<State>, acts: seq<Action>, k: nat, b: nat)
    requires Run(ss, acts) && Inv(ss[0]) && ss[0].recovering && k < |acts| && acts[k].WriteClear?
    requires forall j :: 0 <= j < k ==> !acts[j].WriteClear?
    requires Home(ss[0].start, |ss[0].c.disk|, b)
    ensures Inv(ss[k + 1]) && ss[k + 1].phase.Ops? && !ss[k + 1].recovering
    ensures ss[k + 1].start == ss[0].start && |ss[k + 1].c.disk| == |ss[0].c.disk|
    ensures Header(ss[k + 1].c.disk[ss[0].start]) == []
    ensures ss[k + 1].c.disk[b] == ss[k + 1].c.logical[b] == Recovered(ss[0].c.disk, ss[0].start, b)
  {
    hide Recovered, Inv;
    RecoveryKeeps(ss, acts, k, b);
    StepKeeps(ss[k], acts[k], ss[k + 1]);
    StepDurable(ss[k], acts[k], ss[k + 1], b);
    Cleared(ss[k], acts[k].i, b);
  }

  // The end of recovery: the log is empty, so the disk is what it recovers to.
  lemma {:induction false} Cleared(s: State, i: nat, b: nat)
    requires Inv(s) && s.recovering && Wf(s) && Enabled(s, WriteClear(i)) && Home(s.start, |s.c.disk|, b)
    ensures var s' := Apply(s, WriteClear(i));
      && s'.phase.Ops? && !s'.recovering && GoodDisk(s'.c.disk, s'.start) && s'.start == s.start
      && |s'.c.disk| == |s.c.disk| == |s'.c.logical| && Header(s'.c.disk[s.start]) == []
      && s'.c.disk[b] == s'.c.logical[b] == Recovered(s'.c.disk, s.start, b)
  {
    hide Inv, Recovered;
    var s' := Apply(s, WriteClear(i));
    StepInv(s, WriteClear(i));
    Emptied(s', b) by { Quiet(s); }
  }

  lemma {:induction false} Emptied(s: State, b: nat)
    requires Inv(s) && s.phase.Ops? && s.outstanding == 0 && Home(s.start, |s.c.disk|, b)
    ensures GoodDisk(s.c.disk, s.start) && |s.c.disk| == |s.c.logical| && Header(s.c.disk[s.start]) == []
    ensures s.c.disk[b] == s.c.logical[b] == Recovered(s.c.disk, s.start, b)
  {
    hide CacheInv, DirtyOk, HeldOk;
    RecoversLogical(s);
  }

  // ----- one logical disk -----

  /** bread returns the latest logged contents, unless the buffer has been torn. */
  lemma {:induction false} ReadsLatest(s: State, t: nat, i: nat, b: nat)
    requires Inv(s) && !s.recovering && Holds(s.c, t, i, b) && !s.c.bufs[i].dirty && !s.c.bufs[i].torn
    requires Home(s.start, |s.c.disk|, b)
    ensures s.c.bufs[i].data == s.c.logical[b]
  {
    assert BufOk(s.c, s.c.bufs[i]);
    if s.phase.Inst? || s.phase.InstW? {
      if b !in s.c.pins && b in s.lh { var k :| 0 <= k < |s.lh| && s.lh[k] == b; }
    }
  }

  /** The buffer of a block that is logged and not yet installed is never recycled. */
  lemma {:induction false} PinnedStays(s: State, t: nat, i: nat, b: nat, p: nat)
    requires Inv(s) && Wf(s) && Enabled(s, BgetMiss(t, i, b)) && p in s.c.pins
    ensures !Caches(s.c.bufs[i], p)
  {
    assert BufOk(s.c, s.c.bufs[i]);
  }

  // Only log_write, a torn copy and a crash change the logical disk.
  lemma {:induction false} OnlyLogWrite(s: State, a: Action)
    requires Wf(s) && Enabled(s, a) && !a.LogWrite? && !a.Tear? && !a.Crash?
    ensures Apply(s, a).c.logical == s.c.logical
  {
    hide Enabled;
  }

  lemma {:induction false} TearsLogged(s: State, a: Action)
    requires Inv(s) && Wf(s) && Enabled(s, a) && a.Tear?
    ensures a.i < |s.c.bufs| && s.c.bufs[a.i].blockno < |s.c.logical|
    ensures Apply(s, a).c.logical ==
            if s.c.bufs[a.i].blockno in s.lh then s.c.logical[s.c.bufs[a.i].blockno := a.d] else s.c.logical
  {
    hide CacheInv, LogOk, DirtyOk, HeldOk;
    OpsOnly(s, a.t);
    PinnedLogged(s.c.disk, s.c.logical, s.c.pins, s.start, s.lh, s.c.bufs[a.i].blockno);
  }

  lemma {:induction false} LogWrites(s: State, a: Action)
    requires Wf(s) && Enabled(s, a) && (a.LogWrite? || a.Crash?)
    ensures a.LogWrite? ==>
      && a.i < |s.c.bufs| && s.c.bufs[a.i].blockno < |s.c.logical|
      && Apply(s, a).c.logical == s.c.logical[s.c.bufs[a.i].blockno := s.c.bufs[a.i].data]
    ensures a.Crash? ==> Apply(s, a).c.logical == RecoveredDisk(s.c.disk, s.start)
  {
  }

  // ----- admission -----

  /** An operation that has not used up its blocks never sees a full log; the log is never
      committing while one is in progress. */
  lemma {:induction false} AppendHasRoom(s: State, t: nat)
    requires Inv(s) && t in s.ops
    ensures s.ops[t] > 0 ==> |s.lh| < LOGBLOCKS
    ensures !s.committing && s.outstanding >= 1 && s.phase.Ops?
  {
    SumRemove(s.ops, t);
  }

  // ----- consistency -----

  /** Steps i..j are a transaction: operations run from the first step after i to the last before j. */
  predicate Transaction(ss: seq<State>, acts: seq<Action>, i: nat, j: nat)
    requires |ss| == |acts| + 1
  {
    && i < j < |ss| && ss[i].outstanding == 0 && ss[j].outstanding == 0
    && (forall m :: i < m < j ==> ss[m].outstanding > 0)
    && (forall m :: i <= m < j ==> !acts[m].Crash?)
  }

  /** A property of file systems: it says nothing about the log's own blocks. */
  ghost predicate OfHome(valid: seq<Block> -> bool, start: nat, n: nat) {
    forall d: seq<Block>, d': seq<Block> {:trigger valid(d), valid(d')} ::
      |d| == |d'| == n && (forall b: nat :: Home(start, n, b) ==> d[b] == d'[b]) && valid(d) ==> valid(d')
  }

  // The last moment up to step k at which no operation was running.
  function LastIdle(ss: seq<State>, k: nat): (i: nat)
    requires k < |ss| && ss[0].outstanding == 0
    ensures i <= k && ss[i].outstanding == 0 && forall m :: i < m <= k ==> ss[m].outstanding > 0
  { if ss[k].outstanding == 0 then k else LastIdle(ss, k - 1) }

  // Operations run, and the machine has not crashed, since the last idle moment.
  lemma {:induction false} NoCrashSince(ss: seq<State>, acts: seq<Action>, k: nat)
    requires Run(ss, acts) && k < |ss| && ss[0].outstanding == 0
    ensures forall m :: LastIdle(ss, k) <= m < k ==> !acts[m].Crash?
  {
    hide Wf, Enabled;
    forall m | LastIdle(ss, k) <= m < k ensures !acts[m].Crash? {
      assert Step(ss[m], acts[m], ss[m + 1]);
    }
  }

  lemma {:induction false} CrashLogical(s: State, a: Action, s': State, committed: seq<Block>)
    requires Inv(s) && Step(s, a, s') && a.Crash? && RecoversTo(s.c.disk, s.start, committed)
    ensures |s'.c.logical| == |s.c.disk| == |committed|
    ensures forall b: nat :: Home(s.start, |s.c.disk|, b) ==> s'.c.logical[b] == committed[b]
  {
    hide Inv, Recovered;
  }

  /** Whatever property of file systems every transaction keeps, the disk recovers to one that has it,
      wherever the run is stopped. */
  lemma {:induction false} RunValid(ss: seq<State>, acts: seq<Action>, k: nat, valid: seq<Block> -> bool)
    requires Run(ss, acts) && Inv(ss[0]) && k < |ss| && ss[0].outstanding == 0
    requires RecoversTo(ss[0].c.disk, ss[0].start, ss[0].c.logical) && valid(ss[0].c.logical)
    requires OfHome(valid, ss[0].start, |ss[0].c.disk|)
    requires forall i: nat, j: nat :: Transaction(ss, acts, i, j) && valid(ss[i].c.logical) ==> valid(ss[j].c.logical)
    ensures valid(ss[LastIdle(ss, k)].c.logical)
    ensures valid(LastCommitted(ss, acts, k, ss[0].c.logical))
    ensures Inv(ss[k]) && RecoversTo(ss[k].c.disk, ss[k].start, LastCommitted(ss, acts, k, ss[0].c.logical))
  {
    hide Inv, Wf, Enabled, Apply, RecoversTo, OfHome, LastCommitted, Run;
    var initial := ss[0].c.logical;
    RunAtomic(ss, acts, k, initial);
    CommittedStep(ss, acts, k, initial);
    if k > 0 {
      RunValid(ss, acts, k - 1, valid);
      RunInv(ss, acts, k - 1);
      var s, a, s' := ss[k - 1], acts[k - 1], ss[k];
      if a.WriteHead? { WriteHeadIdle(s, a, s'); }
      if a.Crash? {
        CrashValid(s, a, s', LastCommitted(ss, acts, k - 1, initial), valid);
      } else if s'.outstanding == 0 {
        NoCrashSince(ss, acts, k - 1);
        assert Transaction(ss, acts, LastIdle(ss, k - 1), k);
      }
    }
  }

  lemma {:induction false} CommittedStep(ss: seq<State>, acts: seq<Action>, k: nat, initial: seq<Block>)
    requires Run(ss, acts) && k < |ss|
    ensures |ss| == |acts| + 1 && (k > 0 ==> Step(ss[k - 1], acts[k - 1], ss[k]))
    ensures LastCommitted(ss, acts, k, initial) ==
            if k == 0 then initial
            else if acts[k - 1].WriteHead? then ss[k - 1].c.logical
            else LastCommitted(ss, acts, k - 1, initial)
  {
    hide Step;
  }

  lemma {:induction false} WriteHeadIdle(s: State, a: Action, s': State)
    requires Inv(s) && Step(s, a, s') && a.WriteHead?
    ensures s.outstanding == 0
  {
    QuietHead(s, a.i);
  }

  lemma {:induction false} CrashValid(s: State, a: Action, s': State, was: seq<Block>, valid: seq<Block> -> bool)
    requires Inv(s) && Step(s, a, s') && a.Crash? && RecoversTo(s.c.disk, s.start, was) && valid(was)
    requires OfHome(valid, s.start, |s.c.disk|)
    ensures valid(s'.c.logical) && s'.outstanding == 0
  {
    hide Inv, RecoversTo;
    CrashLogical(s, a, s', was);
  }
}
