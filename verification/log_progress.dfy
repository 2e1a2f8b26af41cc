/**
 Waiting in begin_op. A thread that waits for the log can be admitted by some continuation of the run,
 without a crash, exactly when the blocks logged or about to be logged leave a buffer over.
 */
module LogProgress {
  import opened Param
  import opened Common
  import opened CacheModel
  import opened LogModel
  import opened LogInvariant
  import opened LogTheorems
  import opened LogCapacity

  // ----- continuing a run -----

  predicate Path(ss: seq<State>, acts: seq<Action>, s: State, s': State) {
    && Run(ss, acts) && ss[0] == s && ss[|acts|] == s'
    && forall k :: 0 <= k < |acts| ==> !acts[k].Crash?
  }

  /** Some run without a crash goes from s to s'. */
  ghost predicate Leads(s: State, s': State) { exists ss, acts :: Path(ss, acts, s, s') }

  /** Where a run starts, and contents that no log_write of it passes on. */
  datatype Origin = Origin(s: State, avoid: set<Block>)

  function From(s: State): (o: Origin) { Origin(s, {}) }

  predicate Avoids(ss: seq<State>, acts: seq<Action>, avoid: set<Block>)
    requires |ss| == |acts| + 1
  { forall k :: 0 <= k < |acts| ==> Avoiding(ss[k], acts[k], avoid) }

  predicate Avoiding(s: State, a: Action, avoid: set<Block>) {
    a.LogWrite? && a.i < |s.c.bufs| ==> s.c.bufs[a.i].data !in avoid
  }

  ghost predicate Reached(s0: Origin, s: State) {
    && (exists ss, acts :: Path(ss, acts, s0.s, s) && Avoids(ss, acts, s0.avoid))
    && Inv(s) && Wf(s)
  }

  lemma {:induction false} Start(s0: Origin)
    requires Inv(s0.s)
    ensures Reached(s0, s0.s)
  {
    hide Inv, Wf;
    InvWf(s0.s);
    assert Path([s0.s], [], s0.s, s0.s) && Avoids([s0.s], [], s0.avoid);
  }

  lemma {:induction false} Then(s0: Origin, s: State, a: Action) returns (s': State)
    requires Reached(s0, s) && Wf(s) && Enabled(s, a) && !a.Crash? && Avoiding(s, a, s0.avoid)
    ensures s' == Apply(s, a) && Reached(s0, s')
  {
    hide Inv, Wf, Enabled, Apply, Avoiding;
    s' := Apply(s, a);
    StepInv(s, a);
    var ss, acts :| Path(ss, acts, s0.s, s) && Avoids(ss, acts, s0.avoid);
    assert Step(s, a, s');
    assert Path(ss + [s'], acts + [a], s0.s, s') && Avoids(ss + [s'], acts + [a], s0.avoid);
  }

  // What the invariant says that the steps below need.
  lemma {:induction false} Facts(s0: Origin, s: State)
    requires Reached(s0, s)
    ensures Wf(s) && CacheInv(s.c)
  {
  }

  // ----- giving buffers back -----

  function WithBuf(s: State, i: nat, u: Buf): State
    requires i < |s.c.bufs|
  { s.(c := s.c.(bufs := s.c.bufs[i := u])) }

  // Nobody has half-changed this buffer.
  predicate Settled(c: Cache, u: Buf) { !u.dirty && (c.mid.Some? ==> !Caches(u, c.mid.value.b)) }

  lemma {:induction false} Release(s0: Origin, s: State, t: nat, i: nat) returns (s': State)
    requires Reached(s0, s) && i < |s.c.bufs| && t in s.c.bufs[i].users && Settled(s.c, s.c.bufs[i])
    requires s.c.bufs[i].owner == None || s.c.bufs[i].owner == Some(t)
    ensures Reached(s0, s') && s.c.bufs[i].refcnt > 0
    ensures var u := s.c.bufs[i];
      s' == WithBuf(s, i, u.(owner := None, users := u.users - {t}, refcnt := u.refcnt - 1))
  {
    hide Reached, Inv, Wf;
    Facts(s0, s);
    assert BufOk(s.c, s.c.bufs[i]);
    var s1 := s;
    if s.c.bufs[i].owner == None { s1 := Then(s0, s, Lock(t, i)); }
    Facts(s0, s1);
    s' := Then(s0, s1, Brelse(t, i));
  }

  // Everybody releases buffer i.
  lemma {:induction false} ReleaseAll(s0: Origin, s: State, i: nat) returns (s': State)
    requires Reached(s0, s) && i < |s.c.bufs| && Settled(s.c, s.c.bufs[i])
    ensures Reached(s0, s') && |s'.c.bufs| == |s.c.bufs| && s' == WithBuf(s, i, s'.c.bufs[i])
    ensures s'.c.bufs[i].users == {} && !s'.c.bufs[i].dirty
    decreases |s.c.bufs[i].users|
  {
    hide Reached, Inv, Wf;
    var u := s.c.bufs[i];
    if u.users == {} {
      s' := s;
    } else {
      Facts(s0, s);
      assert BufOk(s.c, u);
      var t :| t in u.users && (u.owner == None || u.owner == Some(t));
      var s1 := Release(s0, s, t, i);
      s' := ReleaseAll(s0, s1, i);
    }
  }

  predicate Clean(bufs: seq<Buf>) { forall i :: 0 <= i < |bufs| ==> !bufs[i].dirty }
  predicate Idle(bufs: seq<Buf>) { forall i :: 0 <= i < |bufs| ==> bufs[i].users == {} }
  // The same state but for who uses which buffer.
  predicate SameBut(s: State, s': State) { s' == s.(c := s.c.(bufs := s'.c.bufs)) }

  lemma {:induction false} Drain(s0: Origin, s: State, n: nat) returns (s': State)
    requires Reached(s0, s) && n <= |s.c.bufs| && s.c.mid == None && Clean(s.c.bufs)
    ensures Reached(s0, s') && SameBut(s, s') && |s'.c.bufs| == |s.c.bufs| && Clean(s'.c.bufs)
    ensures forall i :: 0 <= i < n ==> s'.c.bufs[i].users == {}
  {
    hide Reached;
    s' := s;
    if n > 0 {
      var s1 := Drain(s0, s, n - 1);
      s' := ReleaseAll(s0, s1, n - 1);
    }
  }

  // ----- getting them -----

  // bget of a cached block
  lemma {:induction false} GetHit(s0: Origin, s: State, t: nat, i: nat, b: nat) returns (s': State)
    requires Reached(s0, s) && MayUse(s, t, b) && i < |s.c.bufs| && Caches(s.c.bufs[i], b) && s.c.bufs[i].users == {}
    ensures Reached(s0, s') && |s'.c.bufs| == |s.c.bufs| && s' == WithBuf(s, i, s'.c.bufs[i])
    ensures Caches(s'.c.bufs[i], b) && Fresh(s'.c.bufs[i], t)
  {
    hide Reached, Inv, Wf;
    Facts(s0, s);
    assert BufOk(s.c, s.c.bufs[i]);
    s' := Then(s0, s, BgetHit(t, i, b));
  }

  // bget of any other block
  lemma {:induction false} GetMiss(s0: Origin, s: State, t: nat, i: nat, b: nat) returns (s': State)
    requires Reached(s0, s) && MayUse(s, t, b) && i < |s.c.bufs| && !Cached(s.c.bufs, b) && s.c.bufs[i].refcnt == 0
    ensures Reached(s0, s') && |s'.c.bufs| == |s.c.bufs| && s' == WithBuf(s, i, s'.c.bufs[i])
    ensures Caches(s'.c.bufs[i], b) && Fresh(s'.c.bufs[i], t) && s.c.bufs[i].users == {}
  {
    hide Reached, Inv, Wf;
    Facts(s0, s);
    assert BufOk(s.c, s.c.bufs[i]);
    s' := Then(s0, s, BgetMiss(t, i, b));
  }

  // Thread t alone has got the buffer, and not locked it yet.
  predicate Fresh(u: Buf, t: nat) { u.users == {t} && u.owner == None && !u.dirty }

  // bget
  lemma {:induction false} Get(s0: Origin, s: State, t: nat, b: nat) returns (s': State, i: nat)
    requires Reached(s0, s) && MayUse(s, t, b) && (Cached(s.c.bufs, b) || Unused(s.c.bufs))
    requires forall j :: 0 <= j < |s.c.bufs| && Caches(s.c.bufs[j], b) ==> s.c.bufs[j].users == {}
    ensures Reached(s0, s') && i < |s.c.bufs| == |s'.c.bufs| && s' == WithBuf(s, i, s'.c.bufs[i])
    ensures s.c.bufs[i].users == {} && Caches(s'.c.bufs[i], b) && Fresh(s'.c.bufs[i], t)
  {
    hide Reached, MayUse, Fresh;
    if Cached(s.c.bufs, b) {
      i :| 0 <= i < |s.c.bufs| && Caches(s.c.bufs[i], b);
      s' := GetHit(s0, s, t, i, b);
    } else {
      i :| 0 <= i < |s.c.bufs| && s.c.bufs[i].refcnt == 0;
      s' := GetMiss(s0, s, t, i, b);
    }
  }

  // acquiresleep, and the disk read of bread
  lemma {:induction false} LockAndFill(s0: Origin, s: State, t: nat, i: nat, b: nat) returns (s': State)
    requires Reached(s0, s) && i < |s.c.bufs| && Caches(s.c.bufs[i], b) && b < |s.c.disk| && Fresh(s.c.bufs[i], t)
    ensures Reached(s0, s') && |s'.c.bufs| == |s.c.bufs| && s' == WithBuf(s, i, s'.c.bufs[i])
    ensures Holds(s'.c, t, i, b) && s'.c.bufs[i].users == {t} && !s'.c.bufs[i].dirty
  {
    hide Reached, Inv, Wf;
    Facts(s0, s);
    s' := Then(s0, s, Lock(t, i));
    if !s'.c.bufs[i].valid {
      Facts(s0, s');
      s' := Then(s0, s', Fill(t, i));
    }
  }

  /** Thread t gets block b, locks its buffer and reads it in. */
  lemma {:induction false} Acquire(s0: Origin, s: State, t: nat, b: nat) returns (s': State, i: nat)
    requires Reached(s0, s) && MayUse(s, t, b) && (Cached(s.c.bufs, b) || Unused(s.c.bufs))
    requires forall j :: 0 <= j < |s.c.bufs| && Caches(s.c.bufs[j], b) ==> s.c.bufs[j].users == {}
    ensures Reached(s0, s') && i < |s.c.bufs| == |s'.c.bufs| && s' == WithBuf(s, i, s'.c.bufs[i])
    ensures Holds(s'.c, t, i, b) && s'.c.bufs[i].users == {t} && !s'.c.bufs[i].dirty
    ensures s.c.bufs[i].users == {}
  {
    hide Reached, Unused, Holds;
    var s1;
    s1, i := Get(s0, s, t, b);
    s' := LockAndFill(s0, s1, t, i, b);
  }

  // ----- one step of a commit or of recovery -----

  // Outside Ops, with nothing staged, everybody can let go of everything.
  lemma {:induction false} CommitFacts(s0: Origin, s: State)
    requires Reached(s0, s) && !s.phase.Ops?
    ensures Clean(s.c.bufs) && |s.c.bufs| == NBUF
    ensures s.c.mid == None <==> s.phase.WLog? || s.phase.Inst? || s.phase.Boot? || s.phase.Done?
    ensures (s.committing || s.recovering) && s.start + LOGBLOCKS < |s.c.disk| && |s.lh| <= LOGBLOCKS
    ensures s.phase.WLog? || s.phase.Inst? ==> s.phase.k <= |s.lh|
    ensures s.phase.WLogW? || s.phase.InstW? ==> s.phase.k < |s.lh|
    ensures forall k :: 0 <= k < |s.lh| ==> Home(s.start, |s.c.disk|, s.lh[k])
  {
    Quiet(s);
  }

  // The committer holds block b, and nobody holds anything else.
  predicate Alone(s: State, i: nat, b: nat) {
    && i < |s.c.bufs| && HoldsBlock(s, i, b) && s.c.bufs[i].users == {s.committer} && Clean(s.c.bufs)
    && forall j :: 0 <= j < |s.c.bufs| && j != i ==> s.c.bufs[j].users == {}
  }

  lemma {:induction false} Fetch(s0: Origin, s: State, b: nat) returns (s': State, i: nat)
    requires Reached(s0, s) && !s.phase.Ops? && s.c.mid == None && |s.c.pins| < NBUF
    requires MayUse(s, s.committer, b)
    ensures Reached(s0, s') && SameBut(s, s') && |s'.c.bufs| == NBUF && Alone(s', i, b)
  {
    hide Reached, CacheInv, MayUse;
    CommitFacts(s0, s);
    var s1 := Drain(s0, s, NBUF);
    Facts(s0, s1);
    FreeBuffer(s1.c);
    assert InUse(s1.c.bufs) == {} && s1.c.pins + {} == s1.c.pins;
    assert MayUse(s1, s1.committer, b) by { SameMayUse(s, s1, b); }
    s', i := Acquire(s0, s1, s1.committer, b);
  }

  lemma {:induction false} SameMayUse(s: State, s': State, b: nat)
    requires SameBut(s, s') && MayUse(s, s.committer, b)
    ensures MayUse(s', s'.committer, b)
  {
  }

  lemma {:induction false} SecondAvailable(s0: Origin, s: State, i: nat, b: nat, b2: nat)
    requires Reached(s0, s) && Alone(s, i, b) && (b2 in s.c.pins || s.c.pins == {})
    ensures Cached(s.c.bufs, b2) || Unused(s.c.bufs)
  {
    hide Reached, BufOk;
    Facts(s0, s);
    if s.c.pins == {} {
      FreeBuffer(s.c);
      assert InUse(s.c.bufs) == {b} && {} + {b} == {b};
    }
  }

  // A second block: one that is pinned, or any while nothing is.
  lemma {:induction false} FetchSecond(s0: Origin, s: State, i: nat, b: nat, b2: nat) returns (s': State, j: nat)
    requires Reached(s0, s) && Alone(s, i, b) && MayUse(s, s.committer, b2) && b2 != b
    requires b2 in s.c.pins || s.c.pins == {}
    ensures Reached(s0, s') && SameBut(s, s') && |s'.c.bufs| == |s.c.bufs|
    ensures HoldsBlock(s', i, b) && HoldsBlock(s', j, b2)
  {
    hide Reached, BufOk, MayUse, CacheInv, Unused;
    assert Cached(s.c.bufs, b2) || Unused(s.c.bufs) by { SecondAvailable(s0, s, i, b, b2); }
    s', j := Acquire(s0, s, s.committer, b2);
  }

  // How far the commit or the recovery has to go.
  function ToGo(s: State): nat {
    match s.phase
    case Boot => 300
    case WLog(k) => if k <= LOGBLOCKS then 200 + 2 * (LOGBLOCKS - k) else 0
    case WLogW(k) => if k < LOGBLOCKS then 199 + 2 * (LOGBLOCKS - k) else 0
    case HeadW => 180
    case Inst(k) => if k <= LOGBLOCKS then 100 + 2 * (LOGBLOCKS - k) else 0
    case InstW(k) => if k < LOGBLOCKS then 99 + 2 * (LOGBLOCKS - k) else 0
    case ClearW => 2
    case Done => 1
    case Ops => 0
  }

  // Nothing but the commit has moved.
  predicate Moved(s: State, s': State) {
    ToGo(s') < ToGo(s) && s'.c.pins <= s.c.pins && s'.outstanding == s.outstanding && s'.c.logical == s.c.logical
  }

  predicate Writing(s: State) { s.phase.WLogW? || s.phase.HeadW? || s.phase.InstW? || s.phase.ClearW? }

  lemma {:induction false} HoldsStaged(s0: Origin, s: State) returns (i: nat)
    requires Reached(s0, s) && s.c.mid.Some?
    ensures HoldsBlock(s, i, s.c.mid.value.b) && s.c.bufs[i].refcnt > 0
  {
    hide LogOk, Admission, DirtyOk;
    i :| 0 <= i < |s.c.bufs| && Caches(s.c.bufs[i], s.c.mid.value.b) && s.c.bufs[i].valid;
    assert BufOk(s.c, s.c.bufs[i]);
  }

  lemma {:induction false} StagedBlock(s0: Origin, s: State)
    requires Reached(s0, s) && Writing(s)
    ensures s.c.mid.Some? && |s.lh| <= LOGBLOCKS
    ensures match s.phase
      case WLogW(k) => k < |s.lh| && s.c.mid.value.b == s.start + 1 + k
      case InstW(k) => k < |s.lh| && s.c.mid.value.b == s.lh[k]
      case _ => s.c.mid.value.b == s.start
  {
    hide CacheInv, Admission, DirtyOk, HeldOk;
  }

  lemma {:induction false} WriteBlock(s0: Origin, s: State) returns (s': State)
    requires Reached(s0, s) && (s.phase.WLogW? || s.phase.InstW?)
    ensures Reached(s0, s') && Moved(s, s')
    ensures s.phase.InstW? ==> s'.phase == Inst(s.phase.k + 1)
  {
    hide Reached, Inv, Wf, HoldsBlock;
    Facts(s0, s);
    StagedBlock(s0, s);
    var i := HoldsStaged(s0, s);
    s' := Then(s0, s, if s.phase.WLogW? then WriteLog(i) else WriteInst(i));
  }

  lemma {:induction false} WriteHeader(s0: Origin, s: State) returns (s': State)
    requires Reached(s0, s) && (s.phase.HeadW? || s.phase.ClearW?)
    ensures Reached(s0, s') && Moved(s, s')
  {
    hide Reached, Inv, Wf, HoldsBlock;
    Facts(s0, s);
    StagedBlock(s0, s);
    var i := HoldsStaged(s0, s);
    s' := Then(s0, s, if s.phase.HeadW? then WriteHead(i) else WriteClear(i));
  }

  // The pins at each phase.
  lemma {:induction false} PinFacts(s0: Origin, s: State)
    requires Reached(s0, s)
    ensures s.phase.Boot? || s.recovering || s.phase.ClearW? || s.phase.Done? ==> s.c.pins == {}
    ensures s.phase.WLog? ==> s.c.pins == ToSet(s.lh)
    ensures s.phase.Inst? && s.phase.k < |s.lh| && !s.recovering ==> s.lh[s.phase.k] in s.c.pins
    ensures s.phase.Inst? && s.phase.k > 0 ==> |s.c.pins| < NBUF
  {
    hide CacheInv, DirtyOk, HeldOk, Admission, HeaderOk, HomeOk, ProgressOk, MidOk;
    var l := Pending(s.lh, s.phase, s.recovering);
    ToSetSize(l);
  }

  // Both blocks that a round of write_log or install_trans works on.
  lemma {:induction false} FetchBoth(s0: Origin, s: State) returns (s': State, i: nat, j: nat)
    requires Reached(s0, s) && (s.phase.WLog? || s.phase.Inst?) && s.phase.k < |s.lh| && |s.c.pins| < NBUF
    ensures Reached(s0, s') && SameBut(s, s')
    ensures HoldsBlock(s', i, s.start + 1 + s.phase.k) && HoldsBlock(s', j, s.lh[s.phase.k])
  {
    hide Reached, Alone, HoldsBlock;
    CommitFacts(s0, s);
    PinFacts(s0, s);
    var s1;
    s1, i := Fetch(s0, s, s.start + 1 + s.phase.k);
    s', j := FetchSecond(s0, s1, i, s.start + 1 + s.phase.k, s.lh[s.phase.k]);
  }

  lemma {:induction false} FetchHeader(s0: Origin, s: State) returns (s': State, i: nat)
    requires Reached(s0, s) && (s.phase.WLog? || s.phase.Inst? || s.phase.Boot?) && |s.c.pins| < NBUF
    ensures Reached(s0, s') && SameBut(s, s') && HoldsBlock(s', i, s.start)
  {
    hide Reached, HoldsBlock;
    CommitFacts(s0, s);
    s', i := Fetch(s0, s, s.start);
  }

  lemma {:induction false} StageBlock(s0: Origin, s: State) returns (s': State)
    requires Reached(s0, s) && (s.phase.WLog? || s.phase.Inst?) && s.phase.k < |s.lh| && |s.c.pins| < NBUF
    ensures Reached(s0, s') && Moved(s, s') && s'.c.pins == s.c.pins
  {
    hide Reached, Inv, Wf, HoldsBlock;
    CommitFacts(s0, s);
    var s1, i, j := FetchBoth(s0, s);
    Facts(s0, s1);
    s' := Then(s0, s1, if s.phase.WLog? then CopyLog(i, j) else CopyInst(i, j));
  }

  lemma {:induction false} StageHeader(s0: Origin, s: State) returns (s': State)
    requires Reached(s0, s) && (s.phase.WLog? || s.phase.Inst?) && s.phase.k == |s.lh| && |s.c.pins| < NBUF
    ensures Reached(s0, s') && Moved(s, s') && s'.c.pins == s.c.pins
  {
    hide Reached, Inv, Wf, HoldsBlock;
    CommitFacts(s0, s);
    var s1, i := FetchHeader(s0, s);
    Facts(s0, s1);
    s' := Then(s0, s1, if s.phase.WLog? then FillHead(i) else FillClear(i));
  }

  lemma {:induction false} ReadHeader(s0: Origin, s: State) returns (s': State)
    requires Reached(s0, s) && s.phase.Boot?
    ensures Reached(s0, s') && Moved(s, s') && s'.c.pins == s.c.pins
  {
    hide Reached, Inv, Wf, HoldsBlock;
    PinFacts(s0, s);
    var s1, i := FetchHeader(s0, s);
    Facts(s0, s1);
    HeaderIsGood(s0, s1, i);
    s' := Then(s0, s1, ReadHead(i));
  }

  lemma {:induction false} HeaderIsGood(s0: Origin, s: State, i: nat)
    requires Reached(s0, s) && s.phase.Boot? && HoldsBlock(s, i, s.start)
    ensures GoodHeader(s.c.bufs[i].data)
  {
    DataOf(s, i, s.start);
  }

  lemma {:induction false} DoFinish(s0: Origin, s: State) returns (s': State)
    requires Reached(s0, s) && s.phase.Done?
    ensures Reached(s0, s') && Moved(s, s')
  {
    hide Reached, Inv, Wf;
    Facts(s0, s);
    s' := Then(s0, s, Finish);
  }

  lemma {:induction false} Advance(s0: Origin, s: State) returns (s': State)
    requires Reached(s0, s) && !s.phase.Ops? && (|s.c.pins| < NBUF || s.phase.InstW?)
    ensures Reached(s0, s') && Moved(s, s') && |s'.c.pins| < NBUF
  {
    hide Reached, ToGo;
    CommitFacts(s0, s);
    if s.phase.WLogW? || s.phase.InstW? {
      s' := WriteBlock(s0, s);
      PinFacts(s0, s');
    } else if s.phase.HeadW? || s.phase.ClearW? {
      s' := WriteHeader(s0, s);
    } else if s.phase.Boot? {
      s' := ReadHeader(s0, s);
    } else if s.phase.Done? {
      s' := DoFinish(s0, s);
    } else if s.phase.k < |s.lh| {
      s' := StageBlock(s0, s);
    } else {
      s' := StageHeader(s0, s);
    }
    SubsetSize(s'.c.pins, s.c.pins);
  }

  lemma {:induction false} NothingRuns(s0: Origin, s: State)
    requires Reached(s0, s) && !s.phase.Ops?
    ensures s.outstanding == 0
  {
    Quiet(s);
  }

  /** A commit or a recovery that has a buffer to work with can be completed. */
  lemma {:induction false} Completes(s0: Origin, s: State) returns (s': State)
    requires Reached(s0, s) && (s.phase.Ops? ==> s.outstanding == 0)
    requires |s.c.pins| < NBUF || s.phase.InstW?
    ensures Reached(s0, s') && s'.phase.Ops? && s'.outstanding == 0 && s'.c.logical == s.c.logical
    decreases ToGo(s)
  {
    hide Reached, ToGo;
    if s.phase.Ops? {
      s' := s;
    } else {
      NothingRuns(s0, s);
      var s1 := Advance(s0, s);
      s' := Completes(s0, s1);
    }
  }

  /** The machine may crash in every state; then some recovery completes, and the file system sees exactly
      what the disk recovered to. */
  lemma {:induction false} CrashEnds(s: State, t: nat) returns (s': State)
    requires Inv(s)
    ensures Wf(s) && Enabled(s, Crash(t)) && Leads(Apply(s, Crash(t)), s')
    ensures s'.phase.Ops? && !s'.recovering && s'.c.logical == RecoveredDisk(s.c.disk, s.start)
  {
    hide Inv, Recovered;
    InvWf(s);
    var s1 := Apply(s, Crash(t));
    StepInv(s, Crash(t));
    Start(From(s1));
    s' := Completes(From(s1), s1);
    OpsNotRecovering(s');
  }

  // ----- ending the operations in progress -----

  /** The operations end one after the other, and the last one starts the commit. */
  lemma {:induction false} EndAll(s0: Origin, s: State) returns (s': State)
    requires Reached(s0, s) && s.phase.Ops? && s.outstanding > 0 && Clean(s.c.bufs)
    ensures Reached(s0, s') && s'.c == s.c && s'.lh == s.lh && s'.start == s.start
    ensures s'.phase == if |s.lh| > 0 then WLog(0) else Done
    decreases s.outstanding
  {
    hide Reached, Inv, Wf;
    Facts(s0, s);
    var t := SomeOperation(s0, s);
    s' := Then(s0, s, End(t));
    if s.outstanding > 1 { s' := EndAll(s0, s'); }
  }

  lemma {:induction false} SomeOperation(s0: Origin, s: State) returns (t: nat)
    requires Reached(s0, s) && s.outstanding > 0
    ensures t in s.ops
  {
    hide CacheInv, LogOk;
    t :| t in s.ops;
  }

  // ----- logging what has been changed -----

  function DirtyBlocks(bufs: seq<Buf>): (r: set<nat>) {
    set i | 0 <= i < |bufs| && bufs[i].dirty :: bufs[i].blockno
  }

  // The blocks that thread t has changed and that are not in the log.
  function Unlogged(bufs: seq<Buf>, lh: seq<nat>, t: nat): (r: set<nat>) {
    set i | 0 <= i < |bufs| && bufs[i].dirty && bufs[i].owner == Some(t) && bufs[i].blockno !in lh :: bufs[i].blockno
  }

  /** No operation has changed more blocks than it may still log. */
  predicate WithinShare(s: State) { forall t :: t in s.ops ==> |Unlogged(s.c.bufs, s.lh, t)| <= s.ops[t] }

  /** The blocks that are logged, or changed and still to be logged. A torn copy is neither: its buffer
      can be recycled. */
  function Taken(c: Cache): (r: set<nat>) { c.pins + DirtyBlocks(c.bufs) }

  function DirtyCount(bufs: seq<Buf>): (r: nat) { |set i: nat | i < |bufs| && bufs[i].dirty| }

  lemma {:induction false} DirtyFacts(s0: Origin, s: State, i: nat)
    requires Reached(s0, s) && i < |s.c.bufs| && s.c.bufs[i].dirty
    ensures s.phase.Ops? && !s.recovering && s.outstanding >= 1 && s.c.pins == ToSet(s.lh)
    ensures s.c.bufs[i].owner.Some? && OpHolds(s, s.c.bufs[i].owner.value, i)
  {
    hide LogOk;
    assert BufOk(s.c, s.c.bufs[i]);
    OpsOnly(s, s.c.bufs[i].owner.value);
    assert s.c.pins == ToSet(s.lh) by { PinsAre(s); }
  }

  lemma {:induction false} PinsAre(s: State)
    requires Inv(s)
    ensures s.c.pins == ToSet(Pending(s.lh, s.phase, s.recovering)) && |s.c.pins| <= |s.lh| <= LOGBLOCKS
  {
    hide CacheInv, Admission, DirtyOk, HeldOk, HeaderOk, HomeOk, ProgressOk, MidOk;
    ToSetSize(Pending(s.lh, s.phase, s.recovering));
  }

  // After log_write of block b by t, one that t had changed or that was logged already.
  lemma {:induction false} LoggedUnlogged(bufs: seq<Buf>, lh: seq<nat>, i: nat, u: Buf, t: nat)
    requires i < |bufs| && !u.dirty
    ensures |Unlogged(bufs[i := u], lh, t)| <= |Unlogged(bufs, lh, t)|
    ensures var b := bufs[i].blockno;
      b !in lh && bufs[i].dirty && bufs[i].owner == Some(t) ==>
        |Unlogged(bufs[i := u], lh + [b], t)| < |Unlogged(bufs, lh, t)|
    ensures var b := bufs[i].blockno; |Unlogged(bufs[i := u], lh + [b], t)| <= |Unlogged(bufs, lh, t)|
  {
    var b, was := bufs[i].blockno, Unlogged(bufs, lh, t);
    SubsetSize(Unlogged(bufs[i := u], lh, t), was);
    SubsetSize(Unlogged(bufs[i := u], lh + [b], t), was - {b});
    SubsetSize(was - {b}, was);
    if b in was { assert was == (was - {b}) + {b}; }
  }

  lemma {:induction false} LoggedTaken(c: Cache, i: nat)
    requires i < |c.bufs| && c.bufs[i].blockno < |c.logical| && (c.bufs[i].dirty || c.bufs[i].blockno in c.pins)
    ensures Taken(Publish(c, i)) == Taken(c)
  {
    var c' := Publish(c, i);
    assert forall j :: 0 <= j < |c.bufs| && j != i ==> c'.bufs[j] == c.bufs[j];
    assert DirtyBlocks(c.bufs) <= DirtyBlocks(c'.bufs) + {c.bufs[i].blockno};
    assert DirtyBlocks(c'.bufs) <= DirtyBlocks(c.bufs);
  }

  lemma {:induction false} LoggedShare(s: State, s': State, t: nat, i: nat)
    requires Wf(s) && Enabled(s, LogWrite(t, i)) && s' == Apply(s, LogWrite(t, i)) && s.c.pins == ToSet(s.lh)
    requires (s.c.bufs[i].dirty || s.c.bufs[i].blockno in s.lh) && WithinShare(s)
    ensures WithinShare(s') && Taken(s'.c) == Taken(s.c)
  {
    hide Unlogged, Taken;
    forall u | u in s'.ops ensures |Unlogged(s'.c.bufs, s'.lh, u)| <= s'.ops[u] {
      LoggedUnlogged(s.c.bufs, s.lh, i, s'.c.bufs[i], u);
    }
    LoggedTaken(s.c, i);
  }

  /** Each operation logs what it has changed. */
  lemma {:induction false} Flush(s0: Origin, s: State) returns (s': State)
    requires Reached(s0, s) && s.phase.Ops? && WithinShare(s) && |Taken(s.c)| < NBUF && s0.avoid == {}
    ensures Reached(s0, s') && s'.phase.Ops? && Clean(s'.c.bufs) && |s'.c.pins| < NBUF
    decreases DirtyCount(s.c.bufs)
  {
    hide Reached, Inv, Wf, Enabled, Apply, OpHolds, WithinShare, DirtyBlocks;
    SubsetSize(s.c.pins, Taken(s.c));
    if Clean(s.c.bufs) {
      s' := s;
    } else {
      var i: nat :| i < |s.c.bufs| && s.c.bufs[i].dirty;
      var s1 := FlushOne(s0, s, i);
      s' := Flush(s0, s1);
    }
  }

  lemma {:induction false} FlushOne(s0: Origin, s: State, i: nat) returns (s': State)
    requires Reached(s0, s) && WithinShare(s) && |Taken(s.c)| < NBUF && i < |s.c.bufs| && s.c.bufs[i].dirty
    requires s0.avoid == {}
    ensures Reached(s0, s') && s'.phase == s.phase && WithinShare(s') && |Taken(s'.c)| < NBUF
    ensures DirtyCount(s'.c.bufs) < DirtyCount(s.c.bufs)
  {
    hide Reached, Inv, Wf, WithinShare, Taken;
    Facts(s0, s);
    DirtyFacts(s0, s, i);
    var t := s.c.bufs[i].owner.value;
    CanLog(s0, s, t, i);
    s' := Then(s0, s, LogWrite(t, i));
    LoggedShare(s, s', t, i);
    OneLess(s.c.bufs, s'.c.bufs, i);
  }

  lemma {:induction false} OneLess(bufs: seq<Buf>, bufs': seq<Buf>, i: nat)
    requires i < |bufs| == |bufs'| && bufs[i].dirty && !bufs'[i].dirty
    requires forall j :: 0 <= j < |bufs| && j != i ==> bufs'[j] == bufs[j]
    ensures DirtyCount(bufs') < DirtyCount(bufs)
  {
    var d := set j: nat | j < |bufs| && bufs[j].dirty;
    SubsetSize((set j: nat | j < |bufs'| && bufs'[j].dirty), d - {i});
  }

  lemma {:induction false} CanLog(s0: Origin, s: State, t: nat, i: nat)
    requires Reached(s0, s) && Wf(s) && OpHolds(s, t, i) && s.c.bufs[i].dirty && WithinShare(s) && |Taken(s.c)| < NBUF
    requires s.c.pins == ToSet(s.lh) && s.outstanding >= 1
    ensures Enabled(s, LogWrite(t, i))
  {
    hide Inv, Taken, Unlogged;
    assert |s.lh| < LOGBLOCKS by { RoomToLog(s); }
    if s.c.bufs[i].blockno !in s.lh { UnloggedHas(s.c.bufs, s.lh, t, i); }
  }

  lemma {:induction false} RoomToLog(s: State)
    requires Inv(s) && s.c.pins == ToSet(s.lh) && |Taken(s.c)| < NBUF
    ensures |s.lh| < LOGBLOCKS
  {
    hide CacheInv, Admission, DirtyOk, HeldOk, HeaderOk, HomeOk, ProgressOk, MidOk;
    ToSetSize(s.lh);
    SubsetSize(s.c.pins, Taken(s.c));
  }

  lemma {:induction false} UnloggedHas(bufs: seq<Buf>, lh: seq<nat>, t: nat, i: nat)
    requires i < |bufs| && bufs[i].dirty && bufs[i].owner == Some(t) && bufs[i].blockno !in lh
    ensures |Unlogged(bufs, lh, t)| > 0
  {
    assert bufs[i].blockno in Unlogged(bufs, lh, t);
  }

  // An operation may change a home block that it holds in any way, logged or not, or have a copy torn into it.
  lemma {:induction false} MayChange(s: State, t: nat, i: nat, b: nat, d: Block)
    requires Inv(s) && t in s.ops && Holds(s.c, t, i, b) && Home(s.start, |s.c.disk|, b) && |d| == BWORDS
    ensures Wf(s) && Enabled(s, Modify(t, i, d)) && (!s.c.bufs[i].dirty ==> Enabled(s, Tear(t, i, d)))
  {
    hide Inv;
    InvWf(s);
  }

  // ----- who can get in -----

  /** A call of begin_op by thread t would be admitted now. */
  ghost predicate Admits(s: State, t: nat) {
    Wf(s) && Enabled(s, Begin(t)) && t in Apply(s, Begin(t)).ops
  }

  /** The blocks logged or about to be logged leave a buffer over; a commit that is about to install a
      block is about to free one. */
  predicate BufferOver(s: State) { |Taken(s.c)| < NBUF || s.phase.InstW? }

  lemma {:induction false} IdleLets(s0: Origin, s: State, t: nat)
    requires Reached(s0, s) && s.phase.Ops? && s.outstanding == 0
    ensures Admits(s, t)
  {
    hide CacheInv, LogOk, DirtyOk, HeldOk;
    assert !s.recovering by { OpsNotRecovering(s); }
  }

  /** begin_op admits a thread exactly if no commit or recovery is under way and the log has room for the
      full share of every operation in progress and of this one. */
  lemma {:induction false} AdmitsIff(s: State, t: nat)
    requires Inv(s)
    ensures Admits(s, t) <==>
              && s.phase.Ops? && t !in s.ops && t !in s.sleepers
              && |s.lh| + |s.ops| * MAXOPBLOCKS + MAXOPBLOCKS <= LOGBLOCKS
    ensures Admits(s, t) ==> Apply(s, Begin(t)).ops == s.ops[t := MAXOPBLOCKS]
  {
    hide CacheInv, LogOk, DirtyOk, HeldOk;
    InvWf(s);
    if s.phase.Ops? { OpsNotRecovering(s); }
  }

  lemma {:induction false} OpsNotRecovering(s: State)
    requires Inv(s) && s.phase.Ops?
    ensures !s.recovering
  {
    hide CacheInv, Admission, DirtyOk, HeldOk;
  }

  lemma {:induction false} SomebodyGetsIn(s: State, t: nat) returns (s': State)
    requires Inv(s) && WithinShare(s) && BufferOver(s)
    ensures Leads(s, s') && Admits(s', t)
  {
    hide Inv, Admits, WithinShare, Clean, DirtyBlocks;
    var s0 := From(s);
    Start(s0);
    var s1 := s;
    SubsetSize(s.c.pins, Taken(s.c));
    if s.phase.Ops? {
      s1 := Flush(s0, s);
      if s1.outstanding > 0 { s1 := EndAll(s0, s1); }
    }
    s' := Completes(s0, s1);
    IdleLets(s0, s', t);
  }
}
