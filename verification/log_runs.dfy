/**
 Runs that get a commit stuck, from any good image with enough blocks: a full log, and a log with one
 block less beside a thread that reads.
 */
module LogRuns {
  import opened Param
  import opened Common
  import opened CacheModel
  import opened LogModel
  import opened LogInvariant
  import opened LogTheorems
  import opened LogCapacity
  import opened LogProgress
  import opened LogFull

  lemma {:induction false} SamePlace(s0: Origin, s: State)
    requires Inv(s0.s) && Reached(s0, s)
    ensures s.start == s0.s.start && |s.c.disk| == |s0.s.c.disk|
  {
    hide Inv, Wf;
    var ss, acts :| Path(ss, acts, s0.s, s);
    RunInv(ss, acts, |acts|);
  }

  // Operations with room for n more blocks, and nobody at any buffer.
  ghost predicate Open(s0: Origin, s: State, n: nat) {
    && Reached(s0, s) && s.phase.Ops? && s.outstanding > 0 && Sum(s.ops) == n
    && Clean(s.c.bufs) && Idle(s.c.bufs)
  }

  lemma {:induction false} IdleFacts(s0: Origin, s: State)
    requires Reached(s0, s) && s.phase.Ops? && s.outstanding == 0
    ensures s.ops == map[] && s.lh == [] && s.sleepers == {} && !s.recovering && !s.committing
    ensures Clean(s.c.bufs) && s.c.mid == None && |s.c.bufs| == NBUF
  {
    forall i | 0 <= i < |s.c.bufs| ensures !s.c.bufs[i].dirty { assert BufOk(s.c, s.c.bufs[i]); }
  }

  lemma {:induction false} Enter(s0: Origin, s: State, t: nat) returns (s': State)
    requires Reached(s0, s) && t !in s.ops && s.sleepers == {} && !s.recovering && !s.committing && !NoRoom(s)
    ensures Reached(s0, s')
    ensures s' == s.(ops := s.ops[t := MAXOPBLOCKS], outstanding := s.outstanding + 1)
    ensures Sum(s'.ops) == Sum(s.ops) + MAXOPBLOCKS
  {
    hide Reached, Inv, Wf;
    Facts(s0, s);
    s' := Then(s0, s, Begin(t));
    SumUpdate(s.ops, t, MAXOPBLOCKS);
    assert s.ops - {t} == s.ops;
  }

  /** Recovery ends, everybody lets go, and three operations begin. */
  lemma {:induction false} OpenThree(s0: Origin) returns (s: State)
    requires Inv(s0.s) && s0.s.phase.Boot?
    ensures Open(s0, s, LOGBLOCKS) && s.lh == []
  {
    hide Reached, Inv;
    Start(s0);
    PinFacts(s0, s0.s);
    s := Completes(s0, s0.s);
    IdleFacts(s0, s);
    s := Drain(s0, s, NBUF);
    assert Sum(map[]) == 0;
    s := Enter(s0, s, 0);
    s := Enter(s0, s, 1);
    s := Enter(s0, s, 2);
  }

  lemma {:induction false} SomeShare(ops: map<nat, nat>) returns (t: nat)
    requires Sum(ops) > 0
    ensures t in ops && ops[t] > 0
  {
    if forall u :: u in ops ==> ops[u] == 0 { ZeroSum(ops); }
    t :| t in ops && ops[t] > 0;
  }

  lemma {:induction false} ZeroSum(ops: map<nat, nat>)
    requires forall u :: u in ops ==> ops[u] == 0
    ensures Sum(ops) == 0
    decreases |ops|
  {
    if ops != map[] {
      var k :| k in ops;
      SumRemove(ops, k);
      assert (ops - {k}).Keys == ops.Keys - {k};
      ZeroSum(ops - {k});
    }
  }

  lemma {:induction false} OpenFacts(s0: Origin, s: State, n: nat)
    requires Open(s0, s, n) && n > 0
    ensures !s.recovering && s.c.mid == None && s.c.pins == ToSet(s.lh) && |s.lh| < LOGBLOCKS
    ensures |s.c.bufs| == NBUF && Unused(s.c.bufs)
  {
    var t := SomeOperation(s0, s);
    OpsOnly(s, t);
    PinsAre(s);
    FreeBuffer(s.c);
    assert InUse(s.c.bufs) == {} && s.c.pins + {} == s.c.pins;
  }

  /** One more block is logged. */
  lemma {:induction false} LogOne(s0: Origin, s: State, n: nat, b: nat) returns (s': State)
    requires Open(s0, s, n) && n > 0 && Home(s.start, |s.c.disk|, b) && b !in s.lh && s0.avoid == {}
    ensures Open(s0, s', n - 1) && s'.lh == s.lh + [b] && s'.start == s.start && |s'.c.disk| == |s.c.disk|
  {
    hide Reached, Inv, Wf, Unused;
    OpenFacts(s0, s, n);
    var t := SomeShare(s.ops);
    var s1, i := Acquire(s0, s, t, b);
    Facts(s0, s1);
    assert OpHolds(s1, t, i);
    var s2 := Then(s0, s1, LogWrite(t, i));
    SumRemove(s.ops, t);
    SumUpdate(s.ops, t, s.ops[t] - 1);
    s' := Release(s0, s2, t, i);
  }

  lemma {:induction false} NotYet(lh: seq<nat>, hs: seq<nat>)
    requires Distinct(lh + hs) && hs != []
    ensures hs[0] !in lh
  {
    forall k | 0 <= k < |lh| ensures lh[k] != hs[0] {
      assert (lh + hs)[k] == lh[k] && (lh + hs)[|lh|] == hs[0];
    }
  }

  lemma {:induction false} LogMany(s0: Origin, s: State, n: nat, hs: seq<nat>) returns (s': State)
    requires Open(s0, s, n) && |hs| <= n && Distinct(s.lh + hs) && s0.avoid == {}
    requires forall k :: 0 <= k < |hs| ==> Home(s.start, |s.c.disk|, hs[k])
    ensures Open(s0, s', n - |hs|) && s'.lh == s.lh + hs
    decreases |hs|
  {
    hide Open;
    s' := s;
    if hs != [] {
      NotYet(s.lh, hs);
      s' := LogOne(s0, s, n, hs[0]);
      assert s.lh + [hs[0]] + hs[1..] == s.lh + hs;
      s' := LogMany(s0, s', n - 1, hs[1..]);
    }
  }

  /** From power-on, a run comes to where exactly the blocks hs are about to be committed. */
  lemma {:induction false} CommitStarts(disk: seq<Block>, start: nat, t: nat, hs: seq<nat>) returns (s: State)
    requires GoodImage(disk, start) && Distinct(hs) && 0 < |hs| <= LOGBLOCKS
    requires forall k :: 0 <= k < |hs| ==> Home(start, |disk|, hs[k])
    ensures Reached(From(PoweredOn(disk, start, t)), s)
    ensures s.phase == WLog(0) && s.lh == hs && s.start == start && |s.c.disk| == |disk| && Idle(s.c.bufs)
  {
    hide Inv, Wf;
    var s0 := From(PoweredOn(disk, start, t));
    PoweredOnInv(disk, start, t);
    s := OpenThree(s0);
    SamePlace(s0, s);
    assert [] + hs == hs;
    s := LogMany(s0, s, LOGBLOCKS, hs);
    s := EndAll(s0, s);
    SamePlace(s0, s);
  }

  /** A run to a commit of a full log, which then gets no buffer for any block of the log; nobody is
      admitted again until the machine crashes. */
  lemma {:induction false} FullLogStops(disk: seq<Block>, start: nat, t: nat, hs: seq<nat>) returns (s: State)
    requires GoodImage(disk, start) && Distinct(hs) && |hs| == LOGBLOCKS
    requires forall k :: 0 <= k < |hs| ==> Home(start, |disk|, hs[k])
    ensures Leads(PoweredOn(disk, start, t), s) && Wf(s) && s.phase == WLog(0) && s.lh == hs && s.start == start
    ensures forall b: nat :: LogRegion(start, b) ==> !CanGet(s, b)
    ensures forall u: nat :: !MayGetIn(s, u)
  {
    hide Inv, Wf, CanGet, MayGetIn;
    s := CommitStarts(disk, start, t, hs);
    forall b: nat | LogRegion(start, b) ensures !CanGet(s, b) { FullLogGetsNone(s, b); }
    forall u: nat ensures !MayGetIn(s, u) {
      NobodyRuns(s);
      WaitEnds(s, u);
    }
  }

  // Between operations, keeping to the shares is nothing, and the pinned blocks are all that is taken.
  lemma {:induction false} NobodyRuns(s: State)
    requires Inv(s) && s.phase.WLog?
    ensures WithinShare(s) && |Taken(s.c)| == |s.lh| && Taken(s.c) == s.c.pins == ToSet(s.lh)
  {
    hide CacheInv, DirtyOk, HeldOk, HeaderOk, HomeOk, ProgressOk, MidOk;
    Calm(s);
    assert DirtyBlocks(s.c.bufs) == {};
    ToSetSize(s.lh);
  }

  /** A run to a commit of one block less, beside a thread that has just called bget on another home
      block r: the commit gets no buffer for any block of the log now. It gets through on the runs on which
      that thread releases r before the commit asks. */
  lemma {:induction false} ReaderStops(disk: seq<Block>, start: nat, t: nat, hs: seq<nat>, r: nat)
    returns (s: State, i: nat)
    requires GoodImage(disk, start) && Distinct(hs) && |hs| == LOGBLOCKS - 1
    requires forall k :: 0 <= k < |hs| ==> Home(start, |disk|, hs[k])
    requires Home(start, |disk|, r) && r !in hs
    ensures Leads(PoweredOn(disk, start, t), s) && Wf(s) && s.phase == WLog(0) && s.lh == hs && s.start == start
    ensures i < NBUF && Caches(s.c.bufs[i], r) && s.c.bufs[i].users == {s.committer + 1}
    ensures forall b: nat :: LogRegion(start, b) ==> !CanGet(s, b)
    ensures forall u: nat :: MayGetIn(s, u)
  {
    hide Inv, MayGetIn, Taken, WithinShare;
    var s0 := From(PoweredOn(disk, start, t));
    var s1 := CommitStarts(disk, start, t, hs);
    CommitFacts(s0, s1);
    NobodyRuns(s1);
    FreeBuffer(s1.c) by { Facts(s0, s1); }
    assert InUse(s1.c.bufs) == {} && s1.c.pins + {} == s1.c.pins;
    ReaderMay(s0, s1, r);
    s, i := Get(s0, s1, s1.committer + 1, r);
    NobodyRuns(s);
    forall b: nat | LogRegion(start, b) ensures !CanGet(s, b) { ReaderInTheWay(s0, s, i, r, b); }
    forall u: nat ensures MayGetIn(s, u) { WaitEnds(s, u); }
  }

  lemma {:induction false} ReaderMay(s0: Origin, s: State, r: nat)
    requires Reached(s0, s) && s.phase.WLog? && Home(s.start, |s.c.disk|, r)
    ensures forall t: nat :: MayUse(s, t, r)
  {
    hide CacheInv, Admission, DirtyOk, HeldOk;
  }

  lemma {:induction false} ReaderInTheWay(s0: Origin, s: State, i: nat, r: nat, b: nat)
    requires Reached(s0, s) && s.phase.WLog? && |s.lh| == LOGBLOCKS - 1 && s.c.pins == ToSet(s.lh)
    requires i < |s.c.bufs| && Caches(s.c.bufs[i], r) && s.c.bufs[i].users != {}
    requires Home(s.start, |s.c.disk|, r) && r !in s.lh && LogRegion(s.start, b)
    ensures !CanGet(s, b)
  {
    hide Inv, CanGet, Wf, Cached;
    CommitFacts(s0, s);
    ToSetSize(s.lh) by { CommitDistinct(s); }
    var held := s.c.pins + {r};
    forall h | h in held ensures Cached(s.c.bufs, h) { HeldCached(s, i, r, h); }
    if Cached(s.c.bufs, b) { AllHeld(s.c.bufs, held, b); assert false; }
    CommitterGets(s, b);
    SubsetSize(held, s.c.pins + InUse(s.c.bufs));
  }

  lemma {:induction false} HeldCached(s: State, i: nat, r: nat, h: nat)
    requires Inv(s) && i < |s.c.bufs| && Caches(s.c.bufs[i], r) && h in s.c.pins + {r}
    ensures Cached(s.c.bufs, h)
  {
    hide LogOk, Admission, DirtyOk, HeldOk, BufOk;
  }

  lemma {:induction false} CommitDistinct(s: State)
    requires Inv(s)
    ensures Distinct(s.lh)
  {
    hide CacheInv, Admission, DirtyOk, HeldOk;
  }

  // ----- a torn copy -----

  /** An operation changes block b to x and logs it; then a copy into it faults and leaves d. */
  lemma {:induction false} LogTorn(s0: Origin, s: State, n: nat, b: nat, x: Block, d: Block) returns (s': State)
    requires Open(s0, s, n) && n > 0 && Home(s.start, |s.c.disk|, b) && b !in s.lh
    requires |x| == |d| == BWORDS && x !in s0.avoid
    ensures Reached(s0, s') && s'.phase.Ops? && s'.outstanding > 0 && Clean(s'.c.bufs) && s'.lh == s.lh + [b]
    ensures b < |s'.c.logical| && s'.c.logical[b] == d
  {
    hide Reached, Inv, Wf, Unused;
    OpenFacts(s0, s, n);
    var t := SomeShare(s.ops);
    var s1, i := Acquire(s0, s, t, b);
    Facts(s0, s1);
    var s2 := ChangeAndLog(s0, s1, t, i, x);
    Facts(s0, s2);
    var s3 := Then(s0, s2, Tear(t, i, d));
    s' := Release(s0, s3, t, i);
  }

  // Thread t changes the block it holds, and logs it.
  lemma {:induction false} ChangeAndLog(s0: Origin, s: State, t: nat, i: nat, x: Block) returns (s': State)
    requires Reached(s0, s) && Wf(s) && OpHolds(s, t, i) && |x| == BWORDS && x !in s0.avoid
    requires s.c.bufs[i].blockno !in s.lh && s.c.bufs[i].blockno !in s.c.pins
    requires |s.lh| < LOGBLOCKS && s.outstanding >= 1 && s.ops[t] > 0 && s.c.bufs[i].blockno < |s.c.logical|
    ensures Reached(s0, s')
    ensures var u, b := s.c.bufs[i], s.c.bufs[i].blockno;
      s' == s.(c := s.c.(logical := s.c.logical[b := x], pins := s.c.pins + {b},
                         bufs := s.c.bufs[i := u.(data := x, dirty := false, torn := false, refcnt := u.refcnt + 1)]),
               lh := s.lh + [b], ops := s.ops[t := s.ops[t] - 1])
  {
    hide Reached, Inv, Wf;
    var s1 := Then(s0, s, Modify(t, i, x));
    Facts(s0, s1);
    s' := Then(s0, s1, LogWrite(t, i));
    assert s.c.bufs[i := s1.c.bufs[i]][i := s'.c.bufs[i]] == s.c.bufs[i := s'.c.bufs[i]];
  }

  /** From power-on, for every home block b and contents d, a run without a crash in which no log_write
      passes d on, and which ends with d committed and installed in b. */
  lemma {:induction false} TornCommits(disk: seq<Block>, start: nat, t: nat, b: nat, x: Block, d: Block)
    returns (ss: seq<State>, acts: seq<Action>)
    requires GoodImage(disk, start) && Home(start, |disk|, b) && |x| == |d| == BWORDS && x != d
    ensures |ss| == |acts| + 1 && Path(ss, acts, PoweredOn(disk, start, t), ss[|acts|]) && Avoids(ss, acts, {d})
    ensures var s := ss[|acts|];
      && s.phase.Ops? && s.outstanding == 0 && b < |s.c.disk| == |s.c.logical|
      && s.c.disk[b] == s.c.logical[b] == d
  {
    hide Inv, Wf, Recovered;
    var s0 := Origin(PoweredOn(disk, start, t), {d});
    PoweredOnInv(disk, start, t);
    var s := OpenThree(s0);
    SamePlace(s0, s);
    s := LogTorn(s0, s, LOGBLOCKS, b, x, d);
    s := EndAll(s0, s);
    assert |s.c.pins| < NBUF by { OnePinned(s); }
    s := Completes(s0, s);
    SamePlace(s0, s);
    Emptied(s, b);
    ss, acts :| Path(ss, acts, s0.s, s) && Avoids(ss, acts, s0.avoid);
  }

  lemma {:induction false} OnePinned(s: State)
    requires Inv(s) && |s.lh| == 1
    ensures |s.c.pins| < NBUF
  {
    PinsAre(s);
  }

  // ----- absorption -----

  /** From power-on, a run to a full log with an operation in progress that holds a block already in the
      log: the log_write that would only be absorbed halts. */
  lemma {:induction false} AbsorbHalts(disk: seq<Block>, start: nat, t: nat, hs: seq<nat>)
    returns (s: State, u: nat, i: nat)
    requires GoodImage(disk, start) && Distinct(hs) && |hs| == LOGBLOCKS
    requires forall k :: 0 <= k < |hs| ==> Home(start, |disk|, hs[k])
    ensures Leads(PoweredOn(disk, start, t), s) && Wf(s) && s.lh == hs
    ensures OpHolds(s, u, i) && s.c.bufs[i].blockno in s.lh && !Enabled(s, LogWrite(u, i))
  {
    hide Inv, Wf, Cached;
    var s0 := From(PoweredOn(disk, start, t));
    PoweredOnInv(disk, start, t);
    var s1 := OpenThree(s0);
    SamePlace(s0, s1);
    assert [] + hs == hs;
    s1 := LogMany(s0, s1, LOGBLOCKS, hs);
    SamePlace(s0, s1);
    u := SomeOperation(s0, s1);
    assert Cached(s1.c.bufs, hs[0]) && !s1.recovering by { LoggedCached(s1, u); }
    s, i := Acquire(s0, s1, u, hs[0]);
  }

  lemma {:induction false} LoggedCached(s: State, u: nat)
    requires Inv(s) && u in s.ops && s.lh != []
    ensures Cached(s.c.bufs, s.lh[0]) && !s.recovering
  {
    hide BufOk, Admission, DirtyOk, HeldOk, HeaderOk, HomeOk, ProgressOk, MidOk;
    assert s.phase.Ops? && !s.recovering by { OpsOnly(s, u); }
    assert s.lh[0] in s.c.pins;
  }
}
