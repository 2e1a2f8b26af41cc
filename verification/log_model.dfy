/**
 The write-ahead log on top of the buffer cache, as a machine whose steps are the
 lock-protected regions of log.c and whose disk step is one block write. Any number of
 threads run file-system operations; the last to end commits; the machine may crash between
 any two steps and then recovers from the log.
 */
module LogModel {
  import opened Param
  import opened Common
  import opened CacheModel

  /** Where the committing (or recovering) thread is. A phase ending in W has staged new
      contents in a locked buffer and is about to write that buffer to the disk. */
  datatype Phase =
    | Ops            // no commit in progress
    | WLog(k: nat)   // write_log, tail == k
    | WLogW(k: nat)
    | HeadW          // write_head, the commit point
    | Inst(k: nat)   // install_trans, tail == k
    | InstW(k: nat)
    | ClearW         // write_head with n == 0
    | Done           // commit() returned, log.committing still set
    | Boot           // after a crash, header not read yet

  /** `ops` gives each thread between begin_op and end_op the number of blocks it may still
      append to the log. */
  datatype State = State(
    start: nat, c: Cache, lh: seq<nat>, phase: Phase, recovering: bool, committer: nat,
    ops: map<nat, nat>, outstanding: nat, committing: bool, sleepers: set<nat>)

  datatype Action =
    | Begin(t: nat)
    | End(t: nat)
    | BgetHit(t: nat, i: nat, b: nat)
    | BgetMiss(t: nat, i: nat, b: nat)
    | Lock(t: nat, i: nat)
    | Fill(t: nat, i: nat)
    | Modify(t: nat, i: nat, d: Block)
    | Tear(t: nat, i: nat, d: Block)
    | LogWrite(t: nat, i: nat)
    | Brelse(t: nat, i: nat)
    | CopyLog(to: nat, from: nat)
    | WriteLog(i: nat)
    | FillHead(i: nat)
    | WriteHead(i: nat)
    | CopyInst(lbuf: nat, dbuf: nat)
    | WriteInst(i: nat)
    | FillClear(i: nat)
    | WriteClear(i: nat)
    | Finish
    | Crash(t: nat)
    | ReadHead(i: nat)

  // ----- the on-disk header -----

  predicate GoodHeader(d: Block) { |d| == BWORDS && d[0] <= LOGBLOCKS }

  // read_head
  function Header(d: Block): (h: seq<nat>)
    requires GoodHeader(d)
  { d[1..1 + d[0]] }

  // write_head: entries past n keep their old contents
  function HeaderInto(d: Block, l: seq<nat>): (r: Block)
    requires |d| == BWORDS && |l| <= LOGBLOCKS
  { [|l|] + l + d[1 + |l|..] }

  function IndexOf(l: seq<nat>, b: nat): (k: nat)
    requires b in l
    ensures k < |l| && l[k] == b
  { if l[0] == b then 0 else 1 + IndexOf(l[1..], b) }

  predicate Distinct(l: seq<nat>) { forall j, k :: 0 <= j < k < |l| ==> l[j] != l[k] }

  predicate LogRegion(start: nat, b: nat) { start <= b <= start + LOGBLOCKS }

  predicate GoodDisk(disk: seq<Block>, start: nat) {
    start + LOGBLOCKS < |disk| && Blocks(disk) && GoodHeader(disk[start])
  }

  /** What a full recovery would leave in block b. */
  function Recovered(disk: seq<Block>, start: nat, b: nat): (d: Block)
    requires GoodDisk(disk, start) && b < |disk|
  {
    var h := Header(disk[start]);
    if b in h then disk[start + 1 + IndexOf(h, b)] else disk[b]
  }

  function RecoveredDisk(disk: seq<Block>, start: nat): (d: seq<Block>)
    requires GoodDisk(disk, start)
  { seq(|disk|, b requires 0 <= b < |disk| => Recovered(disk, start, b)) }

  // begin_op's admission test
  predicate NoRoom(s: State) { |s.lh| + (s.outstanding + 1) * MAXOPBLOCKS > LOGBLOCKS }

  // Only the recovering thread runs before recovery is over, and only the committing or
  // recovering thread touches the log's own blocks.
  predicate MayUse(s: State, t: nat, b: nat) {
    && b < |s.c.disk|
    && (s.recovering ==> t == s.committer)
    && (LogRegion(s.start, b) ==> t == s.committer && (s.committing || s.recovering))
  }

  predicate HoldsBlock(s: State, i: nat, b: nat) { Holds(s.c, s.committer, i, b) }

  // An operation holds a home block with its contents read in.
  predicate OpHolds(s: State, t: nat, i: nat) {
    && t in s.ops && i < |s.c.bufs| && Holds(s.c, t, i, s.c.bufs[i].blockno)
    && s.c.bufs[i].blockno < |s.c.disk| && !LogRegion(s.start, s.c.bufs[i].blockno)
  }

  predicate Wf(s: State) {
    && GoodDisk(s.c.disk, s.start) && |s.c.logical| == |s.c.disk| && |s.c.bufs| == NBUF
    && |s.lh| <= LOGBLOCKS
    && (forall i :: 0 <= i < NBUF ==>
          |s.c.bufs[i].data| == BWORDS && (s.c.bufs[i].dev == ROOTDEV ==> s.c.bufs[i].blockno < |s.c.disk|))
  }

  predicate Enabled(s: State, a: Action)
    requires Wf(s)
  {
    match a
    case Begin(t) => !s.recovering && t !in s.ops && t !in s.sleepers
    case End(t) =>
      && t in s.ops && s.outstanding > 0
      && (forall i :: 0 <= i < NBUF ==> !(s.c.bufs[i].dirty && s.c.bufs[i].owner == Some(t)))
    case BgetHit(t, i, b) => MayUse(s, t, b) && CanHit(s.c, t, i, b)
    case BgetMiss(t, i, b) => MayUse(s, t, b) && CanMiss(s.c, i, b)
    case Lock(t, i) => CanLock(s.c, t, i)
    case Fill(t, i) => CanFill(s.c, t, i)
    case Modify(t, i, d) => OpHolds(s, t, i) && |d| == BWORDS
    case Tear(t, i, d) => OpHolds(s, t, i) && !s.c.bufs[i].dirty && |d| == BWORDS
    case LogWrite(t, i) =>
      && OpHolds(s, t, i)
      && |s.lh| < LOGBLOCKS && s.outstanding >= 1            // otherwise panic
      && (s.c.bufs[i].blockno in s.lh || s.ops[t] > 0)
    case Brelse(t, i) => CanRelease(s.c, t, i)
    case CopyLog(to, from) =>
      && s.phase.WLog? && s.phase.k < |s.lh|
      && HoldsBlock(s, to, s.start + 1 + s.phase.k) && HoldsBlock(s, from, s.lh[s.phase.k])
    case WriteLog(i) =>
      && s.phase.WLogW? && s.phase.k < LOGBLOCKS
      && HoldsBlock(s, i, s.start + 1 + s.phase.k) && s.c.bufs[i].refcnt > 0
    case FillHead(i) => s.phase == WLog(|s.lh|) && HoldsBlock(s, i, s.start)
    case WriteHead(i) => s.phase.HeadW? && HoldsBlock(s, i, s.start) && s.c.bufs[i].refcnt > 0
    case CopyInst(lbuf, dbuf) =>
      && s.phase.Inst? && s.phase.k < |s.lh|
      && HoldsBlock(s, lbuf, s.start + 1 + s.phase.k) && HoldsBlock(s, dbuf, s.lh[s.phase.k])
    case WriteInst(i) =>
      && s.phase.InstW? && s.phase.k < |s.lh|
      && HoldsBlock(s, i, s.lh[s.phase.k]) && s.c.bufs[i].refcnt > 0
    case FillClear(i) => s.phase == Inst(|s.lh|) && HoldsBlock(s, i, s.start)
    case WriteClear(i) => s.phase.ClearW? && HoldsBlock(s, i, s.start) && s.c.bufs[i].refcnt > 0
    case Finish => s.phase.Done?
    case Crash(t) => true
    case ReadHead(i) =>
      s.phase.Boot? && HoldsBlock(s, i, s.start) && GoodHeader(s.c.bufs[i].data)
  }

  function Apply(s: State, a: Action): State
    requires Wf(s) && Enabled(s, a)
  {
    match a
    case Begin(t) =>
      if s.committing || NoRoom(s) then s.(sleepers := s.sleepers + {t})
      else s.(ops := s.ops[t := MAXOPBLOCKS], outstanding := s.outstanding + 1)
    case End(t) =>
      var s1 := s.(ops := s.ops - {t}, outstanding := s.outstanding - 1);
      if s1.outstanding == 0 then
        s1.(committing := true, committer := t, phase := if |s.lh| > 0 then WLog(0) else Done)
      else s1.(sleepers := {})
    case BgetHit(t, i, b) => s.(c := CacheModel.BgetHit(s.c, t, i))
    case BgetMiss(t, i, b) => s.(c := CacheModel.BgetMiss(s.c, t, i, b))
    case Lock(t, i) => s.(c := CacheModel.Lock(s.c, t, i))
    case Fill(t, i) => s.(c := CacheModel.Fill(s.c, i))
    case Modify(t, i, d) => s.(c := CacheModel.Modify(s.c, i, d))
    case Tear(t, i, d) => s.(c := CacheModel.Tear(s.c, i, d))
    case LogWrite(t, i) =>
      var b := s.c.bufs[i].blockno;
      var s1 := s.(c := Publish(s.c, i));
      if b in s.lh then s1 else s1.(lh := s.lh + [b], ops := s.ops[t := s.ops[t] - 1])
    case Brelse(t, i) => s.(c := CacheModel.Brelse(s.c, t, i))
    case CopyLog(to, from) =>
      s.(c := Stage(s.c, to, s.c.bufs[from].data), phase := WLogW(s.phase.k))
    case WriteLog(i) => s.(c := Bwrite(s.c, i), phase := WLog(s.phase.k + 1))
    case FillHead(i) => s.(c := Stage(s.c, i, HeaderInto(s.c.bufs[i].data, s.lh)), phase := HeadW)
    case WriteHead(i) => s.(c := Bwrite(s.c, i), phase := Inst(0))
    case CopyInst(lbuf, dbuf) =>
      s.(c := Stage(s.c, dbuf, s.c.bufs[lbuf].data), phase := InstW(s.phase.k))
    case WriteInst(i) => s.(c := Bwrite(s.c, i), phase := Inst(s.phase.k + 1))
    case FillClear(i) =>
      s.(c := Stage(s.c, i, HeaderInto(s.c.bufs[i].data, [])), lh := [], phase := ClearW)
    case WriteClear(i) =>
      s.(c := Bwrite(s.c, i), phase := if s.recovering then Ops else Done, recovering := false)
    case Finish => s.(committing := false, sleepers := {}, phase := Ops)
    case Crash(t) =>
      State(s.start, PowerOn(s.c.disk, RecoveredDisk(s.c.disk, s.start)), [], Boot, true, t,
            map[], 0, false, {})
    case ReadHead(i) => s.(lh := Header(s.c.bufs[i].data), phase := Inst(0))
  }
}
