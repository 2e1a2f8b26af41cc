/**
 The blocking page allocator at the granularity of its lock operations: kalloc, kfree, sleep, wakeup
 and kkill by any number of processes, in any interleaving.
 */
module KmemSleep {
  import opened Common

  datatype ProcState = Running | Runnable | Sleeping
  // What a process sleeps on: the allocator, something else, nothing.
  datatype Chan = Kmem | Other | NoChan

  /** Where a process is in the code. */
  datatype Pc =
    | Idle
    | AllocWant                 // kalloc: acquiring kmem.lock
    | AllocHave                 // kalloc: holding it, about to look at the free list
    | SleepWant                 // sleep: still holding kmem.lock, acquiring its own lock
    | SleepBoth                 // sleep: holding both
    | SleepCommit               // sleep: kmem.lock released, own lock held
    | SleepSet                  // sleep: state is SLEEPING, about to switch away
    | Asleep                    // switched away, own lock released
    | Awake                     // running again, holding its own lock
    | Reacquire                 // sleep: acquiring kmem.lock again
    | Recheck                   // kalloc: back from sleep, holding kmem.lock
    | AllocDone(got: Option<nat>) // kalloc: kmem.lock released, about to return a page or 0
    | FreeWant(page: nat)       // kfree: acquiring kmem.lock
    | FreeHave(page: nat)       // kfree: holding it, about to put the page on the list
    | Waking(i: nat)            // wakeup: acquiring process i's lock, or past the last
    | WakingHas(i: nat)         // wakeup: holding it
    | KillWant(i: nat)          // kkill: acquiring process i's lock
    | KillHas(i: nat)           // kkill: holding it
    | Away                      // asleep on another channel

  // A lock is held by a process, or by none.
  datatype Lock = Held(holder: nat) | Unheld

  datatype State = State(kmem: Lock, plock: seq<Lock>, free: seq<nat>, st: seq<ProcState>, chan: seq<Chan>,
                         killed: seq<bool>, pc: seq<Pc>)

  datatype Action = Go | StartAlloc | Return(got: Option<nat>) | StartFree(page: nat) | StartKill(i: nat)
                  | SleepElsewhere | WakeElsewhere

  predicate Sized(s: State) { |s.plock| == |s.st| == |s.chan| == |s.killed| == |s.pc| }

  // ----- the steps of process p -----

  function To(s: State, p: nat, pc: Pc): (s': State)
    requires p < |s.pc|
  { s.(pc := s.pc[p := pc]) }

  /** Whether p can take the action: a lock it wants must not be held. */
  predicate Enabled(s: State, p: nat, a: Action) {
    && Sized(s) && p < |s.pc|
    && match a
       case StartAlloc => s.pc[p] == Idle
       case Return(got) => s.pc[p] == AllocDone(got)
       case StartFree(_) => s.pc[p] == Idle
       case StartKill(i) => s.pc[p] == Idle && i < |s.pc|
       case SleepElsewhere => s.pc[p] == Idle
       case WakeElsewhere => s.pc[p] == Away && s.st[p] == Sleeping && s.plock[p].Unheld?
       case Go =>
         match s.pc[p]
         case Idle => false
         case AllocDone(_) => false
         case AllocWant => s.kmem.Unheld?
         case SleepWant => s.plock[p].Unheld?
         case Asleep => s.st[p] == Runnable && s.plock[p].Unheld?
         case Away => s.st[p] == Runnable && s.plock[p].Unheld?
         case Reacquire => s.kmem.Unheld?
         case FreeWant(_) => s.kmem.Unheld?
         case Waking(i) => i >= |s.pc| || i == p || s.plock[i].Unheld?
         case KillWant(i) => i < |s.pc| && s.plock[i].Unheld?
         case WakingHas(i) => i < |s.pc|
         case KillHas(i) => i < |s.pc|
         case _ => true
  }

  function Apply(s: State, p: nat, a: Action): (s': State)
    requires Enabled(s, p, a)
  {
    match a
    case StartAlloc => To(s, p, AllocWant)
    case Return(_) => To(s, p, Idle)
    case StartFree(x) => To(s, p, FreeWant(x))
    case StartKill(i) => To(s, p, KillWant(i))
    case SleepElsewhere => To(s, p, Away).(st := s.st[p := Sleeping], chan := s.chan[p := Other])
    case WakeElsewhere => s.(st := s.st[p := Runnable])
    case Go => Continue(s, p)
  }

  function Continue(s: State, p: nat): (s': State)
    requires Enabled(s, p, Go)
  {
    match s.pc[p]
    case Idle => s
    case AllocWant => To(s, p, AllocHave).(kmem := Held(p))
    case AllocHave =>
      if s.free == [] then To(s, p, SleepWant)
      else To(s, p, AllocDone(Some(s.free[0]))).(free := s.free[1..], kmem := Unheld)
    case AllocDone(_) => s
    case SleepWant => To(s, p, SleepBoth).(plock := s.plock[p := Held(p)])
    case SleepBoth => To(s, p, SleepCommit).(kmem := Unheld)
    case SleepCommit => To(s, p, SleepSet).(chan := s.chan[p := Kmem], st := s.st[p := Sleeping])
    case SleepSet => To(s, p, Asleep).(plock := s.plock[p := Unheld])
    case Asleep => To(s, p, Awake).(plock := s.plock[p := Held(p)], st := s.st[p := Running])
    case Awake => To(s, p, Reacquire).(chan := s.chan[p := NoChan], plock := s.plock[p := Unheld])
    case Reacquire => To(s, p, Recheck).(kmem := Held(p))
    case Recheck =>
      if s.killed[p] then To(s, p, AllocDone(None)).(kmem := Unheld)
      else if s.free == [] then To(s, p, SleepWant)
      else To(s, p, AllocDone(Some(s.free[0]))).(free := s.free[1..], kmem := Unheld)
    case FreeWant(x) => To(s, p, FreeHave(x)).(kmem := Held(p))
    case FreeHave(x) => To(s, p, Waking(0)).(free := [x] + s.free)
    case Waking(i) =>
      if i >= |s.pc| then To(s, p, Idle).(kmem := Unheld)
      else if i == p then To(s, p, Waking(i + 1))
      else To(s, p, WakingHas(i)).(plock := s.plock[i := Held(p)])
    case WakingHas(i) =>
      To(s, p, Waking(i + 1)).(plock := s.plock[i := Unheld],
                               st := if s.st[i] == Sleeping && s.chan[i] == Kmem then s.st[i := Runnable] else s.st)
    case KillWant(i) => To(s, p, KillHas(i)).(plock := s.plock[i := Held(p)])
    case KillHas(i) =>
      To(s, p, Idle).(plock := s.plock[i := Unheld], killed := s.killed[i := true],
                      st := if s.st[i] == Sleeping then s.st[i := Runnable] else s.st)
    case Away => To(s, p, Idle).(st := s.st[p := Running], chan := s.chan[p := NoChan])
  }

  // ----- the invariant -----

  predicate HasKmem(pc: Pc) {
    pc.AllocHave? || pc.SleepWant? || pc.SleepBoth? || pc.Recheck? || pc.FreeHave? || pc.Waking? || pc.WakingHas?
  }

  // Whether process p, at pc, holds process j's lock.
  predicate HasLock(pc: Pc, p: nat, j: nat) {
    match pc
    case SleepBoth => j == p
    case SleepCommit => j == p
    case SleepSet => j == p
    case Awake => j == p
    case WakingHas(i) => j == i
    case KillHas(i) => j == i
    case _ => false
  }

  ghost predicate KmemLock(kmem: Lock, pc: seq<Pc>) {
    && (kmem.Held? ==> kmem.holder < |pc|)
    && forall p :: 0 <= p < |pc| ==> (HasKmem(pc[p]) <==> kmem == Held(p))
  }

  ghost predicate ProcLocks(plock: seq<Lock>, pc: seq<Pc>) {
    && |plock| == |pc| && (forall j :: 0 <= j < |pc| && plock[j].Held? ==> plock[j].holder < |pc|)
    && (forall p :: 0 <= p < |pc| ==> (pc[p].WakingHas? || pc[p].KillHas? || pc[p].KillWant? ==> pc[p].i < |pc|))
    && forall p, j :: 0 <= p < |pc| && 0 <= j < |pc| ==> (HasLock(pc[p], p, j) <==> plock[j] == Held(p))
  }

  /** A process is SLEEPING, and its channel set, only where sleep put it. */
  ghost predicate States(st: seq<ProcState>, chan: seq<Chan>, pc: seq<Pc>) {
    && |st| == |chan| == |pc|
    && forall p :: 0 <= p < |pc| ==> StateOk(st[p], chan[p], pc[p])
  }

  predicate StateOk(st: ProcState, chan: Chan, pc: Pc) {
    && (st == Sleeping ==> pc.SleepSet? || pc.Asleep? || pc.Away?)
    && (chan == Kmem ==> pc.SleepSet? || pc.Asleep? || pc.Awake?)
    && (pc.SleepSet? ==> st == Sleeping && chan == Kmem)
    && (pc.Asleep? ==> st != Running && chan == Kmem) && (pc.Away? ==> st != Running)
  }

  // p is asleep on the allocator, or past the point where a wakeup would be too early for it.
  predicate Bound(st: seq<ProcState>, chan: seq<Chan>, pc: seq<Pc>, p: nat)
    requires p < |st| == |chan| == |pc|
  { pc[p].SleepWant? || pc[p].SleepBoth? || pc[p].SleepCommit? || (st[p] == Sleeping && chan[p] == Kmem) }

  // Some process is in the loop of wakeup and will still get to p.
  predicate WillWake(pc: seq<Pc>, q: Lock, p: nat) {
    && q.Held? && q.holder < |pc| && q.holder != p && (pc[q.holder].Waking? || pc[q.holder].WakingHas?)
    && pc[q.holder].i <= p
  }

  /** Whoever waits for a page either has none to wait for, or is about to be woken. */
  ghost predicate NoneLost(s: State)
    requires Sized(s)
  { forall p :: 0 <= p < |s.pc| && Bound(s.st, s.chan, s.pc, p) ==> s.free == [] || WillWake(s.pc, s.kmem, p) }

  ghost predicate Inv(s: State) {
    && Sized(s) && KmemLock(s.kmem, s.pc) && ProcLocks(s.plock, s.pc) && States(s.st, s.chan, s.pc) && NoneLost(s)
  }

  // ----- every step keeps it -----

  // kmem.lock stays where it is, is acquired by p, is released by p.
  lemma {:induction false} KmemMoves(kmem: Lock, pc: seq<Pc>, p: nat, pc': Pc)
    requires KmemLock(kmem, pc) && p < |pc|
    ensures (HasKmem(pc[p]) <==> HasKmem(pc')) ==> KmemLock(kmem, pc[p := pc'])
    ensures kmem.Unheld? && HasKmem(pc') ==> KmemLock(Held(p), pc[p := pc'])
    ensures HasKmem(pc[p]) && !HasKmem(pc') ==> KmemLock(Unheld, pc[p := pc'])
  {
  }

  lemma {:induction false} StepKmem(s: State, p: nat, a: Action)
    requires Inv(s) && Enabled(s, p, a)
    ensures KmemLock(Apply(s, p, a).kmem, Apply(s, p, a).pc)
  {
    hide KmemLock, ProcLocks, States, NoneLost, Continue;
    if a.Go? {
      GoKmem(s, p);
    } else {
      KmemMoves(s.kmem, s.pc, p, Apply(s, p, a).pc[p]);
      assert Apply(s, p, a).pc == s.pc[p := Apply(s, p, a).pc[p]];
    }
  }

  // Which steps touch kmem.lock.
  lemma {:induction false} GoKmem(s: State, p: nat)
    requires Sized(s) && KmemLock(s.kmem, s.pc) && Enabled(s, p, Go)
    ensures KmemLock(Continue(s, p).kmem, Continue(s, p).pc)
  {
    hide KmemLock, Continue;
    if s.pc[p].AllocWant? || s.pc[p].Reacquire? || s.pc[p].FreeWant? {
      GoTakes(s, p);
    } else {
      GoKeeps(s, p);
    }
    KmemMoves(s.kmem, s.pc, p, Continue(s, p).pc[p]);
  }

  lemma {:induction false} GoTakes(s: State, p: nat)
    requires Sized(s) && Enabled(s, p, Go) && (s.pc[p].AllocWant? || s.pc[p].Reacquire? || s.pc[p].FreeWant?)
    ensures var s' := Continue(s, p);
      && |s'.pc| == |s.pc| && s'.pc == s.pc[p := s'.pc[p]]
      && s.kmem.Unheld? && HasKmem(s'.pc[p]) && s'.kmem == Held(p)
  {
  }

  lemma {:induction false} GoKeeps(s: State, p: nat)
    requires Sized(s) && Enabled(s, p, Go) && !s.pc[p].AllocWant? && !s.pc[p].Reacquire? && !s.pc[p].FreeWant?
    ensures var s' := Continue(s, p);
      && |s'.pc| == |s.pc| && s'.pc == s.pc[p := s'.pc[p]]
      && if HasKmem(s.pc[p]) && !HasKmem(s'.pc[p]) then s'.kmem == Unheld
         else s'.kmem == s.kmem && (HasKmem(s.pc[p]) <==> HasKmem(s'.pc[p]))
  {
  }

  // The same for process j's lock.
  lemma {:induction false} LocksStay(plock: seq<Lock>, pc: seq<Pc>, p: nat, pc': Pc)
    requires ProcLocks(plock, pc) && p < |pc| && (pc'.KillWant? ==> pc'.i < |pc|)
    requires forall j: nat :: !HasLock(pc[p], p, j) && !HasLock(pc', p, j)
    ensures ProcLocks(plock, pc[p := pc'])
  {
    assert pc'.WakingHas? || pc'.KillHas? ==> HasLock(pc', p, pc'.i);
  }

  lemma {:induction false} LocksTake(plock: seq<Lock>, pc: seq<Pc>, p: nat, j: nat, pc': Pc)
    requires ProcLocks(plock, pc) && p < |pc| && j < |pc| && plock[j].Unheld?
    requires forall k: nat :: !HasLock(pc[p], p, k) && (HasLock(pc', p, k) <==> k == j)
    ensures ProcLocks(plock[j := Held(p)], pc[p := pc'])
  {
    assert pc'.WakingHas? || pc'.KillHas? ==> HasLock(pc', p, pc'.i);
  }

  lemma {:induction false} LocksDrop(plock: seq<Lock>, pc: seq<Pc>, p: nat, j: nat, pc': Pc)
    requires ProcLocks(plock, pc) && p < |pc| && j < |pc| && !pc'.KillWant?
    requires forall k: nat :: (HasLock(pc[p], p, k) <==> k == j) && !HasLock(pc', p, k)
    ensures ProcLocks(plock[j := Unheld], pc[p := pc'])
  {
    assert HasLock(pc[p], p, j) && plock[j] == Held(p);
    assert pc'.WakingHas? || pc'.KillHas? ==> HasLock(pc', p, pc'.i);
    var pcs, locks := pc[p := pc'], plock[j := Unheld];
    forall q, k | 0 <= q < |pc| && 0 <= k < |pc| ensures HasLock(pcs[q], q, k) <==> locks[k] == Held(q) {
      assert HasLock(pc[q], q, k) <==> plock[k] == Held(q);
    }
  }

  lemma {:induction false} LocksKeep(plock: seq<Lock>, pc: seq<Pc>, p: nat, pc': Pc)
    requires ProcLocks(plock, pc) && p < |pc| && !pc'.KillWant?
    requires forall k: nat :: (HasLock(pc[p], p, k) <==> k == p) && (HasLock(pc', p, k) <==> k == p)
    ensures ProcLocks(plock, pc[p := pc'])
  {
    assert pc'.WakingHas? || pc'.KillHas? ==> HasLock(pc', p, pc'.i);
  }

  // The steps of a process that sleeps, on its own lock.
  lemma {:induction false} StepOwnLock(s: State, p: nat)
    requires Inv(s) && Enabled(s, p, Go)
    requires s.pc[p].SleepWant? || s.pc[p].SleepBoth? || s.pc[p].SleepCommit? || s.pc[p].SleepSet?
             || s.pc[p].Asleep? || s.pc[p].Awake?
    ensures ProcLocks(Apply(s, p, Go).plock, Apply(s, p, Go).pc)
  {
    hide ProcLocks, KmemLock, States, NoneLost;
    var pc' := Continue(s, p).pc[p];
    if s.pc[p].SleepWant? || s.pc[p].Asleep? {
      LocksTake(s.plock, s.pc, p, p, pc');
    } else if s.pc[p].SleepSet? || s.pc[p].Awake? {
      LocksDrop(s.plock, s.pc, p, p, pc');
    } else {
      LocksKeep(s.plock, s.pc, p, pc');
    }
  }

  // The steps of wakeup and kill, on another process's lock.
  lemma {:induction false} StepOtherLock(s: State, p: nat)
    requires Inv(s) && Enabled(s, p, Go)
    requires s.pc[p].Waking? || s.pc[p].WakingHas? || s.pc[p].KillWant? || s.pc[p].KillHas?
    ensures ProcLocks(Apply(s, p, Go).plock, Apply(s, p, Go).pc)
  {
    hide ProcLocks, KmemLock, States, NoneLost;
    var pc' := Continue(s, p).pc[p];
    if s.pc[p].WakingHas? || s.pc[p].KillHas? {
      LocksDrop(s.plock, s.pc, p, s.pc[p].i, pc');
    } else if pc'.WakingHas? || pc'.KillHas? {
      LocksTake(s.plock, s.pc, p, s.pc[p].i, pc');
    } else {
      LocksStay(s.plock, s.pc, p, pc');
    }
  }

  // The rest, on no process's lock.
  lemma {:induction false} StepNoLock(s: State, p: nat, a: Action)
    requires Inv(s) && Enabled(s, p, a)
    requires a.Go? ==>
      s.pc[p].Idle? || s.pc[p].AllocDone? || s.pc[p].AllocWant? || s.pc[p].AllocHave? || s.pc[p].Reacquire?
                       || s.pc[p].Recheck? || s.pc[p].FreeWant? || s.pc[p].FreeHave? || s.pc[p].Away?
    ensures ProcLocks(Apply(s, p, a).plock, Apply(s, p, a).pc)
  {
    hide ProcLocks, KmemLock, States, NoneLost;
    var pc' := Apply(s, p, a).pc[p];
    assert Apply(s, p, a).pc == s.pc[p := pc'];
    LocksStay(s.plock, s.pc, p, pc');
  }

  lemma {:induction false} StepLocks(s: State, p: nat, a: Action)
    requires Inv(s) && Enabled(s, p, a)
    ensures ProcLocks(Apply(s, p, a).plock, Apply(s, p, a).pc)
  {
    hide Inv, Apply, ProcLocks;
    if !a.Go? {
      StepNoLock(s, p, a);
    } else if s.pc[p].Waking? || s.pc[p].WakingHas? || s.pc[p].KillWant? || s.pc[p].KillHas? {
      StepOtherLock(s, p);
    } else if s.pc[p].SleepWant? || s.pc[p].SleepBoth? || s.pc[p].SleepCommit? || s.pc[p].SleepSet?
              || s.pc[p].Asleep? || s.pc[p].Awake? {
      StepOwnLock(s, p);
    } else {
      StepNoLock(s, p, a);
    }
  }

  // Nobody else is in the middle of going to sleep while p holds its lock.
  lemma {:induction false} Locked(s: State, p: nat, i: nat)
    requires Inv(s) && p < |s.pc| && i < |s.pc| && HasLock(s.pc[p], p, i) && i != p
    ensures !s.pc[i].SleepBoth? && !s.pc[i].SleepCommit? && !s.pc[i].SleepSet? && !s.pc[i].Awake?
  {
    hide KmemLock, States, NoneLost;
    assert HasLock(s.pc[p], p, i) && s.plock[i] == Held(p);
    assert !HasLock(s.pc[i], i, i);
  }

  lemma {:induction false} OwnState(s: State, p: nat, a: Action)
    requires Sized(s) && Enabled(s, p, a) && StateOk(s.st[p], s.chan[p], s.pc[p])
    ensures StateOk(Apply(s, p, a).st[p], Apply(s, p, a).chan[p], Apply(s, p, a).pc[p])
  {
  }

  // A step changes another process's state only to wake it, holding its lock.
  lemma {:induction false} OthersState(s: State, p: nat, a: Action, q: nat)
    requires Sized(s) && Enabled(s, p, a) && q < |s.pc| && q != p
    ensures var s' := Apply(s, p, a);
      && s'.chan[q] == s.chan[q] && s'.pc[q] == s.pc[q]
      && (s'.st[q] == s.st[q] || (a.Go? && HasLock(s.pc[p], p, q) && s'.st[q] == Runnable && s.st[q] == Sleeping))
      && (a.Go? && s.pc[p] == WakingHas(q) ==> !(s'.st[q] == Sleeping && s'.chan[q] == Kmem))
  {
  }

  lemma {:induction false} StepStates(s: State, p: nat, a: Action)
    requires Inv(s) && Enabled(s, p, a)
    ensures States(Apply(s, p, a).st, Apply(s, p, a).chan, Apply(s, p, a).pc)
  {
    hide KmemLock, ProcLocks, NoneLost, Enabled, Apply, HasLock;
    var s' := Apply(s, p, a);
    SameSize(s, p, a);
    OwnState(s, p, a);
    forall q | 0 <= q < |s'.pc| ensures StateOk(s'.st[q], s'.chan[q], s'.pc[q]) {
      if q != p {
        OthersState(s, p, a, q);
        if HasLock(s.pc[p], p, q) { Locked(s, p, q); }
        assert StateOk(s.st[q], s.chan[q], s.pc[q]);
      }
    }
  }

  lemma {:induction false} SameSize(s: State, p: nat, a: Action)
    requires Sized(s) && Enabled(s, p, a)
    ensures Sized(Apply(s, p, a)) && |Apply(s, p, a).pc| == |s.pc| && p < |s.pc|
  {
  }

  // Who holds kmem.lock.
  lemma {:induction false} Holder(s: State, p: nat)
    requires Inv(s) && p < |s.pc|
    ensures HasKmem(s.pc[p]) <==> s.kmem == Held(p)
    ensures forall q :: 0 <= q < |s.pc| && q != p && HasKmem(s.pc[p]) ==> !HasKmem(s.pc[q])
  {
    hide ProcLocks, States, NoneLost;
  }

  // What p's own step does to whether p is bound to sleep.
  lemma {:induction false} OwnBound(s: State, p: nat, a: Action)
    requires Sized(s) && Enabled(s, p, a) && StateOk(s.st[p], s.chan[p], s.pc[p])
    ensures Sized(Apply(s, p, a)) && |Apply(s, p, a).pc| == |s.pc|
    ensures var s' := Apply(s, p, a);
      Bound(s'.st, s'.chan, s'.pc, p) ==>
        Bound(s.st, s.chan, s.pc, p) || (a.Go? && (s.pc[p].AllocHave? || s.pc[p].Recheck?) && s'.free == [])
  {
    hide Continue;
    SameSize(s, p, a);
    if a.Go? { GoBound(s, p); }
  }

  lemma {:induction false} GoBound(s: State, p: nat)
    requires Sized(s) && Enabled(s, p, Go) && StateOk(s.st[p], s.chan[p], s.pc[p])
    requires Sized(Continue(s, p)) && |Continue(s, p).pc| == |s.pc|
    ensures var s' := Continue(s, p);
      Bound(s'.st, s'.chan, s'.pc, p) ==>
        Bound(s.st, s.chan, s.pc, p) || ((s.pc[p].AllocHave? || s.pc[p].Recheck?) && s'.free == [])
  {
  }

  // How p's step moves the free list and kmem.lock.
  lemma {:induction false} KmemStep(s: State, p: nat, a: Action)
    requires Sized(s) && Enabled(s, p, a)
    ensures var s', pc := Apply(s, p, a), s.pc[p];
      && (s.free == [] && !(a.Go? && pc.FreeHave?) ==> s'.free == [])
      && (!HasKmem(pc) ==> s'.free == s.free && (s'.kmem == s.kmem || s.kmem.Unheld?))
      && (a.Go? && pc.FreeHave? ==> s'.pc[p] == Waking(0) && s'.kmem == s.kmem)
      && (a.Go? && pc.WakingHas? ==> s'.pc[p] == Waking(pc.i + 1) && s'.kmem == s.kmem)
      && (a.Go? && pc.Waking? && pc.i < |s.pc| ==>
            s'.pc[p] == (if pc.i == p then Waking(pc.i + 1) else WakingHas(pc.i)) && s'.kmem == s.kmem)
      && (HasKmem(pc) ==> a.Go?)
  {
  }

  // No process is bound to sleep while one that is not in wakeup holds kmem.lock and there are pages.
  lemma {:induction false} OneBound(s: State, p: nat, a: Action, q: nat)
    requires Inv(s) && Enabled(s, p, a) && q < |s.pc| && Bound(s.st, s.chan, s.pc, q) && q != p
    ensures var s' := Apply(s, p, a); s'.free == [] || WillWake(s'.pc, s'.kmem, q) || (a.Go? && s.pc[p] == WakingHas(q))
  {
    hide KmemLock, ProcLocks, States, Enabled, Apply;
    var s' := Apply(s, p, a);
    PcOnly(s, p, a);
    Holder(s, p);
    KmemStep(s, p, a);
    assert s.free == [] || WillWake(s.pc, s.kmem, q);
  }

  lemma {:induction false} PcOnly(s: State, p: nat, a: Action)
    requires Sized(s) && Enabled(s, p, a)
    ensures p < |s.pc| && |Apply(s, p, a).pc| == |s.pc| && Apply(s, p, a).pc == s.pc[p := Apply(s, p, a).pc[p]]
  {
  }

  lemma {:induction false} StepNoneLost(s: State, p: nat, a: Action)
    requires Inv(s) && Enabled(s, p, a)
    ensures Sized(Apply(s, p, a)) && NoneLost(Apply(s, p, a))
  {
    hide KmemLock, ProcLocks, Enabled, Apply, StateOk;
    var s' := Apply(s, p, a);
    SameSize(s, p, a);
    OwnBound(s, p, a);
    KmemStep(s, p, a);
    Holder(s, p);
    forall q | 0 <= q < |s'.pc| && Bound(s'.st, s'.chan, s'.pc, q)
      ensures s'.free == [] || WillWake(s'.pc, s'.kmem, q)
    {
      if q == p {
        SelfBound(s, p, a);
      } else {
        OthersState(s, p, a, q);
        OneBound(s, p, a, q);
        if a.Go? && s.pc[p] == WakingHas(q) {
          Locked(s, p, q);
          Holder(s, q);
        }
      }
    }
  }

  lemma {:induction false} SelfBound(s: State, p: nat, a: Action)
    requires Inv(s) && Enabled(s, p, a) && p < |s.pc| && Sized(Apply(s, p, a)) && |Apply(s, p, a).pc| == |s.pc|
    requires Bound(Apply(s, p, a).st, Apply(s, p, a).chan, Apply(s, p, a).pc, p)
    ensures Apply(s, p, a).free == [] || WillWake(Apply(s, p, a).pc, Apply(s, p, a).kmem, p)
  {
    hide KmemLock, ProcLocks, Enabled, Apply;
    var s' := Apply(s, p, a);
    OwnBound(s, p, a);
    KmemStep(s, p, a);
    Holder(s, p);
    PcOnly(s, p, a);
    if Bound(s.st, s.chan, s.pc, p) { assert s.free == [] || WillWake(s.pc, s.kmem, p); }
  }

  lemma {:induction false} StepInv(s: State, p: nat, a: Action)
    requires Inv(s) && Enabled(s, p, a)
    ensures Inv(Apply(s, p, a))
  {
    hide KmemLock, ProcLocks, States, NoneLost, Apply;
    StepKmem(s, p, a);
    StepLocks(s, p, a);
    StepStates(s, p, a);
    StepNoneLost(s, p, a);
  }

  // ----- runs -----

  datatype Move = Move(p: nat, a: Action)

  ghost predicate Run(ss: seq<State>, ms: seq<Move>) {
    && |ss| == |ms| + 1
    && forall k :: 0 <= k < |ms| ==> Enabled(ss[k], ms[k].p, ms[k].a) && ss[k + 1] == Apply(ss[k], ms[k].p, ms[k].a)
  }

  /** n processes, none of them in the allocator. */
  function Start(n: nat, free: seq<nat>, killed: seq<bool>): (s: State)
    requires |killed| == n
  { State(Unheld, seq(n, _ => Unheld), free, seq(n, _ => Running), seq(n, _ => NoChan), killed, seq(n, _ => Idle)) }

  lemma {:induction false} StartInv(n: nat, free: seq<nat>, killed: seq<bool>)
    requires |killed| == n
    ensures Inv(Start(n, free, killed))
  {
  }

  lemma {:induction false} RunInv(ss: seq<State>, ms: seq<Move>)
    requires Run(ss, ms) && Inv(ss[0])
    ensures forall k :: 0 <= k < |ss| ==> Inv(ss[k])
  {
    hide Inv, Enabled, Apply;
    var k := 0;
    while k < |ms|
      invariant 0 <= k <= |ms| && forall j :: 0 <= j <= k ==> Inv(ss[j])
    {
      StepInv(ss[k], ms[k].p, ms[k].a);
      k := k + 1;
    }
  }

  /** No wakeup is lost: in every state of every run in which kmem.lock is free, a process that sleeps
      on the allocator has no page to wait for. */
  lemma {:induction false} NoLostWakeup(ss: seq<State>, ms: seq<Move>, n: nat, free: seq<nat>, killed: seq<bool>,
                                        k: nat, p: nat)
    requires |killed| == n && Run(ss, ms) && ss[0] == Start(n, free, killed) && k < |ss|
    ensures Sized(ss[k])
    ensures p < |ss[k].pc| && ss[k].kmem.Unheld? && ss[k].st[p] == Sleeping && ss[k].chan[p] == Kmem ==>
              ss[k].free == []
  {
    StartInv(n, free, killed);
    RunInv(ss, ms);
    assert Inv(ss[k]);
    if p < |ss[k].pc| && ss[k].st[p] == Sleeping && ss[k].chan[p] == Kmem {
      assert Bound(ss[k].st, ss[k].chan, ss[k].pc, p);
    }
  }
}
