/**
 The pages of the blocking allocator, over every interleaving: none is lost, none is handed out twice,
 and who gets none has been killed.
 */
module KmemPages {
  import opened Common
  import opened KmemSleep

  function One(b: bool): (n: nat) { if b then 1 else 0 }

  // ----- pages in the hands of the allocator's code -----

  predicate Has(pc: Pc, x: nat) { pc == AllocDone(Some(x)) || pc == FreeWant(x) || pc == FreeHave(x) }

  /** How many processes in the allocator's code have page x in hand. */
  function InHand(pc: seq<Pc>, x: nat): (n: nat) {
    if pc == [] then 0 else InHand(pc[..|pc| - 1], x) + One(Has(pc[|pc| - 1], x))
  }

  lemma {:induction false} InHandSet(pc: seq<Pc>, p: nat, c: Pc, x: nat)
    requires p < |pc|
    ensures InHand(pc[p := c], x) + One(Has(pc[p], x)) == InHand(pc, x) + One(Has(c, x))
  {
    hide Has;
    var n := |pc| - 1;
    if p == n {
      assert pc[p := c][..n] == pc[..n];
    } else {
      InHandSet(pc[..n], p, c, x);
      assert pc[p := c][..n] == pc[..n][p := c];
    }
  }

  lemma {:induction false} NoneInHand(pc: seq<Pc>, x: nat)
    requires forall p :: 0 <= p < |pc| ==> pc[p] == Idle
    ensures InHand(pc, x) == 0
  {
    if pc != [] { NoneInHand(pc[..|pc| - 1], x); }
  }

  // ----- what callers have been given, and have given back -----

  /** How often page x has been returned to a caller of kalloc. */
  function Returned(ms: seq<Move>, x: nat): (n: nat) {
    if ms == [] then 0 else Returned(ms[..|ms| - 1], x) + One(ms[|ms| - 1].a == Return(Some(x)))
  }

  /** How often it has been passed to kfree. */
  function Freed(ms: seq<Move>, x: nat): (n: nat) {
    if ms == [] then 0 else Freed(ms[..|ms| - 1], x) + One(ms[|ms| - 1].a == StartFree(x))
  }

  // ----- one step -----

  lemma {:induction false} Headed(l: seq<nat>, y: nat, x: nat)
    ensures multiset([y] + l)[x] == multiset(l)[x] + One(x == y)
  {
  }

  // What p's step does to the free list and to what p has in hand.
  lemma {:induction false} StepList(s: State, p: nat, a: Action)
    requires Enabled(s, p, a)
    ensures var s', pc := Apply(s, p, a), s.pc[p];
      && |s'.pc| == |s.pc|
      && (s'.free == s.free
          || if pc.FreeHave? then s'.free == [pc.page] + s.free else s.free != [] && s'.free == s.free[1..])
      && forall x: nat ::
           One(Has(s'.pc[p], x)) + One(a == Return(Some(x))) + One(s'.free != s.free && pc.FreeHave? && pc.page == x) ==
           One(Has(pc, x)) + One(a == StartFree(x))
           + One(s'.free != s.free && !pc.FreeHave? && s.free != [] && s.free[0] == x)
  {
  }

  lemma {:induction false} StepConserves(s: State, p: nat, a: Action, x: nat)
    requires Enabled(s, p, a)
    ensures var s' := Apply(s, p, a);
      multiset(s'.free)[x] + InHand(s'.pc, x) + One(a == Return(Some(x))) ==
      multiset(s.free)[x] + InHand(s.pc, x) + One(a == StartFree(x))
  {
    hide Enabled, Apply, Has, InHand;
    assert Sized(s) by { EnabledSized(s, p, a); }
    var s' := Apply(s, p, a);
    PcOnly(s, p, a);
    StepList(s, p, a);
    InHandSet(s.pc, p, s'.pc[p], x);
    if s'.free != s.free {
      if s.pc[p].FreeHave? {
        Headed(s.free, s.pc[p].page, x);
      } else {
        Headed(s.free[1..], s.free[0], x);
        assert s.free == [s.free[0]] + s.free[1..];
      }
    }
  }

  lemma {:induction false} EnabledSized(s: State, p: nat, a: Action)
    requires Enabled(s, p, a)
    ensures Sized(s)
  {
  }

  // ----- conservation -----

  /** Over every run, for every page: its occurrences on the free list, in the hands of kalloc and kfree,
      and returned to callers are those there were at the start and those passed to kfree. */
  lemma {:induction false} RunPages(ss: seq<State>, ms: seq<Move>, k: nat, x: nat)
    requires Run(ss, ms) && k < |ss|
    ensures multiset(ss[k].free)[x] + InHand(ss[k].pc, x) + Returned(ms[..k], x) ==
            multiset(ss[0].free)[x] + InHand(ss[0].pc, x) + Freed(ms[..k], x)
  {
    hide Enabled, Apply, InHand;
    if k > 0 {
      RunPages(ss, ms, k - 1, x);
      StepConserves(ss[k - 1], ms[k - 1].p, ms[k - 1].a, x);
      assert ms[..k][..k - 1] == ms[..k - 1];
    }
  }

  /** So when the pages are distinct at the start and callers free only what they were given, a page is
      always in exactly one place: free, on its way, or with a caller. */
  lemma {:induction false} OnePlace(ss: seq<State>, ms: seq<Move>, n: nat, free: seq<nat>, killed: seq<bool>, k: nat,
                                    x: nat)
    requires |killed| == n && Run(ss, ms) && ss[0] == Start(n, free, killed) && k < |ss|
    requires multiset(free)[x] == 1 && Freed(ms[..k], x) <= Returned(ms[..k], x)
    ensures multiset(ss[k].free)[x] + InHand(ss[k].pc, x) + (Returned(ms[..k], x) - Freed(ms[..k], x)) == 1
  {
    hide InHand, Returned, Freed;
    RunPages(ss, ms, k, x);
    NoneInHand(ss[0].pc, x);
  }

  // ----- one call of kfree -----

  // Only the holder of kmem.lock touches the free list.
  lemma {:induction false} OthersFree(s: State, q: nat, a: Action, p: nat)
    requires Inv(s) && Enabled(s, q, a) && p < |s.pc| && p != q && HasKmem(s.pc[p])
    ensures Apply(s, q, a).free == s.free
  {
    hide ProcLocks, States, NoneLost, Apply, Enabled;
    SameSize(s, q, a);
    Holder(s, p);
    KmemStep(s, q, a);
  }

  lemma {:induction false} WakingFree(s: State, p: nat, a: Action)
    requires Enabled(s, p, a) && (s.pc[p].Waking? || s.pc[p].WakingHas?)
    ensures Apply(s, p, a).free == s.free
  {
  }

  lemma {:induction false} FreesIt(s: State, p: nat)
    requires Enabled(s, p, Go) && s.pc[p].FreeHave?
    ensures Apply(s, p, Go).free == [s.pc[p].page] + s.free
  {
  }

  /** From kfree's putting its page on the list until it releases kmem.lock, that is all that happens to
      the list. */
  lemma {:induction false} KfreeAdds(ss: seq<State>, ms: seq<Move>, j: nat, k: nat, p: nat)
    requires Run(ss, ms) && Inv(ss[0]) && j < k < |ss| && p < |ss[j].pc| && ss[j].pc[p].FreeHave?
    requires ms[j] == Move(p, Go)
    requires forall m :: j < m < k ==> p < |ss[m].pc| && (ss[m].pc[p].Waking? || ss[m].pc[p].WakingHas?)
    ensures ss[k].free == [ss[j].pc[p].page] + ss[j].free
  {
    hide Inv, Enabled, Apply;
    RunInv(ss, ms);
    if k == j + 1 {
      FreesIt(ss[j], p);
    } else {
      KfreeAdds(ss, ms, j, k - 1, p);
      var s, m := ss[k - 1], ms[k - 1];
      if m.p == p { WakingFree(s, p, m.a); } else { OthersFree(s, m.p, m.a, p); }
    }
  }

  // ----- who gets no page -----

  predicate NoneKilled(pc: seq<Pc>, killed: seq<bool>) {
    |pc| == |killed| && forall p :: 0 <= p < |pc| && pc[p] == AllocDone(None) ==> killed[p]
  }

  // What a step does to the marks of killed processes.
  lemma {:induction false} StepKilled(s: State, p: nat, a: Action, i: nat)
    requires Enabled(s, p, a) && i < |s.pc|
    ensures var s' := Apply(s, p, a);
      && |s'.killed| == |s'.pc| == |s'.st| == |s.pc|
      && (s'.killed[i] <==> s.killed[i] || (a.Go? && s.pc[p] == KillHas(i)))
      && (a.Go? && s.pc[p] == KillHas(i) ==> s'.st[i] != Sleeping)
      && (s'.pc[p] == AllocDone(None) ==> s'.killed[p])
      && (a.Go? ==> (s'.pc[p] == AllocDone(None) <==> s.pc[p] == Recheck && s.killed[p]))
  {
  }

  lemma {:induction false} StepNone(s: State, p: nat, a: Action)
    requires Enabled(s, p, a) && NoneKilled(s.pc, s.killed)
    ensures NoneKilled(Apply(s, p, a).pc, Apply(s, p, a).killed)
  {
    hide Enabled, Apply;
    var s' := Apply(s, p, a);
    assert Sized(s) by { EnabledSized(s, p, a); }
    PcOnly(s, p, a);
    StepKilled(s, p, a, p);
    forall q | 0 <= q < |s'.pc| && s'.pc[q] == AllocDone(None) ensures s'.killed[q] { StepKilled(s, p, a, q); }
  }

  /** kalloc returns without a page only to a process that has been killed. */
  lemma {:induction false} RunNone(ss: seq<State>, ms: seq<Move>, n: nat, free: seq<nat>, killed: seq<bool>, k: nat)
    requires |killed| == n && Run(ss, ms) && ss[0] == Start(n, free, killed) && k < |ss|
    ensures NoneKilled(ss[k].pc, ss[k].killed)
    ensures k < |ms| && ms[k].a == Return(None) ==> ms[k].p < |ss[k].killed| && ss[k].killed[ms[k].p]
  {
    hide Apply;
    if k > 0 {
      RunNone(ss, ms, n, free, killed, k - 1);
      StepNone(ss[k - 1], ms[k - 1].p, ms[k - 1].a);
    }
  }

  /** A process is marked killed exactly from the first kkill of it on. */
  lemma {:induction false} RunKilled(ss: seq<State>, ms: seq<Move>, k: nat, i: nat)
    requires Run(ss, ms) && k < |ss| && i < |ss[0].pc| && Sized(ss[0])
    ensures |ss[k].killed| == |ss[k].pc| == |ss[0].pc|
    ensures ss[k].killed[i] <==>
            ss[0].killed[i] || exists m: nat :: m < k && Kills(ss[m], ms[m], i)
  {
    hide Enabled, Apply, Kills;
    if k > 0 {
      RunKilled(ss, ms, k - 1, i);
      KillsIs(ss[k - 1], ms[k - 1], i);
    }
  }

  predicate Kills(s: State, m: Move, i: nat) { m.p < |s.pc| && m.a.Go? && s.pc[m.p] == KillHas(i) }

  lemma {:induction false} KillsIs(s: State, m: Move, i: nat)
    requires Enabled(s, m.p, m.a) && i < |s.pc|
    ensures var s' := Apply(s, m.p, m.a);
      |s'.killed| == |s'.pc| == |s.pc| == |s.killed| && (s'.killed[i] <==> s.killed[i] || Kills(s, m, i))
  {
    hide Apply;
    StepKilled(s, m.p, m.a, i);
  }

  /** A process that finds itself killed when it is back from sleep goes without, pages or not. */
  lemma {:induction false} KilledGoesWithout(s: State, p: nat)
    requires Enabled(s, p, Go)
    ensures Apply(s, p, Go).pc[p] == AllocDone(None) <==> s.pc[p] == Recheck && s.killed[p]
  {
    hide Apply;
    StepKilled(s, p, Go, p);
  }

  /** kkill wakes a process that sleeps. */
  lemma {:induction false} KillWakes(s: State, m: Move, i: nat)
    requires Enabled(s, m.p, m.a) && i < |s.pc| && Kills(s, m, i)
    ensures var s' := Apply(s, m.p, m.a); |s'.st| == |s.pc| && s'.st[i] != Sleeping
  {
    hide Apply;
    StepKilled(s, m.p, m.a, i);
  }

  // ----- who is woken, and what was asked -----

  /** A sleeping process is woken by a kkill of it, by the wakeup of a kfree if it sleeps on the allocator,
      or by whoever wakes the other channel; by nothing else. */
  lemma {:induction false} WakesWhom(s: State, p: nat, a: Action, i: nat)
    requires Enabled(s, p, a) && i < |s.pc| && s.st[i] == Sleeping && (s.pc[i] == Asleep || s.pc[i] == Away)
    ensures var s' := Apply(s, p, a);
      && |s'.st| == |s.pc|
      && (s'.st[i] != Sleeping <==>
            if a.Go? then s.pc[p] == KillHas(i) || (s.pc[p] == WakingHas(i) && s.chan[i] == Kmem)
            else a == WakeElsewhere && p == i)
  {
  }

  /** What process p asked for last. */
  function Asked(ms: seq<Move>, p: nat): (r: Option<Action>) {
    if ms == [] then None
    else
      var m := ms[|ms| - 1];
      if m.p == p && !m.a.Go? && !m.a.Return? then Some(m.a) else Asked(ms[..|ms| - 1], p)
  }

  predicate Follows(pc: Pc, r: Option<Action>) {
    match pc
    case FreeWant(x) => r == Some(StartFree(x))
    case FreeHave(x) => r == Some(StartFree(x))
    case KillWant(i) => r == Some(StartKill(i))
    case KillHas(i) => r == Some(StartKill(i))
    case _ => true
  }

  lemma {:induction false} StepAsked(s: State, m: Move, ms: seq<Move>, p: nat)
    requires Enabled(s, m.p, m.a) && p < |s.pc| && Follows(s.pc[p], Asked(ms, p))
    ensures p < |Apply(s, m.p, m.a).pc| && Follows(Apply(s, m.p, m.a).pc[p], Asked(ms + [m], p))
  {
    assert (ms + [m])[..|ms|] == ms;
  }

  /** Over every interleaving: the page that kfree puts on the list, and the process that kkill marks, are
      those it was called with. */
  lemma {:induction false} RunAsked(ss: seq<State>, ms: seq<Move>, n: nat, free: seq<nat>, killed: seq<bool>, k: nat,
                                    p: nat)
    requires |killed| == n && Run(ss, ms) && ss[0] == Start(n, free, killed) && k < |ss| && p < n
    ensures p < |ss[k].pc| && Follows(ss[k].pc[p], Asked(ms[..k], p))
  {
    hide Apply, Enabled, Follows, Asked;
    if k == 0 {
      assert ss[0].pc[p] == Idle;
      IdleFollows(Asked(ms[..0], p));
    } else {
      RunAsked(ss, ms, n, free, killed, k - 1, p);
      StepAsked(ss[k - 1], ms[k - 1], ms[..k - 1], p);
      assert ms[..k - 1] + [ms[k - 1]] == ms[..k];
    }
  }

  lemma {:induction false} IdleFollows(r: Option<Action>)
    ensures Follows(Idle, r)
  {
  }

  // ----- no deadlock -----

  /** p is in the code of the allocator or of kkill and does not sleep. */
  predicate Busy(s: State, p: nat)
    requires Sized(s) && p < |s.pc|
  { !s.pc[p].Idle? && !s.pc[p].AllocDone? && ((s.pc[p].Asleep? || s.pc[p].Away?) ==> s.st[p] != Sleeping) }

  // Whoever holds a process's lock can go on.
  lemma {:induction false} HolderGoes(s: State, j: nat)
    requires Inv(s) && j < |s.pc| && s.plock[j].Held?
    ensures Enabled(s, s.plock[j].holder, Go)
  {
    hide KmemLock, States, NoneLost;
    assert HasLock(s.pc[s.plock[j].holder], s.plock[j].holder, j);
  }

  /** In every state, if a process is busy then some process can go on: itself, the holder of the lock it
      waits for, or the holder of the one that holder waits for. */
  lemma {:induction false} NoDeadlock(s: State, p: nat) returns (q: nat)
    requires Inv(s) && p < |s.pc| && Busy(s, p)
    ensures Enabled(s, q, Go)
  {
    hide NoneLost;
    q := p;
    if !Enabled(s, p, Go) && s.kmem.Held? && (s.pc[p].AllocWant? || s.pc[p].Reacquire? || s.pc[p].FreeWant?) {
      q := s.kmem.holder;
      assert HasKmem(s.pc[q]);
    }
    if !Enabled(s, q, Go) {
      var j := if s.pc[q].Waking? || s.pc[q].KillWant? then s.pc[q].i else q;
      HolderGoes(s, j);
      q := s.plock[j].holder;
    }
  }

  // A process outside may call anything at any time, and one that is done may return.
  lemma {:induction false} MayCall(s: State, p: nat, x: nat, i: nat)
    requires Sized(s) && p < |s.pc| && i < |s.pc|
    ensures s.pc[p].Idle? ==> Enabled(s, p, StartAlloc) && Enabled(s, p, StartFree(x)) && Enabled(s, p, StartKill(i))
    ensures s.pc[p].AllocDone? ==> Enabled(s, p, Return(s.pc[p].got))
  {
  }
}
