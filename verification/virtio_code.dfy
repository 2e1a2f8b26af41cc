/**
 The driver's code: descriptor allocation, virtio_disk_rw on either side of its wait, and
 virtio_disk_intr.
 */
module VirtioCode {
  import opened VirtioModel
  import opened VirtioSteps

  class Driver {
    var q: Queue
    ghost var f: Flight

    /** An initialised queue with nothing in flight. */
    constructor (bufs: map<nat, Buf>, disk: map<nat, Data>)
      requires forall b :: b in bufs ==> !bufs[b].disk
      ensures Inv(q, f) && f.reqs == map[] && q.bufs == bufs && q.disk == disk
    {
      q := Queue(seq(NUM, _ => true), seq(NUM, _ => NODESC), seq(NUM, _ => Op(0, 0)), seq(NUM, _ => Info(0, 0)),
                 seq(NUM, _ => 0), 0, seq(NUM, _ => 0), 0, 0, 0, bufs, disk);
      f := Flight(map[], seq(NUM, _ => NUM), map[], [], []);
    }

    /** alloc_desc: the lowest free descriptor, no longer free; -1 exactly when there is none. */
    method AllocDesc() returns (i: int)
      requires |q.free| == NUM
      modifies this`q
      ensures i == -1 <==> forall d :: 0 <= d < NUM ==> !old(q).free[d]
      ensures i == -1 ==> q == old(q)
      ensures i != -1 ==> 0 <= i < NUM && old(q).free[i] && q == old(q).(free := old(q).free[i := false])
      ensures i != -1 ==> forall d :: 0 <= d < i ==> !old(q).free[d]
    {
      i := 0;
      while i < NUM
        invariant 0 <= i <= NUM && forall d :: 0 <= d < i ==> !q.free[d]
      {
        if q.free[i] {
          q := q.(free := q.free[i := false]);
          return;
        }
        i := i + 1;
      }
      i := -1;
    }

    /** free_desc: halts exactly when the descriptor is free already or there is no such descriptor. */
    method FreeDesc(i: nat) returns (halted: bool)
      requires Sized(q)
      modifies this`q
      ensures halted <==> i >= NUM || old(q).free[i]
      ensures q == if halted then old(q) else VirtioSteps.FreeDesc(old(q), i)
    {
      if i >= NUM { return true; }
      if q.free[i] { return true; }
      q := q.(desc := q.desc[i := NODESC]);
      q := q.(free := q.free[i := true]);
      halted := false;
    }

    /** free_chain: of a request's chain, every descriptor and no other. */
    method FreeChain(i: nat, ghost i1: nat, ghost i2: nat)
      requires Sized(q) && i < NUM && i1 < NUM && i2 < NUM && i != i1 && i != i2 && i1 != i2
      requires !q.free[i] && !q.free[i1] && !q.free[i2]
      requires q.desc[i].flags % 2 == 1 && q.desc[i].next == i1 && q.desc[i1].flags % 2 == 1 && q.desc[i1].next == i2
      requires q.desc[i2].flags % 2 == 0
      modifies this`q
      ensures q == VirtioSteps.FreeDesc(VirtioSteps.FreeDesc(VirtioSteps.FreeDesc(old(q), i), i1), i2)
    {
      ghost var q0 := q;
      var d := i;
      ghost var k := 0;
      while true
        invariant 0 <= k <= 2 && d == if k == 0 then i else if k == 1 then i1 else i2
        invariant q == if k == 0 then q0 else if k == 1 then VirtioSteps.FreeDesc(q0, i)
                       else VirtioSteps.FreeDesc(VirtioSteps.FreeDesc(q0, i), i1)
        decreases 2 - k
      {
        var flag, nxt := q.desc[d].flags, q.desc[d].next;
        var halted := FreeDesc(d);
        assert !halted;
        if flag % 2 == 1 {
          d, k := nxt, k + 1;
        } else {
          break;
        }
      }
    }

    /** alloc3_desc: the three lowest free descriptors; or, exactly when there are fewer than three,
        everything back as it was. */
    method Alloc3Desc() returns (ok: bool, idx: seq<nat>)
      requires Sized(q) && forall d :: 0 <= d < NUM && q.free[d] ==> q.desc[d] == NODESC
      modifies this`q
      ensures ok <==> Free(old(q).free) >= 3
      ensures !ok ==> q == old(q)
      ensures ok ==> |idx| == 3 && idx[0] < idx[1] < idx[2] < NUM && q == Take(old(q), idx[0], idx[1], idx[2])
      ensures ok ==> old(q).free[idx[0]] && old(q).free[idx[1]] && old(q).free[idx[2]]
      ensures ok ==> forall d :: 0 <= d < idx[2] && d !in idx ==> !old(q).free[d]
    {
      hide TakeAll, Free;
      ghost var q0 := q;
      idx := [];
      var i := 0;
      TakeNone(q0);
      while i < 3
        invariant 0 <= i <= 3 && |idx| == i && q == TakeAll(q0, idx) && Picked(q0, idx)
        invariant Free(q.free) + i == Free(q0.free)
      {
        var a := AllocDesc();
        if a < 0 {
          NoneLeft(q.free);
          Rollback(idx, q0);
          return false, idx;
        }
        FreeSet(TakeAll(q0, idx).free, a, false);
        TakeOne(q0, idx, a);
        PickNext(q0, idx, a);
        idx := idx + [a];
        i := i + 1;
      }
      ok := true;
      Take3(q0, idx);
    }

    // The loop that undoes a failed alloc3_desc.
    method Rollback(idx: seq<nat>, ghost q0: Queue)
      requires Sized(q0) && q == TakeAll(q0, idx) && Picked(q0, idx)
      requires forall d :: 0 <= d < NUM && q0.free[d] ==> q0.desc[d] == NODESC
      modifies this`q
      ensures q == q0
    {
      hide TakeAll;
      var j := 0;
      assert idx[0..] == idx;
      while j < |idx|
        invariant 0 <= j <= |idx| && q == TakeAll(q0, idx[j..])
      {
        assert idx[j] !in idx[j + 1..];
        assert idx[j..][1..] == idx[j + 1..];
        UntakeOne(q0, idx[j..]);
        var halted := FreeDesc(idx[j]);
        assert !halted;
        j := j + 1;
      }
      assert idx[j..] == [];
      TakeNone(q0);
    }

    /** virtio_disk_rw up to its wait, for a buffer that is not in flight: the request is posted, or it
        must wait for descriptors, with nothing changed. */
    method Post(b: nat, write: bool) returns (ok: bool, h: nat)
      requires Inv(q, f) && b != 0 && b in q.bufs && b !in f.of
      modifies this
      ensures Inv(q, f) && (ok <==> Free(old(q).free) >= 3)
      ensures !ok ==> q == old(q) && f == old(f)
      ensures ok ==> h !in old(f).reqs && h in f.reqs && f.reqs == old(f).reqs[h := f.reqs[h]]
      ensures ok ==> f.reqs[h].(i1 := 0, i2 := 0) == Req(b, write, 0, 0, Posted) && f.posted == old(f).posted + [h]
      ensures q.disk == old(q).disk && f.done == old(f).done
      ensures ok ==> q.bufs == old(q).bufs[b := old(q).bufs[b].(disk := true)]
    {
      hide Free, Formats, Buffers, Ring, Holds, Submit;
      DescriptorsSize(q, f);
      var idx;
      ok, idx := Alloc3Desc();
      h := 0;
      if !ok { return; }
      ghost var q0 := old(q);
      SubmitInv(q0, f, b, write, idx[0], idx[1], idx[2]);
      SubmitKeeps(q, b, write, idx[0], idx[1], idx[2]);
      NobodyHas(q0.free, q0.desc, f.own, f.reqs, idx[0]);
      q := Submit(q, b, write, idx[0], idx[1], idx[2]);
      f := Added(f, b, write, idx[0], idx[1], idx[2]);
      h := idx[0];
    }

    /** virtio_disk_rw after its wait: when its buffer is back, the request's descriptors are freed. */
    method Reap(h: nat)
      requires Inv(q, f) && h in f.reqs && f.reqs[h].phase == Done
      modifies this
      ensures Inv(q, f) && f.reqs == old(f).reqs - {h} && q.bufs == old(q).bufs && q.disk == old(q).disk
      ensures Free(q.free) == Free(old(q).free) + 3
    {
      hide Inv, Free, Formatted, Chain;
      DescriptorsSize(q, f);
      ghost var r := f.reqs[h];
      ReapReady(q, f, h);
      FinishInv(q, f, h);
      q := q.(info := q.info[h := q.info[h].(b := 0)]);
      FreeChain(h, r.i1, r.i2);
      f := Gone(f, h);
    }

    /** virtio_disk_intr: every completion in the used ring is consumed, in order, and its buffer
        marked done; it halts exactly when the device reported an error for one of them. */
    method Intr() returns (halted: bool)
      requires Inv(q, f)
      modifies this
      ensures Inv(q, f)
      ensures halted <==> exists k :: 0 <= k < |old(f).done| && old(q).info[old(f).done[k]].status != 0
      ensures !halted ==> q.seen == q.usedIdx && f.done == []
      ensures !halted ==> forall h :: h in old(f).reqs ==>
        && h in f.reqs
        && f.reqs[h] == old(f).reqs[h].(phase := if old(f).reqs[h].phase == Used then Done else old(f).reqs[h].phase)
      ensures q.disk == old(q).disk && SameItems(old(q).bufs, q.bufs)
    {
      hide Inv, Handle, Descriptors, Moved;
      ghost var q0, f0, n := q, f, 0;
      InfoSize(q, f);
      NoneMoved(f);
      while q.seen != q.usedIdx
        invariant Inv(q, f) && q.info == q0.info && Sized(q) && 0 <= n <= |f0.done| && f.done == f0.done[n..]
        invariant forall k :: 0 <= k < n ==> q0.info[f0.done[k]].status == 0
        invariant Moved(f0, f.reqs, n) && q.disk == q0.disk && SameItems(q0.bufs, q.bufs)
        decreases |f.done|
      {
        HandleInv(q, f);
        var id := q.used[q.seen % NUM];
        if q.info[id].status != 0 { return true; }
        ghost var q1 := q;
        q := q.(bufs := q.bufs[q.info[id].b := q.bufs[q.info[id].b].(disk := false)], seen := (q.seen + 1) % IDX);
        HandleIs(q1, q);
        OneMoved(f0, f, n);
        f := At(f, f.done[0], Done).(done := f.done[1..]);
        n := n + 1;
      }
      Drained(q, f, f0, n);
      AllMoved(q0, f0, f, n);
      halted := false;
    }
  }

  // Buffers keep their blocks and contents.
  predicate SameItems(bufs: map<nat, Buf>, bufs': map<nat, Buf>) {
    bufs'.Keys == bufs.Keys && forall b :: b in bufs ==> bufs'[b].(disk := false) == bufs[b].(disk := false)
  }

  lemma {:induction false} SubmitKeeps(q: Queue, b: nat, write: bool, i0: nat, i1: nat, i2: nat)
    requires Sized(q) && i0 < NUM && i1 < NUM && i2 < NUM && b in q.bufs
    ensures var q' := Submit(q, b, write, i0, i1, i2);
      q'.disk == q.disk && q'.bufs == q.bufs[b := q.bufs[b].(disk := true)]
  {
  }

  /** The indices so far are the lowest free ones, in order. */
  ghost predicate Picked(q: Queue, idx: seq<nat>) {
    && Sized(q) && (forall k :: 0 <= k < |idx| ==> idx[k] < NUM && q.free[idx[k]])
    && (forall k, l :: 0 <= k < l < |idx| ==> idx[k] < idx[l])
    && (idx != [] ==> forall d :: 0 <= d < idx[|idx| - 1] && q.free[d] ==> d in idx)
  }

  lemma {:induction false} PickNext(q: Queue, idx: seq<nat>, a: nat)
    requires Picked(q, idx) && a < NUM && TakeAll(q, idx).free[a] && forall d :: 0 <= d < a ==> !TakeAll(q, idx).free[d]
    ensures Picked(q, idx + [a])
  {
    forall d | 0 <= d < a && q.free[d] ensures d in idx + [a] { assert !TakeAll(q, idx).free[d]; }
    forall k | 0 <= k < |idx| ensures idx[k] < a {
      assert idx[k] in idx && a !in idx;
      assert idx[|idx| - 1] <= a;
    }
  }

  // The chain of a request is as free_chain expects it, and freeing it adds three free descriptors.
  lemma {:induction false} ReapReady(q: Queue, f: Flight, h: nat)
    requires Inv(q, f) && h in f.reqs && f.reqs[h].phase == Done && Sized(q)
    ensures var r := f.reqs[h];
      && h < NUM && r.i1 < NUM && r.i2 < NUM && h != r.i1 && h != r.i2 && r.i1 != r.i2 && !q.free[h] && !q.free[r.i1]
      && !q.free[r.i2]
      && q.desc[h].flags % 2 == 1 && q.desc[h].next == r.i1 && q.desc[r.i1].flags % 2 == 1 && q.desc[r.i1].next == r.i2
      && q.desc[r.i2].flags % 2 == 0 && Free(Finish(q, h, r.i1, r.i2).free) == Free(q.free) + 3
  {
    hide Buffers, Ring, Holds, Free;
    var r := f.reqs[h];
    assert Chain(f.own, h, r) && Formatted(q.desc, q.ops, q.bufs, h, r);
    FreeSet(q.free, h, true);
    FreeSet(q.free[h := true], r.i1, true);
    FreeSet(q.free[h := true][r.i1 := true], r.i2, true);
  }

  lemma {:induction false} HandleIs(q: Queue, q': Queue)
    requires Pending(q)
    requires q' ==
              q.(bufs := q.bufs[q.info[q.used[q.seen % NUM]].b :=
                                q.bufs[q.info[q.used[q.seen % NUM]].b].(disk := false)],
                      seen := (q.seen + 1) % IDX)
    ensures q' == Handle(q)
  {
  }

  lemma {:induction false} InfoSize(q: Queue, f: Flight)
    requires Inv(q, f)
    ensures Sized(q) && forall k :: 0 <= k < |f.done| ==> f.done[k] < NUM && f.done[k] in f.reqs
    ensures forall h :: h in f.reqs ==> (h in f.done <==> f.reqs[h].phase == Used)
  {
    hide Descriptors, Formats, Buffers;
    DescriptorsSize(q, f);
  }

  // The first n completed requests have been handed back.
  ghost predicate Moved(f0: Flight, reqs: map<nat, Req>, n: nat)
    requires n <= |f0.done|
  {
    forall h :: h in f0.reqs ==>
      h in reqs && reqs[h] == f0.reqs[h].(phase := if h in f0.done[..n] then Done else f0.reqs[h].phase)
  }

  lemma {:induction false} NoneMoved(f: Flight)
    ensures Moved(f, f.reqs, 0) && f.done[0..] == f.done
  {
  }

  lemma {:induction false} OneMoved(f0: Flight, f: Flight, n: nat)
    requires n < |f0.done| && f.done == f0.done[n..] && f.done[0] in f.reqs && Moved(f0, f.reqs, n)
    ensures Moved(f0, At(f, f.done[0], Done).reqs, n + 1)
    ensures f.done[1..] == f0.done[n + 1..]
  {
    assert f0.done[..n + 1] == f0.done[..n] + [f0.done[n]];
  }

  lemma {:induction false} AllMoved(q: Queue, f0: Flight, f: Flight, n: nat)
    requires Inv(q, f0) && n == |f0.done| && f0.done[..n] == f0.done && Moved(f0, f.reqs, n)
    ensures forall h :: h in f0.reqs ==>
      && h in f.reqs
      && f.reqs[h] == f0.reqs[h].(phase := if f0.reqs[h].phase == Used then Done else f0.reqs[h].phase)
  {
    hide Descriptors, Formats, Buffers;
  }

  // After the handler's loop, every completion there was has been consumed.
  lemma {:induction false} Drained(q: Queue, f: Flight, f0: Flight, n: nat)
    requires Inv(q, f) && q.seen == q.usedIdx && n <= |f0.done| && f.done == f0.done[n..]
    ensures f.done == [] && n == |f0.done| && f0.done[..n] == f0.done
  {
    hide Descriptors, Formats, Buffers;
    RingPop(q.used, q.seen, q.usedIdx, f.done);
  }

  // q with the descriptors idx taken.
  function TakeAll(q: Queue, idx: seq<nat>): (r: Queue)
    requires Sized(q)
    ensures Sized(r)
  { q.(free := seq(NUM, d requires 0 <= d < NUM => q.free[d] && d !in idx)) }

  lemma {:induction false} TakeNone(q: Queue)
    requires Sized(q)
    ensures TakeAll(q, []) == q
  {
    assert TakeAll(q, []).free == q.free;
  }

  lemma {:induction false} TakeOne(q: Queue, idx: seq<nat>, a: nat)
    requires Sized(q) && a < NUM
    ensures TakeAll(q, idx + [a]) == TakeAll(q, idx).(free := TakeAll(q, idx).free[a := false])
  {
    assert TakeAll(q, idx + [a]).free == TakeAll(q, idx).free[a := false];
  }

  lemma {:induction false} UntakeOne(q: Queue, idx: seq<nat>)
    requires Sized(q) && idx != [] && idx[0] < NUM && idx[0] !in idx[1..] && q.free[idx[0]] && q.desc[idx[0]] == NODESC
    ensures !TakeAll(q, idx).free[idx[0]] && VirtioSteps.FreeDesc(TakeAll(q, idx), idx[0]) == TakeAll(q, idx[1..])
  {
    assert idx == [idx[0]] + idx[1..];
    assert TakeAll(q, idx).free[idx[0] := true] == TakeAll(q, idx[1..]).free;
    assert q.desc[idx[0] := NODESC] == q.desc;
  }

  lemma {:induction false} Take3(q: Queue, idx: seq<nat>)
    requires Sized(q) && |idx| == 3 && idx[0] < NUM && idx[1] < NUM && idx[2] < NUM
    ensures TakeAll(q, idx) == Take(q, idx[0], idx[1], idx[2])
  {
    assert TakeAll(q, idx).free == Take(q, idx[0], idx[1], idx[2]).free;
  }

  lemma {:induction false} NoneLeft(free: seq<bool>)
    requires forall d :: 0 <= d < |free| ==> !free[d]
    ensures Free(free) == 0
  {
    if free != [] { NoneLeft(free[1..]); }
  }
}
