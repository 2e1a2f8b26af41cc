/**
 The steps of driver, device and interrupt handler, each kept within the queue's invariant, and what
 holds over every run of them.
 */
module VirtioSteps {
  import opened VirtioModel

  // ----- virtio_disk_rw: submitting -----

  // The three descriptors have been allocated.
  function Take(s: Queue, i0: nat, i1: nat, i2: nat): (s': Queue)
    requires |s.free| == NUM && i0 < NUM && i1 < NUM && i2 < NUM
  { s.(free := s.free[i0 := false][i1 := false][i2 := false]) }

  predicate Sized(s: Queue) { |s.free| == |s.desc| == |s.ops| == |s.info| == |s.ring| == |s.used| == NUM }

  /** Formatting the descriptors, and telling the device. */
  function Submit(s: Queue, b: nat, write: bool, i0: nat, i1: nat, i2: nat): (s': Queue)
    requires Sized(s) && i0 < NUM && i1 < NUM && i2 < NUM && b in s.bufs
  {
    s.(ops := s.ops[i0 := Op(if write then OUT else IN, Sector(s.bufs[b].block))],
       desc := s.desc[i0 := Desc(Header(i0), 16, NEXT, i1)]
                     [i1 := Desc(Buffer(b), BSIZE, (if write then 0 else WRITE) + NEXT, i2)]
                     [i2 := Desc(Status(i0), 1, WRITE, 0)],
       info := s.info[i0 := Info(b, 0xff)],
       bufs := s.bufs[b := s.bufs[b].(disk := true)],
       ring := s.ring[s.avail % NUM := i0],
       avail := (s.avail + 1) % IDX)
  }

  function Added(f: Flight, b: nat, write: bool, i0: nat, i1: nat, i2: nat): (f': Flight)
    requires |f.own| == NUM && i0 < NUM && i1 < NUM && i2 < NUM
  {
    f.(reqs := f.reqs[i0 := Req(b, write, i1, i2, Posted)], own := f.own[i0 := i0][i1 := i0][i2 := i0],
       of := f.of[b := i0], posted := f.posted + [i0])
  }

  // ----- the device -----

  function Sectors(disk: map<nat, Data>, sector: nat): (d: Data) { if sector in disk then disk[sector] else [] }

  // The device takes the next request from the available ring.
  function Fetch(s: Queue): (s': Queue) { s.(dev := (s.dev + 1) % IDX) }

  // The memory a chain leads the device to, if it is one the device can follow.
  predicate Followable(s: Queue, h: nat) {
    && Sized(s) && h < NUM && s.desc[h].addr.Header? && s.desc[h].addr.i < NUM && s.desc[h].next < NUM
    && s.desc[s.desc[h].next].addr.Buffer? && s.desc[s.desc[h].next].addr.b in s.bufs
    && s.desc[s.desc[h].next].next < NUM
    && s.desc[s.desc[s.desc[h].next].next].addr.Status? && s.desc[s.desc[s.desc[h].next].next].addr.i < NUM
  }

  /** The device does what the chain that starts at h says: the transfer, the status, the used ring. */
  function Complete(s: Queue, h: nat, status: nat): (s': Queue)
    requires Followable(s, h)
  {
    var d1 := s.desc[s.desc[h].next];
    var d2 := s.desc[d1.next];
    var op := s.ops[s.desc[h].addr.i];
    var b := d1.addr.b;
    var t := if op.typ == OUT then s.(disk := s.disk[op.sector := s.bufs[b].data])
             else s.(bufs := s.bufs[b := s.bufs[b].(data := Sectors(s.disk, op.sector))]);
    t.(info := t.info[d2.addr.i := t.info[d2.addr.i].(status := status)],
       used := t.used[t.usedIdx % NUM := h], usedIdx := (t.usedIdx + 1) % IDX)
  }

  // ----- virtio_disk_intr: one round of its loop -----

  predicate Pending(s: Queue) {
    && Sized(s) && s.seen != s.usedIdx && s.used[s.seen % NUM] < NUM && s.info[s.used[s.seen % NUM]].b in s.bufs
  }

  function Handle(s: Queue): (s': Queue)
    requires Pending(s)
  {
    var b := s.info[s.used[s.seen % NUM]].b;
    s.(bufs := s.bufs[b := s.bufs[b].(disk := false)], seen := (s.seen + 1) % IDX)
  }

  // ----- virtio_disk_rw: finishing -----

  function FreeDesc(s: Queue, i: nat): (s': Queue)
    requires Sized(s) && i < NUM
    ensures Sized(s')
  { s.(desc := s.desc[i := NODESC], free := s.free[i := true]) }

  function Finish(s: Queue, h: nat, i1: nat, i2: nat): (s': Queue)
    requires Sized(s) && h < NUM && i1 < NUM && i2 < NUM
  { FreeDesc(FreeDesc(FreeDesc(s.(info := s.info[h := s.info[h].(b := 0)]), h), i1), i2) }

  function Gone(f: Flight, h: nat): (f': Flight)
    requires h in f.reqs && |f.own| == NUM && h < NUM && f.reqs[h].i1 < NUM && f.reqs[h].i2 < NUM
  {
    f.(reqs := f.reqs - {h}, own := f.own[h := NUM][f.reqs[h].i1 := NUM][f.reqs[h].i2 := NUM],
       of := f.of - {f.reqs[h].b})
  }

  function At(f: Flight, h: nat, p: Phase): (f': Flight)
    requires h in f.reqs
  { f.(reqs := f.reqs[h := f.reqs[h].(phase := p)]) }

  // ----- each step keeps the invariant -----

  ghost predicate CanSubmit(s: Queue, f: Flight, b: nat, i0: nat, i1: nat, i2: nat) {
    && Sized(s) && i0 < NUM && i1 < NUM && i2 < NUM && i0 != i1 && i0 != i2 && i1 != i2
    && s.free[i0] && s.free[i1] && s.free[i2] && b != 0 && b in s.bufs && b !in f.of
  }

  /** A free descriptor is in nobody's chain. */
  lemma {:induction false} NobodyHas(free: seq<bool>, desc: seq<Desc>, own: seq<nat>, reqs: map<nat, Req>, d: nat)
    requires Descriptors(free, desc, own, reqs) && d < NUM && free[d]
    ensures forall h :: h in reqs ==> h != d && reqs[h].i1 != d && reqs[h].i2 != d
  {
    forall h | h in reqs ensures h != d && reqs[h].i1 != d && reqs[h].i2 != d { assert Chain(own, h, reqs[h]); }
  }

  lemma {:induction false} AddDescriptors(free: seq<bool>, desc: seq<Desc>, own: seq<nat>, reqs: map<nat, Req>, h: nat,
                                          r: Req, d0: Desc, d1: Desc, d2: Desc)
    requires Descriptors(free, desc, own, reqs) && h < NUM && r.i1 < NUM && r.i2 < NUM && h != r.i1 && h != r.i2
    requires r.i1 != r.i2
    requires free[h] && free[r.i1] && free[r.i2]
    ensures Descriptors(free[h := false][r.i1 := false][r.i2 := false], desc[h := d0][r.i1 := d1][r.i2 := d2],
                        own[h := h][r.i1 := h][r.i2 := h], reqs[h := r])
  {
    var free', desc' := free[h := false][r.i1 := false][r.i2 := false], desc[h := d0][r.i1 := d1][r.i2 := d2];
    var own', reqs' := own[h := h][r.i1 := h][r.i2 := h], reqs[h := r];
    NobodyHas(free, desc, own, reqs, h);
    AddChains(free, desc, own, reqs, h, r, own', reqs');
    forall d | 0 <= d < NUM
      ensures free'[d] <==> own'[d] == NUM
      ensures !free'[d] ==> own'[d] in reqs' && (d == own'[d] || d == reqs'[own'[d]].i1 || d == reqs'[own'[d]].i2)
      ensures free'[d] ==> desc'[d] == NODESC
    {
      if d == h || d == r.i1 || d == r.i2 {
        assert own'[d] == h && !free'[d];
      } else {
        assert free'[d] == free[d] && desc'[d] == desc[d] && own'[d] == own[d];
      }
    }
  }

  lemma {:induction false} AddChains(free: seq<bool>, desc: seq<Desc>, own: seq<nat>, reqs: map<nat, Req>,
                                     h: nat, r: Req, own': seq<nat>, reqs': map<nat, Req>)
    requires Descriptors(free, desc, own, reqs) && h < NUM && r.i1 < NUM && r.i2 < NUM && h != r.i1 && h != r.i2
    requires r.i1 != r.i2 && free[h] && free[r.i1] && free[r.i2]
    requires own' == own[h := h][r.i1 := h][r.i2 := h] && reqs' == reqs[h := r]
    ensures forall k :: k in reqs' ==> Chain(own', k, reqs'[k])
  {
    NobodyHas(free, desc, own, reqs, h);
    NobodyHas(free, desc, own, reqs, r.i1);
    NobodyHas(free, desc, own, reqs, r.i2);
    forall k | k in reqs' ensures Chain(own', k, reqs'[k]) {
      if k != h { ChainOf(free, desc, own, reqs, k); }
    }
  }

  lemma {:induction false} ChainOf(free: seq<bool>, desc: seq<Desc>, own: seq<nat>, reqs: map<nat, Req>, k: nat)
    requires Descriptors(free, desc, own, reqs) && k in reqs
    ensures |own| == NUM && Chain(own, k, reqs[k])
  {
  }

  lemma {:induction false} AddFormats(desc: seq<Desc>, ops: seq<Op>, bufs: map<nat, Buf>, reqs: map<nat, Req>, h: nat,
                                      r: Req, d0: Desc, d1: Desc, d2: Desc, op: Op)
    requires Formats(desc, ops, bufs, reqs) && h < NUM && r.i1 < NUM && r.i2 < NUM && r.b in bufs
    requires forall k :: k in reqs ==>
              k !in {h, r.i1, r.i2} && reqs[k].i1 !in {h, r.i1, r.i2} && reqs[k].i2 !in {h, r.i1, r.i2}
    requires Formatted(desc[h := d0][r.i1 := d1][r.i2 := d2], ops[h := op], bufs, h, r)
    ensures Formats(desc[h := d0][r.i1 := d1][r.i2 := d2], ops[h := op], bufs[r.b := bufs[r.b].(disk := true)],
                    reqs[h := r])
  {
    var desc', ops', bufs' := desc[h := d0][r.i1 := d1][r.i2 := d2], ops[h := op],
                              bufs[r.b := bufs[r.b].(disk := true)];
    forall k | k in reqs
      ensures Formatted(desc', ops', bufs', k, reqs[k])
    { assert Formatted(desc, ops, bufs, k, reqs[k]); }
  }

  lemma {:induction false} AddBuffers(info: seq<Info>, bufs: map<nat, Buf>, reqs: map<nat, Req>, of: map<nat, nat>,
                                      h: nat, r: Req)
    requires Buffers(info, bufs, reqs, of) && h < NUM && h !in reqs && r.b !in of && r.b != 0 && r.b in bufs
    requires r.phase == Posted
    ensures Buffers(info[h := Info(r.b, 0xff)], bufs[r.b := bufs[r.b].(disk := true)], reqs[h := r], of[r.b := h])
  {
  }

  lemma {:induction false} AddHolds(q: seq<nat>, reqs: map<nat, Req>, p: Phase, h: nat, r: Req)
    requires Holds(q, reqs, p) && h !in reqs
    ensures Holds(if r.phase == p then q + [h] else q, reqs[h := r], p)
  {
  }

  lemma {:induction false} HoldsDistinct(q: seq<nat>, reqs: map<nat, Req>, p: Phase, h: nat)
    requires Distinct(q) && Holds(q, reqs, p) && h < NUM && (h !in reqs || reqs[h].phase != p)
    ensures Distinct(q + [h])
  {
  }

  lemma {:induction false} SubmitInv(s: Queue, f: Flight, b: nat, write: bool, i0: nat, i1: nat, i2: nat)
    requires Inv(s, f) && CanSubmit(s, f, b, i0, i1, i2)
    ensures |f.own| == NUM
    ensures Inv(Submit(Take(s, i0, i1, i2), b, write, i0, i1, i2), Added(f, b, write, i0, i1, i2))
  {
    hide Descriptors, Formats, Buffers, Ring, Holds, Distinct;
    var r := Req(b, write, i1, i2, Posted);
    var t := Submit(Take(s, i0, i1, i2), b, write, i0, i1, i2);
    DescriptorsSize(s, f);
    NobodyHas(s.free, s.desc, f.own, f.reqs, i0);
    NobodyHas(s.free, s.desc, f.own, f.reqs, i1);
    NobodyHas(s.free, s.desc, f.own, f.reqs, i2);
    AddDescriptors(s.free, s.desc, f.own, f.reqs, i0, r, t.desc[i0], t.desc[i1], t.desc[i2]);
    AddFormats(s.desc, s.ops, s.bufs, f.reqs, i0, r, t.desc[i0], t.desc[i1], t.desc[i2], t.ops[i0]);
    AddBuffers(s.info, s.bufs, f.reqs, f.of, i0, r);
    RingDistinct(s, f);
    HoldsDistinct(f.posted, f.reqs, Posted, i0);
    RingPush(s.ring, s.dev, s.avail, f.posted, i0);
    AddHolds(f.posted, f.reqs, Posted, i0, r);
    AddHolds(f.done, f.reqs, Used, i0, r);
  }

  lemma {:induction false} DescriptorsSize(s: Queue, f: Flight)
    requires Inv(s, f)
    ensures Sized(s) && |f.own| == NUM
  {
  }

  lemma {:induction false} RingDistinct(s: Queue, f: Flight)
    requires Inv(s, f)
    ensures Distinct(f.posted) && Distinct(f.done)
  {
  }

  // ----- moving a request to its next phase -----

  lemma {:induction false} MoveDescriptors(free: seq<bool>, desc: seq<Desc>, own: seq<nat>, reqs: map<nat, Req>,
                                           h: nat, p: Phase)
    requires Descriptors(free, desc, own, reqs) && h in reqs
    ensures Descriptors(free, desc, own, reqs[h := reqs[h].(phase := p)])
  {
    var reqs' := reqs[h := reqs[h].(phase := p)];
    forall k | k in reqs' ensures Chain(own, k, reqs'[k]) { assert Chain(own, k, reqs[k]); }
  }

  // Contents of buffers other than the block number do not matter to the format.
  lemma {:induction false} MoveFormats(desc: seq<Desc>, ops: seq<Op>, bufs: map<nat, Buf>, bufs': map<nat, Buf>,
                                       reqs: map<nat, Req>, h: nat, p: Phase)
    requires Formats(desc, ops, bufs, reqs) && h in reqs
    requires forall b :: b in bufs ==> b in bufs' && bufs'[b].block == bufs[b].block
    ensures Formats(desc, ops, bufs', reqs[h := reqs[h].(phase := p)])
  {
    var reqs' := reqs[h := reqs[h].(phase := p)];
    forall k | k in reqs'
      ensures Formatted(desc, ops, bufs', k, reqs'[k])
    { assert Formatted(desc, ops, bufs, k, reqs[k]); }
  }

  lemma {:induction false} MoveBuffers(info: seq<Info>, info': seq<Info>, bufs: map<nat, Buf>, bufs': map<nat, Buf>,
                                       reqs: map<nat, Req>, of: map<nat, nat>, h: nat, p: Phase)
    requires Buffers(info, bufs, reqs, of) && h in reqs && reqs[h].phase != Done && |info'| == NUM && reqs[h].b in bufs
    requires forall k :: 0 <= k < NUM ==> info'[k].b == info[k].b
    requires bufs'.Keys == bufs.Keys && forall b :: b in bufs && b != reqs[h].b ==> bufs'[b].disk == bufs[b].disk
    requires bufs'[reqs[h].b].disk <==> p != Done
    ensures Buffers(info', bufs', reqs[h := reqs[h].(phase := p)], of)
  {
  }

  lemma {:induction false} MoveOut(q: seq<nat>, reqs: map<nat, Req>, p: Phase, p': Phase)
    requires Distinct(q) && q != [] && Holds(q, reqs, p) && p' != p
    ensures Holds(q[1..], reqs[q[0] := reqs[q[0]].(phase := p')], p)
  {
    assert q == [q[0]] + q[1..];
  }

  lemma {:induction false} MoveIn(q: seq<nat>, reqs: map<nat, Req>, p: Phase, h: nat)
    requires Holds(q, reqs, p) && h in reqs
    ensures Holds(q + [h], reqs[h := reqs[h].(phase := p)], p)
  {
  }

  lemma {:induction false} MovePast(q: seq<nat>, reqs: map<nat, Req>, p: Phase, h: nat, p': Phase)
    requires Holds(q, reqs, p) && h in reqs && reqs[h].phase != p && p' != p
    ensures Holds(q, reqs[h := reqs[h].(phase := p')], p)
  {
  }

  lemma {:induction false} FetchInv(s: Queue, f: Flight)
    requires Inv(s, f) && s.dev != s.avail
    ensures f.posted != [] && f.posted[0] in f.reqs && Sized(s) && s.ring[s.dev % NUM] == f.posted[0]
    ensures Inv(Fetch(s), At(f, f.posted[0], Taken).(posted := f.posted[1..]))
  {
    hide Descriptors, Formats, Buffers, Ring;
    DescriptorsSize(s, f);
    RingDistinct(s, f);
    RingPop(s.ring, s.dev, s.avail, f.posted);
    var h := f.posted[0];
    MoveDescriptors(s.free, s.desc, f.own, f.reqs, h, Taken);
    MoveFormats(s.desc, s.ops, s.bufs, s.bufs, f.reqs, h, Taken);
    assert f.reqs[h].phase == Posted && h in f.reqs;
    PostedBuf(s, f, h);
    MoveBuffers(s.info, s.info, s.bufs, s.bufs, f.reqs, f.of, h, Taken);
    MoveOut(f.posted, f.reqs, Posted, Taken);
    MovePast(f.done, f.reqs, Used, h, Taken);
  }

  lemma {:induction false} PostedBuf(s: Queue, f: Flight, h: nat)
    requires Inv(s, f) && h in f.reqs
    ensures h < NUM && f.reqs[h].b in s.bufs && s.info[h].b == f.reqs[h].b
    ensures s.bufs[f.reqs[h].b].disk <==> f.reqs[h].phase != Done
  {
    hide Descriptors, Ring, Holds;
  }

  /** Executing the chain of a request is executing that request. A write leaves every other block alone,
      unless their numbers differ by a multiple of 2^31. */
  lemma {:induction false} CompleteRequest(s: Queue, f: Flight, h: nat, status: nat)
    requires Inv(s, f) && h in f.reqs
    ensures Followable(s, h)
    ensures var r := f.reqs[h]; var s' := Complete(s, h, status); var sector := Sector(s.bufs[r.b].block);
      && s'.disk == (if r.write then s.disk[sector := s.bufs[r.b].data] else s.disk)
      && s'.bufs == (if r.write then s.bufs else s.bufs[r.b := s.bufs[r.b].(data := Sectors(s.disk, sector))])
      && s'.info == s.info[h := s.info[h].(status := status)]
      && s'.used == s.used[s.usedIdx % NUM := h] && s'.usedIdx == (s.usedIdx + 1) % IDX
      && s' == s.(disk := s'.disk, bufs := s'.bufs, info := s'.info, used := s'.used, usedIdx := s'.usedIdx)
    ensures var s', block := Complete(s, h, status), s.bufs[f.reqs[h].b].block;
      forall c: nat :: c % (UINT / 2) != block % (UINT / 2) ==>
        Sectors(s'.disk, Sector(c)) == Sectors(s.disk, Sector(c))
  {
    hide Descriptors, Ring, Holds, Buffers, Sector;
    DescriptorsSize(s, f);
    assert Formatted(s.desc, s.ops, s.bufs, h, f.reqs[h]);
    var s', block := Complete(s, h, status), s.bufs[f.reqs[h].b].block;
    forall c: nat | c % (UINT / 2) != block % (UINT / 2)
      ensures Sectors(s'.disk, Sector(c)) == Sectors(s.disk, Sector(c))
    { SectorSame(c, block); }
  }

  lemma {:induction false} CompleteInv(s: Queue, f: Flight, h: nat, status: nat)
    requires Inv(s, f) && h in f.reqs && f.reqs[h].phase == Taken
    ensures Followable(s, h) && Inv(Complete(s, h, status), At(f, h, Used).(done := f.done + [h]))
  {
    hide Descriptors, Formats, Buffers, Ring, Followable, Complete;
    CompleteRequest(s, f, h, status);
    DescriptorsSize(s, f);
    RingDistinct(s, f);
    PostedBuf(s, f, h);
    var s' := Complete(s, h, status);
    MoveDescriptors(s.free, s.desc, f.own, f.reqs, h, Used);
    MoveFormats(s.desc, s.ops, s.bufs, s'.bufs, f.reqs, h, Used);
    MoveBuffers(s.info, s'.info, s.bufs, s'.bufs, f.reqs, f.of, h, Used);
    HoldsDistinct(f.done, f.reqs, Used, h);
    RingPush(s.used, s.seen, s.usedIdx, f.done, h);
    MoveIn(f.done, f.reqs, Used, h);
    MovePast(f.posted, f.reqs, Posted, h, Used);
  }

  /** The interrupt handler takes completions in the order the device put them there, each once, and
      marks the buffer of that request, and only that one, as done. */
  lemma {:induction false} HandleInv(s: Queue, f: Flight)
    requires Inv(s, f) && s.seen != s.usedIdx
    ensures Pending(s) && f.done != [] && f.done[0] in f.reqs && s.used[s.seen % NUM] == f.done[0]
    ensures s.info[f.done[0]].b == f.reqs[f.done[0]].b && f.reqs[f.done[0]].b in s.bufs
    ensures Inv(Handle(s), At(f, f.done[0], Done).(done := f.done[1..]))
  {
    hide Descriptors, Formats, Buffers, Ring;
    DescriptorsSize(s, f);
    RingDistinct(s, f);
    RingPop(s.used, s.seen, s.usedIdx, f.done);
    var h := f.done[0];
    assert h in f.reqs && f.reqs[h].phase == Used;
    PostedBuf(s, f, h);
    var s' := Handle(s);
    MoveDescriptors(s.free, s.desc, f.own, f.reqs, h, Done);
    MoveFormats(s.desc, s.ops, s.bufs, s'.bufs, f.reqs, h, Done);
    MoveBuffers(s.info, s.info, s.bufs, s'.bufs, f.reqs, f.of, h, Done);
    MoveOut(f.done, f.reqs, Used, Done);
    MovePast(f.posted, f.reqs, Posted, h, Done);
  }

  // ----- a request ends -----

  lemma {:induction false} EndDescriptors(free: seq<bool>, desc: seq<Desc>, own: seq<nat>, reqs: map<nat, Req>, h: nat)
    requires Descriptors(free, desc, own, reqs) && h in reqs
    ensures var r := reqs[h];
      && h < NUM && r.i1 < NUM && r.i2 < NUM
      && Descriptors(free[h := true][r.i1 := true][r.i2 := true], desc[h := NODESC][r.i1 := NODESC][r.i2 := NODESC],
                  own[h := NUM][r.i1 := NUM][r.i2 := NUM], reqs - {h})
  {
    var r, own' := reqs[h], own[h := NUM][reqs[h].i1 := NUM][reqs[h].i2 := NUM];
    assert Chain(own, h, r);
    forall k | k in reqs && k != h ensures Chain(own', k, reqs[k]) { assert Chain(own, k, reqs[k]); }
  }

  lemma {:induction false} EndFormats(free: seq<bool>, desc: seq<Desc>, own: seq<nat>, ops: seq<Op>,
                                      bufs: map<nat, Buf>, reqs: map<nat, Req>, h: nat)
    requires Descriptors(free, desc, own, reqs) && Formats(desc, ops, bufs, reqs) && h in reqs
    ensures var r := reqs[h];
      && h < NUM && r.i1 < NUM && r.i2 < NUM
      && Formats(desc[h := NODESC][r.i1 := NODESC][r.i2 := NODESC], ops, bufs, reqs - {h})
  {
    var r, reqs' := reqs[h], reqs - {h};
    assert Chain(own, h, r);
    var desc' := desc[h := NODESC][r.i1 := NODESC][r.i2 := NODESC];
    forall k | k in reqs' ensures Formatted(desc', ops, bufs, k, reqs'[k]) {
      assert Chain(own, k, reqs[k]);
      assert Formatted(desc, ops, bufs, k, reqs[k]);
    }
  }

  lemma {:induction false} EndBuffers(info: seq<Info>, bufs: map<nat, Buf>, reqs: map<nat, Req>, of: map<nat, nat>,
                                      h: nat)
    requires Buffers(info, bufs, reqs, of) && h in reqs && reqs[h].phase == Done
    ensures h < NUM && Buffers(info[h := info[h].(b := 0)], bufs, reqs - {h}, of - {reqs[h].b})
  {
  }

  lemma {:induction false} EndHolds(q: seq<nat>, reqs: map<nat, Req>, p: Phase, h: nat)
    requires Holds(q, reqs, p) && h in reqs && reqs[h].phase != p
    ensures Holds(q, reqs - {h}, p)
  {
  }

  lemma {:induction false} FinishInv(s: Queue, f: Flight, h: nat)
    requires Inv(s, f) && h in f.reqs && f.reqs[h].phase == Done
    ensures Sized(s) && |f.own| == NUM && h < NUM && f.reqs[h].i1 < NUM && f.reqs[h].i2 < NUM
    ensures Inv(Finish(s, h, f.reqs[h].i1, f.reqs[h].i2), Gone(f, h))
  {
    hide Descriptors, Formats, Buffers, Ring, Holds;
    DescriptorsSize(s, f);
    EndDescriptors(s.free, s.desc, f.own, f.reqs, h);
    EndFormats(s.free, s.desc, f.own, s.ops, s.bufs, f.reqs, h);
    EndBuffers(s.info, s.bufs, f.reqs, f.of, h);
    EndHolds(f.posted, f.reqs, Posted, h);
    EndHolds(f.done, f.reqs, Used, h);
  }

  // ----- conservation -----

  function Free(free: seq<bool>): (n: nat) { if free == [] then 0 else Free(free[1..]) + if free[0] then 1 else 0 }

  lemma {:induction false} FreeSet(free: seq<bool>, d: nat, b: bool)
    requires d < |free|
    ensures Free(free[d := b]) + (if free[d] then 1 else 0) == Free(free) + if b then 1 else 0
  {
    if d == 0 {
      assert free[0 := b][1..] == free[1..];
    } else {
      FreeSet(free[1..], d - 1, b);
      assert free[d := b][1..] == free[1..][d - 1 := b];
    }
  }

  lemma {:induction false} AllFree(free: seq<bool>)
    requires forall d :: 0 <= d < |free| ==> free[d]
    ensures Free(free) == |free|
  {
    if free != [] { AllFree(free[1..]); }
  }

  /** Descriptors are conserved: three per request, the others free; so at most two requests are in
      flight and neither ring can overflow. */
  lemma {:induction false} Conserved(free: seq<bool>, desc: seq<Desc>, own: seq<nat>, reqs: map<nat, Req>)
    requires Descriptors(free, desc, own, reqs)
    ensures Free(free) + 3 * |reqs| == NUM && |reqs| <= 2
    decreases |reqs|
  {
    if reqs == map[] {
      AllFree(free);
    } else {
      var h :| h in reqs;
      var r := reqs[h];
      EndDescriptors(free, desc, own, reqs, h);
      assert Chain(own, h, r);
      assert (reqs - {h}).Keys == reqs.Keys - {h};
      assert |(reqs - {h})| == |reqs| - 1;
      Conserved(free[h := true][r.i1 := true][r.i2 := true], desc[h := NODESC][r.i1 := NODESC][r.i2 := NODESC],
                own[h := NUM][r.i1 := NUM][r.i2 := NUM], reqs - {h});
      FreeSet(free, h, true);
      FreeSet(free[h := true], r.i1, true);
      FreeSet(free[h := true][r.i1 := true], r.i2, true);
    }
  }

  // ----- runs -----

  /** The steps of driver, device and handler; and the kernel's changing a buffer that is not in flight. */
  datatype Action = Submits(b: nat, write: bool, i0: nat, i1: nat, i2: nat) | Fetches | Completes(h: nat, status: nat)
                  | Handles | Finishes(h: nat) | Changes(b: nat, block: nat, data: Data)

  ghost predicate Step(s: Queue, f: Flight, a: Action, s': Queue, f': Flight) {
    match a
    case Submits(b, write, i0, i1, i2) =>
      CanSubmit(s, f, b, i0, i1, i2) && |f.own| == NUM
      && s' == Submit(Take(s, i0, i1, i2), b, write, i0, i1, i2) && f' == Added(f, b, write, i0, i1, i2)
    case Fetches =>
      s.dev != s.avail && f.posted != [] && f.posted[0] in f.reqs
      && s' == Fetch(s) && f' == At(f, f.posted[0], Taken).(posted := f.posted[1..])
    case Completes(h, status) =>
      h in f.reqs && f.reqs[h].phase == Taken && Followable(s, h)
      && s' == Complete(s, h, status) && f' == At(f, h, Used).(done := f.done + [h])
    case Handles =>
      Pending(s) && s.info[s.used[s.seen % NUM]].status == 0 && f.done != [] && f.done[0] in f.reqs
      && s' == Handle(s) && f' == At(f, f.done[0], Done).(done := f.done[1..])
    case Finishes(h) =>
      Sized(s) && |f.own| == NUM && h in f.reqs && f.reqs[h].phase == Done
      && h < NUM && f.reqs[h].i1 < NUM && f.reqs[h].i2 < NUM
      && s' == Finish(s, h, f.reqs[h].i1, f.reqs[h].i2) && f' == Gone(f, h)
    case Changes(b, block, data) =>
      b in s.bufs && b !in f.of && s' == s.(bufs := s.bufs[b := s.bufs[b].(block := block, data := data)]) && f' == f
  }

  ghost predicate Run(ss: seq<Queue>, fs: seq<Flight>, acts: seq<Action>) {
    && |ss| == |fs| == |acts| + 1
    && forall k :: 0 <= k < |acts| ==> Step(ss[k], fs[k], acts[k], ss[k + 1], fs[k + 1])
  }

  lemma {:induction false} StepInv(s: Queue, f: Flight, a: Action, s': Queue, f': Flight)
    requires Inv(s, f) && Step(s, f, a, s', f')
    ensures Inv(s', f')
  {
    hide Inv, Submit, Complete, Handle, Finish, Added, At, Gone, Fetch;
    match a
    case Submits(b, write, i0, i1, i2) => SubmitInv(s, f, b, write, i0, i1, i2);
    case Fetches => FetchInv(s, f);
    case Completes(h, status) => CompleteInv(s, f, h, status);
    case Handles => HandleInv(s, f);
    case Finishes(h) => FinishInv(s, f, h);
    case Changes(b, block, data) => ChangeInv(s, f, b, block, data);
  }

  // A buffer that is not in flight is nobody's.
  lemma {:induction false} ChangeInv(s: Queue, f: Flight, b: nat, block: nat, data: Data)
    requires Inv(s, f) && b in s.bufs && b !in f.of
    ensures Inv(s.(bufs := s.bufs[b := s.bufs[b].(block := block, data := data)]), f)
  {
    hide Descriptors, Ring, Holds;
    var bufs' := s.bufs[b := s.bufs[b].(block := block, data := data)];
    forall h | h in f.reqs ensures Formatted(s.desc, s.ops, bufs', h, f.reqs[h]) {
      assert Formatted(s.desc, s.ops, s.bufs, h, f.reqs[h]) && f.reqs[h].b in f.of;
    }
  }

  /** Every state of every run from a good one is good. */
  lemma {:induction false} RunInv(ss: seq<Queue>, fs: seq<Flight>, acts: seq<Action>)
    requires Run(ss, fs, acts) && Inv(ss[0], fs[0])
    ensures forall k :: 0 <= k < |ss| ==> Inv(ss[k], fs[k])
  {
    hide Inv, Step;
    var k := 0;
    while k < |acts|
      invariant 0 <= k <= |acts| && forall j :: 0 <= j <= k ==> Inv(ss[j], fs[j])
    {
      StepInv(ss[k], fs[k], acts[k], ss[k + 1], fs[k + 1]);
      k := k + 1;
    }
  }

  // ----- exactly once -----

  predicate Past(p: Phase, q: Phase) { Rank(q) <= Rank(p) }
  function Rank(p: Phase): nat { match p case Posted => 0 case Taken => 1 case Used => 2 case Done => 3 }
  function One(b: bool): (n: nat) { if b then 1 else 0 }

  // Whether action a, in state s, completes request h, or is the handler's consuming h's completion.
  predicate CompletesIt(a: Action, h: nat) { a.Completes? && a.h == h }
  predicate HandlesIt(s: Queue, a: Action, h: nat) { a.Handles? && |s.used| == NUM && s.used[s.seen % NUM] == h }

  function Completions(acts: seq<Action>, h: nat): (n: nat) {
    if acts == [] then 0 else Completions(acts[..|acts| - 1], h) + One(CompletesIt(acts[|acts| - 1], h))
  }

  function Handled(ss: seq<Queue>, acts: seq<Action>, h: nat): (n: nat)
    requires |ss| == |acts| + 1
  {
    if acts == [] then 0
    else Handled(ss[..|acts|], acts[..|acts| - 1], h) + One(HandlesIt(ss[|acts| - 1], acts[|acts| - 1], h))
  }

  lemma {:induction false} StepPhase(s: Queue, f: Flight, a: Action, s': Queue, f': Flight, h: nat)
    requires Inv(s, f) && Step(s, f, a, s', f') && h in f.reqs && h in f'.reqs
    ensures Past(f'.reqs[h].phase, Used) <==> Past(f.reqs[h].phase, Used) || CompletesIt(a, h)
    ensures CompletesIt(a, h) ==> !Past(f.reqs[h].phase, Used)
    ensures Past(f'.reqs[h].phase, Done) <==> Past(f.reqs[h].phase, Done) || HandlesIt(s, a, h)
    ensures HandlesIt(s, a, h) ==> f.reqs[h].phase == Used
    ensures f'.reqs[h].(phase := Posted) == f.reqs[h].(phase := Posted)
  {
    hide Inv, Submit, Complete, Handle, Finish, Fetch;
    Heads(s, f);
    if a.Submits? { NewHead(s, f, a.i0); }
  }

  // The requests at the heads of the two queues.
  lemma {:induction false} Heads(s: Queue, f: Flight)
    requires Inv(s, f)
    ensures f.posted != [] ==> f.posted[0] in f.reqs && f.reqs[f.posted[0]].phase == Posted
    ensures f.done != [] ==> f.done[0] in f.reqs && f.reqs[f.done[0]].phase == Used
    ensures |s.used| == NUM && (f.done != [] ==> s.used[s.seen % NUM] == f.done[0])
  {
    hide Descriptors, Formats, Buffers;
    RingPop(s.used, s.seen, s.usedIdx, f.done);
  }

  lemma {:induction false} NewHead(s: Queue, f: Flight, i: nat)
    requires Inv(s, f) && |s.free| == NUM && i < NUM && s.free[i]
    ensures i !in f.reqs
  {
    NobodyHas(s.free, s.desc, f.own, f.reqs, i);
  }

  /** While a request stays in flight, the device completes it exactly once and the handler consumes
      that completion exactly once, after it: a request posted at the start of a run and done at its
      end has had one of each, one that is still before that has had none. */
  lemma {:induction false} ExactlyOnce(ss: seq<Queue>, fs: seq<Flight>, acts: seq<Action>, h: nat)
    requires Run(ss, fs, acts) && Inv(ss[0], fs[0]) && forall k :: 0 <= k < |fs| ==> h in fs[k].reqs
    ensures Completions(acts, h) + One(Past(fs[0].reqs[h].phase, Used)) == One(Past(fs[|acts|].reqs[h].phase, Used))
    ensures Handled(ss, acts, h) + One(Past(fs[0].reqs[h].phase, Done)) == One(Past(fs[|acts|].reqs[h].phase, Done))
    ensures fs[|acts|].reqs[h].(phase := Posted) == fs[0].reqs[h].(phase := Posted)
    decreases |acts|
  {
    hide Inv, Step;
    if acts != [] {
      var n := |acts| - 1;
      RunInv(ss, fs, acts);
      ExactlyOnce(ss[..n + 1], fs[..n + 1], acts[..n], h);
      StepPhase(ss[n], fs[n], acts[n], ss[n + 1], fs[n + 1], h);
    }
  }
}
