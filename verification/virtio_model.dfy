/**
 The virtio block queue: driver, device and interrupt steps over the descriptor table and the two
 rings (sections 2.6 and 5.2 of VIRTIO 1.1).
 */
module VirtioModel {
  const NUM: nat := 8
  const IDX: nat := 0x1_0000    // ring indices are 16 bits
  const UINT: nat := 0x1_0000_0000
  const NEXT: nat := 1          // descriptor flags
  const WRITE: nat := 2
  const IN: nat := 0            // request types
  const OUT: nat := 1
  const BSIZE: nat := 1024

  type Data = seq<nat>
  datatype Addr = Zero | Header(i: nat) | Buffer(b: nat) | Status(i: nat)
  datatype Desc = Desc(addr: Addr, len: nat, flags: nat, next: nat)
  datatype Op = Op(typ: nat, sector: nat)
  datatype Info = Info(b: nat, status: nat)
  datatype Buf = Buf(block: nat, data: Data, disk: bool)

  const NODESC: Desc := Desc(Zero, 0, 0, 0)

  // uint64 sector = b->blockno * (BSIZE / 512), the product in 32 bits
  function Sector(block: nat): (s: nat) { block * 2 % UINT }

  /** Two blocks share a sector exactly if their numbers differ by a multiple of 2^31. */
  lemma {:induction false} SectorSame(b: nat, c: nat)
    ensures Sector(b) == Sector(c) <==> b % (UINT / 2) == c % (UINT / 2)
  {
    SectorIs(b);
    SectorIs(c);
  }

  lemma {:induction false} SectorIs(b: nat)
    ensures Sector(b) == 2 * (b % (UINT / 2))
  {
    var q, r := b / (UINT / 2), b % (UINT / 2);
    assert b * 2 == q * UINT + 2 * r;
  }

  /** Shared memory, the driver's and the device's own state. Buffer 0 is none. */
  datatype Queue = Queue(
    free: seq<bool>, desc: seq<Desc>, ops: seq<Op>, info: seq<Info>,
    ring: seq<nat>, avail: nat,          // available ring and its index
    used: seq<nat>, usedIdx: nat,        // used ring and the device's index
    seen: nat,                           // the driver's used_idx
    dev: nat,                            // the device's position in the available ring
    bufs: map<nat, Buf>, disk: map<nat, Data>)

  // ----- what is in flight -----

  /** Where a request is: in the available ring, taken by the device, in the used ring, or seen by the
      interrupt handler. */
  datatype Phase = Posted | Taken | Used | Done

  datatype Req = Req(b: nat, write: bool, i1: nat, i2: nat, phase: Phase)

  /** The requests by first descriptor, which request each descriptor and each buffer belongs to, and
      the two queues. */
  datatype Flight = Flight(reqs: map<nat, Req>, own: seq<nat>, of: map<nat, nat>, posted: seq<nat>, done: seq<nat>)

  predicate Chain(own: seq<nat>, h: nat, r: Req)
    requires |own| == NUM
  {
    && h < NUM && r.i1 < NUM && r.i2 < NUM && h != r.i1 && h != r.i2 && r.i1 != r.i2
    && own[h] == own[r.i1] == own[r.i2] == h
  }

  /** Every request has three descriptors, no two share one, and the rest are free (and cleared). */
  ghost predicate Descriptors(free: seq<bool>, desc: seq<Desc>, own: seq<nat>, reqs: map<nat, Req>) {
    && |free| == |desc| == |own| == NUM
    && (forall h :: h in reqs ==> Chain(own, h, reqs[h]))
    && (forall d :: 0 <= d < NUM ==> (free[d] <==> own[d] == NUM))
    && (forall d :: 0 <= d < NUM && !free[d] ==>
          own[d] in reqs && (d == own[d] || d == reqs[own[d]].i1 || d == reqs[own[d]].i2))
    && (forall d :: 0 <= d < NUM && free[d] ==> desc[d] == NODESC)
  }

  // The three descriptors and the header of a request, as the device is to read them.
  predicate Formatted(desc: seq<Desc>, ops: seq<Op>, bufs: map<nat, Buf>, h: nat, r: Req)
    requires |desc| == |ops| == NUM && h < NUM && r.i1 < NUM && r.i2 < NUM && r.b in bufs
  {
    && ops[h] == Op(if r.write then OUT else IN, Sector(bufs[r.b].block))
    && desc[h] == Desc(Header(h), 16, NEXT, r.i1)
    && desc[r.i1] == Desc(Buffer(r.b), BSIZE, (if r.write then 0 else WRITE) + NEXT, r.i2)
    && desc[r.i2] == Desc(Status(h), 1, WRITE, 0)
  }

  ghost predicate Formats(desc: seq<Desc>, ops: seq<Op>, bufs: map<nat, Buf>, reqs: map<nat, Req>) {
    && |desc| == |ops| == NUM
    && forall h :: h in reqs ==>
         h < NUM && reqs[h].i1 < NUM && reqs[h].i2 < NUM && reqs[h].b in bufs && Formatted(desc, ops, bufs, h, reqs[h])
  }

  /** A buffer is marked as with the disk exactly while a request for it is not done; no two requests
      are for the same buffer. */
  ghost predicate Buffers(info: seq<Info>, bufs: map<nat, Buf>, reqs: map<nat, Req>, of: map<nat, nat>) {
    && |info| == NUM
    && (forall h :: h in reqs ==>
          h < NUM && reqs[h].b != 0 && info[h].b == reqs[h].b && reqs[h].b in of && of[reqs[h].b] == h)
    && (forall b :: b in of ==> of[b] in reqs && reqs[of[b]].b == b)
    && (forall b :: b in bufs ==> (bufs[b].disk <==> b in of && reqs[of[b]].phase != Done))
  }

  ghost predicate Distinct(q: seq<nat>) {
    (forall k :: 0 <= k < |q| ==> q[k] < NUM) && forall k, l :: 0 <= k < l < |q| ==> q[k] != q[l]
  }

  /** The ring holds the queue q from index lo on, up to but not including index hi. */
  ghost predicate Ring(ring: seq<nat>, lo: nat, hi: nat, q: seq<nat>) {
    && |ring| == NUM && lo < IDX && hi == (lo + |q|) % IDX && Distinct(q)
    && forall k :: 0 <= k < |q| ==> ring[(lo + k) % NUM] == q[k]
  }

  // The queue holds the requests in that phase, and no others.
  ghost predicate Holds(q: seq<nat>, reqs: map<nat, Req>, p: Phase) {
    && (forall k :: 0 <= k < |q| ==> q[k] in reqs && reqs[q[k]].phase == p)
    && (forall h :: h in reqs && reqs[h].phase == p ==> h in q)
  }

  ghost predicate Inv(s: Queue, f: Flight) {
    && Descriptors(s.free, s.desc, f.own, f.reqs) && Formats(s.desc, s.ops, s.bufs, f.reqs)
    && Buffers(s.info, s.bufs, f.reqs, f.of)
    && Ring(s.ring, s.dev, s.avail, f.posted) && Holds(f.posted, f.reqs, Posted)
    && Ring(s.used, s.seen, s.usedIdx, f.done) && Holds(f.done, f.reqs, Used)
  }

  // ----- queues in rings -----

  lemma {:induction false} PigeonHole(q: seq<nat>, n: nat)
    requires forall k :: 0 <= k < |q| ==> q[k] < n
    requires forall k, l :: 0 <= k < l < |q| ==> q[k] != q[l]
    ensures |q| <= n
  {
    if q != [] {
      assert q[0] < n;
      if n - 1 in q {
        var i :| 0 <= i < |q| && q[i] == n - 1;
        var q' := q[..i] + q[i + 1..];
        assert forall k :: 0 <= k < |q'| ==> q'[k] == if k < i then q[k] else q[k + 1];
        PigeonHole(q', n - 1);
      } else {
        PigeonHole(q, n - 1);
      }
    }
  }

  /** A new entry goes in behind the others, and the 16-bit index moves on, past the wrap too. */
  lemma {:induction false} RingPush(ring: seq<nat>, lo: nat, hi: nat, q: seq<nat>, h: nat)
    requires Ring(ring, lo, hi, q) && Distinct(q + [h])
    ensures Ring(ring[hi % NUM := h], lo, (hi + 1) % IDX, q + [h])
  {
    PigeonHole(q + [h], NUM);
    var n := |q|;
    assert hi % NUM == (lo + n) % NUM;
    forall k | 0 <= k < n ensures (lo + k) % NUM != (lo + n) % NUM && (q + [h])[k] == q[k] { Apart(lo, k, n); }
    assert (hi + 1) % IDX == (lo + (n + 1)) % IDX;
  }

  lemma {:induction false} Apart(lo: nat, k: nat, n: nat)
    requires k < n < NUM
    ensures (lo + k) % NUM != (lo + n) % NUM
  {
  }

  /** The oldest entry comes out; the indices are equal exactly when there is none. */
  lemma {:induction false} RingPop(ring: seq<nat>, lo: nat, hi: nat, q: seq<nat>)
    requires Ring(ring, lo, hi, q)
    ensures lo == hi <==> q == []
    ensures q != [] ==> ring[lo % NUM] == q[0] && Ring(ring, (lo + 1) % IDX, hi, q[1..])
  {
    PigeonHole(q, NUM);
    if q != [] {
      assert ring[(lo + 0) % NUM] == q[0];
      forall k | 0 <= k < |q| - 1 ensures ring[((lo + 1) % IDX + k) % NUM] == q[1..][k] {
        assert ((lo + 1) % IDX + k) % NUM == (lo + (k + 1)) % NUM;
        assert ring[(lo + (k + 1)) % NUM] == q[k + 1];
      }
    }
  }
}
