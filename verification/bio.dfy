/**
 bio.c in place: a circular doubly linked list of buffers with a head, searched forwards for a
 cached block and backwards for a buffer to recycle, and reordered when a buffer's last user
 releases it. The list is shown to be in order of last release, so what bget recycles is the
 least recently used of the unused buffers.
 */
module Bio {
  import opened Param

  const HEAD: nat := NBUF

  // The i-th node met when following `next` from the head; the head itself at both ends.
  function At(order: seq<nat>, i: nat): (b: nat)
    requires i <= |order| + 1
  { if i == 0 || i == |order| + 1 then HEAD else order[i - 1] }

  predicate Distinct(order: seq<nat>) {
    && (forall i :: 0 <= i < |order| ==> order[i] < NBUF)
    && (forall i, j :: 0 <= i < j < |order| ==> order[i] != order[j])
  }

  /** Following next from the head visits exactly `order` and returns; prev undoes next. */
  predicate Ring(prev: seq<nat>, next: seq<nat>, order: seq<nat>) {
    && |prev| == |next| == NBUF + 1 && Distinct(order)
    && (forall i: nat :: i <= |order| ==> next[At(order, i)] == At(order, i + 1))
    && (forall i: nat :: i <= |order| ==> prev[At(order, i + 1)] == At(order, i))
  }

  function Without(order: seq<nat>, k: nat): (r: seq<nat>)
    requires k < |order|
  { order[..k] + order[k + 1..] }

  lemma {:induction false} Unlink(prev: seq<nat>, next: seq<nat>, order: seq<nat>, k: nat)
    requires Ring(prev, next, order) && k < |order|
    ensures var b := order[k];
      next[b] <= NBUF && prev[b] <= NBUF
      && Ring(prev[next[b] := prev[b]], next[prev[b] := next[b]], Without(order, k))
  {
    var b := order[k];
    assert next[At(order, k + 1)] == At(order, k + 2);
    assert prev[At(order, k + 1)] == At(order, k);
    var r := Without(order, k);
    var prev', next' := prev[next[b] := prev[b]], next[prev[b] := next[b]];
    forall i: nat | i <= |r| ensures next'[At(r, i)] == At(r, i + 1) && prev'[At(r, i + 1)] == At(r, i) {
      var j := if i <= k then i else i + 1;
      assert At(r, i) == At(order, j);
      assert next[At(order, j)] == At(order, j + 1);
      assert prev[At(order, j + 1)] == At(order, j);
      assert i != k ==> At(r, i + 1) == At(order, j + 1);
    }
  }

  lemma {:induction false} LinkFront(prev: seq<nat>, next: seq<nat>, order: seq<nat>, b: nat)
    requires Ring(prev, next, order) && b < NBUF && b !in order
    ensures next[HEAD] <= NBUF && Ring(prev[b := HEAD][next[HEAD] := b], next[b := next[HEAD]][HEAD := b], [b] + order)
  {
    assert next[At(order, 0)] == At(order, 1);
    var r := [b] + order;
    var prev', next' := prev[b := HEAD][next[HEAD] := b], next[b := next[HEAD]][HEAD := b];
    forall i: nat | i <= |r| ensures next'[At(r, i)] == At(r, i + 1) && prev'[At(r, i + 1)] == At(r, i) {
      if i >= 1 {
        assert At(r, i + 1) == At(order, i);
        assert i >= 2 ==> At(r, i) == At(order, i - 1);
        assert next[At(order, i - 1)] == At(order, i);
        assert prev[At(order, i)] == At(order, i - 1);
      }
    }
  }

  /** Later in the list means released for the last time earlier. */
  predicate ByRecency(order: seq<nat>, stamp: seq<nat>) {
    && |stamp| == NBUF && (forall i :: 0 <= i < |order| ==> order[i] < NBUF)
    && forall i, j :: 0 <= i < j < |order| ==> stamp[order[i]] > stamp[order[j]]
  }

  /** Every buffer is in the list, at its position. */
  predicate Listed(order: seq<nat>, pos: seq<nat>) {
    |order| == |pos| == NBUF && forall b: nat :: b < NBUF ==> pos[b] < NBUF && order[pos[b]] == b
  }

  // Element i of the list after its k-th element went to the front.
  lemma {:induction false} Moved(order: seq<nat>, k: nat, i: nat)
    requires k < |order| && i < |order|
    ensures var r := [order[k]] + Without(order, k);
      |r| == |order| && r[i] == if i == 0 then order[k] else if i <= k then order[i - 1] else order[i]
  {
  }

  function MovedPos(order: seq<nat>, pos: seq<nat>, k: nat): (pos': seq<nat>)
    requires Listed(order, pos) && k < NBUF
  { seq(NBUF, x requires 0 <= x < NBUF => if x == order[k] then 0 else if pos[x] < k then pos[x] + 1 else pos[x]) }

  lemma {:induction false} MoveListed(order: seq<nat>, pos: seq<nat>, k: nat)
    requires Distinct(order) && Listed(order, pos) && k < NBUF
    ensures Listed([order[k]] + Without(order, k), MovedPos(order, pos, k))
  {
    hide Without;
    Moved(order, k, 0);
    var r, pos' := [order[k]] + Without(order, k), MovedPos(order, pos, k);
    forall b: nat | b < NBUF ensures pos'[b] < NBUF && r[pos'[b]] == b {
      assert order[pos[b]] == b;
      Moved(order, k, pos'[b]);
    }
  }

  lemma {:induction false} MoveRecency(order: seq<nat>, stamp: seq<nat>, clock: nat, k: nat)
    requires Distinct(order) && |order| == NBUF && k < NBUF && ByRecency(order, stamp)
    requires forall i :: 0 <= i < NBUF ==> stamp[i] < clock
    ensures ByRecency([order[k]] + Without(order, k), stamp[order[k] := clock])
  {
    hide Without;
    Moved(order, k, 0);
    var r, stamp' := [order[k]] + Without(order, k), stamp[order[k] := clock];
    forall i | 0 <= i < |r| ensures r[i] < NBUF { Moved(order, k, i); }
    forall i, j | 0 <= i < j < |r| ensures stamp'[r[i]] > stamp'[r[j]] {
      Moved(order, k, i);
      Moved(order, k, j);
    }
  }

  lemma {:induction false} EmptyRing(prev: seq<nat>, next: seq<nat>)
    requires |prev| == |next| == NBUF + 1 && prev[HEAD] == HEAD && next[HEAD] == HEAD
    ensures Ring(prev, next, [])
  {
  }

  lemma {:induction false} RingDistinct(prev: seq<nat>, next: seq<nat>, order: seq<nat>)
    requires Ring(prev, next, order)
    ensures Distinct(order)
  {
  }

  lemma {:induction false} WithoutIt(order: seq<nat>, k: nat)
    requires Distinct(order) && k < |order|
    ensures order[k] !in Without(order, k) && |Without(order, k)| == |order| - 1
  {
  }

  // The buffers in the order binit puts them in: when each was "released", and where it stands.
  function Ascending(): (r: seq<nat>) { seq(NBUF, i => i) }
  function Descending(): (r: seq<nat>) { seq(NBUF, i requires 0 <= i < NBUF => NBUF - 1 - i) }

  lemma {:induction false} InitialOrder(order: seq<nat>)
    requires |order| == NBUF && forall i :: 0 <= i < NBUF ==> order[i] == NBUF - 1 - i
    ensures Listed(order, Descending()) && ByRecency(order, Ascending())
    ensures |Ascending()| == NBUF && forall i :: 0 <= i < NBUF ==> Ascending()[i] < NBUF
  {
  }

  class BufferCache {
    var prev: array<nat>
    var next: array<nat>
    var dev: array<nat>
    var blockno: array<nat>
    var refcnt: array<nat>
    var valid: array<bool>
    ghost var order: seq<nat>   // most recently used first
    ghost var stamp: seq<nat>   // when each buffer was last released by its last user
    ghost var clock: nat
    ghost var pos: seq<nat>     // where each buffer stands in `order`

    ghost predicate Shape()
      reads this
    {
      && prev.Length == next.Length == NBUF + 1
      && dev.Length == blockno.Length == refcnt.Length == valid.Length == NBUF
      && prev != next && dev != blockno && dev != refcnt && blockno != refcnt
      && prev != dev && prev != blockno && prev != refcnt && next != dev && next != blockno && next != refcnt
    }

    ghost predicate Valid()
      reads this, prev, next, dev, blockno
    {
      && Shape()
      && Ring(prev[..], next[..], order) && |order| == NBUF
      && Listed(order, pos) && ByRecency(order, stamp) && (forall i :: 0 <= i < NBUF ==> stamp[i] < clock)
      && (forall i, j :: 0 <= i < j < NBUF && dev[i] != 0 && dev[i] == dev[j] ==> blockno[i] != blockno[j])
    }

    /** binit */
    constructor ()
      ensures Valid()
      ensures forall i :: 0 <= i < NBUF ==> refcnt[i] == 0 && dev[i] == 0 && blockno[i] == 0 && !valid[i]
    {
      prev := new nat[NBUF + 1](_ => HEAD);
      next := new nat[NBUF + 1](_ => HEAD);
      dev := new nat[NBUF](_ => 0);
      blockno := new nat[NBUF](_ => 0);
      refcnt := new nat[NBUF](_ => 0);
      valid := new bool[NBUF](_ => false);
      order, stamp, clock, pos := [], Ascending(), NBUF, Descending();
      new;
      hide Ring, Listed, ByRecency, Ascending, Descending;
      Build();
      InitialOrder(order);
    }

    // binit's loop
    method Build()
      requires Shape() && prev[HEAD] == HEAD && next[HEAD] == HEAD && order == []
      modifies this`order, prev, next
      ensures Shape() && Ring(prev[..], next[..], order) && |order| == NBUF
      ensures forall i :: 0 <= i < NBUF ==> order[i] == NBUF - 1 - i
    {
      hide Ring;
      EmptyRing(prev[..], next[..]);
      var b := 0;
      while b < NBUF
        invariant 0 <= b <= NBUF && Shape()
        invariant Ring(prev[..], next[..], order) && |order| == b && forall i :: 0 <= i < b ==> order[i] == b - 1 - i
      {
        Front(b);
        b := b + 1;
      }
    }

    // b->next = head.next; b->prev = &head; head.next->prev = b; head.next = b
    method Front(b: nat)
      requires Shape() && Ring(prev[..], next[..], order) && b < NBUF && b !in order
      modifies this`order, prev, next
      ensures Ring(prev[..], next[..], order) && order == [b] + old(order)
    {
      LinkFront(prev[..], next[..], order, b);
      next[b] := next[HEAD];
      prev[b] := HEAD;
      prev[next[HEAD]] := b;
      next[HEAD] := b;
      order := [b] + order;
      assert prev[..] == old(prev[..])[b := HEAD][old(next[HEAD]) := b];
      assert next[..] == old(next[..])[b := old(next[HEAD])][HEAD := b];
    }

    ghost predicate Caching(d: nat, bn: nat)
      requires Shape()
      reads this, dev, blockno
    {
      exists i :: 0 <= i < NBUF && dev[i] == d && blockno[i] == bn
    }

    // Is the block already cached?
    method FindCached(d: nat, bn: nat) returns (b: nat)
      requires Valid()
      ensures b <= NBUF && (b == HEAD <==> !Caching(d, bn)) && (b != HEAD ==> dev[b] == d && blockno[b] == bn)
    {
      ghost var i: nat := 1;
      b := next[HEAD];
      assert next[..][At(order, 0)] == At(order, 1);
      while b != HEAD && !(dev[b] == d && blockno[b] == bn)
        invariant 1 <= i <= NBUF + 1 && b == At(order, i)
        invariant forall k :: 0 <= k < i - 1 ==> !(dev[order[k]] == d && blockno[order[k]] == bn)
        decreases NBUF + 1 - i
      {
        assert next[..][At(order, i)] == At(order, i + 1);
        b, i := next[b], i + 1;
      }
      forall x | 0 <= x < NBUF && dev[x] == d && blockno[x] == bn ensures b != HEAD {
        assert order[pos[x]] == x;
      }
    }

    // The least recently used buffer that nobody refers to.
    method FindUnused() returns (b: nat)
      requires Valid()
      ensures b <= NBUF && (b == HEAD <==> forall j :: 0 <= j < NBUF ==> refcnt[j] != 0)
      ensures b != HEAD ==> refcnt[b] == 0 && forall j :: 0 <= j < NBUF && refcnt[j] == 0 ==> stamp[b] <= stamp[j]
    {
      ghost var i: nat := NBUF;
      b := prev[HEAD];
      assert prev[..][At(order, NBUF + 1)] == At(order, NBUF);
      while b != HEAD && refcnt[b] != 0
        invariant 0 <= i <= NBUF && b == At(order, i)
        invariant forall k :: i <= k < NBUF ==> refcnt[order[k]] != 0
        decreases i
      {
        assert prev[..][At(order, i)] == At(order, i - 1);
        b, i := prev[b], i - 1;
      }
      forall j | 0 <= j < NBUF && refcnt[j] == 0 ensures b != HEAD && stamp[b] <= stamp[j] {
        assert order[pos[j]] == j;
      }
    }

    /** bget: a cached block is found; otherwise the least recently used buffer nobody refers to
        is given to the block; false where the kernel panics because there is none. */
    method Bget(d: nat, bn: nat) returns (ok: bool, b: nat)
      requires Valid()
      modifies dev, blockno, valid, refcnt
      ensures Valid()
      ensures !ok ==> refcnt[..] == old(refcnt[..]) && dev[..] == old(dev[..]) && blockno[..] == old(blockno[..])
                      && valid[..] == old(valid[..])
      ensures ok ==> b < NBUF && dev[..] == old(dev[..])[b := d] && blockno[..] == old(blockno[..])[b := bn]
                     && refcnt[..] == old(refcnt[..])[b := old(refcnt[b]) + 1]
      ensures old(Caching(d, bn)) ==> ok && old(dev[b]) == d && old(blockno[b]) == bn && valid[..] == old(valid[..])
      ensures !old(Caching(d, bn)) ==> (ok <==> exists j :: 0 <= j < NBUF && old(refcnt[j]) == 0)
      ensures !old(Caching(d, bn)) && ok ==>
                && old(refcnt[b]) == 0 && valid[..] == old(valid[..])[b := false]
                && forall j :: 0 <= j < NBUF && old(refcnt[j]) == 0 ==> stamp[b] <= stamp[j]
    {
      b := FindCached(d, bn);
      if b != HEAD {
        refcnt[b] := refcnt[b] + 1;
        return true, b;
      }
      b := FindUnused();
      if b == HEAD { return false, 0; }
      dev[b] := d;
      blockno[b] := bn;
      valid[b] := false;
      refcnt[b] := 1;
      ok := true;
    }

    /** brelse: drop a reference; the last one moves the buffer to the front of the list, leaving
        the others in their order. */
    method Brelse(b: nat)
      requires Valid() && b < NBUF && refcnt[b] > 0
      modifies this`order, this`stamp, this`clock, this`pos, prev, next, refcnt
      ensures Valid() && refcnt[..] == old(refcnt[..])[b := old(refcnt[b]) - 1]
      ensures refcnt[b] > 0 ==> order == old(order) && stamp == old(stamp)
      ensures refcnt[b] == 0 ==> order == [b] + Without(old(order), old(pos[b]))
                                 && stamp == old(stamp)[b := old(clock)] && clock == old(clock) + 1
    {
      RingDistinct(prev[..], next[..], order);
      WithoutIt(order, pos[b]);
      hide Ring, Without, ByRecency, Distinct, MovedPos;
      refcnt[b] := refcnt[b] - 1;
      if refcnt[b] == 0 {
        ghost var k := pos[b];
        Remove(b);
        Front(b);
        MoveListed(old(order), pos, k);
        MoveRecency(old(order), stamp, clock, k);
        pos := MovedPos(old(order), pos, k);
        stamp, clock := stamp[b := clock], clock + 1;
      }
    }

    /** bpin: a reference without a user, so that bget does not recycle the buffer. */
    method Bpin(b: nat)
      requires Valid() && b < NBUF
      modifies refcnt
      ensures Valid() && refcnt[..] == old(refcnt[..])[b := old(refcnt[b]) + 1]
    {
      refcnt[b] := refcnt[b] + 1;
    }

    /** bunpin drops it, and unlike brelse leaves the list alone: the buffer keeps its place in the
        order of release even when this was the last reference. */
    method Bunpin(b: nat)
      requires Valid() && b < NBUF && refcnt[b] > 0
      modifies refcnt
      ensures Valid() && refcnt[..] == old(refcnt[..])[b := old(refcnt[b]) - 1]
    {
      refcnt[b] := refcnt[b] - 1;
    }

    // b->next->prev = b->prev; b->prev->next = b->next
    method Remove(b: nat)
      requires Shape() && b < NBUF && Listed(order, pos) && Ring(prev[..], next[..], order)
      modifies this`order, prev, next
      ensures Ring(prev[..], next[..], order) && order == Without(old(order), pos[b])
    {
      Unlink(prev[..], next[..], order, pos[b]);
      prev[next[b]] := prev[b];
      next[prev[b]] := next[b];
      order := Without(order, pos[b]);
      assert prev[..] == old(prev[..])[old(next[b]) := old(prev[b])];
      assert next[..] == old(next[..])[old(prev[b]) := old(next[b])];
    }
  }
}
