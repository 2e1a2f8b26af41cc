/**
 Pipes: a 512-byte ring with 32-bit counters refines a queue of bytes, for every interleaving of
 readers and writers; who sleeps, and who is left asleep.
 */
module Pipe {
  const PIPESIZE: nat := 512
  const UINT: nat := 0x1_0000_0000

  type Byte = x: int | 0 <= x < 256

  /** All bytes ever accepted from writers and delivered to readers, in order; which ends are open; the
      processes asleep until there is something to read, or room to write. */
  datatype Queue = Queue(accepted: seq<Byte>, delivered: seq<Byte>, readOpen: bool, writeOpen: bool, readers: set<nat>,
                         writers: set<nat>)

  predicate Good(q: Queue) { q.delivered <= q.accepted && |q.accepted| <= |q.delivered| + PIPESIZE }

  predicate Empty(q: Queue) { |q.accepted| == |q.delivered| }
  predicate Full(q: Queue) { |q.accepted| == |q.delivered| + PIPESIZE }

  // ----- one hold of the lock -----

  /** How a call leaves the lock: it returns a number of bytes, it fails, or it sleeps. */
  datatype End = Returns | Fails | Sleeps

  datatype Out = Out(q: Queue, i: nat, end: End)

  /** pipewrite from byte i on, until it returns or sleeps: `killed` and `copyOk` say what it finds at
      each byte. */
  function Write(q: Queue, src: seq<Byte>, i: nat, killed: nat -> bool, copyOk: nat -> bool, me: nat): (o: Out)
    requires i <= |src|
    decreases |src| - i
  {
    if i == |src| then Out(q.(readers := {}), i, Returns)
    else if !q.readOpen || killed(i) then Out(q, i, Fails)
    else if Full(q) then Out(q.(readers := {}, writers := q.writers + {me}), i, Sleeps)
    else if !copyOk(i) then Out(q.(readers := {}), i, Returns)
    else Write(q.(accepted := q.accepted + [src[i]]), src, i + 1, killed, copyOk, me)
  }

  function Take(q: Queue, n: nat): (q': Queue)
    requires Good(q) && |q.delivered| + n <= |q.accepted|
  { q.(delivered := q.accepted[..|q.delivered| + n]) }

  // How many bytes piperead copies: up to n, as many as there are, and no further than a copy that
  // faults.
  function Copies(q: Queue, n: nat, copyOk: nat -> bool, i: nat): (k: nat)
    requires Good(q) && i <= n && |q.delivered| + i <= |q.accepted|
    ensures i <= k <= n && |q.delivered| + k <= |q.accepted| && forall j :: i <= j < k ==> copyOk(j)
    ensures k < n ==> |q.delivered| + k == |q.accepted| || !copyOk(k)
    decreases n - i
  { if i == n || |q.delivered| + i == |q.accepted| || !copyOk(i) then i else Copies(q, n, copyOk, i + 1) }

  datatype ReadOut = ReadOut(q: Queue, dst: seq<Byte>, r: int, end: End)

  /** piperead: what it copies out, and what it returns. */
  function Read(q: Queue, n: nat, killed: bool, copyOk: nat -> bool, me: nat): (o: ReadOut)
    requires Good(q)
  {
    if Empty(q) && q.writeOpen then
      if killed then ReadOut(q, [], -1, Fails) else ReadOut(q.(readers := q.readers + {me}), [], 0, Sleeps)
    else
      var k := Copies(q, n, copyOk, 0);
      var q' := Take(q, k);
      ReadOut(q'.(writers := {}), q.accepted[|q.delivered|..|q.delivered| + k],
              if k == 0 && n > 0 && !Empty(q) then -1 else k, Returns)
  }

  function Close(q: Queue, writable: bool): (q': Queue) {
    if writable then q.(writeOpen := false, readers := {}) else q.(readOpen := false, writers := {})
  }

  // ----- what the calls do to the bytes -----

  /** A writer's bytes are accepted in order, from byte i on, and nothing else is. */
  lemma {:induction false} WriteAppends(q: Queue, src: seq<Byte>, i: nat, killed: nat -> bool, copyOk: nat -> bool,
                                        me: nat)
    requires Good(q) && i <= |src|
    ensures var o := Write(q, src, i, killed, copyOk, me);
      && i <= o.i <= |src| && Good(o.q) && o.q.accepted == q.accepted + src[i..o.i] && o.q.delivered == q.delivered
      && o.q.readOpen == q.readOpen && o.q.writeOpen == q.writeOpen
      && (o.end == Sleeps ==> Full(o.q) && o.i < |src| && o.q.writers == q.writers + {me})
      && (o.end != Sleeps ==> o.q.writers == q.writers)
      && o.q.readers == (if o.end == Fails then q.readers else {})
      && (forall k :: i <= k < o.i ==> q.readOpen && !killed(k) && copyOk(k))
      && (o.i == |src| ==> o.end == Returns)
      && (o.i < |src| ==> (o.end == Fails <==> !q.readOpen || killed(o.i)))
      && (o.i < |src| && o.end == Returns ==> !Full(o.q) && !copyOk(o.i))
    decreases |src| - i
  {
    if i < |src| && q.readOpen && !killed(i) && !Full(q) && copyOk(i) {
      var q' := q.(accepted := q.accepted + [src[i]]);
      WriteAppends(q', src, i + 1, killed, copyOk, me);
      var o := Write(q', src, i + 1, killed, copyOk, me);
      assert src[i..o.i] == [src[i]] + src[i + 1..o.i];
    }
  }

  lemma {:induction false} CopiesNext(q: Queue, n: nat, copyOk: nat -> bool, i: nat)
    requires Good(q) && i <= n && |q.delivered| + i <= |q.accepted|
    ensures Copies(q, n, copyOk, i) ==
            if i == n || |q.delivered| + i == |q.accepted| || !copyOk(i) then i else Copies(q, n, copyOk, i + 1)
  {
  }

  /** A read delivers the next bytes in order, as many as are asked for and there, up to a copy that faults.
      It sleeps, or fails if killed, exactly when the pipe is empty and its write end open. Otherwise one for
      at least a byte returns 0 exactly when the pipe is empty, and -1 exactly when its first copy faults. */
  lemma {:induction false} ReadDelivers(q: Queue, n: nat, killed: bool, copyOk: nat -> bool, me: nat)
    requires Good(q)
    ensures var o := Read(q, n, killed, copyOk, me);
      && Good(o.q) && o.q.accepted == q.accepted && o.q.delivered == q.delivered + o.dst
      && o.q.readOpen == q.readOpen && o.q.writeOpen == q.writeOpen
      && (o.end == Fails <==> Empty(q) && q.writeOpen && killed) && (o.end == Fails ==> o.r == -1 && o.q == q)
      && (o.end == Sleeps <==> Empty(q) && q.writeOpen && !killed)
      && o.q.readers == (if o.end == Sleeps then q.readers + {me} else q.readers)
      && o.q.writers == (if o.end == Returns then {} else q.writers)
      && (o.end == Returns && n > 0 ==> (o.r == 0 <==> Empty(q) && !q.writeOpen))
      && (o.end == Returns ==> o.r == if n > 0 && !Empty(q) && !copyOk(0) then -1 else |o.dst|)
      && |o.dst| <= n && (o.end != Returns ==> o.dst == []) && (forall k :: 0 <= k < |o.dst| ==> copyOk(k))
      && (o.end == Returns && |o.dst| < n ==> Empty(o.q) || !copyOk(|o.dst|))
  {
    if !(Empty(q) && q.writeOpen) {
      var k := Copies(q, n, copyOk, 0);
      assert q.accepted[..|q.delivered| + k] ==
          q.accepted[..|q.delivered|] + q.accepted[|q.delivered|..|q.delivered| + k];
      assert q.accepted[..|q.delivered|] == q.delivered;
    }
  }

  // ----- who is left asleep -----

  /** Writers sleep only while the pipe is full and there is a reader; readers only while it is empty
      and there is a writer. */
  predicate WritersRight(q: Queue) { q.writers != {} ==> Full(q) && q.readOpen }
  predicate ReadersRight(q: Queue) { q.readers != {} ==> Empty(q) && q.writeOpen }

  lemma {:induction false} WriteWriters(q: Queue, src: seq<Byte>, i: nat, killed: nat -> bool, copyOk: nat -> bool,
                                        me: nat)
    requires Good(q) && i <= |src| && WritersRight(q)
    ensures WritersRight(Write(q, src, i, killed, copyOk, me).q)
  {
    WriteAppends(q, src, i, killed, copyOk, me);
    if Full(q) { WriteFull(q, src, i, killed, copyOk, me); } else { WriteOpen(q, src, i, killed, copyOk, me); }
  }

  lemma {:induction false} WriteFull(q: Queue, src: seq<Byte>, i: nat, killed: nat -> bool, copyOk: nat -> bool,
                                     me: nat)
    requires Full(q) && i <= |src|
    ensures var o := Write(q, src, i, killed, copyOk, me); o.i == i && (o.end == Sleeps ==> q.readOpen)
  {
  }

  lemma {:induction false} WriteOpen(q: Queue, src: seq<Byte>, i: nat, killed: nat -> bool, copyOk: nat -> bool,
                                     me: nat)
    requires i <= |src|
    ensures Write(q, src, i, killed, copyOk, me).end == Sleeps ==> q.readOpen
    decreases |src| - i
  {
    if i < |src| && q.readOpen && !killed(i) && !Full(q) && copyOk(i) {
      WriteOpen(q.(accepted := q.accepted + [src[i]]), src, i + 1, killed, copyOk, me);
    }
  }

  lemma {:induction false} ReadSleepers(q: Queue, n: nat, killed: bool, copyOk: nat -> bool, me: nat)
    requires Good(q) && WritersRight(q) && ReadersRight(q)
    ensures WritersRight(Read(q, n, killed, copyOk, me).q) && ReadersRight(Read(q, n, killed, copyOk, me).q)
  {
    ReadDelivers(q, n, killed, copyOk, me);
  }

  lemma {:induction false} CloseSleepers(q: Queue, writable: bool)
    requires WritersRight(q) && ReadersRight(q)
    ensures WritersRight(Close(q, writable)) && ReadersRight(Close(q, writable))
  {
  }

  /** pipewrite leaves a reader asleep beside bytes it could read exactly when readers were asleep and it
      fails after it has put bytes in: it returns -1 without waking anyone. */
  lemma {:induction false} WriteReaders(q: Queue, src: seq<Byte>, i: nat, killed: nat -> bool, copyOk: nat -> bool,
                                        me: nat)
    requires Good(q) && i <= |src| && ReadersRight(q)
    ensures var o := Write(q, src, i, killed, copyOk, me);
      ReadersRight(o.q) <==> !(q.readers != {} && o.end == Fails && o.i > i)
  {
    WriteAppends(q, src, i, killed, copyOk, me);
  }

  /** The writer finds itself killed at byte j, having put in all bytes from i to there. */
  ghost predicate KilledAt(q: Queue, src: seq<Byte>, i: nat, killed: nat -> bool, copyOk: nat -> bool, j: nat) {
    && i < j < |src| && q.readOpen && |q.accepted| + (j - i) <= |q.delivered| + PIPESIZE
    && killed(j) && forall k :: i <= k < j ==> !killed(k) && copyOk(k)
  }

  lemma {:induction false} FailsAt(q: Queue, src: seq<Byte>, i: nat, killed: nat -> bool, copyOk: nat -> bool, me: nat,
                                   j: nat)
    requires i <= j < |src| && q.readOpen && |q.accepted| + (j - i) <= |q.delivered| + PIPESIZE
    requires killed(j) && forall k :: i <= k < j ==> !killed(k) && copyOk(k)
    ensures Write(q, src, i, killed, copyOk, me).end == Fails && Write(q, src, i, killed, copyOk, me).i == j
    decreases j - i
  {
    if i < j { FailsAt(q.(accepted := q.accepted + [src[i]]), src, i + 1, killed, copyOk, me, j); }
  }

  lemma {:induction false} FailedAt(q: Queue, src: seq<Byte>, i: nat, killed: nat -> bool, copyOk: nat -> bool, me: nat)
    requires Good(q) && i <= |src|
    ensures var o := Write(q, src, i, killed, copyOk, me);
      o.end == Fails && o.i > i ==> KilledAt(q, src, i, killed, copyOk, o.i)
    decreases |src| - i
  {
    if i < |src| && q.readOpen && !killed(i) && !Full(q) && copyOk(i) {
      var q' := q.(accepted := q.accepted + [src[i]]);
      FailedAt(q', src, i + 1, killed, copyOk, me);
      WriteAppends(q', src, i + 1, killed, copyOk, me);
    }
  }

  /** In terms of what the writer finds: it leaves a reader asleep beside bytes exactly when readers were
      asleep and it is killed after its first byte, before anything else stops it. */
  lemma {:induction false} LeavesAsleep(q: Queue, src: seq<Byte>, i: nat, killed: nat -> bool, copyOk: nat -> bool,
                                        me: nat)
    requires Good(q) && i <= |src| && ReadersRight(q)
    ensures !ReadersRight(Write(q, src, i, killed, copyOk, me).q) <==>
              q.readers != {} && exists j: nat :: KilledAt(q, src, i, killed, copyOk, j)
  {
    WriteReaders(q, src, i, killed, copyOk, me);
    FailedAt(q, src, i, killed, copyOk, me);
    if j: nat :| KilledAt(q, src, i, killed, copyOk, j) { FailsAt(q, src, i, killed, copyOk, me, j); }
  }

  /** For example: process 1 sleeps on an empty pipe; process 2 writes two bytes and is killed after
      the first. */
  lemma {:induction false} ReaderLeftAsleep()
    ensures var q := Queue([], [], true, true, {1}, {}); var o := Write(q, [7, 8], 0, k => k == 1, _ => true, 2);
      Good(q) && ReadersRight(q) && o.end == Fails && o.q.readers == {1} && o.q.accepted == [7] && !ReadersRight(o.q)
  {
    var q := Queue([], [], true, true, {1}, {});
    FailsAt(q, [7, 8], 0, k => k == 1, _ => true, 2, 1);
    WriteAppends(q, [7, 8], 0, k => k == 1, _ => true, 2);
  }

  // ----- every interleaving -----

  /** One hold of the pipe's lock by some process, or a process woken by a kill. */
  datatype Act =
    | Writes(src: seq<Byte>, i: nat, killed: nat -> bool, copyOk: nat -> bool, me: nat)
    | Reads(n: nat, dead: bool, copyOk: nat -> bool, me: nat)
    | Closes(writable: bool)
    | Killed(p: nat)

  predicate Can(q: Queue, a: Act) { Good(q) && (a.Writes? ==> a.i <= |a.src|) }

  function Do(q: Queue, a: Act): (q': Queue)
    requires Can(q, a)
  {
    match a
    case Writes(src, i, killed, copyOk, me) => Write(q, src, i, killed, copyOk, me).q
    case Reads(n, dead, copyOk, me) => Read(q, n, dead, copyOk, me).q
    case Closes(writable) => Close(q, writable)
    case Killed(p) => q.(readers := q.readers - {p}, writers := q.writers - {p})
  }

  ghost predicate Run(qs: seq<Queue>, acts: seq<Act>) {
    |qs| == |acts| + 1 && forall k :: 0 <= k < |acts| ==> Can(qs[k], acts[k]) && qs[k + 1] == Do(qs[k], acts[k])
  }

  lemma {:induction false} DoGood(q: Queue, a: Act)
    requires Can(q, a) && WritersRight(q)
    ensures Good(Do(q, a)) && WritersRight(Do(q, a)) && q.accepted <= Do(q, a).accepted
    ensures q.delivered <= Do(q, a).delivered
  {
    match a
    case Writes(src, i, killed, copyOk, me) =>
      WriteAppends(q, src, i, killed, copyOk, me);
      WriteWriters(q, src, i, killed, copyOk, me);
    case Reads(n, dead, copyOk, me) => ReadDelivers(q, n, dead, copyOk, me);
    case Closes(_) =>
    case Killed(_) =>
  }

  /** Over every interleaving: what has been delivered is a prefix of what has been accepted, both only
      grow, no more than PIPESIZE bytes wait, and no writer sleeps beside room it could use. */
  lemma {:induction false} RunGood(qs: seq<Queue>, acts: seq<Act>)
    requires Run(qs, acts) && Good(qs[0]) && WritersRight(qs[0])
    ensures forall k :: 0 <= k < |qs| ==>
              && Good(qs[k]) && WritersRight(qs[k])
              && qs[0].accepted <= qs[k].accepted && qs[0].delivered <= qs[k].delivered
  {
    hide Do, Good, WritersRight;
    var k := 0;
    while k < |acts|
      invariant 0 <= k <= |acts|
      invariant forall j :: 0 <= j <= k ==>
                && Good(qs[j]) && WritersRight(qs[j])
                && qs[0].accepted <= qs[j].accepted && qs[0].delivered <= qs[j].delivered
    {
      DoGood(qs[k], acts[k]);
      k := k + 1;
    }
  }

  /** The step leaves a reader asleep: readers are, and a writer is killed after its first byte. */
  ghost predicate Strands(q: Queue, a: Act) {
    a.Writes? && q.readers != {} && exists j: nat :: KilledAt(q, a.src, a.i, a.killed, a.copyOk, j)
  }

  lemma {:induction false} DoReaders(q: Queue, a: Act)
    requires Can(q, a) && WritersRight(q) && ReadersRight(q)
    ensures ReadersRight(Do(q, a)) <==> !Strands(q, a)
  {
    hide KilledAt, Write, Read;
    match a
    case Writes(src, i, killed, copyOk, me) => LeavesAsleep(q, src, i, killed, copyOk, me);
    case Reads(n, dead, copyOk, me) => ReadSleepers(q, n, dead, copyOk, me);
    case Closes(writable) => CloseSleepers(q, writable);
    case Killed(_) =>
  }

  /** Over every interleaving: no reader sleeps beside bytes it could read, or when no more can come,
      exactly if no step of it strands one. */
  lemma {:induction false} RunReaders(qs: seq<Queue>, acts: seq<Act>)
    requires Run(qs, acts) && Good(qs[0]) && WritersRight(qs[0]) && ReadersRight(qs[0])
    ensures (forall k :: 0 <= k < |qs| ==> ReadersRight(qs[k])) <==>
            (forall k :: 0 <= k < |acts| ==> !Strands(qs[k], acts[k]))
  {
    hide Do, Good, WritersRight, ReadersRight, Strands;
    RunGood(qs, acts);
    forall k | 0 <= k < |acts| && ReadersRight(qs[k]) ensures ReadersRight(qs[k + 1]) <==> !Strands(qs[k], acts[k]) {
      DoReaders(qs[k], acts[k]);
    }
    if forall k :: 0 <= k < |qs| ==> ReadersRight(qs[k]) {
      forall k | 0 <= k < |acts| ensures !Strands(qs[k], acts[k]) {
        assert ReadersRight(qs[k]) && ReadersRight(qs[k + 1]);
      }
    }
    if forall k :: 0 <= k < |acts| ==> !Strands(qs[k], acts[k]) {
      var k := 0;
      while k < |acts|
        invariant 0 <= k <= |acts| && forall j :: 0 <= j <= k ==> ReadersRight(qs[j])
      {
        assert ReadersRight(qs[k]) && !Strands(qs[k], acts[k]);
        k := k + 1;
      }
    }
  }

  // ----- the ring -----

  /** The ring holds the bytes between the two counters, which count modulo 2^32. */
  ghost predicate Holds(accepted: seq<Byte>, delivered: seq<Byte>, data: seq<Byte>, nread: nat, nwrite: nat) {
    && delivered <= accepted && |accepted| <= |delivered| + PIPESIZE
    && |data| == PIPESIZE && nread == |delivered| % UINT && nwrite == |accepted| % UINT
    && forall k :: |delivered| <= k < |accepted| ==> data[k % PIPESIZE] == accepted[k]
  }

  /** The counters tell empty and full apart, past their wrap too. */
  lemma {:induction false} Counters(q: Queue, data: seq<Byte>, nread: nat, nwrite: nat)
    requires Holds(q.accepted, q.delivered, data, nread, nwrite)
    ensures Good(q) && (nread == nwrite <==> Empty(q))
    ensures nwrite == (nread + PIPESIZE) % UINT <==> Full(q)
    ensures nwrite % PIPESIZE == |q.accepted| % PIPESIZE && nread % PIPESIZE == |q.delivered| % PIPESIZE
    ensures (nwrite + UINT - nread) % UINT == |q.accepted| - |q.delivered| <= PIPESIZE
  {
    CounterMath(|q.accepted|, |q.delivered|);
  }

  lemma {:induction false} CounterMath(a: nat, d: nat)
    requires d <= a <= d + PIPESIZE
    ensures d % UINT == a % UINT <==> a == d
    ensures a % UINT == (d % UINT + PIPESIZE) % UINT <==> a == d + PIPESIZE
    ensures a % UINT % PIPESIZE == a % PIPESIZE && d % UINT % PIPESIZE == d % PIPESIZE
    ensures (a % UINT + UINT - d % UINT) % UINT == a - d
  {
    CounterSum(d, a - d);
    CounterSum(d, PIPESIZE);
    CounterIndex(a);
    CounterIndex(d);
  }

  lemma {:induction false} CounterSum(d: nat, k: nat)
    requires k < UINT
    ensures (d + k) % UINT == (d % UINT + k) % UINT == if d % UINT + k < UINT then d % UINT + k else d % UINT + k - UINT
  {
    var q, r := d / UINT, d % UINT;
    assert d + k == UINT * q + (r + k);
  }

  lemma {:induction false} CounterIndex(x: nat)
    ensures x % UINT % PIPESIZE == x % PIPESIZE
  {
    var q := x / UINT;
    assert x == PIPESIZE * (UINT / PIPESIZE * q) + x % UINT;
  }

  lemma {:induction false} CounterNext(n: nat)
    ensures (n % UINT + 1) % UINT == (n + 1) % UINT
  {
  }

  lemma {:induction false} PutByte(q: Queue, data: seq<Byte>, nread: nat, nwrite: nat, x: Byte)
    requires Holds(q.accepted, q.delivered, data, nread, nwrite) && !Full(q)
    ensures Holds(q.accepted + [x], q.delivered, data[nwrite % PIPESIZE := x], nread, (nwrite + 1) % UINT)
  {
    var n := |q.accepted|;
    CounterMath(n, |q.delivered|);
    CounterNext(n);
    var data' := data[nwrite % PIPESIZE := x];
    forall k | |q.delivered| <= k < n + 1 ensures data'[k % PIPESIZE] == (q.accepted + [x])[k] {
      if k < n {
        Differ(k, n);
        assert data[k % PIPESIZE] == q.accepted[k];
      }
    }
  }

  lemma {:induction false} TakeByte(q: Queue, data: seq<Byte>, nread: nat, nwrite: nat)
    requires Holds(q.accepted, q.delivered, data, nread, nwrite) && !Empty(q)
    ensures Good(q) && |data| == PIPESIZE && data[nread % PIPESIZE] == q.accepted[|q.delivered|]
    ensures Holds(q.accepted, Take(q, 1).delivered, data, (nread + 1) % UINT, nwrite)
  {
    var n := |q.delivered|;
    CounterMath(|q.accepted|, n);
    CounterNext(n);
    assert data[n % PIPESIZE] == q.accepted[n];
  }

  lemma {:induction false} TakeNone(q: Queue)
    requires Good(q)
    ensures Take(q, 0) == q
  {
    assert q.accepted[..|q.delivered|] == q.delivered;
  }

  lemma {:induction false} TakeLen(q: Queue, i: nat)
    requires Good(q) && |q.delivered| + i <= |q.accepted|
    ensures Take(q, i).accepted == q.accepted && |Take(q, i).delivered| == |q.delivered| + i
    ensures Take(q, i).readOpen == q.readOpen && Take(q, i).writeOpen == q.writeOpen
  {
  }

  // One more byte of piperead.
  lemma {:induction false} CopyNext(q: Queue, i: nat)
    requires Good(q) && |q.delivered| + i < |q.accepted|
    ensures Good(Take(q, i)) && Take(Take(q, i), 1) == Take(q, i + 1) && Take(q, i).accepted == q.accepted
    ensures |Take(q, i).delivered| == |q.delivered| + i
    ensures q.accepted[|q.delivered|..|q.delivered| + i + 1] ==
              q.accepted[|q.delivered|..|q.delivered| + i] + [q.accepted[|q.delivered| + i]]
  {
  }

  // Part-way through piperead: i bytes of q0 are in dst.
  ghost predicate Copied(q0: Queue, q: Queue, dst: seq<Byte>, i: nat) {
    && Good(q0) && |q0.delivered| + i <= |q0.accepted| && q == Take(q0, i)
    && dst == q0.accepted[|q0.delivered|..|q0.delivered| + i]
  }

  lemma {:induction false} CopiedNone(q: Queue)
    requires Good(q)
    ensures Copied(q, q, [], 0)
  {
    TakeNone(q);
  }

  lemma {:induction false} CopiedIs(q0: Queue, q: Queue, dst: seq<Byte>, i: nat)
    requires Copied(q0, q, dst, i)
    ensures Good(q0) && |q0.delivered| + i <= |q0.accepted| && q == Take(q0, i)
    ensures dst == q0.accepted[|q0.delivered|..|q0.delivered| + i]
  {
  }

  lemma {:induction false} CopiedMore(q0: Queue, q: Queue, dst: seq<Byte>, i: nat, data: seq<Byte>, nread: nat,
                                      nwrite: nat)
    requires Copied(q0, q, dst, i) && Holds(q.accepted, q.delivered, data, nread, nwrite)
    ensures Good(q0) && |q0.delivered| + i <= |q0.accepted|
    ensures nread == nwrite <==> |q0.delivered| + i == |q0.accepted|
    ensures nread != nwrite ==>
      && |data| == PIPESIZE && Copied(q0, Take(q0, i + 1), dst + [data[nread % PIPESIZE]], i + 1)
      && var q' := Take(q0, i + 1);
         && Holds(q'.accepted, q'.delivered, data, (nread + 1) % UINT, nwrite)
         && q'.readOpen == q.readOpen && q'.writeOpen == q.writeOpen
  {
    hide Holds, Take;
    TakeLen(q0, i);
    Counters(q, data, nread, nwrite);
    if nread != nwrite {
      CopyNext(q0, i);
      TakeLen(q0, i + 1);
      TakeByte(q, data, nread, nwrite);
    }
  }

  lemma {:induction false} Differ(k: nat, n: nat)
    requires k < n < k + PIPESIZE
    ensures k % PIPESIZE != n % PIPESIZE
  {
  }

  class Ring {
    const data: array<Byte>
    var nread: nat
    var nwrite: nat
    var readOpen: bool
    var writeOpen: bool
    ghost var q: Queue

    ghost predicate Valid()
      reads this, data
    {
      && data.Length == PIPESIZE && Holds(q.accepted, q.delivered, data[..], nread, nwrite)
      && q.readOpen == readOpen && q.writeOpen == writeOpen
    }

    /** pipealloc */
    constructor ()
      ensures Valid() && fresh(data) && q == Queue([], [], true, true, {}, {})
    {
      data := new Byte[PIPESIZE](_ => 0);
      nread, nwrite, readOpen, writeOpen := 0, 0, true, true;
      q := Queue([], [], true, true, {}, {});
    }

    /** pipewrite, from acquiring the lock to releasing it. */
    method WriteOnce(src: seq<Byte>, i0: nat, killed: nat -> bool, copyOk: nat -> bool, me: nat)
      returns (i: nat, end: End)
      requires Valid() && i0 <= |src|
      modifies this, data
      ensures Valid() && Out(q, i, end) == Write(old(q), src, i0, killed, copyOk, me)
    {
      hide Holds;
      i := i0;
      while i < |src|
        invariant Valid() && i0 <= i <= |src|
        invariant Write(old(q), src, i0, killed, copyOk, me) == Write(q, src, i, killed, copyOk, me)
      {
        if !readOpen || killed(i) { return i, Fails; }
        Counters(q, data[..], nread, nwrite);
        if nwrite == (nread + PIPESIZE) % UINT {
          q := q.(readers := {}, writers := q.writers + {me});
          return i, Sleeps;
        }
        if !copyOk(i) { break; }
        PutByte(q, data[..], nread, nwrite, src[i]);
        ghost var before := data[..];
        data[nwrite % PIPESIZE] := src[i];
        assert data[..] == before[nwrite % PIPESIZE := src[i]];
        nwrite := (nwrite + 1) % UINT;
        q := q.(accepted := q.accepted + [src[i]]);
        i := i + 1;
      }
      q := q.(readers := {});
      end := Returns;
    }

    // piperead's copy loop
    method CopyOut(n: nat, copyOk: nat -> bool) returns (dst: seq<Byte>, i: nat)
      requires Valid() && Good(q)
      modifies this`nread, this`q
      ensures Valid() && i == Copies(old(q), n, copyOk, 0) && q == Take(old(q), i)
      ensures dst == old(q).accepted[|old(q).delivered|..|old(q).delivered| + i]
    {
      hide Holds, Take, Copies, Copied;
      ghost var q0 := q;
      dst, i := [], 0;
      CopiedNone(q);
      while i < n
        invariant i <= n && Copied(q0, q, dst, i) && Valid() && |q0.delivered| + i <= |q0.accepted|
        invariant Copies(q0, n, copyOk, 0) == Copies(q0, n, copyOk, i)
      {
        CopiesNext(q0, n, copyOk, i);
        CopiedMore(q0, q, dst, i, data[..], nread, nwrite);
        if nread == nwrite { break; }
        var ch := data[nread % PIPESIZE];
        if !copyOk(i) { break; }
        dst := dst + [ch];
        nread := (nread + 1) % UINT;
        q := Take(q0, i + 1);
        i := i + 1;
      }
      if i == n { CopiesNext(q0, n, copyOk, i); }
      CopiedIs(q0, q, dst, i);
    }

    /** piperead, from acquiring the lock to releasing it. */
    method ReadOnce(n: nat, killed: bool, copyOk: nat -> bool, me: nat) returns (dst: seq<Byte>, r: int, end: End)
      requires Valid()
      modifies this
      ensures Valid() && ReadOut(q, dst, r, end) == Read(old(q), n, killed, copyOk, me)
    {
      hide Holds, Copies;
      Counters(q, data[..], nread, nwrite);
      if nread == nwrite && writeOpen {
        if killed { return [], -1, Fails; }
        q := q.(readers := q.readers + {me});
        return [], 0, Sleeps;
      }
      var i, more := 0, nread != nwrite;
      dst, i := CopyOut(n, copyOk);
      r := if i == 0 && n > 0 && more then -1 else i;
      q := q.(writers := {});
      end := Returns;
    }

    /** pipeclose of either end. */
    method CloseEnd(writable: bool) returns (freed: bool)
      requires Valid()
      modifies this
      ensures Valid() && q == Close(old(q), writable) && (freed <==> !q.readOpen && !q.writeOpen)
    {
      if writable {
        writeOpen := false;
        q := q.(writeOpen := false, readers := {});
      } else {
        readOpen := false;
        q := q.(readOpen := false, writers := {});
      }
      freed := !readOpen && !writeOpen;
    }
  }
}
