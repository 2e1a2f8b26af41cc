/**
 The data that passes through the queue: what the disk and the buffers hold after any run follows from
 its actions alone, and what a request transfers is what was submitted.
 */
module VirtioData {
  import opened VirtioModel
  import opened VirtioSteps

  datatype Item = Item(block: nat, data: Data)
  datatype Xfer = Xfer(b: nat, write: bool)

  /** The disk, the buffers, and the requests submitted and not finished, by first descriptor. */
  datatype View = View(disk: map<nat, Data>, bufs: map<nat, Item>, reqs: map<nat, Xfer>)

  function Seen(v: View, a: Action): (v': View) {
    match a
    case Submits(b, write, i0, _, _) => v.(reqs := v.reqs[i0 := Xfer(b, write)])
    case Completes(h, _) =>
      if h !in v.reqs || v.reqs[h].b !in v.bufs then v
      else
        var b, u := v.reqs[h].b, v.bufs[v.reqs[h].b];
        if v.reqs[h].write then v.(disk := v.disk[Sector(u.block) := u.data])
        else v.(bufs := v.bufs[b := u.(data := Sectors(v.disk, Sector(u.block)))])
    case Finishes(h) => v.(reqs := v.reqs - {h})
    case Changes(b, block, data) => v.(bufs := v.bufs[b := Item(block, data)])
    case _ => v
  }

  function After(v: View, acts: seq<Action>): (v': View) {
    if acts == [] then v else Seen(After(v, acts[..|acts| - 1]), acts[|acts| - 1])
  }

  function Items(bufs: map<nat, Buf>): (m: map<nat, Item>) { map b | b in bufs :: Item(bufs[b].block, bufs[b].data) }
  function Xfers(reqs: map<nat, Req>): (m: map<nat, Xfer>) { map h | h in reqs :: Xfer(reqs[h].b, reqs[h].write) }
  function Of(s: Queue, f: Flight): (v: View) { View(s.disk, Items(s.bufs), Xfers(f.reqs)) }

  // ----- one step -----

  lemma {:induction false} SubmitsData(s: Queue, f: Flight, b: nat, write: bool, i0: nat, i1: nat, i2: nat)
    requires Inv(s, f) && CanSubmit(s, f, b, i0, i1, i2) && |f.own| == NUM
    ensures var s', f' := Submit(Take(s, i0, i1, i2), b, write, i0, i1, i2), Added(f, b, write, i0, i1, i2);
      s'.disk == s.disk && Items(s'.bufs) == Items(s.bufs) && Xfers(f'.reqs) == Xfers(f.reqs)[i0 := Xfer(b, write)]
  {
    hide Inv;
  }

  lemma {:induction false} CompletesData(s: Queue, f: Flight, h: nat, status: nat)
    requires Inv(s, f) && h in f.reqs && Followable(s, h)
    ensures var s', r := Complete(s, h, status), f.reqs[h];
      && r.b in s.bufs
      && s'.disk == (if r.write then s.disk[Sector(s.bufs[r.b].block) := s.bufs[r.b].data] else s.disk)
      && Items(s'.bufs) == if r.write then Items(s.bufs)
           else Items(s.bufs)[r.b := Item(s.bufs[r.b].block, Sectors(s.disk, Sector(s.bufs[r.b].block)))]
  {
    hide Inv, Complete, Followable;
    PostedBuf(s, f, h);
    CompleteRequest(s, f, h, status);
  }

  lemma {:induction false} SamePhase(reqs: map<nat, Req>, h: nat, p: Phase)
    requires h in reqs
    ensures Xfers(reqs[h := reqs[h].(phase := p)]) == Xfers(reqs)
  {
  }

  lemma {:induction false} HandlesData(s: Queue)
    requires Pending(s)
    ensures Handle(s).disk == s.disk && Items(Handle(s).bufs) == Items(s.bufs)
  {
  }

  lemma {:induction false} StepData(s: Queue, f: Flight, a: Action, s': Queue, f': Flight)
    requires Inv(s, f) && Step(s, f, a, s', f')
    ensures Of(s', f') == Seen(Of(s, f), a)
  {
    hide Inv, Submit, Complete, Handle, Followable, Pending, Sector, Sectors;
    match a
    case Submits(b, write, i0, i1, i2) => SubmitsData(s, f, b, write, i0, i1, i2);
    case Fetches => SamePhase(f.reqs, f.posted[0], Taken);
    case Completes(h, status) =>
      CompletesData(s, f, h, status);
      SamePhase(f.reqs, h, Used);
    case Handles =>
      HandlesData(s);
      SamePhase(f.reqs, f.done[0], Done);
    case Finishes(h) =>
    case Changes(b, block, data) =>
  }

  // ----- runs -----

  /** After any run, disk and buffers hold what its actions say: each completed write moved the contents
      its buffer had to its own sector, each completed read those of its sector to its own buffer, and
      nothing else moved anything. */
  lemma {:induction false} RunData(ss: seq<Queue>, fs: seq<Flight>, acts: seq<Action>, k: nat)
    requires Run(ss, fs, acts) && Inv(ss[0], fs[0]) && k < |ss|
    ensures Of(ss[k], fs[k]) == After(Of(ss[0], fs[0]), acts[..k])
  {
    hide Inv, Step, Of, Seen;
    if k > 0 {
      RunInv(ss, fs, acts);
      RunData(ss, fs, acts, k - 1);
      StepData(ss[k - 1], fs[k - 1], acts[k - 1], ss[k], fs[k]);
      assert acts[..k][..k - 1] == acts[..k - 1];
    }
  }

  // ----- one request -----

  // While request h is in flight its buffer keeps its block, and its contents but for its own read.
  lemma {:induction false} StepKeeps(s: Queue, f: Flight, a: Action, s': Queue, f': Flight, h: nat)
    requires Inv(s, f) && Step(s, f, a, s', f') && h in f.reqs && h in f'.reqs
    ensures var b := f.reqs[h].b;
      && b in s.bufs && b in s'.bufs && s'.bufs[b].block == s.bufs[b].block
      && f'.reqs[h].b == b && f'.reqs[h].write == f.reqs[h].write
      && (!(CompletesIt(a, h) && !f.reqs[h].write) ==> s'.bufs[b].data == s.bufs[b].data)
  {
    hide Inv, Submit, Complete, Handle, Finish, Followable, Pending, Fetch, Sector, Sectors, Seen;
    var b := f.reqs[h].b;
    StepPhase(s, f, a, s', f', h);
    PostedBuf(s, f, h);
    StepData(s, f, a, s', f');
    SeenKeeps(s, f, a, s', f', h);
    assert Items(s'.bufs)[b] == Item(s'.bufs[b].block, s'.bufs[b].data);
    assert Items(s.bufs)[b] == Item(s.bufs[b].block, s.bufs[b].data);
  }

  lemma {:induction false} SeenKeeps(s: Queue, f: Flight, a: Action, s': Queue, f': Flight, h: nat)
    requires Inv(s, f) && Step(s, f, a, s', f') && h in f.reqs && f.reqs[h].b in s.bufs
    ensures var b, v' := f.reqs[h].b, Seen(Of(s, f), a);
      && b in v'.bufs && v'.bufs[b].block == s.bufs[b].block
      && (!(CompletesIt(a, h) && !f.reqs[h].write) ==> v'.bufs[b].data == s.bufs[b].data)
  {
    hide Inv, Submit, Complete, Handle, Finish, Followable, Pending, Fetch, Sector, Sectors;
    if a.Completes? && a.h != h { OwnBuffers(s, f, a.h, h); }
    if a.Changes? { InFlight(s, f, h); }
  }

  lemma {:induction false} OwnBuffers(s: Queue, f: Flight, h: nat, g: nat)
    requires Inv(s, f) && h in f.reqs && g in f.reqs && h != g
    ensures f.reqs[h].b != f.reqs[g].b
  {
    hide Descriptors, Formats, Ring, Holds;
  }

  lemma {:induction false} InFlight(s: Queue, f: Flight, h: nat)
    requires Inv(s, f) && h in f.reqs
    ensures f.reqs[h].b in f.of
  {
    hide Descriptors, Formats, Ring, Holds;
  }

  // Request h was submitted by step j and is in flight up to k.
  ghost predicate Flies(ss: seq<Queue>, fs: seq<Flight>, acts: seq<Action>, j: nat, k: nat) {
    && Run(ss, fs, acts) && Inv(ss[0], fs[0]) && j < k < |ss| && acts[j].Submits?
    && forall m :: j < m <= k ==> acts[j].i0 in fs[m].reqs
  }

  lemma {:induction false} JustSubmitted(s: Queue, f: Flight, a: Action, s': Queue, f': Flight)
    requires Inv(s, f) && Step(s, f, a, s', f') && a.Submits?
    ensures a.b in s.bufs && a.b in s'.bufs && a.i0 in f'.reqs && f'.reqs[a.i0].b == a.b
    ensures f'.reqs[a.i0].write == a.write && f'.reqs[a.i0].phase == Posted
    ensures s'.bufs[a.b].block == s.bufs[a.b].block && s'.bufs[a.b].data == s.bufs[a.b].data && s'.disk == s.disk
  {
    hide Inv, Submit, Take;
    SubmitsData(s, f, a.b, a.write, a.i0, a.i1, a.i2);
    var b := a.b;
    assert b in Items(s'.bufs);
    assert Items(s'.bufs)[b] == Items(s.bufs)[b];
  }

  lemma {:induction false} Flight1(ss: seq<Queue>, fs: seq<Flight>, acts: seq<Action>, j: nat, k: nat)
    requires Flies(ss, fs, acts, j, k)
    ensures var a := acts[j];
      && a.b in ss[j].bufs && a.b in ss[k].bufs && ss[k].bufs[a.b].block == ss[j].bufs[a.b].block
      && fs[k].reqs[a.i0].b == a.b && fs[k].reqs[a.i0].write == a.write
      && (a.write ==> ss[k].bufs[a.b].data == ss[j].bufs[a.b].data)
  {
    hide Inv, Step;
    RunInv(ss, fs, acts);
    if k == j + 1 {
      JustSubmitted(ss[j], fs[j], acts[j], ss[k], fs[k]);
    } else {
      Flight1(ss, fs, acts, j, k - 1);
      StepKeeps(ss[k - 1], fs[k - 1], acts[k - 1], ss[k], fs[k], acts[j].i0);
    }
  }

  lemma {:induction false} Completed(ss: seq<Queue>, fs: seq<Flight>, acts: seq<Action>, j: nat, k: nat)
    returns (m: nat)
    requires Flies(ss, fs, acts, j, k) && Past(fs[k].reqs[acts[j].i0].phase, Used)
    ensures j < m < k && CompletesIt(acts[m], acts[j].i0)
    ensures forall n :: j < n < k && CompletesIt(acts[n], acts[j].i0) ==> n == m
  {
    hide Inv, Step;
    RunInv(ss, fs, acts);
    var h := acts[j].i0;
    if k == j + 1 {
      JustSubmitted(ss[j], fs[j], acts[j], ss[k], fs[k]);
    } else {
      StepPhase(ss[k - 1], fs[k - 1], acts[k - 1], ss[k], fs[k], h);
      if CompletesIt(acts[k - 1], h) {
        m := k - 1;
        NotBefore(ss, fs, acts, j, k - 1);
      } else {
        m := Completed(ss, fs, acts, j, k - 1);
      }
    }
  }

  lemma {:induction false} NotBefore(ss: seq<Queue>, fs: seq<Flight>, acts: seq<Action>, j: nat, k: nat)
    requires Flies(ss, fs, acts, j, k) && !Past(fs[k].reqs[acts[j].i0].phase, Used)
    ensures forall n :: j < n < k ==> !CompletesIt(acts[n], acts[j].i0)
  {
    hide Inv, Step;
    RunInv(ss, fs, acts);
    if k > j + 1 {
      StepPhase(ss[k - 1], fs[k - 1], acts[k - 1], ss[k], fs[k], acts[j].i0);
      NotBefore(ss, fs, acts, j, k - 1);
    }
  }

  // The disk changes only when a write completes, in that write's sector.
  lemma {:induction false} StepDisk(s: Queue, f: Flight, a: Action, s': Queue, f': Flight, sector: nat)
    requires Inv(s, f) && Step(s, f, a, s', f')
    ensures a.Completes? ==> a.h in f.reqs && f.reqs[a.h].b in s.bufs
    ensures a.Completes? && f.reqs[a.h].write && Sector(s.bufs[f.reqs[a.h].b].block) == sector ==>
              Sectors(s'.disk, sector) == s.bufs[f.reqs[a.h].b].data
    ensures !(a.Completes? && f.reqs[a.h].write && Sector(s.bufs[f.reqs[a.h].b].block) == sector) ==>
              Sectors(s'.disk, sector) == Sectors(s.disk, sector)
  {
    hide Inv, Submit, Complete, Handle, Finish, Followable, Pending, Fetch, Sector;
    if a.Completes? {
      PostedBuf(s, f, a.h);
      CompletesData(s, f, a.h, a.status);
    } else {
      StepData(s, f, a, s', f');
    }
  }

  /** No other write to the sector completes from step j on before k. */
  ghost predicate Alone(ss: seq<Queue>, fs: seq<Flight>, acts: seq<Action>, j: nat, k: nat, h: nat, sector: nat)
    requires |ss| == |fs| == |acts| + 1
  {
    forall n :: j <= n < k && n < |acts| && acts[n].Completes? && acts[n].h != h ==>
      !Writes(ss[n], fs[n], acts[n].h, sector)
  }

  predicate Writes(s: Queue, f: Flight, h: nat, sector: nat) {
    h in f.reqs && f.reqs[h].write && f.reqs[h].b in s.bufs && Sector(s.bufs[f.reqs[h].b].block) == sector
  }

  lemma {:induction false} SectorStays(ss: seq<Queue>, fs: seq<Flight>, acts: seq<Action>, j: nat, k: nat, h: nat,
                                       sector: nat)
    requires Run(ss, fs, acts) && Inv(ss[0], fs[0]) && j <= k < |ss| && Alone(ss, fs, acts, j, k, h, sector)
    requires forall n :: j <= n < k ==> !CompletesIt(acts[n], h)
    ensures Sectors(ss[k].disk, sector) == Sectors(ss[j].disk, sector)
  {
    hide Inv, Step, Sectors;
    RunInv(ss, fs, acts);
    if j < k {
      SectorStays(ss, fs, acts, j, k - 1, h, sector);
      StepDisk(ss[k - 1], fs[k - 1], acts[k - 1], ss[k], fs[k], sector);
    }
  }

  /** A write: from its completion on, until another write to the sector completes, the sector holds what
      the buffer held when the request was submitted. */
  lemma {:induction false} WriteArrives(ss: seq<Queue>, fs: seq<Flight>, acts: seq<Action>, j: nat, k: nat)
    requires Flies(ss, fs, acts, j, k) && acts[j].write && Past(fs[k].reqs[acts[j].i0].phase, Used)
    requires acts[j].b in ss[j].bufs
    requires Alone(ss, fs, acts, j, k, acts[j].i0, Sector(ss[j].bufs[acts[j].b].block))
    ensures Sectors(ss[k].disk, Sector(ss[j].bufs[acts[j].b].block)) == ss[j].bufs[acts[j].b].data
  {
    hide Inv, Step, Sectors, Sector;
    RunInv(ss, fs, acts);
    var h, b := acts[j].i0, acts[j].b;
    var sector := Sector(ss[j].bufs[b].block);
    var m := Completed(ss, fs, acts, j, k);
    Flight1(ss, fs, acts, j, m);
    StepDisk(ss[m], fs[m], acts[m], ss[m + 1], fs[m + 1], sector);
    SectorStays(ss, fs, acts, m + 1, k, h, sector);
  }

  /** A read: from its completion on the buffer holds what the sector held then. */
  lemma {:induction false} ReadArrives(ss: seq<Queue>, fs: seq<Flight>, acts: seq<Action>, j: nat, k: nat)
    returns (m: nat)
    requires Flies(ss, fs, acts, j, k) && !acts[j].write && Past(fs[k].reqs[acts[j].i0].phase, Used)
    ensures j < m < k && CompletesIt(acts[m], acts[j].i0) && acts[j].b in ss[j].bufs && acts[j].b in ss[k].bufs
    ensures ss[k].bufs[acts[j].b].data == Sectors(ss[m].disk, Sector(ss[j].bufs[acts[j].b].block))
  {
    hide Inv, Step, Sectors, Sector;
    m := Completed(ss, fs, acts, j, k);
    ReadStays(ss, fs, acts, j, m, k);
  }

  lemma {:induction false} ReadStays(ss: seq<Queue>, fs: seq<Flight>, acts: seq<Action>, j: nat, m: nat, k: nat)
    requires Flies(ss, fs, acts, j, k) && !acts[j].write && j < m < k && CompletesIt(acts[m], acts[j].i0)
    requires forall n :: j < n < k && CompletesIt(acts[n], acts[j].i0) ==> n == m
    ensures acts[j].b in ss[j].bufs && acts[j].b in ss[k].bufs
    ensures ss[k].bufs[acts[j].b].data == Sectors(ss[m].disk, Sector(ss[j].bufs[acts[j].b].block))
  {
    hide Inv, Step, Sectors, Sector;
    RunInv(ss, fs, acts);
    Flight1(ss, fs, acts, j, k - 1);
    Flight1(ss, fs, acts, j, k);
    if k == m + 1 {
      ReadStep(ss[m], fs[m], acts[m], ss[k], fs[k]);
    } else {
      ReadStays(ss, fs, acts, j, m, k - 1);
      StepKeeps(ss[k - 1], fs[k - 1], acts[k - 1], ss[k], fs[k], acts[j].i0);
    }
  }

  lemma {:induction false} ReadStep(s: Queue, f: Flight, a: Action, s': Queue, f': Flight)
    requires Inv(s, f) && Step(s, f, a, s', f') && a.Completes? && a.h in f.reqs && !f.reqs[a.h].write
    ensures var b := f.reqs[a.h].b;
      b in s.bufs && b in s'.bufs && s'.bufs[b].data == Sectors(s.disk, Sector(s.bufs[b].block))
  {
    hide Inv, Complete, Followable, Sector, Sectors;
    CompletesData(s, f, a.h, a.status);
    var b := f.reqs[a.h].b;
    assert b in Items(s'.bufs);
    assert Items(s'.bufs)[b] == Item(s'.bufs[b].block, s'.bufs[b].data);
  }
}
