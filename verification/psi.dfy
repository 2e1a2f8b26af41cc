/**
 Memory pressure: what update_psi counts each tick, and the fixed-point average it keeps.
 */
module Psi {
  const ONE: nat := 1024     // all of the time, in fixed point
  const TOP: nat := 925      // where constant pressure ends up

  datatype ProcState = Unused | Used | Sleeping | Runnable | Running | Zombie
  // A process's state, and whether the channel it sleeps on is the page allocator's.
  datatype Proc = Proc(state: ProcState, onKmem: bool)

  predicate Stalled(p: Proc) { p.state == Sleeping && p.onKmem }
  predicate Ready(p: Proc) { p.state == Runnable || p.state == Running }

  /** Some process is stalled; some process is stalled and none could run. */
  predicate Some(procs: seq<Proc>) { exists i :: 0 <= i < |procs| && Stalled(procs[i]) }
  predicate Full(procs: seq<Proc>) { Some(procs) && forall i :: 0 <= i < |procs| ==> !Ready(procs[i]) }

  function Bit(b: bool): (n: nat) { if b then 1 else 0 }

  /** One tick of an average. */
  function Tick(t: bool, avg: nat): (r: nat) { (Bit(t) * ONE + 99 * avg) / 100 }

  class Stats {
    var some: nat
    var full: nat

    constructor ()
      ensures some == 0 && full == 0
    { some, full := 0, 0; }

    /** update_psi: one tick of both averages, by what the process table shows. */
    method Update(procs: seq<Proc>)
      requires some <= TOP && full <= TOP
      modifies this
      ensures some == Tick(Some(procs), old(some)) && full == Tick(Full(procs), old(full))
      ensures some <= TOP && full <= TOP
    {
      var anySome, ready, stalled := 0, 0, 0;
      var i := 0;
      while i < |procs|
        invariant 0 <= i <= |procs| && 0 <= stalled && 0 <= ready
        invariant stalled > 0 <==> exists k :: 0 <= k < i && Stalled(procs[k])
        invariant ready > 0 <==> exists k :: 0 <= k < i && Ready(procs[k])
      {
        var p := procs[i];
        if p.state != Unused && p.state != Zombie {
          if p.state == Sleeping && p.onKmem {
            stalled := stalled + 1;
          } else if p.state == Runnable || p.state == Running {
            ready := ready + 1;
          }
        }
        i := i + 1;
      }
      if stalled > 0 { anySome := 1; }
      var allFull := if stalled > 0 && ready == 0 then 1 else 0;
      TickBound(Some(procs), some);
      TickBound(Full(procs), full);
      some := (anySome * ONE + 99 * some) / 100;
      full := (allFull * ONE + 99 * full) / 100;
    }
  }

  // ----- one tick -----

  lemma {:induction false} TickBound(t: bool, avg: nat)
    requires avg <= TOP
    ensures Tick(t, avg) <= TOP
  {
  }

  lemma {:induction false} TickMonotone(t: bool, u: bool, a: nat, b: nat)
    requires (t ==> u) && a <= b
    ensures Tick(t, a) <= Tick(u, b)
  {
  }

  // ----- histories -----

  /** The average after a history of ticks, from zero. */
  function Avg(h: seq<bool>): (r: nat) { if h == [] then 0 else Tick(h[|h| - 1], Avg(h[..|h| - 1])) }

  /** The same average without rounding. */
  function Exact(h: seq<bool>): (r: real) {
    if h == [] then 0.0 else (Bit(h[|h| - 1]) as real * 1024.0 + 99.0 * Exact(h[..|h| - 1])) / 100.0
  }

  /** More pressure at every tick, a higher average. */
  lemma {:induction false} AvgMonotone(h: seq<bool>, k: seq<bool>)
    requires |h| == |k| && forall i :: 0 <= i < |h| ==> h[i] ==> k[i]
    ensures Avg(h) <= Avg(k) <= TOP
  {
    if h != [] {
      var n := |h| - 1;
      AvgMonotone(h[..n], k[..n]);
      TickMonotone(h[n], k[n], Avg(h[..n]), Avg(k[..n]));
      TickBound(k[n], Avg(k[..n]));
    }
  }

  function Somes(ps: seq<seq<Proc>>): (h: seq<bool>) { seq(|ps|, i requires 0 <= i < |ps| => Some(ps[i])) }
  function Fulls(ps: seq<seq<Proc>>): (h: seq<bool>) { seq(|ps|, i requires 0 <= i < |ps| => Full(ps[i])) }

  /** Whatever the process table goes through, full pressure is at most some pressure, which is at most
      925 of 1024. */
  lemma {:induction false} FullAtMostSome(ps: seq<seq<Proc>>)
    ensures Avg(Fulls(ps)) <= Avg(Somes(ps)) <= TOP
  {
    AvgMonotone(Fulls(ps), Somes(ps));
  }

  /** Rounding loses less than 99 of 1024, and never gains. */
  lemma {:induction false} AvgExact(h: seq<bool>)
    ensures Avg(h) as real <= Exact(h) < Avg(h) as real + 99.0
  {
    if h != [] {
      var n := |h| - 1;
      AvgExact(h[..n]);
      var x := Bit(h[n]) * ONE + 99 * Avg(h[..n]);
      assert x == 100 * (x / 100) + x % 100;
      assert x as real == 100.0 * (x / 100) as real + (x % 100) as real;
      assert (99 * Avg(h[..n])) as real == 99.0 * Avg(h[..n]) as real;
    }
  }

  function Times(t: bool, n: nat): (h: seq<bool>) { seq(n, _ => t) }

  lemma {:induction false} AvgMore(h: seq<bool>, t: bool, n: nat)
    ensures Avg(h + Times(t, n + 1)) == Tick(t, Avg(h + Times(t, n)))
  {
    var k := h + Times(t, n + 1);
    assert k[..|k| - 1] == h + Times(t, n);
  }

  /** Under constant pressure the average climbs by at least one a tick until it is 925, and stays. */
  lemma {:induction false} Climbs(h: seq<bool>, n: nat)
    ensures Avg(h + Times(true, n)) <= TOP
    ensures Avg(h + Times(true, n)) == TOP || Avg(h + Times(true, n)) >= Avg(h) + n
    ensures n >= TOP ==> Avg(h + Times(true, n)) == TOP
  {
    AvgMonotone(h + Times(true, n), h + Times(true, n));
    if n == 0 {
      assert h + Times(true, 0) == h;
    } else {
      Climbs(h, n - 1);
      AvgMore(h, true, n - 1);
    }
  }

  /** Without pressure it falls by at least one a tick until it is 0, and stays. */
  lemma {:induction false} Decays(h: seq<bool>, n: nat)
    ensures Avg(h + Times(false, n)) == 0 || Avg(h + Times(false, n)) + n <= Avg(h)
    ensures n >= TOP ==> Avg(h + Times(false, n)) == 0
  {
    AvgMonotone(h, h);
    if n == 0 {
      assert h + Times(false, 0) == h;
    } else {
      Decays(h, n - 1);
      AvgMore(h, false, n - 1);
    }
  }
}
