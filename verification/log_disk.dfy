/**
 The loops of log.c, in place: log_write's search, write_log, write_head, install_trans,
 commit and recover_from_log. Every block write appends the disk it leaves to `crashes`, so
 a contract about all of `crashes` is a contract about every crash point.
 */
module LogDisk {
  import opened Param
  import opened CacheModel
  import opened LogModel
  import opened LogInvariant
  import opened LogTheorems

  class Log {
    const start: nat
    var disk: seq<Block>
    var n: nat
    var block: array<nat>
    ghost var crashes: seq<seq<Block>>

    ghost predicate Valid()
      reads this, block
    {
      && block.Length == LOGBLOCKS && n <= LOGBLOCKS
      && GoodImage(disk, start)
      && Distinct(block[..n])
      && forall k :: 0 <= k < n ==> Home(start, |disk|, block[k])
    }

    constructor (disk: seq<Block>, start: nat)
      requires GoodImage(disk, start)
      ensures Valid() && this.disk == disk && this.start == start && n == 0 && crashes == []
    {
      this.disk, this.start, n, crashes := disk, start, 0, [];
      block := new nat[LOGBLOCKS](_ => 0);
    }

    /** log_write: record block b unless it is already there; false where the kernel panics. */
    method LogWrite(b: nat) returns (ok: bool)
      requires Valid() && Home(start, |disk|, b)
      modifies this`n, block
      ensures Valid() && ok == (old(n) < LOGBLOCKS)
      ensures block[..n] == if ok && b !in old(block[..n]) then old(block[..n]) + [b] else old(block[..n])
    {
      if n >= LOGBLOCKS { return false; }
      var i := 0;
      while i < n && block[i] != b
        invariant i <= n && b !in block[..i]
      { i := i + 1; }
      block[i] := b;
      if i == n { n := n + 1; }
      ok := true;
    }

    // bwrite
    method Bwrite(b: nat, d: Block)
      requires b < |disk|
      modifies this`disk, this`crashes
      ensures disk == old(disk)[b := d] && crashes == old(crashes) + [disk]
    {
      disk := disk[b := d];
      crashes := crashes + [disk];
    }

    /** write_log: `cached` holds what bread returns for each block. */
    method WriteLog(cached: seq<Block>)
      requires Valid() && Header(disk[start]) == [] && |cached| == |disk| && Blocks(cached)
      modifies this`disk, this`crashes
      ensures Valid() && disk[start] == old(disk)[start] && |disk| == |old(disk)|
      ensures forall b: nat :: Home(start, |disk|, b) ==> disk[b] == old(disk)[b]
      ensures forall k :: 0 <= k < n ==> disk[start + 1 + k] == cached[block[k]]
      ensures old(crashes) <= crashes && |crashes| == |old(crashes)| + n
      ensures forall j :: |old(crashes)| <= j < |crashes| ==> SameHome(old(disk), crashes[j], start)
    {
      var tail := 0;
      while tail < n
        invariant tail <= n && Valid() && disk[start] == old(disk)[start] && |disk| == |old(disk)|
        invariant forall b: nat :: Home(start, |disk|, b) ==> disk[b] == old(disk)[b]
        invariant forall k :: 0 <= k < tail ==> disk[start + 1 + k] == cached[block[k]]
        invariant old(crashes) <= crashes && |crashes| == |old(crashes)| + tail
        invariant forall j :: |old(crashes)| <= j < |crashes| ==> SameHome(old(disk), crashes[j], start)
      {
        Bwrite(start + tail + 1, cached[block[tail]]);
        tail := tail + 1;
      }
    }

    method WriteHead()
      requires Valid()
      modifies this`disk, this`crashes
      ensures Valid() && disk == old(disk)[start := disk[start]] && Header(disk[start]) == block[..n]
      ensures crashes == old(crashes) + [disk]
    {
      var d: Block := disk[start];
      d := d[0 := n];
      var i := 0;
      while i < n
        invariant i <= n && |d| == BWORDS && d[0] == n && d[1..1 + i] == block[..i]
      {
        d := d[1 + i := block[i]];
        i := i + 1;
      }
      assert d[1..1 + n] == block[..n];
      Bwrite(start, d);
    }

    /** install_trans: the log on the disk describes the transaction in block[..n]. */
    method InstallTrans()
      requires Valid() && Header(disk[start]) == block[..n]
      modifies this`disk, this`crashes
      ensures Valid() && disk[start] == old(disk)[start] && |disk| == |old(disk)|
      ensures forall b: nat :: Home(start, |disk|, b) ==> disk[b] == Recovered(old(disk), start, b)
      ensures old(crashes) <= crashes
      ensures forall j :: |old(crashes)| <= j < |crashes| ==> SameRecovered(old(disk), crashes[j], start)
      ensures SameRecovered(old(disk), disk, start)
    {
      hide SameRecovered, Installed, Recovered;
      var tail := 0;
      SameRecoveredRefl(disk, start);
      NoneInstalled(disk, start);
      while tail < n
        invariant tail <= n && Valid() && |disk| == |old(disk)| && SameRecovered(old(disk), disk, start)
        invariant disk[start] == old(disk)[start] && Installed(disk, start, tail)
        invariant old(crashes) <= crashes
        invariant forall j :: |old(crashes)| <= j < |crashes| ==> SameRecovered(old(disk), crashes[j], start)
      {
        InstallOne(disk, start, tail);
        SameRecoveredTrans(old(disk), disk, disk[block[tail] := disk[start + tail + 1]], start);
        Bwrite(block[tail], disk[start + tail + 1]);
        tail := tail + 1;
      }
      InstallDone(old(disk), disk, start);
    }

    /** commit: before the header write every crash point recovers to the old home blocks, from
        it on to the old ones overwritten by the transaction; and the transaction ends installed
        with an empty log. */
    method Commit(cached: seq<Block>)
      requires Valid() && Header(disk[start]) == [] && |cached| == |disk| && Blocks(cached)
      modifies this`disk, this`crashes, this`n
      ensures Valid() && n == 0 && Header(disk[start]) == [] && |disk| == |old(disk)|
      ensures old(n) == 0 ==> disk == old(disk) && crashes == old(crashes)
      ensures forall b: nat :: Home(start, |disk|, b) ==> disk[b] == After(old(disk), old(block[..n]), cached, b)
      ensures old(crashes) <= crashes && (old(n) > 0 ==> |crashes| > |old(crashes)| + old(n))
      ensures forall j :: |old(crashes)| <= j < |crashes| && j < |old(crashes)| + old(n) ==>
                SameHome(old(disk), crashes[j], start)
      ensures forall j :: |old(crashes)| + old(n) <= j < |crashes| ==>
                RecoversAfter(old(disk), crashes[j], start, old(block[..n]), cached)
    {
      if n > 0 {
        WriteLog(cached);
        WriteHead();
        ghost var committed := disk;
        RecoversToAfter(old(disk), disk, start, block[..n], cached);
        InstallTrans();
        n := 0;
        WriteHead();
        CleanRecovers(disk, start);
        forall j | |old(crashes)| + old(n) <= j < |crashes|
          ensures RecoversAfter(old(disk), crashes[j], start, old(block[..n]), cached)
        {
        }
      }
    }

    /** recover_from_log: every crash point inside recovery recovers to the same home blocks, so
        recovery may be cut short any number of times; it ends with them installed. */
    method RecoverFromLog()
      requires block.Length == LOGBLOCKS && GoodImage(disk, start)
      modifies this, block
      ensures Valid() && n == 0 && Header(disk[start]) == [] && |disk| == |old(disk)|
      ensures forall b: nat :: Home(start, |disk|, b) ==> disk[b] == Recovered(old(disk), start, b)
      ensures old(crashes) <= crashes
      ensures forall j :: |old(crashes)| <= j < |crashes| ==> SameRecovered(old(disk), crashes[j], start)
    {
      // read_head
      n := disk[start][0];
      var i := 0;
      while i < n
        invariant i <= n <= LOGBLOCKS && disk == old(disk) && crashes == old(crashes) && n == disk[start][0]
        invariant block == old(block) && block[..i] == disk[start][1..1 + i]
      {
        block[i] := disk[start][1 + i];
        i := i + 1;
      }
      assert block[..n] == Header(disk[start]);
      InstallTrans();
      n := 0;
      WriteHead();
      CleanRecovers(disk, start);
    }
  }

  // ----- the home blocks of a disk -----

  ghost predicate SameHome(d: seq<Block>, d': seq<Block>, start: nat) {
    && GoodImage(d', start) && |d'| == |d| && Header(d'[start]) == []
    && forall b: nat :: Home(start, |d|, b) ==> d'[b] == d[b]
  }

  ghost predicate SameRecovered(d: seq<Block>, d': seq<Block>, start: nat)
    requires GoodDisk(d, start)
  {
    && GoodImage(d', start) && |d'| == |d|
    && forall b: nat :: Home(start, |d|, b) ==> Recovered(d', start, b) == Recovered(d, start, b)
  }

  /** Block b after the transaction that logged the blocks l with the cached contents. */
  function After(d: seq<Block>, l: seq<nat>, cached: seq<Block>, b: nat): (r: Block)
    requires b < |d| == |cached|
  { if b in l then cached[b] else d[b] }

  ghost predicate RecoversAfter(d: seq<Block>, d': seq<Block>, start: nat, l: seq<nat>, cached: seq<Block>)
    requires |cached| == |d|
  {
    && GoodImage(d', start) && |d'| == |d|
    && forall b: nat :: Home(start, |d|, b) ==> Recovered(d', start, b) == After(d, l, cached, b)
  }

  lemma {:induction false} SameRecoveredRefl(d: seq<Block>, start: nat)
    requires GoodImage(d, start)
    ensures SameRecovered(d, d, start)
  {
  }

  lemma {:induction false} CleanRecovers(d: seq<Block>, start: nat)
    requires GoodDisk(d, start) && Header(d[start]) == []
    ensures forall b: nat :: b < |d| ==> Recovered(d, start, b) == d[b]
  {
  }

  // The first k blocks of the log are at home.
  predicate Installed(d: seq<Block>, start: nat, k: nat)
    requires GoodImage(d, start) && k <= |Header(d[start])|
  {
    forall i :: 0 <= i < k ==> d[Header(d[start])[i]] == d[start + 1 + i]
  }

  /** Copying the next logged block home does not change what the disk recovers to. */
  lemma {:induction false} InstallOne(d: seq<Block>, start: nat, k: nat)
    requires GoodImage(d, start) && k < |Header(d[start])| && Installed(d, start, k)
    ensures var d' := d[Header(d[start])[k] := d[start + 1 + k]];
      SameRecovered(d, d', start) && d'[start] == d[start] && Installed(d', start, k + 1)
  {
    hide Recovered;
    var h := Header(d[start]);
    var d' := d[h[k] := d[start + 1 + k]];
    assert Home(start, |d|, h[k]);
    assert d'[start] == d[start];
    forall b: nat | Home(start, |d|, b) ensures Recovered(d', start, b) == Recovered(d, start, b) {
      InstallKeeps(d, start, k, b);
    }
  }

  lemma {:induction false} InstallKeeps(d: seq<Block>, start: nat, k: nat, b: nat)
    requires GoodImage(d, start) && k < |Header(d[start])| && Home(start, |d|, b)
    requires Home(start, |d|, Header(d[start])[k])
    requires GoodDisk(d[Header(d[start])[k] := d[start + 1 + k]], start)
    ensures Recovered(d[Header(d[start])[k] := d[start + 1 + k]], start, b) == Recovered(d, start, b)
  {
    hide GoodImage, Blocks;
    var h := Header(d[start]);
    if b !in h { assert b != h[k]; }
  }

  lemma {:induction false} NoneInstalled(d: seq<Block>, start: nat)
    requires GoodImage(d, start)
    ensures Installed(d, start, 0)
  {
  }

  lemma {:induction false} SameRecoveredTrans(d: seq<Block>, d1: seq<Block>, d2: seq<Block>, start: nat)
    requires GoodDisk(d, start) && GoodDisk(d1, start) && SameRecovered(d, d1, start) && SameRecovered(d1, d2, start)
    ensures SameRecovered(d, d2, start) && |d2| == |d|
  {
    hide Recovered;
  }

  lemma {:induction false} InstallDone(d0: seq<Block>, d: seq<Block>, start: nat)
    requires GoodDisk(d0, start) && GoodImage(d, start) && SameRecovered(d0, d, start)
    requires Installed(d, start, |Header(d[start])|)
    ensures |d| == |d0| && forall b: nat :: Home(start, |d|, b) ==> d[b] == Recovered(d0, start, b)
  {
    hide Recovered, Installed;
    InstalledAll(d, start);
  }

  lemma {:induction false} InstalledAll(d: seq<Block>, start: nat)
    requires GoodImage(d, start) && Installed(d, start, |Header(d[start])|)
    ensures forall b: nat :: Home(start, |d|, b) ==> d[b] == Recovered(d, start, b)
  {
    var h := Header(d[start]);
    forall b: nat | Home(start, |d|, b) ensures d[b] == Recovered(d, start, b) {
      if b in h { assert h[IndexOf(h, b)] == b; }
    }
  }

  lemma {:induction false} RecoversToAfter(d: seq<Block>, d': seq<Block>, start: nat, l: seq<nat>, cached: seq<Block>)
    requires GoodImage(d', start) && |d'| == |d| == |cached| && Header(d'[start]) == l
    requires forall b: nat :: Home(start, |d|, b) ==> d'[b] == d[b]
    requires forall k :: 0 <= k < |l| ==> d'[start + 1 + k] == cached[l[k]]
    ensures RecoversAfter(d, d', start, l, cached)
  {
    forall b: nat | Home(start, |d|, b) ensures Recovered(d', start, b) == After(d, l, cached, b) {
      if b in l { assert l[IndexOf(l, b)] == b; }
    }
  }
}
