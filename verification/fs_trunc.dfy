/**
 itrunc part-way: some of an inode's blocks are free again while its slots still name them.
 */
module FsTrunc {
  import opened FsBlocks
  import opened FsModel
  import opened FsContent
  import opened FsOps
  import opened FsWrite
  import opened Common

  // The state after bfree(b).
  function Freed(g: Geo, fs: Fs, b: nat): (r: Fs)
    requires GoodGeo(g) && |fs.disk| == g.size && b < g.size
  { fs.(disk := Flipped(g, fs.disk, b), used := fs.used - {b}) }

  // The blocks in slots lo..hi.
  function RowBlocks(row: seq<nat>, lo: nat, hi: nat): (s: set<nat>)
    requires lo <= hi <= |row|
  { set k | lo <= k < hi && row[k] != 0 :: row[k] }

  /** The blocks `gone` of fs0 have been freed, and no block outside the free map has changed. */
  ghost predicate Freeing(g: Geo, fs0: Fs, fs: Fs, gone: set<nat>) {
    && GoodGeo(g) && |fs.disk| == |fs0.disk| == g.size && UsedIs(g, fs.disk, fs.used) && fs.used == fs0.used - gone
    && fs.slots == fs0.slots && fs.owner == fs0.owner
    && (forall c :: g.nmeta <= c < g.size ==> fs.disk[c] == fs0.disk[c])
  }

  lemma {:induction false} FreeingStart(g: Geo, fs: Fs)
    requires Tidy(g, fs, {})
    ensures Freeing(g, fs, fs, {})
  {
  }

  lemma {:induction false} TruncStart(g: Geo, fs: Fs, i: nat)
    requires Shape(g, fs) && i < g.ninodes
    ensures RowBlocks(fs.slots[i], 0, 0) == {}
    ensures fs.inodes == ClearedTo(fs.inodes, i, 0)
  {
    assert Cleared(fs.inodes[i].addrs, 0) == fs.inodes[i].addrs;
  }

  lemma {:induction false} FreeingWf(g: Geo, fs0: Fs, fs: Fs, gone: set<nat>)
    requires Freeing(g, fs0, fs, gone)
    ensures GoodGeo(g) && |fs.disk| == g.size && UsedIs(g, fs.disk, fs.used) && fs.slots == fs0.slots
    ensures fs.owner == fs0.owner
    ensures fs.used == fs0.used - gone
  {
  }

  /** An owned block not freed yet is still marked, and freeing it is one more step. */
  lemma {:induction false} FreeingStep(g: Geo, fs0: Fs, fs: Fs, gone: set<nat>, b: nat)
    requires Tidy(g, fs0, {}) && Freeing(g, fs0, fs, gone) && b in fs0.owner && b !in gone
    ensures b < g.size && b in fs.used && Freeing(g, fs0, Freed(g, fs, b), gone + {b})
  {
    assert fs0.slots[fs0.owner[b].inum][fs0.owner[b].k] == b;
    assert b in fs0.used;
    FlippedUsed(g, fs.disk, b, fs.used);
    assert fs0.used - (gone + {b}) == fs.used - {b};
  }

  // Freeing only speaks of disk, free map, slots and owners.
  lemma {:induction false} FreeingFrame(g: Geo, fs0: Fs, fs: Fs, gone: set<nat>, inodes: seq<Inode>)
    ensures Freeing(g, fs0, fs, gone) ==> Freeing(g, fs0, fs.(inodes := inodes), gone)
  {
  }

  /** The next slot: its block, if any, has not been freed by way of another slot. */
  lemma {:induction false} NextSlot(g: Geo, fs: Fs, i: nat, done: set<nat>, lo: nat, k: nat)
    requires Tidy(g, fs, {}) && i < g.ninodes && lo <= k < NSLOTS && k != NDIRECT
    requires (done == RowBlocks(fs.slots[i], 0, NDIRECT) && lo == NDIRECT + 1) || (done == {} && lo == 0 && k < NDIRECT)
    ensures var row := fs.slots[i]; var gone := done + RowBlocks(row, lo, k);
      && (row[k] != 0 ==> row[k] in fs.owner && row[k] !in gone)
      && done + RowBlocks(row, lo, k + 1) == if row[k] == 0 then gone else gone + {row[k]}
  {
    var row := fs.slots[i];
    forall m | 0 <= m < NSLOTS && m != k && row[m] != 0 ensures row[m] != row[k] {
      assert fs.owner[row[m]] == Place(i, m);
    }
  }

  lemma {:induction false} NoneYet(row: seq<nat>, lo: nat, s: set<nat>)
    requires lo <= |row|
    ensures s + RowBlocks(row, lo, lo) == s
  {
  }

  // The same for the loop over the direct blocks.
  lemma {:induction false} NextDirect(g: Geo, fs: Fs, i: nat, k: nat)
    requires Tidy(g, fs, {}) && i < g.ninodes && k < NDIRECT
    ensures var row := fs.slots[i]; var gone := RowBlocks(row, 0, k);
      && (row[k] != 0 ==> row[k] in fs.owner && row[k] !in gone)
      && RowBlocks(row, 0, k + 1) == if row[k] == 0 then gone else gone + {row[k]}
  {
    NextSlot(g, fs, i, {}, 0, k);
    assert {} + RowBlocks(fs.slots[i], 0, k) == RowBlocks(fs.slots[i], 0, k);
    assert {} + RowBlocks(fs.slots[i], 0, k + 1) == RowBlocks(fs.slots[i], 0, k + 1);
  }

  function AllBlocks(row: seq<nat>): (s: set<nat>)
    requires |row| == NSLOTS
  {
    RowBlocks(row, 0, NDIRECT) + RowBlocks(row, NDIRECT + 1, NSLOTS)
    + if row[NDIRECT] == 0 then {} else {row[NDIRECT]}
  }

  lemma {:induction false} IndirectLast(g: Geo, fs: Fs, i: nat)
    requires Tidy(g, fs, {}) && i < g.ninodes
    ensures var row := fs.slots[i];
      && (row[NDIRECT] != 0 ==> row[NDIRECT] in fs.owner)
      && (row[NDIRECT] != 0 ==> row[NDIRECT] !in RowBlocks(row, 0, NDIRECT) + RowBlocks(row, NDIRECT + 1, NSLOTS))
      && (row[NDIRECT] == 0 ==> RowBlocks(row, NDIRECT + 1, NSLOTS) == {})
  {
    var row := fs.slots[i];
    forall m | 0 <= m < NSLOTS && m != NDIRECT && row[m] != 0 ensures row[m] != row[NDIRECT] {
      assert fs.owner[row[m]] == Place(i, m);
    }
  }

  /** The blocks owned by inode i. */
  function OwnedBy(owner: map<nat, Place>, i: nat): (s: set<nat>) { set b | b in owner && owner[b].inum == i }

  lemma {:induction false} AllBlocksHas(row: seq<nat>, k: nat)
    requires |row| == NSLOTS && k < NSLOTS && row[k] != 0
    ensures row[k] in AllBlocks(row)
  {
    if k < NDIRECT {
      assert row[k] in RowBlocks(row, 0, NDIRECT);
    } else if k > NDIRECT {
      assert row[k] in RowBlocks(row, NDIRECT + 1, NSLOTS);
    }
  }

  lemma {:induction false} AllBlocksOnly(row: seq<nat>, b: nat) returns (k: nat)
    requires |row| == NSLOTS && b in AllBlocks(row)
    ensures k < NSLOTS && row[k] == b != 0
  {
    if b in RowBlocks(row, 0, NDIRECT) {
      k :| 0 <= k < NDIRECT && row[k] == b;
    } else if b in RowBlocks(row, NDIRECT + 1, NSLOTS) {
      k :| NDIRECT + 1 <= k < NSLOTS && row[k] == b;
    } else {
      k := NDIRECT;
    }
  }

  lemma {:induction false} AllAreOwned(g: Geo, fs: Fs, i: nat)
    requires Tidy(g, fs, {}) && i < g.ninodes
    ensures |fs.slots| == g.ninodes && |fs.slots[i]| == NSLOTS
    ensures AllBlocks(fs.slots[i]) == OwnedBy(fs.owner, i)
  {
    hide AllBlocks, SlotsAre, UsedIs, Marked;
    TidyShape(g, fs);
    var row := fs.slots[i];
    forall b | b in OwnedBy(fs.owner, i) ensures b in AllBlocks(row) {
      assert row[fs.owner[b].k] == b;
      AllBlocksHas(row, fs.owner[b].k);
    }
    forall b | b in AllBlocks(row) ensures b in OwnedBy(fs.owner, i) {
      var k := AllBlocksOnly(row, b);
      assert fs.owner[row[k]] == Place(i, k);
    }
  }

  function NoAddrs(): (a: seq<nat>) { seq(NDIRECT + 1, _ => 0) }

  function NoSlots(): (a: seq<nat>) { seq(NSLOTS, _ => 0) }

  // addrs with the first k cleared
  function Cleared(addrs: seq<nat>, k: nat): (r: seq<nat>)
    requires k <= |addrs|
  { seq(k, _ => 0) + addrs[k..] }

  // inode i with the first k addresses cleared
  function ClearedTo(inodes: seq<Inode>, i: nat, k: nat): (r: seq<Inode>)
    requires i < |inodes| && k <= |inodes[i].addrs|
    ensures |r| == |inodes| && |r[i].addrs| == |inodes[i].addrs| && r[i].size == inodes[i].size
  { inodes[i := inodes[i].(addrs := Cleared(inodes[i].addrs, k))] }

  lemma {:induction false} ClearNext(inodes: seq<Inode>, i: nat, k: nat)
    requires i < |inodes| && k < |inodes[i].addrs|
    ensures var now := ClearedTo(inodes, i, k);
      && |now[i].addrs| == |inodes[i].addrs| && now[i].addrs[k] == inodes[i].addrs[k]
      && ClearedTo(inodes, i, k + 1) == now[i := now[i].(addrs := now[i].addrs[k := 0])]
      && (inodes[i].addrs[k] == 0 ==> ClearedTo(inodes, i, k + 1) == now)
  {
    var a := inodes[i].addrs;
    assert Cleared(a, k + 1) == Cleared(a, k)[k := 0];
    assert a[k] == 0 ==> Cleared(a, k + 1) == Cleared(a, k);
  }

  lemma {:induction false} ClearedAll(g: Geo, fs: Fs, i: nat)
    requires Shape(g, fs) && i < g.ninodes
    ensures var r := ClearedTo(fs.inodes, i, NDIRECT + 1);
      r[i := r[i].(size := 0)] == fs.inodes[i := Inode(NoAddrs(), 0)]
  {
    assert Cleared(fs.inodes[i].addrs, NDIRECT + 1) == NoAddrs();
  }

  // What an empty inode i means.
  function Emptied(fs: Fs, i: nat): (r: Fs)
    requires i < |fs.slots| && i < |fs.inodes|
  {
    fs.(inodes := fs.inodes[i := Inode(NoAddrs(), 0)], slots := fs.slots[i := NoSlots()],
        owner := map b | b in fs.owner && fs.owner[b].inum != i :: fs.owner[b])
  }

  lemma {:induction false} EmptiedOwned(g: Geo, slots: seq<seq<nat>>, owner: map<nat, Place>, i: nat)
    requires Owned(g, slots, owner) && i < |slots|
    ensures Owned(g, slots[i := NoSlots()], map b | b in owner && owner[b].inum != i :: owner[b])
  {
    var owner' := map b | b in owner && owner[b].inum != i :: owner[b];
    var slots': seq<seq<nat>> := slots[i := NoSlots()];
    forall b | b in owner' ensures
        && g.nmeta <= b < g.size && owner'[b].inum < |slots'| && owner'[b].k < |slots'[owner'[b].inum]|
        && slots'[owner'[b].inum][owner'[b].k] == b
    { assert owner'[b] == owner[b]; }
    forall j: nat, k: nat | j < |slots'| && k < |slots'[j]| && slots'[j][k] != 0
      ensures slots'[j][k] in owner' && owner'[slots'[j][k]] == Place(j, k)
    { assert slots'[j][k] == slots[j][k]; }
  }

  lemma {:induction false} EmptiedSlots(g: Geo, fs0: Fs, fs: Fs, i: nat)
    requires Tidy(g, fs0, {}) && i < g.ninodes && |fs.disk| == |fs0.disk| && fs.slots == fs0.slots
    requires forall c :: g.nmeta <= c < g.size ==> fs.disk[c] == fs0.disk[c]
    ensures SlotsAre(fs.disk, fs0.inodes[i := Inode(NoAddrs(), 0)], fs.slots[i := NoSlots()])
  {
    SlotsFrame(g, fs0.disk, fs0.inodes, fs0.slots, fs0.owner, fs.disk);
    var inodes, slots := fs0.inodes[i := Inode(NoAddrs(), 0)], fs.slots[i := NoSlots()];
    forall j | 0 <= j < |inodes| ensures GoodInode(inodes[j], |fs.disk|) && RowIs(fs.disk, inodes[j], slots[j]) {
      if j != i { assert RowIs(fs.disk, fs0.inodes[j], fs0.slots[j]); }
    }
  }

  /** When all of the inode's blocks are free and the inode is cleared, the file system is as it was,
      with that one file empty. */
  lemma {:induction false} TruncDone(g: Geo, fs0: Fs, fs: Fs, i: nat)
    requires Valid(g, fs0) && i < g.ninodes && Freeing(g, fs0, fs, OwnedBy(fs0.owner, i))
    requires fs.inodes == fs0.inodes[i := Inode(NoAddrs(), 0)]
    ensures Valid(g, Emptied(fs, i)) && SameOthers(fs0, Emptied(fs, i), i)
  {
    var r := Emptied(fs, i);
    EmptiedOwned(g, fs0.slots, fs0.owner, i);
    EmptiedSlots(g, fs0, fs, i);
    assert r.inodes == fs.inodes;
    TruncMarked(g, fs0.used, fs0.owner, i);
    assert Wf(g, r.disk, r.inodes);
    assert Tidy(g, r, {});
  }

  lemma {:induction false} TruncMarked(g: Geo, used: set<nat>, owner: map<nat, Place>, i: nat)
    requires Marked(g, used, owner, {}) && forall b :: b in owner ==> g.nmeta <= b
    ensures Marked(g, used - OwnedBy(owner, i), map b | b in owner && owner[b].inum != i :: owner[b], {})
  {
    var owner' := map b | b in owner && owner[b].inum != i :: owner[b];
    assert owner'.Keys == owner.Keys - OwnedBy(owner, i);
    assert Meta(g) !! OwnedBy(owner, i);
  }

  lemma {:induction false} IndirectKept(g: Geo, fs0: Fs, fs: Fs, i: nat, gone: set<nat>)
    requires Tidy(g, fs0, {}) && i < g.ninodes && Freeing(g, fs0, fs, gone) && fs0.inodes[i].addrs[NDIRECT] != 0
    ensures var ind := fs0.inodes[i].addrs[NDIRECT]; ind < |fs.disk| == |fs0.disk| && fs.disk[ind] == fs0.disk[ind]
  {
    SlotBounds(g, fs0, i, NDIRECT);
    assert fs0.slots[i][NDIRECT] == fs0.inodes[i].addrs[NDIRECT];
  }

  // ----- what it logs -----

  // The free-map blocks that hold the bits of these blocks.
  function Maps(g: Geo, bs: set<nat>): (r: set<nat>) { set b | b in bs :: BitBlock(g, b) }

  // How many blocks of the free map have bits of data blocks.
  function DataMaps(g: Geo): nat {
    if g.nmeta < g.size then (g.size - 1) / BPB - g.nmeta / BPB + 1 else 0
  }

  /** Since log0, exactly the free-map blocks of `gone` have been logged. */
  ghost predicate Logged(g: Geo, log0: seq<nat>, log: seq<nat>, gone: set<nat>) {
    log0 <= log && Elems(log[|log0|..]) == Maps(g, gone)
  }

  lemma {:induction false} LoggedStart(g: Geo, log: seq<nat>)
    ensures Logged(g, log, log, {})
  {
  }

  lemma {:induction false} LoggedStep(g: Geo, log0: seq<nat>, log: seq<nat>, gone: set<nat>, b: nat)
    requires Logged(g, log0, log, gone)
    ensures Logged(g, log0, log + [BitBlock(g, b)], gone + {b})
  {
    var l, l' := log[|log0|..], (log + [BitBlock(g, b)])[|log0|..];
    assert l' == l + [BitBlock(g, b)];
    assert Elems(l') == Elems(l) + {BitBlock(g, b)};
    assert Maps(g, gone + {b}) == Maps(g, gone) + {BitBlock(g, b)};
  }

  lemma {:induction false} MapsBelow(g: Geo, bs: set<nat>)
    requires forall b :: b in bs ==> g.nmeta <= b < g.size
    ensures |Maps(g, bs)| <= DataMaps(g)
    ensures forall m :: m in Maps(g, bs) ==> g.bm <= m
  {
    var lo := g.bm + g.nmeta / BPB;
    IntervalSize(lo, DataMaps(g));
    forall b | b in bs ensures lo <= BitBlock(g, b) < lo + DataMaps(g) {
      assert g.nmeta <= b < g.size;
      Between(g.nmeta, b, g.size - 1);
    }
    SubsetSize(Maps(g, bs), Interval(lo, DataMaps(g)));
  }

  lemma {:induction false} Between(a: nat, b: nat, c: nat)
    requires a <= b <= c
    ensures a / BPB <= b / BPB <= c / BPB
  {
  }

  lemma {:induction false} OwnedBelow(g: Geo, fs: Fs, i: nat)
    requires Tidy(g, fs, {})
    ensures GoodGeo(g) && forall b :: b in OwnedBy(fs.owner, i) ==> g.nmeta <= b < g.size
  {
  }

  /** itrunc logs the free-map blocks of the blocks it frees, and the inode's block: one more than those
      free-map blocks, and never more than the free map has, and one. */
  lemma {:induction false} TruncLogs(g: Geo, log0: seq<nat>, log: seq<nat>, gone: set<nat>, i: nat)
    requires GoodGeo(g) && i < g.ninodes && Logged(g, log0, log, gone)
    requires forall b :: b in gone ==> g.nmeta <= b < g.size
    ensures var l := log + [g.inodestart + i / IPB];
      && log0 <= l && Elems(l[|log0|..]) == Maps(g, gone) + {g.inodestart + i / IPB}
      && Distinct(l[|log0|..]) == |Maps(g, gone)| + 1 <= DataMaps(g) + 1
  {
    hide Maps, DataMaps, BitBlock, GoodGeo, Elems, Distinct;
    var ib := g.inodestart + i / IPB;
    MapsBelow(g, gone);
    InodeBlock(g, i);
    ElemsMore(log0, log, ib);
    ElemsSize(log[|log0|..]);
  }

  lemma {:induction false} ElemsSize(l: seq<nat>)
    ensures Distinct(l) == |Elems(l)|
  {
  }

  // The inode blocks lie below the free map.
  lemma {:induction false} InodeBlock(g: Geo, i: nat)
    requires GoodGeo(g) && i < g.ninodes
    ensures g.inodestart + i / IPB < g.bm
  {
    assert i / IPB <= g.ninodes / IPB;
  }

  lemma {:induction false} ElemsMore(log0: seq<nat>, log: seq<nat>, x: nat)
    requires log0 <= log
    ensures log0 <= log + [x] && Elems((log + [x])[|log0|..]) == Elems(log[|log0|..]) + {x}
    ensures x !in Elems(log[|log0|..]) ==> Distinct((log + [x])[|log0|..]) == Distinct(log[|log0|..]) + 1
  {
    assert (log + [x])[|log0|..] == log[|log0|..] + [x];
  }
}
