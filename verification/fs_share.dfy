/**
 itrunc and an operation's share of the log: on which disks the truncation of some file logs more than
 the share.
 */
module FsShare {
  import opened Param
  import opened Common
  import opened FsBlocks
  import opened FsModel
  import opened FsContent
  import opened FsOps
  import opened FsTrunc

  // ----- a file system without files -----

  // A zeroed disk with the first n blocks marked used.
  function Blank(g: Geo, n: nat): (disk: seq<Block>)
    requires GoodGeo(g) && n <= g.nmeta
    ensures |disk| == g.size
  { if n == 0 then seq(g.size, _ => Zeros()) else Flipped(g, Blank(g, n - 1), n - 1) }

  lemma {:induction false} BlankUsed(g: Geo, n: nat)
    requires GoodGeo(g) && n <= g.nmeta
    ensures UsedIs(g, Blank(g, n), Interval(0, n))
  {
    if n == 0 {
      forall b: nat | b < g.size ensures BitBlock(g, b) < g.size && !Used(Blank(g, 0), g.bm, b) {
        BitBlockBelow(g, b);
        NoBit(b % 8);
      }
    } else {
      BlankUsed(g, n - 1);
      IntervalSize(0, n - 1);
      FlippedUsed(g, Blank(g, n - 1), n - 1, Interval(0, n - 1));
    }
  }

  lemma {:induction false} NoBit(k: nat)
    ensures !Bit(0, k)
  {
    if k > 0 { NoBit(k - 1); }
  }

  function NoFiles(g: Geo): (fs: Fs)
    requires GoodGeo(g)
  {
    Fs(Blank(g, g.nmeta), seq(g.ninodes, _ => Inode(NoAddrs(), 0)), seq(g.ninodes, _ => NoSlots()), Meta(g), map[])
  }

  lemma {:induction false} NoFilesTidy(g: Geo)
    requires GoodGeo(g)
    ensures Tidy(g, NoFiles(g), {})
  {
    hide UsedIs, Blank;
    BlankUsed(g, g.nmeta);
    IntervalSize(0, g.nmeta);
    assert Meta(g) == Interval(0, g.nmeta);
    var fs := NoFiles(g);
    assert Wf(g, fs.disk, fs.inodes);
    assert SlotsAre(fs.disk, fs.inodes, fs.slots);
    assert Owned(g, fs.slots, fs.owner);
  }

  // ----- a file with a block in each of ten free-map blocks -----

  // A data block whose bit is in the k-th block of the free map that has bits of data blocks.
  function Far(g: Geo, k: nat): nat { if k == 0 then g.nmeta else (g.nmeta / BPB + k) * BPB }

  predicate Wide(g: Geo) { GoodGeo(g) && g.ninodes > 0 && DataMaps(g) > 9 }

  lemma {:induction false} FarPlace(g: Geo, k: nat)
    requires Wide(g)
    ensures Far(g, k) / BPB == g.nmeta / BPB + k && (k < 10 ==> g.nmeta <= Far(g, k) < g.size)
  {
    var q := g.nmeta / BPB;
    if k > 0 {
      Multiple(q + k);
      if k < 10 { AtMost(q + k, (g.size - 1) / BPB, g.size - 1); }
    }
  }

  lemma {:induction false} Multiple(q: nat)
    ensures q * BPB / BPB == q
  {
  }

  lemma {:induction false} AtMost(q: nat, p: nat, x: nat)
    requires q <= p == x / BPB
    ensures q * BPB <= x
  {
    assert p * BPB <= x;
  }

  // The file's first n blocks are allocated and mapped.
  ghost predicate Spread(g: Geo, fs: Fs, n: nat) {
    && Tidy(g, fs, {}) && (forall i :: 0 <= i < g.ninodes ==> fs.inodes[i].size == 0)
    && (forall b {:trigger fs.owner[b]} :: b in fs.owner ==> exists k: nat :: k < n && b == Far(g, k))
    && (forall k: nat :: k < n ==> Far(g, k) in fs.owner && fs.owner[Far(g, k)] == Place(0, k))
  }

  lemma {:induction false} SpreadStart(g: Geo)
    requires Wide(g)
    ensures Spread(g, NoFiles(g), 0)
  {
    hide Tidy, Blank;
    NoFilesTidy(g);
  }

  lemma {:induction false} SpreadSlot(g: Geo, fs: Fs, n: nat)
    requires Wide(g) && Spread(g, fs, n) && n < 10
    ensures fs.slots[0][n] == 0 && Far(g, n) !in fs.used && Far(g, n) < g.size && Far(g, n) !in fs.owner
  {
    hide Far;
    FarPlace(g, n);
    if Far(g, n) in fs.owner {
      assert fs.owner[Far(g, n)] == fs.owner[Far(g, n)];
      var k: nat :| k < n && Far(g, n) == Far(g, k);
      FarPlace(g, k);
      assert false;
    }
  }

  lemma {:induction false} SpreadNext(g: Geo, fs: Fs, n: nat) returns (fs': Fs)
    requires Wide(g) && Spread(g, fs, n) && n < 10
    ensures Spread(g, fs', n + 1)
  {
    hide Tidy, Far;
    var b := Far(g, n);
    SpreadSlot(g, fs, n);
    AllocatedTidy(g, fs, b);
    TidyShape(g, fs);
    var mid := Allocated(g, fs, b);
    SetAddrTidy(g, mid, 0, n, b);
    fs' := SetAddr(mid, 0, n, b);
    assert fs'.owner == fs.owner[b := Place(0, n)];
    forall k: nat | k < n + 1 ensures Far(g, k) in fs'.owner && fs'.owner[Far(g, k)] == Place(0, k) { }
    forall c | c in fs'.owner ensures exists k: nat :: k < n + 1 && c == Far(g, k) {
      if c != b { assert fs.owner[c] == fs.owner[c]; }
    }
  }

  lemma {:induction false} SpreadOver(g: Geo, n: nat) returns (fs: Fs)
    requires Wide(g) && n <= 10
    ensures Spread(g, fs, n)
  {
    hide Spread;
    if n == 0 {
      SpreadStart(g);
      fs := NoFiles(g);
    } else {
      fs := SpreadOver(g, n - 1);
      fs := SpreadNext(g, fs, n - 1);
    }
  }

  lemma {:induction false} SpreadMaps(g: Geo, fs: Fs)
    requires Wide(g) && Spread(g, fs, 10)
    ensures |Maps(g, OwnedBy(fs.owner, 0))| >= 10
  {
    hide Tidy, Far;
    var ms, lo := Maps(g, OwnedBy(fs.owner, 0)), g.bm + g.nmeta / BPB;
    IntervalSize(lo, 10);
    forall m | m in Interval(lo, 10) ensures m in ms {
      FarPlace(g, m - lo);
      assert Far(g, m - lo) in OwnedBy(fs.owner, 0);
    }
    SubsetSize(Interval(lo, 10), ms);
  }

  // The file has the size that goes with its ten blocks.
  lemma {:induction false} SpreadValid(g: Geo, fs: Fs)
    requires Wide(g) && Spread(g, fs, 10)
    ensures 0 < |fs.inodes| && Valid(g, Resized(fs, 0, 10 * BSIZE))
  {
    hide Far;
    TidyShape(g, fs);
    ResizedTidy(g, fs, 0, 10 * BSIZE);
    forall bn: nat | bn < MAXFILE && bn * BSIZE < 10 * BSIZE ensures fs.slots[0][SlotOf(bn)] != 0 {
      FarPlace(g, bn);
      assert fs.owner[Far(g, bn)] == Place(0, bn);
    }
  }

  /** Truncating file i would log more than an operation's share. */
  ghost predicate Overruns(g: Geo, fs: Fs, i: nat) {
    Valid(g, fs) && i < g.ninodes && |Maps(g, OwnedBy(fs.owner, i))| + 1 > MAXOPBLOCKS
  }

  /** There is a file system with such a file exactly if more than nine blocks of the free map have bits of
      data blocks. */
  lemma {:induction false} OverrunsIff(g: Geo)
    requires GoodGeo(g)
    ensures (exists fs, i :: Overruns(g, fs, i)) <==> g.ninodes > 0 && DataMaps(g) > 9
  {
    hide Tidy, Maps, Valid;
    if Wide(g) {
      var fs := SpreadOver(g, 10);
      SpreadMaps(g, fs);
      SpreadValid(g, fs);
      assert Overruns(g, Resized(fs, 0, 10 * BSIZE), 0);
    }
    if fs, i :| Overruns(g, fs, i) {
      OwnedBelow(g, fs, i) by { OverrunTidy(g, fs, i); }
      MapsBelow(g, OwnedBy(fs.owner, i));
    }
  }

  lemma {:induction false} OverrunTidy(g: Geo, fs: Fs, i: nat)
    requires Overruns(g, fs, i)
    ensures Tidy(g, fs, {})
  {
  }
}
