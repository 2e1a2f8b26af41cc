/**
 The on-disk file system as values: which block each slot of each inode refers to, who owns
 which block, and what the free map must say about it.
 */
module FsModel {
  import opened FsBlocks

  const NDIRECT: nat := 12
  const MAXFILE: nat := NDIRECT + NINDIRECT
  // Slots of an inode: its direct blocks, its indirect block, the entries of its indirect block.
  const NSLOTS: nat := NDIRECT + 1 + NINDIRECT
  const IPB: nat := 16
  // Offsets and lengths are 32-bit numbers.
  const UINT: nat := 0x1_0000_0000

  /** The superblock's numbers; blocks below nmeta hold metadata. */
  datatype Geo = Geo(size: nat, ninodes: nat, inodestart: nat, bm: nat, nmeta: nat)

  predicate GoodGeo(g: Geo) {
    && 0 < g.inodestart && g.inodestart + g.ninodes / IPB < g.bm
    && g.bm + g.size / BPB < g.nmeta <= g.size < WORDMAX
  }

  datatype Inode = Inode(addrs: seq<nat>, size: nat)
  datatype Place = Place(inum: nat, k: nat)

  /** The disk and the inodes, and what they say: `slots` which block each slot of each inode
      refers to (0 for none), `used` which blocks the free map marks, `owner` which slot refers to
      each block. */
  datatype Fs = Fs(disk: seq<Block>, inodes: seq<Inode>, slots: seq<seq<nat>>, used: set<nat>, owner: map<nat, Place>)

  predicate GoodInode(ip: Inode, n: nat) {
    |ip.addrs| == NDIRECT + 1 && ip.addrs[NDIRECT] < n && ip.size <= MAXFILE * BSIZE
  }

  predicate Wf(g: Geo, disk: seq<Block>, inodes: seq<Inode>) {
    && GoodGeo(g) && |disk| == g.size && |inodes| == g.ninodes
    && forall i :: 0 <= i < |inodes| ==> GoodInode(inodes[i], g.size)
  }

  function Slot(disk: seq<Block>, ip: Inode, k: nat): (b: nat)
    requires GoodInode(ip, |disk|) && k < NSLOTS
  {
    if k <= NDIRECT then ip.addrs[k]
    else if ip.addrs[NDIRECT] == 0 then 0
    else Word(disk[ip.addrs[NDIRECT]], k - NDIRECT - 1)
  }

  // The slot of the bn-th block of a file.
  function SlotOf(bn: nat): (k: nat)
    requires bn < MAXFILE
    ensures k < NSLOTS && k != NDIRECT
  { if bn < NDIRECT then bn else bn + 1 }

  // The slots on the way to the bn-th block of a file.
  function Chain(bn: nat): (ks: set<nat>)
    requires bn < MAXFILE
  { if bn < NDIRECT then {bn} else {NDIRECT, bn + 1} }

  // ----- what the bytes say -----

  ghost predicate SlotsAre(disk: seq<Block>, inodes: seq<Inode>, slots: seq<seq<nat>>) {
    && |slots| == |inodes|
    && forall i :: 0 <= i < |inodes| ==> GoodInode(inodes[i], |disk|) && RowIs(disk, inodes[i], slots[i])
  }

  ghost predicate RowIs(disk: seq<Block>, ip: Inode, row: seq<nat>)
    requires GoodInode(ip, |disk|)
  { |row| == NSLOTS && forall k :: 0 <= k < NSLOTS ==> row[k] == Slot(disk, ip, k) }

  ghost predicate UsedIs(g: Geo, disk: seq<Block>, used: set<nat>)
    requires GoodGeo(g) && |disk| == g.size
  {
    && (forall b: nat {:trigger Used(disk, g.bm, b)} :: b < g.size ==> (Used(disk, g.bm, b) <==> b in used))
    && (forall b :: b in used ==> b < g.size)
  }

  // ----- who owns what -----

  function Meta(g: Geo): set<nat> { set b: nat | b < g.nmeta && InMeta(g, b) }
  predicate InMeta(g: Geo, b: nat) { b < g.nmeta }

  /** Every block a slot refers to is owned by that slot; every owned block is in its owner's slot. */
  ghost predicate Owned(g: Geo, slots: seq<seq<nat>>, owner: map<nat, Place>) {
    && (forall i: nat, k: nat {:trigger slots[i][k]} :: i < |slots| && k < |slots[i]| && slots[i][k] != 0 ==>
          slots[i][k] in owner && owner[slots[i][k]] == Place(i, k))
    && (forall b {:trigger owner[b]} :: b in owner ==>
          && g.nmeta <= b < g.size && owner[b].inum < |slots| && owner[b].k < |slots[owner[b].inum]|
          && slots[owner[b].inum][owner[b].k] == b)
  }

  /** The free map marks the metadata, the owned blocks and the blocks in `extra`, and no others. */
  ghost predicate Marked(g: Geo, used: set<nat>, owner: map<nat, Place>, extra: set<nat>) {
    used == Meta(g) + owner.Keys + extra && extra !! owner.Keys && extra !! Meta(g)
  }

  ghost predicate Tidy(g: Geo, fs: Fs, extra: set<nat>) {
    && Wf(g, fs.disk, fs.inodes)
    && SlotsAre(fs.disk, fs.inodes, fs.slots) && UsedIs(g, fs.disk, fs.used)
    && Owned(g, fs.slots, fs.owner) && Marked(g, fs.used, fs.owner, extra)
  }

  // ----- changes to the disk that leave every slot alone -----

  predicate Indirect(owner: map<nat, Place>, b: nat) { b in owner && owner[b].k == NDIRECT }

  /** Slots are read from inodes and from indirect blocks only. */
  lemma {:induction false} SlotsFrame(g: Geo, disk: seq<Block>, inodes: seq<Inode>, slots: seq<seq<nat>>,
                                      owner: map<nat, Place>, disk': seq<Block>)
    requires SlotsAre(disk, inodes, slots) && Owned(g, slots, owner) && |disk'| == |disk|
    requires forall b :: 0 <= b < |disk| && Indirect(owner, b) ==> disk'[b] == disk[b]
    ensures SlotsAre(disk', inodes, slots)
  {
    forall i | 0 <= i < |inodes| ensures RowIs(disk', inodes[i], slots[i]) {
      var ind := inodes[i].addrs[NDIRECT];
      assert slots[i][NDIRECT] == ind;
      if ind != 0 { assert Indirect(owner, ind); }
    }
  }

  // ----- balloc -----

  function BitBlock(g: Geo, b: nat): nat { g.bm + b / BPB }

  lemma {:induction false} BitBlockBelow(g: Geo, b: nat)
    requires GoodGeo(g) && b < g.size
    ensures BitBlock(g, b) < g.nmeta
  {
  }

  // The disk after the bit of block b was flipped.
  function Flipped(g: Geo, disk: seq<Block>, b: nat): (r: seq<Block>)
    requires GoodGeo(g) && |disk| == g.size && b < g.size
    ensures |r| == g.size && forall c :: g.nmeta <= c < g.size ==> r[c] == disk[c]
  {
    BitBlockBelow(g, b);
    disk[BitBlock(g, b) := Flip(disk[BitBlock(g, b)], b % BPB)]
  }

  lemma {:induction false} FlippedUsed(g: Geo, disk: seq<Block>, b: nat, used: set<nat>)
    requires GoodGeo(g) && |disk| == g.size && b < g.size && UsedIs(g, disk, used)
    ensures UsedIs(g, Flipped(g, disk, b), if b in used then used - {b} else used + {b})
  {
    hide Used, Flip;
    forall c: nat | c < g.size
      ensures Used(Flipped(g, disk, b), g.bm, c) <==> if c == b then b !in used else c in used
    {
      BitBlockBelow(g, c);
      FlipBit(disk, g.bm, b, c);
      assert Used(disk, g.bm, c) <==> c in used;
    }
  }

  lemma {:induction false} UsedFrame(g: Geo, disk: seq<Block>, disk': seq<Block>, used: set<nat>)
    requires GoodGeo(g) && |disk| == |disk'| == g.size && UsedIs(g, disk, used)
    requires forall b :: 0 <= b < g.nmeta ==> disk'[b] == disk[b]
    ensures UsedIs(g, disk', used)
  {
    hide Used;
    forall c: nat | c < g.size ensures Used(disk', g.bm, c) <==> c in used {
      BitBlockBelow(g, c);
      SameBit(disk, disk', g.bm, c);
      assert Used(disk, g.bm, c) <==> c in used;
    }
  }

  lemma {:induction false} SameBit(disk: seq<Block>, disk': seq<Block>, bm: nat, c: nat)
    requires bm + c / BPB < |disk| == |disk'| && disk'[bm + c / BPB] == disk[bm + c / BPB]
    ensures Used(disk', bm, c) <==> Used(disk, bm, c)
  {
  }

  // The state after balloc returned b.
  function Allocated(g: Geo, fs: Fs, b: nat): (r: Fs)
    requires GoodGeo(g) && |fs.disk| == g.size && b < g.size
  { fs.(disk := Flipped(g, fs.disk, b)[b := Zeros()], used := fs.used + {b}) }

  lemma {:induction false} AllocatedTidy(g: Geo, fs: Fs, b: nat)
    requires Tidy(g, fs, {}) && b < g.size && b !in fs.used
    ensures g.nmeta <= b && b !in fs.owner && Tidy(g, Allocated(g, fs, b), {b})
  {
    assert b !in Meta(g);
    var disk := Flipped(g, fs.disk, b);
    FlippedUsed(g, fs.disk, b, fs.used);
    SlotsFrame(g, fs.disk, fs.inodes, fs.slots, fs.owner, disk[b := Zeros()]);
    UsedFrame(g, disk, disk[b := Zeros()], fs.used + {b});
  }

  // ----- giving an allocated block to a slot -----

  function PutSlot(slots: seq<seq<nat>>, i: nat, k: nat, b: nat): seq<seq<nat>>
    requires i < |slots| && k < |slots[i]|
  {
    var row: seq<nat> := slots[i][k := b];
    slots[i := row]
  }

  function Give(fs: Fs, i: nat, k: nat, b: nat): Fs
    requires i < |fs.slots| && k < |fs.slots[i]|
  { fs.(slots := PutSlot(fs.slots, i, k, b), owner := fs.owner[b := Place(i, k)]) }

  lemma {:induction false} GiveOwned(g: Geo, slots: seq<seq<nat>>, owner: map<nat, Place>, i: nat, k: nat, b: nat)
    requires Owned(g, slots, owner) && i < |slots| && k < |slots[i]| && slots[i][k] == 0
    requires b !in owner && 0 < g.nmeta <= b < g.size
    ensures Owned(g, PutSlot(slots, i, k, b), owner[b := Place(i, k)])
  {
    var slots', owner' := PutSlot(slots, i, k, b), owner[b := Place(i, k)];
    forall c | c in owner' && c != b
      ensures slots'[owner'[c].inum][owner'[c].k] == c
    { assert owner'[c] == owner[c]; }
    forall j: nat, m: nat | j < |slots'| && m < |slots'[j]| && slots'[j][m] != 0
      ensures slots'[j][m] in owner' && owner'[slots'[j][m]] == Place(j, m)
    { if !(j == i && m == k) { assert slots'[j][m] == slots[j][m]; } }
  }

  // A marked block that nobody owns yet.
  lemma {:induction false} ExtraBlock(g: Geo, fs: Fs, b: nat)
    requires Tidy(g, fs, {b})
    ensures g.nmeta <= b < g.size && b !in fs.owner
  {
    hide SlotsAre, Owned;
    assert b in fs.used && b in {b};
    assert g.nmeta <= b by { assert b !in Meta(g); }
  }

  // ip->addrs[k] = b
  function SetAddr(fs: Fs, i: nat, k: nat, b: nat): Fs
    requires i < |fs.inodes| && k < |fs.inodes[i].addrs| && i < |fs.slots| && k < |fs.slots[i]|
  {
    Give(fs, i, k, b).(inodes := fs.inodes[i := fs.inodes[i].(addrs := fs.inodes[i].addrs[k := b])])
  }

  lemma {:induction false} SetAddrTidy(g: Geo, fs: Fs, i: nat, k: nat, b: nat)
    requires Tidy(g, fs, {b}) && i < g.ninodes && k <= NDIRECT && fs.slots[i][k] == 0
    requires k == NDIRECT ==> fs.disk[b] == Zeros()
    ensures Tidy(g, SetAddr(fs, i, k, b), {})
  {
    hide Slot, Used, UsedIs;
    ExtraBlock(g, fs, b);
    GiveOwned(g, fs.slots, fs.owner, i, k, b);
    SetAddrRow(fs.disk, fs.inodes[i], fs.slots[i], k, b);
    var ip := fs.inodes[i].(addrs := fs.inodes[i].addrs[k := b]);
    RowsAre(fs.disk, fs.inodes, fs.slots, i, ip, k, b);
    assert Wf(g, fs.disk, fs.inodes[i := ip]);
    assert Marked(g, fs.used, fs.owner[b := Place(i, k)], {});
  }

  lemma {:induction false} RowsAre(disk: seq<Block>, inodes: seq<Inode>, slots: seq<seq<nat>>, i: nat, ip: Inode,
                                   k: nat, b: nat)
    requires SlotsAre(disk, inodes, slots) && i < |inodes| && k < |slots[i]|
    requires GoodInode(ip, |disk|) && RowIs(disk, ip, slots[i][k := b])
    ensures SlotsAre(disk, inodes[i := ip], PutSlot(slots, i, k, b))
  {
  }

  lemma {:induction false} SetAddrRow(disk: seq<Block>, ip: Inode, row: seq<nat>, k: nat, b: nat)
    requires GoodInode(ip, |disk|) && RowIs(disk, ip, row) && k <= NDIRECT && b < |disk| && row[k] == 0
    requires k == NDIRECT ==> disk[b] == Zeros()
    ensures GoodInode(ip.(addrs := ip.addrs[k := b]), |disk|)
    ensures RowIs(disk, ip.(addrs := ip.addrs[k := b]), row[k := b])
  {
    var ip' := ip.(addrs := ip.addrs[k := b]);
    assert ip.addrs[k] == row[k];
    forall m | 0 <= m < NSLOTS ensures row[k := b][m] == Slot(disk, ip', m) {
      if m > NDIRECT && k == NDIRECT { WordOfZeros(m - NDIRECT - 1); }
    }
  }

  // a[k - NDIRECT - 1] = b in the indirect block
  function SetEntry(fs: Fs, i: nat, k: nat, b: nat): Fs
    requires i < |fs.inodes| && GoodInode(fs.inodes[i], |fs.disk|) && NDIRECT < k < NSLOTS && b < WORDMAX
    requires i < |fs.slots| && k < |fs.slots[i]|
  {
    var ind := fs.inodes[i].addrs[NDIRECT];
    Give(fs, i, k, b).(disk := fs.disk[ind := SetWord(fs.disk[ind], k - NDIRECT - 1, b)])
  }

  lemma {:induction false} SetEntryTidy(g: Geo, fs: Fs, i: nat, k: nat, b: nat)
    requires Tidy(g, fs, {b}) && i < g.ninodes && NDIRECT < k < NSLOTS && fs.slots[i][k] == 0
    requires fs.inodes[i].addrs[NDIRECT] != 0
    ensures b < WORDMAX && Tidy(g, SetEntry(fs, i, k, b), {})
  {
    ExtraBlock(g, fs, b);
    GiveOwned(g, fs.slots, fs.owner, i, k, b);
    var ind := fs.inodes[i].addrs[NDIRECT];
    assert fs.slots[i][NDIRECT] == ind;
    UsedFrame(g, fs.disk, SetEntry(fs, i, k, b).disk, fs.used);
    EntryRows(g, fs.disk, fs.inodes, fs.slots, fs.owner, i, k, b);
  }

  lemma {:induction false} EntryRows(g: Geo, disk: seq<Block>, inodes: seq<Inode>, slots: seq<seq<nat>>,
                                     owner: map<nat, Place>, i: nat, k: nat, b: nat)
    requires SlotsAre(disk, inodes, slots) && Owned(g, slots, owner) && i < |inodes| && NDIRECT < k < NSLOTS
    requires b < WORDMAX
    requires inodes[i].addrs[NDIRECT] != 0
    ensures var ind := inodes[i].addrs[NDIRECT];
      SlotsAre(disk[ind := SetWord(disk[ind], k - NDIRECT - 1, b)], inodes, PutSlot(slots, i, k, b))
  {
    var ind := inodes[i].addrs[NDIRECT];
    var disk' := disk[ind := SetWord(disk[ind], k - NDIRECT - 1, b)];
    assert slots[i][NDIRECT] == ind;
    forall j | 0 <= j < |inodes| ensures RowIs(disk', inodes[j], PutSlot(slots, i, k, b)[j]) {
      if j == i {
        SetEntryRow(disk, inodes[i], slots[i], k, b);
      } else {
        assert slots[j][NDIRECT] == inodes[j].addrs[NDIRECT];
      }
    }
  }

  lemma {:induction false} SetEntryRow(disk: seq<Block>, ip: Inode, row: seq<nat>, k: nat, b: nat)
    requires GoodInode(ip, |disk|) && RowIs(disk, ip, row) && NDIRECT < k < NSLOTS && b < WORDMAX
    requires ip.addrs[NDIRECT] != 0
    ensures var ind := ip.addrs[NDIRECT];
      RowIs(disk[ind := SetWord(disk[ind], k - NDIRECT - 1, b)], ip, row[k := b])
  {
    var ind := ip.addrs[NDIRECT];
    var disk' := disk[ind := SetWord(disk[ind], k - NDIRECT - 1, b)];
    forall m | 0 <= m < NSLOTS ensures row[k := b][m] == Slot(disk', ip, m) {
      if m > NDIRECT { WordOfSet(disk[ind], k - NDIRECT - 1, b, m - NDIRECT - 1); }
    }
  }

  // ----- file data -----

  lemma {:induction false} WriteTidy(g: Geo, fs: Fs, b: nat, d: Block)
    requires Tidy(g, fs, {}) && b in fs.owner && fs.owner[b].k != NDIRECT
    ensures b < g.size && Tidy(g, fs.(disk := fs.disk[b := d]), {})
  {
    SlotsFrame(g, fs.disk, fs.inodes, fs.slots, fs.owner, fs.disk[b := d]);
    UsedFrame(g, fs.disk, fs.disk[b := d], fs.used);
  }
}
