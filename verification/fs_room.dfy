/**
 How many blocks a write needs: the slots on the way to its bytes that have no block yet. A write has room
 if the disk has as many free blocks as that.
 */
module FsRoom {
  import opened Common
  import opened FsBlocks
  import opened FsModel
  import opened FsContent

  predicate Touches(off: nat, n: nat, k: nat) {
    && n > 0
    && if k < NDIRECT then off / BSIZE <= k <= (off + n - 1) / BSIZE
       else if k == NDIRECT then NDIRECT <= (off + n - 1) / BSIZE
       else off / BSIZE <= k - 1 <= (off + n - 1) / BSIZE
  }

  // The slots on the way to the bytes off..off + n.
  function Spots(off: nat, n: nat): (ks: set<nat>) { set k: nat | k < NSLOTS && Touches(off, n, k) }

  // The slots among ks that have no block.
  function Lack(row: seq<nat>, ks: set<nat>): (r: set<nat>) { set k | k in ks && k < |row| && row[k] == 0 }

  /** There is a free block for each slot that needs one. */
  predicate HasRoom(g: Geo, fs: Fs, i: nat, off: nat, n: nat)
    requires i < |fs.slots|
  { |fs.used| + |Lack(fs.slots[i], Spots(off, n))| <= g.size }

  /** Blocks were given to empty slots of inode i among ks, and no other slot changed. */
  ghost predicate Filled(slots: seq<seq<nat>>, slots': seq<seq<nat>>, i: nat, ks: set<nat>) {
    && |slots'| == |slots| && i < |slots| && |slots'[i]| == |slots[i]|
    && (forall j :: 0 <= j < |slots| && j != i ==> slots'[j] == slots[j])
    && (forall k :: 0 <= k < |slots[i]| && (k !in ks || slots[i][k] != 0) ==> slots'[i][k] == slots[i][k])
  }

  lemma {:induction false} FilledRefl(slots: seq<seq<nat>>, i: nat, ks: set<nat>)
    requires i < |slots|
    ensures Filled(slots, slots, i, ks)
  {
  }

  lemma {:induction false} FilledTrans(slots0: seq<seq<nat>>, slots1: seq<seq<nat>>, slots2: seq<seq<nat>>, i: nat,
                                       ks: set<nat>, ks': set<nat>)
    requires Filled(slots0, slots1, i, ks) && Filled(slots1, slots2, i, ks') && ks' <= ks
    ensures Filled(slots0, slots2, i, ks)
  {
  }

  // The way to one block of the write.
  lemma {:induction false} ChainInSpots(off: nat, n: nat, p: nat)
    requires off <= p < off + n <= MAXFILE * BSIZE
    ensures p / BSIZE < MAXFILE && Chain(p / BSIZE) <= Spots(off, n)
  {
    Ordered(off, p);
    Ordered(p, off + n - 1);
  }

  // Part of the write.
  lemma {:induction false} SpotsIn(off: nat, n: nat, off': nat, n': nat)
    requires off <= off' && off' + n' <= off + n
    ensures Spots(off', n') <= Spots(off, n)
  {
    if n' > 0 {
      Ordered(off, off');
      Ordered(off' + n' - 1, off + n - 1);
    }
  }

  lemma {:induction false} Ordered(a: nat, b: nat)
    requires a <= b
    ensures a / BSIZE <= b / BSIZE
  {
  }

  // ----- counting -----

  lemma {:induction false} ImageSize(ks: set<nat>, row: seq<nat>)
    requires forall k :: k in ks ==> k < |row|
    requires forall k, l :: k in ks && l in ks && row[k] == row[l] ==> k == l
    ensures |set k | k in ks :: row[k]| == |ks|
    decreases |ks|
  {
    var image := set k | k in ks :: row[k];
    if ks == {} {
      assert image == {};
    } else {
      var x :| x in ks;
      var rest := ks - {x};
      ImageSize(rest, row);
      var less := set k | k in rest :: row[k];
      assert row[x] !in less;
      assert image == less + {row[x]};
    }
  }

  // The slots that got a block.
  function Newly(row: seq<nat>, row': seq<nat>, ks: set<nat>): (r: set<nat>)
    requires |row'| == |row|
  { set k | k in ks && k < |row| && row[k] == 0 && row'[k] != 0 }

  // The used blocks are those of before and those of the new slots.
  lemma {:induction false} NewlyUsed(g: Geo, fs: Fs, fs': Fs, i: nat, ks: set<nat>)
    requires Tidy(g, fs, {}) && Tidy(g, fs', {}) && Filled(fs.slots, fs'.slots, i, ks)
    ensures fs'.used == fs.used + set k | k in Newly(fs.slots[i], fs'.slots[i], ks) :: fs'.slots[i][k]
    ensures forall k :: k in Newly(fs.slots[i], fs'.slots[i], ks) ==> fs'.slots[i][k] !in fs.used
  {
    hide Wf, SlotsAre, UsedIs;
    var row, row' := fs.slots[i], fs'.slots[i];
    var got := Newly(row, row', ks);
    forall k | k in got ensures row'[k] in fs'.used && row'[k] !in fs.used {
      var b := row'[k];
      assert fs'.owner[b] == Place(i, k);
      if b in fs.owner { StillOwned(g, fs, fs', i, ks, b); }
    }
    forall b | b in fs.used ensures b in fs'.used {
      if b in fs.owner { StillOwned(g, fs, fs', i, ks, b); }
    }
    forall b | b in fs'.used && b !in fs.used ensures exists k :: k in got && row'[k] == b {
      NewOwner(g, fs, fs', i, ks, b);
      assert fs'.owner[b].k in got;
    }
  }

  lemma {:induction false} NewOwner(g: Geo, fs: Fs, fs': Fs, i: nat, ks: set<nat>, b: nat)
    requires Tidy(g, fs, {}) && Tidy(g, fs', {}) && Filled(fs.slots, fs'.slots, i, ks) && b in fs'.used && b !in fs.used
    ensures b in fs'.owner && fs'.owner[b].k in Newly(fs.slots[i], fs'.slots[i], ks)
    ensures fs'.slots[i][fs'.owner[b].k] == b
  {
    hide SlotsAre, UsedIs;
    var p := fs'.owner[b];
    assert fs'.slots[p.inum][p.k] == b != 0;
    if fs.slots[p.inum][p.k] == b {
      assert false;
    }
  }

  lemma {:induction false} StillOwned(g: Geo, fs: Fs, fs': Fs, i: nat, ks: set<nat>, b: nat)
    requires Tidy(g, fs, {}) && Tidy(g, fs', {}) && Filled(fs.slots, fs'.slots, i, ks) && b in fs.owner
    ensures b in fs'.owner && fs'.owner[b] == fs.owner[b]
    ensures fs.owner[b].inum == i ==> fs.owner[b].k < |fs.slots[i]| && fs.slots[i][fs.owner[b].k] == b != 0
  {
    hide SlotsAre, UsedIs;
    var p := fs.owner[b];
    assert fs.slots[p.inum][p.k] == b != 0;
    assert fs'.slots[p.inum][p.k] == b;
  }

  /** Conservation: what a write uses up of the disk is what it no longer lacks. */
  lemma {:induction false} Conserved(g: Geo, fs: Fs, fs': Fs, i: nat, ks: set<nat>)
    requires Tidy(g, fs, {}) && Tidy(g, fs', {}) && Filled(fs.slots, fs'.slots, i, ks)
    ensures |fs'.used| + |Lack(fs'.slots[i], ks)| == |fs.used| + |Lack(fs.slots[i], ks)|
  {
    hide Wf, SlotsAre, UsedIs, Marked;
    var row, row' := fs.slots[i], fs'.slots[i];
    var got := Newly(row, row', ks);
    NewlyUsed(g, fs, fs', i, ks);
    forall k, l | k in got && l in got && row'[k] == row'[l] ensures k == l {
      assert fs'.owner[row'[k]] == Place(i, k) && fs'.owner[row'[l]] == Place(i, l);
    }
    ImageSize(got, row');
    assert fs.used !! set k | k in got :: row'[k];
    assert Lack(row, ks) == Lack(row', ks) + got && Lack(row', ks) !! got;
  }

  lemma {:induction false} UsedSize(g: Geo, fs: Fs)
    requires Tidy(g, fs, {})
    ensures |fs.used| <= g.size && (|fs.used| == g.size <==> forall c: nat :: c < g.size ==> c in fs.used)
  {
    hide Wf, SlotsAre, Owned, Marked;
    var all := Interval(0, g.size);
    IntervalSize(0, g.size);
    SubsetSize(fs.used, all);
    if |fs.used| == g.size {
      assert all == fs.used + (all - fs.used);
      assert all - fs.used == {};
    }
    if forall c: nat :: c < g.size ==> c in fs.used {
      assert all == fs.used;
    }
  }

  // ----- room -----

  /** Nothing is lacking for bytes that the file has. */
  lemma {:induction false} NoneLacking(g: Geo, fs: Fs, i: nat, off: nat, n: nat)
    requires Valid(g, fs) && i < g.ninodes && off + n <= fs.inodes[i].size
    ensures Lack(fs.slots[i], Spots(off, n)) == {}
  {
    hide UsedIs, Owned, Marked;
    var row := fs.slots[i];
    assert RowIs(fs.disk, fs.inodes[i], row);
    forall k | k in Spots(off, n) && k < NSLOTS ensures row[k] != 0 {
      var last := (off + n - 1) / BSIZE;
      assert last * BSIZE <= off + n - 1;
      var bn := if k < NDIRECT then k else if k == NDIRECT then last else k - 1;
      assert bn * BSIZE <= last * BSIZE;
      assert row[SlotOf(bn)] != 0;
      assert row[SlotOf(bn)] == Slot(fs.disk, fs.inodes[i], SlotOf(bn));
    }
  }

  /** A write that got all its blocks had room. */
  lemma {:induction false} RoomWas(g: Geo, fs: Fs, fs': Fs, i: nat, off: nat, n: nat)
    requires Valid(g, fs) && Valid(g, fs') && i < g.ninodes && off + n <= fs'.inodes[i].size
    requires Filled(fs.slots, fs'.slots, i, Spots(off, n))
    ensures HasRoom(g, fs, i, off, n)
  {
    hide Tidy, Covered;
    Conserved(g, fs, fs', i, Spots(off, n));
    NoneLacking(g, fs', i, off, n);
    UsedSize(g, fs');
  }

  /** A write that found the disk full while it lacked a block had none. */
  lemma {:induction false} NoRoomWas(g: Geo, fs: Fs, fs': Fs, i: nat, off: nat, n: nat, k: nat)
    requires Valid(g, fs) && Valid(g, fs') && i < g.ninodes && Filled(fs.slots, fs'.slots, i, Spots(off, n))
    requires forall c: nat :: c < g.size ==> c in fs'.used
    requires k in Spots(off, n) && k < |fs'.slots[i]| && fs'.slots[i][k] == 0
    ensures !HasRoom(g, fs, i, off, n)
  {
    hide Tidy, Covered;
    Conserved(g, fs, fs', i, Spots(off, n));
    UsedSize(g, fs');
    SubsetSize({k}, Lack(fs'.slots[i], Spots(off, n)));
  }
}
