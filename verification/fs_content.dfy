/**
 Files as byte sequences, and what changing the file system does to them.
 */
module FsContent {
  import opened FsBlocks
  import opened FsModel

  /** From fs to fs', inode i gained blocks in (some of) the slots ks and nothing else happened:
      no slot lost its block, and no block in use changed but i's indirect block. */
  ghost predicate Grew(fs: Fs, fs': Fs, i: nat, ks: set<nat>) {
    && |fs'.inodes| == |fs.inodes| && |fs'.disk| == |fs.disk| && |fs'.slots| == |fs.slots|
    && i < |fs.inodes| && i < |fs.slots| && fs'.inodes[i].size == fs.inodes[i].size
    && |fs'.slots[i]| == |fs.slots[i]|
    && (forall j :: 0 <= j < |fs.inodes| && j != i ==> fs'.inodes[j] == fs.inodes[j])
    && (forall j :: 0 <= j < |fs.slots| && j != i ==> fs'.slots[j] == fs.slots[j])
    && (forall k :: 0 <= k < |fs.slots[i]| && (k !in ks || fs.slots[i][k] != 0) ==> fs'.slots[i][k] == fs.slots[i][k])
    && (forall b {:trigger fs'.owner[b]} {:trigger fs.owner[b]} :: b in fs.owner ==>
          b in fs'.owner && fs'.owner[b] == fs.owner[b])
    && (forall b :: 0 <= b < |fs.disk| && b in fs.owner && fs.owner[b] != Place(i, NDIRECT) ==>
          fs'.disk[b] == fs.disk[b])
  }

  lemma {:induction false} GrewMono(fs: Fs, fs': Fs, i: nat, ks: set<nat>, ks': set<nat>)
    requires ks <= ks'
    ensures Grew(fs, fs', i, ks) ==> Grew(fs, fs', i, ks')
  {
  }

  lemma {:induction false} GrewRefl(fs: Fs, i: nat, ks: set<nat>)
    requires i < |fs.inodes| && i < |fs.slots|
    ensures Grew(fs, fs, i, ks)
  {
  }

  // ----- bytes of a file -----

  /** All blocks of the first len bytes exist. */
  predicate Covered(row: seq<nat>, len: nat)
    requires |row| == NSLOTS
  { forall bn: nat :: bn < MAXFILE && bn * BSIZE < len ==> row[SlotOf(bn)] != 0 }

  /** Byte p of file i. */
  function ByteAt(fs: Fs, i: nat, p: nat): (x: Byte)
    requires i < |fs.slots| && |fs.slots[i]| == NSLOTS && p < MAXFILE * BSIZE
  {
    var b := fs.slots[i][SlotOf(p / BSIZE)];
    if b < |fs.disk| then fs.disk[b][p % BSIZE] else 0
  }

  /** The file system between operations: tidy, with no holes in any file. */
  ghost predicate Valid(g: Geo, fs: Fs) {
    Tidy(g, fs, {}) && forall i :: 0 <= i < g.ninodes ==> Covered(fs.slots[i], fs.inodes[i].size)
  }

  lemma {:induction false} SlotBounds(g: Geo, fs: Fs, i: nat, k: nat)
    requires Tidy(g, fs, {}) && i < g.ninodes && k < NSLOTS
    ensures fs.slots[i][k] < g.size == |fs.disk|
    ensures fs.slots[i][k] != 0 ==> fs.slots[i][k] in fs.owner && fs.owner[fs.slots[i][k]] == Place(i, k)
  {
    if fs.slots[i][k] != 0 { assert fs.owner[fs.slots[i][k]] == Place(i, k); }
  }

  predicate HasRow(fs: Fs, i: nat) {
    i < |fs.inodes| && i < |fs.slots| && |fs.slots[i]| == NSLOTS && fs.inodes[i].size <= MAXFILE * BSIZE
  }

  function Content(fs: Fs, i: nat): (c: seq<Byte>)
    requires HasRow(fs, i)
    ensures |c| == fs.inodes[i].size
  {
    seq(fs.inodes[i].size, p requires 0 <= p < fs.inodes[i].size => ByteAt(fs, i, p))
  }

  /** Nothing changed for any inode but i. */
  ghost predicate SameOthers(fs: Fs, fs': Fs, i: nat) {
    && |fs'.inodes| == |fs.inodes| && |fs'.slots| == |fs.slots| && |fs'.disk| == |fs.disk|
    && (forall j :: 0 <= j < |fs.inodes| && j != i ==> fs'.inodes[j] == fs.inodes[j])
    && (forall j :: 0 <= j < |fs.slots| && j != i ==> fs'.slots[j] == fs.slots[j])
    && (forall b {:trigger fs'.owner[b]} {:trigger fs.owner[b]} :: b in fs.owner && fs.owner[b].inum != i ==>
          b in fs'.owner && fs'.owner[b] == fs.owner[b])
    && (forall b :: 0 <= b < |fs.disk| && b in fs.owner && fs.owner[b].inum != i ==> fs'.disk[b] == fs.disk[b])
  }

  /** Another inode's file then has the same contents. */
  lemma {:induction false} OthersKeepContent(g: Geo, fs: Fs, fs': Fs, i: nat, j: nat)
    requires Tidy(g, fs, {}) && Tidy(g, fs', {}) && SameOthers(fs, fs', i) && j < g.ninodes && j != i
    requires Covered(fs.slots[j], fs.inodes[j].size)
    ensures Content(fs', j) == Content(fs, j) && Covered(fs'.slots[j], fs'.inodes[j].size)
  {
    forall p | 0 <= p < fs.inodes[j].size ensures Content(fs', j)[p] == Content(fs, j)[p] {
      SlotBounds(g, fs, j, SlotOf(p / BSIZE));
    }
  }

  /** Every other file has the same contents. */
  ghost predicate SameFiles(fs: Fs, fs': Fs, i: nat) {
    forall j: nat :: j < |fs.inodes| && j != i ==> HasRow(fs, j) && HasRow(fs', j) && Content(fs', j) == Content(fs, j)
  }

  lemma {:induction false} OthersSameFiles(g: Geo, fs: Fs, fs': Fs, i: nat)
    requires Valid(g, fs) && Valid(g, fs') && SameOthers(fs, fs', i)
    ensures SameFiles(fs, fs', i)
  {
    forall j: nat | j < |fs.inodes| && j != i
      ensures HasRow(fs, j) && HasRow(fs', j) && Content(fs', j) == Content(fs, j)
    {
      OthersKeepContent(g, fs, fs', i, j);
    }
  }

  /** Bytes of blocks that existed survive growth. */
  lemma {:induction false} GrewKeepsByte(g: Geo, fs: Fs, fs': Fs, i: nat, ks: set<nat>, p: nat)
    requires Tidy(g, fs, {}) && Tidy(g, fs', {}) && Grew(fs, fs', i, ks) && i < g.ninodes && p < MAXFILE * BSIZE
    requires fs.slots[i][SlotOf(p / BSIZE)] != 0
    ensures ByteAt(fs', i, p) == ByteAt(fs, i, p)
  {
    SlotBounds(g, fs, i, SlotOf(p / BSIZE));
  }

  /** Copying s to offset off inside block bn of file i changes those bytes and no others. */
  lemma {:induction false} PatchByte(g: Geo, fs: Fs, i: nat, bn: nat, at: nat, s: seq<Byte>, p: nat)
    requires Tidy(g, fs, {}) && i < g.ninodes && bn < MAXFILE && at + |s| <= BSIZE && p < MAXFILE * BSIZE
    requires fs.slots[i][SlotOf(bn)] != 0 && fs.slots[i][SlotOf(p / BSIZE)] != 0
    ensures fs.slots[i][SlotOf(bn)] < |fs.disk|
    ensures var b := fs.slots[i][SlotOf(bn)]; var fs' := fs.(disk := fs.disk[b := Patch(fs.disk[b], at, s)]);
      ByteAt(fs', i, p) == if p / BSIZE == bn && at <= p % BSIZE < at + |s| then s[p % BSIZE - at] else ByteAt(fs, i, p)
  {
    SlotBounds(g, fs, i, SlotOf(bn));
    SlotBounds(g, fs, i, SlotOf(p / BSIZE));
  }

  // ----- one block's worth of writei -----

  /** File i has s at offset off (inside one block) and is otherwise the same where it existed. */
  ghost predicate Wrote(fs: Fs, fs': Fs, i: nat, off: nat, s: seq<Byte>)
    requires off + |s| <= MAXFILE * BSIZE
  {
    && SameOthers(fs, fs', i) && i < |fs.inodes| && i < |fs.slots| && |fs.slots[i]| == |fs'.slots[i]| == NSLOTS
    && fs'.inodes[i].size == fs.inodes[i].size
    && (forall k :: 0 <= k < NSLOTS && fs.slots[i][k] != 0 ==> fs'.slots[i][k] == fs.slots[i][k])
    && (s != [] ==> fs'.slots[i][SlotOf(off / BSIZE)] != 0)
    && (forall p: nat {:trigger ByteAt(fs', i, p)} :: p < MAXFILE * BSIZE ==>
          if off <= p < off + |s| then ByteAt(fs', i, p) == s[p - off]
          else fs.slots[i][SlotOf(p / BSIZE)] != 0 ==> ByteAt(fs', i, p) == ByteAt(fs, i, p))
  }

  /** Mapping a block writes nothing. */
  lemma {:induction false} GrewWrote(g: Geo, fs: Fs, fs': Fs, i: nat, ks: set<nat>, off: nat)
    requires i < g.ninodes && off <= MAXFILE * BSIZE
    ensures Tidy(g, fs, {}) && Tidy(g, fs', {}) && Grew(fs, fs', i, ks) ==> Wrote(fs, fs', i, off, [])
  {
    if Tidy(g, fs, {}) && Tidy(g, fs', {}) && Grew(fs, fs', i, ks) {
      forall p: nat | p < MAXFILE * BSIZE && fs.slots[i][SlotOf(p / BSIZE)] != 0
        ensures ByteAt(fs', i, p) == ByteAt(fs, i, p)
      { GrewKeepsByte(g, fs, fs', i, ks, p); }
    }
  }

  lemma {:induction false} PatchWrote(g: Geo, fs: Fs, i: nat, off: nat, s: seq<Byte>)
    requires Tidy(g, fs, {}) && i < g.ninodes && off / BSIZE < MAXFILE && off % BSIZE + |s| <= BSIZE && s != []
    requires fs.slots[i][SlotOf(off / BSIZE)] != 0
    ensures fs.slots[i][SlotOf(off / BSIZE)] < |fs.disk| && off + |s| <= MAXFILE * BSIZE
    ensures var b := fs.slots[i][SlotOf(off / BSIZE)];
      var fs' := fs.(disk := fs.disk[b := Patch(fs.disk[b], off % BSIZE, s)]);
      Tidy(g, fs', {}) && Wrote(fs, fs', i, off, s)
  {
    var bn := off / BSIZE;
    SlotBounds(g, fs, i, SlotOf(bn));
    var b := fs.slots[i][SlotOf(bn)];
    var d := Patch(fs.disk[b], off % BSIZE, s);
    WriteTidy(g, fs, b, d);
    forall p: nat | p < MAXFILE * BSIZE && fs.slots[i][SlotOf(p / BSIZE)] != 0
      ensures ByteAt(fs.(disk := fs.disk[b := d]), i, p) ==
                if off <= p < off + |s| then s[p - off] else ByteAt(fs, i, p)
    {
      PatchByte(g, fs, i, bn, off % BSIZE, s, p);
      SameBlock(off, |s|, p);
    }
    forall p: nat | off <= p < off + |s| ensures p / BSIZE == bn { SameBlock(off, |s|, p); }
  }

  lemma {:induction false} SameBlock(off: nat, m: nat, p: nat)
    requires off % BSIZE + m <= BSIZE
    ensures off <= p < off + m <==> p / BSIZE == off / BSIZE && off % BSIZE <= p % BSIZE < off % BSIZE + m
    ensures off <= p < off + m ==> p % BSIZE - off % BSIZE == p - off
  {
  }

  lemma {:induction false} WroteTrans(fs: Fs, mid: Fs, fs': Fs, i: nat, off: nat, s: seq<Byte>)
    requires off + |s| <= MAXFILE * BSIZE
    ensures Wrote(fs, mid, i, off, []) && Wrote(mid, fs', i, off, s) ==> Wrote(fs, fs', i, off, s)
  {
    if Wrote(fs, mid, i, off, []) && Wrote(mid, fs', i, off, s) {
      forall p: nat | p < MAXFILE * BSIZE && !(off <= p < off + |s|) && fs.slots[i][SlotOf(p / BSIZE)] != 0
        ensures ByteAt(fs', i, p) == ByteAt(fs, i, p)
      { assert ByteAt(mid, i, p) == ByteAt(fs, i, p); }
    }
  }

  // ----- writei's loop -----

  function Max(a: nat, b: nat): nat { if a < b then b else a }

  function Min(a: nat, b: nat): nat { if a < b then a else b }

  /** After tot bytes of src went to offset off of file i: the file so far. */
  ghost predicate Written(fs: Fs, fs': Fs, i: nat, off: nat, src: seq<Byte>, tot: nat)
    requires off + |src| <= MAXFILE * BSIZE && tot <= |src|
  {
    && SameOthers(fs, fs', i) && i < |fs.inodes| && i < |fs.slots| && |fs.slots[i]| == |fs'.slots[i]| == NSLOTS
    && fs'.inodes[i].size == fs.inodes[i].size <= MAXFILE * BSIZE
    && Covered(fs'.slots[i], Max(fs.inodes[i].size, off + tot))
    && (forall p: nat {:trigger ByteAt(fs', i, p)} :: p < Max(fs.inodes[i].size, off + tot) ==>
          ByteAt(fs', i, p) == if off <= p < off + tot then src[p - off] else ByteAt(fs, i, p))
  }

  lemma {:induction false} WrittenStart(g: Geo, fs: Fs, i: nat, off: nat, src: seq<Byte>)
    requires Valid(g, fs) && i < g.ninodes && off <= fs.inodes[i].size && off + |src| <= MAXFILE * BSIZE
    ensures Written(fs, fs, i, off, src, 0)
  {
  }

  lemma {:induction false} WrittenStep(fs: Fs, mid: Fs, fs': Fs, i: nat, off: nat, src: seq<Byte>, tot: nat, m: nat)
    requires off + |src| <= MAXFILE * BSIZE && tot + m <= |src|
    requires i < |fs.inodes| && off <= fs.inodes[i].size && (off + tot) % BSIZE + m <= BSIZE
    ensures Written(fs, mid, i, off, src, tot) && Wrote(mid, fs', i, off + tot, src[tot..tot + m]) ==>
              Written(fs, fs', i, off, src, tot + m)
  {
    if Written(fs, mid, i, off, src, tot) && Wrote(mid, fs', i, off + tot, src[tot..tot + m]) {
      WrittenCovers(fs, mid, fs', i, off, src, tot, m);
      var size := fs.inodes[i].size;
      forall p: nat | p < Max(size, off + tot + m)
        ensures ByteAt(fs', i, p) == if off <= p < off + tot + m then src[p - off] else ByteAt(fs, i, p)
      {
        if !(off + tot <= p < off + tot + m) {
          assert ByteAt(mid, i, p) == if off <= p < off + tot then src[p - off] else ByteAt(fs, i, p);
          assert p / BSIZE * BSIZE <= p;
          assert mid.slots[i][SlotOf(p / BSIZE)] != 0;
        }
      }
    }
  }

  lemma {:induction false} WrittenCovers(fs: Fs, mid: Fs, fs': Fs, i: nat, off: nat, src: seq<Byte>, tot: nat, m: nat)
    requires off + |src| <= MAXFILE * BSIZE && tot + m <= |src|
    requires i < |fs.inodes| && off <= fs.inodes[i].size && (off + tot) % BSIZE + m <= BSIZE
    requires Written(fs, mid, i, off, src, tot) && Wrote(mid, fs', i, off + tot, src[tot..tot + m])
    ensures Covered(fs'.slots[i], Max(fs.inodes[i].size, off + tot + m))
  {
    var size := fs.inodes[i].size;
    forall bn: nat | bn < MAXFILE && bn * BSIZE < Max(size, off + tot + m) ensures fs'.slots[i][SlotOf(bn)] != 0 {
      if bn * BSIZE >= Max(size, off + tot) { SameBlock(off + tot, m, bn * BSIZE); }
    }
  }

  // ----- the size -----

  function Resized(fs: Fs, i: nat, size: nat): Fs
    requires i < |fs.inodes|
  { fs.(inodes := fs.inodes[i := fs.inodes[i].(size := size)]) }

  lemma {:induction false} ResizedTidy(g: Geo, fs: Fs, i: nat, size: nat)
    requires Tidy(g, fs, {}) && i < g.ninodes && size <= MAXFILE * BSIZE
    ensures Tidy(g, Resized(fs, i, size), {})
  {
    var fs' := Resized(fs, i, size);
    forall j | 0 <= j < g.ninodes ensures RowIs(fs.disk, fs'.inodes[j], fs.slots[j]) {
      assert RowIs(fs.disk, fs.inodes[j], fs.slots[j]);
    }
  }

  /** Bytes s in place of those at offset off, extending the sequence if they reach past its end. */
  function Splice(c: seq<Byte>, off: nat, s: seq<Byte>): (r: seq<Byte>)
    requires off <= |c|
    ensures |r| == Max(|c|, off + |s|)
  { c[..off] + s + (if off + |s| < |c| then c[off + |s|..] else []) }

  /** The same when the last part of s goes to bytes that may be past the end of the file, which grows to
      take in the first tot bytes only. */
  function TornSplice(c: seq<Byte>, off: nat, s: seq<Byte>, tot: nat): (r: seq<Byte>)
    requires off <= |c| && tot <= |s|
    ensures |r| == Max(|c|, off + tot)
    ensures tot == |s| ==> r == Splice(c, off, s)
  { Splice(c, off, s)[..Max(|c|, off + tot)] }

  /** The file is as the result says exactly if the torn bytes that it reaches are the bytes it had. */
  lemma {:induction false} TornIff(c: seq<Byte>, off: nat, s: seq<Byte>, tot: nat)
    requires off <= |c| && tot <= |s|
    ensures TornSplice(c, off, s, tot) == Splice(c, off, s[..tot]) <==>
            forall k :: tot <= k < |s| && off + k < |c| ==> s[k] == c[off + k]
  {
    var a, b := TornSplice(c, off, s, tot), Splice(c, off, s[..tot]);
    forall k | tot <= k < |s| && off + k < |c| ensures a[off + k] == s[k] && b[off + k] == c[off + k] { }
    if forall k :: tot <= k < |s| && off + k < |c| ==> s[k] == c[off + k] {
      forall p | 0 <= p < |a| ensures a[p] == b[p] {
        if off + tot <= p < off + |s| && p < |c| { assert s[p - off] == c[off + (p - off)]; }
      }
    }
  }

  /** For example: of 100 ones to be written over 1024 zeros, all are copied into the buffer and the
      copy then faults; the result is 0, and the file is not what it was. */
  lemma {:induction false} TornChanges()
    ensures var c: seq<Byte>, s: seq<Byte> := seq(1024, _ => 0), seq(100, _ => 1);
      TornSplice(c, 0, s, 0) != Splice(c, 0, s[..0]) == c
  {
    var c: seq<Byte>, s: seq<Byte> := seq(1024, _ => 0), seq(100, _ => 1);
    TornIff(c, 0, s, 0);
    assert s[0] != c[0 + 0];
    assert s[..0] == [];
  }

  lemma {:induction false} WrittenValid(g: Geo, fs: Fs, fs': Fs, i: nat, off: nat, src: seq<Byte>, tot: nat, all: nat)
    requires Valid(g, fs) && Tidy(g, fs', {}) && i < g.ninodes
    requires off + |src| <= MAXFILE * BSIZE && tot <= all <= |src| && Written(fs, fs', i, off, src, all)
    ensures var r := Resized(fs', i, Max(fs.inodes[i].size, off + tot)); Valid(g, r) && SameOthers(fs, r, i)
  {
    var r := Resized(fs', i, Max(fs.inodes[i].size, off + tot));
    ResizedTidy(g, fs', i, Max(fs.inodes[i].size, off + tot));
    forall j | 0 <= j < g.ninodes ensures Covered(r.slots[j], r.inodes[j].size) {
      if j != i { assert r.slots[j] == fs.slots[j]; }
    }
  }

  /** When the loop is over and the size is set, the file is the old one with the bytes spliced in. */
  lemma {:induction false} WrittenContent(fs: Fs, fs': Fs, i: nat, off: nat, src: seq<Byte>, tot: nat, all: nat)
    requires HasRow(fs, i) && HasRow(fs', i) && off <= fs.inodes[i].size
    requires off + |src| <= MAXFILE * BSIZE && tot <= all <= |src| && Written(fs, fs', i, off, src, all)
    ensures Content(Resized(fs', i, Max(fs.inodes[i].size, off + tot)), i) ==
              TornSplice(Content(fs, i), off, src[..all], tot)
  {
    var size := Max(fs.inodes[i].size, off + tot);
    var r := Resized(fs', i, size);
    forall p | 0 <= p < size ensures Content(r, i)[p] == Splice(Content(fs, i), off, src[..all])[p] {
      assert ByteAt(fs', i, p) == ByteAt(r, i, p);
    }
  }

  // The inode's size grows to end if it was smaller.
  function Extended(fs: Fs, i: nat, end: nat): (r: Fs)
    requires i < |fs.inodes|
  { if end > fs.inodes[i].size then Resized(fs, i, end) else fs }

  /** writei after its loop: tot bytes were logged, and all of these went into the file's buffers. */
  lemma {:induction false} WriteDone(g: Geo, fs: Fs, fs': Fs, i: nat, off: nat, src: seq<Byte>, tot: nat, all: nat)
    requires Valid(g, fs) && Tidy(g, fs', {}) && i < g.ninodes && off <= fs.inodes[i].size
    requires off + |src| <= MAXFILE * BSIZE && tot <= all <= |src| && Written(fs, fs', i, off, src, all)
    ensures var r := Extended(fs', i, off + tot);
      && Valid(g, r) && SameOthers(fs, r, i) && SameFiles(fs, r, i) && r.used == fs'.used
      && HasRow(r, i) && Content(r, i) == TornSplice(Content(fs, i), off, src[..all], tot)
  {
    WrittenValid(g, fs, fs', i, off, src, tot, all);
    WrittenContent(fs, fs', i, off, src, tot, all);
    var r := Resized(fs', i, Max(fs.inodes[i].size, off + tot));
    assert r.inodes == Extended(fs', i, off + tot).inodes;
    OthersSameFiles(g, fs, r, i);
  }

  /** Part of a block is part of the file. */
  lemma {:induction false} BlockSlice(g: Geo, fs: Fs, i: nat, o: nat, m: nat)
    requires Valid(g, fs) && i < g.ninodes && HasRow(fs, i) && o + m <= fs.inodes[i].size && o % BSIZE + m <= BSIZE
    requires 0 < m
    ensures o / BSIZE < MAXFILE && fs.slots[i][SlotOf(o / BSIZE)] != 0 && fs.slots[i][SlotOf(o / BSIZE)] < |fs.disk|
    ensures Content(fs, i)[o..o + m] == fs.disk[fs.slots[i][SlotOf(o / BSIZE)]][o % BSIZE..o % BSIZE + m]
  {
    hide Tidy;
    assert o / BSIZE * BSIZE <= o;
    SlotBounds(g, fs, i, SlotOf(o / BSIZE));
    var d := fs.disk[fs.slots[i][SlotOf(o / BSIZE)]];
    var a, b := Content(fs, i)[o..o + m], d[o % BSIZE..o % BSIZE + m];
    forall x: nat | x < m ensures a[x] == b[x] {
      SameBlock(o, m, o + x);
      assert a[x] == ByteAt(fs, i, o + x);
    }
  }

  // ----- one write after another -----

  lemma {:induction false} SpliceSplice(c: seq<Byte>, off: nat, a: seq<Byte>, b: seq<Byte>)
    requires off <= |c|
    ensures Splice(Splice(c, off, a), off + |a|, b) == Splice(c, off, a + b)
  {
  }

  lemma {:induction false} SameFilesTrans(fs: Fs, mid: Fs, fs': Fs, i: nat)
    requires |mid.inodes| == |fs.inodes| && SameFiles(fs, mid, i) && SameFiles(mid, fs', i)
    ensures SameFiles(fs, fs', i)
  {
    forall j: nat | j < |fs.inodes| && j != i
      ensures HasRow(fs, j) && HasRow(fs', j) && Content(fs', j) == Content(fs, j)
    {
      assert HasRow(mid, j);
    }
  }
}
