/**
 Directories: a file of 16-byte entries, an inode number and a name of up to 14 bytes each,
 refines a map from names to inode numbers.
 */
module FsDir {
  import opened FsBlocks
  import opened FsModel
  import opened FsContent
  import opened FsWrite
  import opened FsOps
  import opened FsRoom
  import opened FsTurns
  import opened FsCode

  const DIRSIZ: nat := 14
  const DE: nat := 16
  const USHORT: nat := 0x1_0000

  // ----- names -----

  /** The string at s: up to a NUL, and at most n bytes. */
  function Name(s: seq<Byte>, n: nat): (r: seq<Byte>)
    ensures |r| <= n && |r| <= |s|
    decreases n
  { if n == 0 || s == [] || s[0] == 0 then [] else [s[0]] + Name(s[1..], n - 1) }

  // n bytes can be read from s, or a NUL comes first.
  predicate Readable(s: seq<Byte>, n: nat) { n <= |s| || 0 in s }

  /** strncmp finds two strings equal exactly when they are the same name. */
  method Strncmp(p: seq<Byte>, q: seq<Byte>, n: nat) returns (r: int)
    requires Readable(p, n) && Readable(q, n)
    ensures r == 0 <==> Name(p, n) == Name(q, n)
  {
    hide Name;
    var k := 0;
    while k < n && p[k] != 0 && p[k] == q[k]
      invariant k <= n && k <= |p| && k <= |q| && Readable(p[k..], n - k) && Readable(q[k..], n - k)
      invariant Name(p, n) == Name(q, n) <==> Name(p[k..], n - k) == Name(q[k..], n - k)
    {
      SameHead(p[k..], q[k..], n - k);
      assert p[k..][1..] == p[k + 1..] && q[k..][1..] == q[k + 1..];
      k := k + 1;
    }
    if k == n { Nothing(p[k..]); Nothing(q[k..]); return 0; }
    DifferentHead(p[k..], q[k..], n - k);
    var a: int, b: int := p[k], q[k];
    r := a - b;
  }

  lemma {:induction false} Nothing(p: seq<Byte>)
    ensures Name(p, 0) == []
  {
  }

  lemma {:induction false} SameHead(p: seq<Byte>, q: seq<Byte>, n: nat)
    requires 0 < n && p != [] && q != [] && p[0] == q[0] != 0
    requires Readable(p, n) && Readable(q, n)
    ensures Name(p, n) == Name(q, n) <==> Name(p[1..], n - 1) == Name(q[1..], n - 1)
    ensures Readable(p[1..], n - 1) && Readable(q[1..], n - 1)
  {
    assert ([p[0]] + Name(p[1..], n - 1))[1..] == Name(p[1..], n - 1);
    assert ([q[0]] + Name(q[1..], n - 1))[1..] == Name(q[1..], n - 1);
  }

  lemma {:induction false} DifferentHead(p: seq<Byte>, q: seq<Byte>, n: nat)
    requires 0 < n && p != [] && q != [] && Readable(p, n) && Readable(q, n) && (p[0] == 0 || p[0] != q[0])
    ensures Name(p, n) == Name(q, n) <==> p[0] == q[0]
  {
    hide Name;
    Head(p, n);
    Head(q, n);
  }

  lemma {:induction false} Head(p: seq<Byte>, n: nat)
    requires 0 < n && Readable(p, n)
    ensures p != [] && (Name(p, n) == [] <==> p[0] == 0) && (p[0] != 0 ==> Name(p, n)[0] == p[0])
  {
  }

  /** strncpy: the name, then NULs. */
  method Strncpy(s: array<Byte>, t: seq<Byte>, n: nat)
    requires n <= s.Length && Readable(t, n)
    modifies s
    ensures s[..n] == Padded(Name(t, n), n) && s[n..] == old(s[n..])
  {
    hide Name;
    var k := 0;
    while k < n && t[k] != 0
      invariant k <= n && k <= |t| && Readable(t[k..], n - k) && s[n..] == old(s[n..])
      invariant Name(t, n) == s[..k] + Name(t[k..], n - k)
    {
      NameStep(t, k, n);
      s[k] := t[k];
      k := k + 1;
    }
    if k < n { Head(t[k..], n - k); }
    ghost var len := k;
    while k < n
      invariant len <= k <= n && s[n..] == old(s[n..])
      invariant Name(t, n) == s[..len] && forall j :: len <= j < k ==> s[j] == 0
    {
      s[k] := 0;
      k := k + 1;
    }
  }

  lemma {:induction false} NameStep(t: seq<Byte>, k: nat, n: nat)
    requires k < n && k < |t| && t[k] != 0 && Readable(t[k..], n - k)
    ensures Name(t[k..], n - k) == [t[k]] + Name(t[k + 1..], n - k - 1) && Readable(t[k + 1..], n - k - 1)
  {
    assert t[k..][1..] == t[k + 1..];
  }

  function Padded(s: seq<Byte>, n: nat): (r: seq<Byte>)
    requires |s| <= n
    ensures |r| == n
  { s + seq(n - |s|, _ => 0) }

  /** A padded name is the same name again. */
  lemma {:induction false} PaddedName(s: seq<Byte>, m: nat, n: nat)
    requires m <= n
    ensures Name(Padded(Name(s, m), n), m) == Name(s, m)
    decreases m
  {
    if m != 0 && s != [] && s[0] != 0 {
      PaddedName(s[1..], m - 1, n - 1);
      assert Padded(Name(s, m), n)[1..] == Padded(Name(s[1..], m - 1), n - 1);
    }
  }

  // ----- entries -----

  function Entry(c: seq<Byte>, k: nat): (e: seq<Byte>)
    requires DE * k + DE <= |c|
    ensures |e| == DE
  { c[DE * k..DE * k + DE] }

  function Inum(e: seq<Byte>): (i: nat)
    requires |e| == DE
  {
    var lo: int, hi: int := e[0], e[1];
    lo + 0x100 * hi
  }

  function EntryName(e: seq<Byte>): (s: seq<Byte>)
    requires |e| == DE
  { Name(e[2..], DIRSIZ) }

  function Dirent(name: seq<Byte>, inum: nat): (e: seq<Byte>)
    ensures |e| == DE
  { [inum % USHORT % 0x100, inum % USHORT / 0x100] + Padded(Name(name, DIRSIZ), DIRSIZ) }

  lemma {:induction false} DirentMeans(name: seq<Byte>, inum: nat)
    ensures Inum(Dirent(name, inum)) == inum % USHORT && EntryName(Dirent(name, inum)) == Name(name, DIRSIZ)
  {
    assert Dirent(name, inum)[2..] == Padded(Name(name, DIRSIZ), DIRSIZ);
    PaddedName(name, DIRSIZ, DIRSIZ);
  }

  /** The directory that entries k on hold: a name means its first entry with an inode number. */
  function DirFrom(c: seq<Byte>, k: nat): (m: map<seq<Byte>, nat>)
    decreases |c| - DE * k
  {
    if DE * k + DE > |c| then map[]
    else if Inum(Entry(c, k)) == 0 then DirFrom(c, k + 1)
    else DirFrom(c, k + 1)[EntryName(Entry(c, k)) := Inum(Entry(c, k))]
  }

  // Entry k is one for this name.
  predicate IsFor(c: seq<Byte>, k: nat, key: seq<Byte>)
    requires DE * k + DE <= |c|
  { Inum(Entry(c, k)) != 0 && EntryName(Entry(c, k)) == key }

  function Dir(c: seq<Byte>): (m: map<seq<Byte>, nat>) { DirFrom(c, 0) }

  /** The first entry from k on with no inode number, or the end. */
  function FirstEmpty(c: seq<Byte>, k: nat): (e: nat)
    ensures k <= e
    decreases |c| - DE * k
  {
    if DE * k + DE > |c| || Inum(Entry(c, k)) == 0 then k else FirstEmpty(c, k + 1)
  }

  // ----- linking -----

  // Entries other than e are the same after a write at e.
  lemma {:induction false} SpliceEntry(c: seq<Byte>, e: nat, d: seq<Byte>, k: nat)
    requires |c| % DE == 0 && DE * e <= |c| && |d| == DE
    ensures var c' := Splice(c, DE * e, d);
      && |c'| == Max(|c|, DE * e + DE) && Entry(c', e) == d
      && (k != e && DE * k + DE <= |c| ==> Entry(c', k) == Entry(c, k))
  {
    if k != e && DE * k + DE <= |c| {
      assert k < e || e < k;
      assert Entry(Splice(c, DE * e, d), k) == Entry(c, k);
    }
  }

  // Past the entry written, nothing changes.
  lemma {:induction false} LinkAfter(c: seq<Byte>, e: nat, d: seq<Byte>, k: nat)
    requires |c| % DE == 0 && DE * e <= |c| && |d| == DE && e < k
    ensures DirFrom(Splice(c, DE * e, d), k) == DirFrom(c, k)
    decreases |c| - DE * k
  {
    hide Splice, Entry, Inum, Name;
    SpliceEntry(c, e, d, k);
    if DE * k + DE <= |c| { LinkAfter(c, e, d, k + 1); }
  }

  /** Writing a new name's entry into the first empty slot adds exactly that name. */
  lemma {:induction false} LinkAdds(c: seq<Byte>, d: seq<Byte>, k: nat)
    requires |c| % DE == 0 && DE * k <= |c| && |d| == DE && EntryName(d) !in DirFrom(c, k)
    ensures DE * FirstEmpty(c, k) <= |c|
    ensures DirFrom(Splice(c, DE * FirstEmpty(c, k), d), k) ==
      if Inum(d) == 0 then DirFrom(c, k) else DirFrom(c, k)[EntryName(d) := Inum(d)]
    decreases |c| - DE * k
  {
    hide Splice, Entry, Inum, Name;
    var e := FirstEmpty(c, k);
    if DE * k + DE > |c| || Inum(Entry(c, k)) == 0 {
      SpliceEntry(c, k, d, k);
      LinkAfter(c, k, d, k + 1);
    } else {
      LinkAdds(c, d, k + 1);
      SpliceEntry(c, e, d, k);
    }
  }

  // ----- the directory operations -----

  datatype Lookup = Found(inum: nat, off: nat) | Absent | Halted

  ghost predicate IsDir(f: FileSystem, dp: nat)
    reads f
  { Valid(f.g, f.fs) && dp < f.g.ninodes && |f.dinodes| == f.g.ninodes }

  lemma {:induction false} DirShape(g: Geo, fs: Fs, dp: nat)
    requires Valid(g, fs) && dp < g.ninodes
    ensures HasRow(fs, dp) && fs.inodes[dp].size == |Content(fs, dp)| && fs.inodes[dp].size + DE < UINT
  {
    TidyShape(g, fs);
  }

  // The entry at offset off is the first one for this name.
  ghost predicate FirstFor(c: seq<Byte>, off: nat, key: seq<Byte>) {
    && off % DE == 0 && off + DE <= |c| && IsFor(c, off / DE, key)
    && forall k: nat :: DE * k < off ==> !IsFor(c, k, key)
  }

  /** dirlookup: the inode number the directory's map has for the name, and where its entry is. It
      halts only if the file is not a whole number of entries and the name is not among them. */
  method DirLookup(f: FileSystem, dp: nat, name: seq<Byte>) returns (r: Lookup)
    requires IsDir(f, dp) && Readable(name, DIRSIZ)
    modifies f`fs, f`log, f`under
    ensures f.fs == old(f.fs) && f.log == old(f.log) && f.under == old(f.under)
    ensures HasRow(f.fs, dp)
    ensures var m := Dir(Content(f.fs, dp)); var key := Name(name, DIRSIZ);
      match r
      case Found(inum, off) => key in m && m[key] == inum && FirstFor(Content(f.fs, dp), off, key)
      case Absent => key !in m && |Content(f.fs, dp)| % DE == 0
      case Halted => key !in m && |Content(f.fs, dp)| % DE != 0
  {
    hide Valid, Content, Name, Inum;
    DirShape(f.g, f.fs, dp);
    ghost var c, key := Content(f.fs, dp), Name(name, DIRSIZ);
    var off, k := 0, 0;
    while off < f.fs.inodes[dp].size
      invariant off == DE * k <= |c| && f.fs == old(f.fs) && f.log == old(f.log) && f.under == old(f.under)
      invariant forall j: nat :: j < k ==> !IsFor(c, j, key)
      invariant key in Dir(c) <==> key in DirFrom(c, k)
      invariant key in Dir(c) ==> Dir(c)[key] == DirFrom(c, k)[key]
    {
      var n, de := f.ReadI(dp, off, DE, _ => true);
      if n != DE { return Halted; }
      assert de == Entry(c, k);
      if Inum(de) != 0 {
        var diff := Strncmp(name, de[2..], DIRSIZ);
        if diff == 0 {
          assert off / DE == k;
          return Found(Inum(de), off);
        }
      }
      off, k := off + DE, k + 1;
    }
    r := Absent;
  }

  // dirlink's search for an empty entry
  method EmptySlot(f: FileSystem, dp: nat) returns (off: nat)
    requires IsDir(f, dp) && HasRow(f.fs, dp) && |Content(f.fs, dp)| % DE == 0
    modifies f`fs, f`log, f`under
    ensures f.fs == old(f.fs) && f.log == old(f.log) && f.under == old(f.under)
    ensures off == DE * FirstEmpty(Content(f.fs, dp), 0) <= |Content(f.fs, dp)|
  {
    hide Valid, Content, Inum;
    DirShape(f.g, f.fs, dp);
    ghost var c := Content(f.fs, dp);
    off := 0;
    var k := 0;
    while off < f.fs.inodes[dp].size
      invariant off == DE * k <= |c| && f.fs == old(f.fs) && f.log == old(f.log) && f.under == old(f.under)
      invariant FirstEmpty(c, 0) == FirstEmpty(c, k)
    {
      var n, de := f.ReadI(dp, off, DE, _ => true);
      assert n == DE && de == Entry(c, k);
      if Inum(de) == 0 { break; }
      off, k := off + DE, k + 1;
    }
  }

  lemma {:induction false} FilesSame(g: Geo, fs: Fs, i: nat)
    requires Valid(g, fs)
    ensures SameFiles(fs, fs, i)
  {
  }

  lemma {:induction false} DirentIs(name: seq<Byte>, inum: nat)
    ensures Dirent(name, inum) == [inum % USHORT % 0x100, inum % USHORT / 0x100] + Padded(Name(name, DIRSIZ), DIRSIZ)
  {
  }

  /** The entry lies within one block, so it is written whole or not at all. */
  lemma {:induction false} LinkDone(c: seq<Byte>, name: seq<Byte>, inum: nat, n: int)
    requires |c| % DE == 0 && Name(name, DIRSIZ) !in Dir(c) && -1 <= n <= DE
    requires 0 <= n < DE ==> OnBlock(DE * FirstEmpty(c, 0), n)
    ensures DE * FirstEmpty(c, 0) <= |c| && (n == -1 || n == 0 || n == DE)
    ensures var c' := Splice(c, DE * FirstEmpty(c, 0), Dirent(name, inum));
      && |c'| % DE == 0
      && Dir(c') == (if inum % USHORT == 0 then Dir(c) else Dir(c)[Name(name, DIRSIZ) := inum % USHORT])
      && (Dir(c') == Dir(c)[Name(name, DIRSIZ) := inum] <==> 0 < inum < USHORT)
    ensures Splice(c, DE * FirstEmpty(c, 0), Dirent(name, inum)[..0]) == c
    ensures Dirent(name, inum)[..DE] == Dirent(name, inum)
  {
    hide Dirent, DirFrom, FirstEmpty, Inum, EntryName, OnBlock;
    DirentMeans(name, inum);
    LinkAdds(c, Dirent(name, inum), 0);
    WholeEntry(FirstEmpty(c, 0), n);
    Bound(Dir(c), Name(name, DIRSIZ), inum);
  }

  // Which inode numbers survive being cut to 16 bits.
  lemma {:induction false} Bound(m: map<seq<Byte>, nat>, key: seq<Byte>, inum: nat)
    requires key !in m
    ensures (if inum % USHORT == 0 then m else m[key := inum % USHORT]) == m[key := inum] <==> 0 < inum < USHORT
  {
    if inum % USHORT != 0 && inum >= USHORT { assert m[key := inum % USHORT][key] != m[key := inum][key]; }
    if inum % USHORT == 0 { assert key in m[key := inum]; }
  }

  lemma {:induction false} WholeEntry(e: nat, n: int)
    requires 0 <= n < DE ==> OnBlock(DE * e, n)
    ensures 0 <= n < DE ==> n == 0
  {
  }

  /** For example: linking the name "a" to inode 65537 in an empty directory binds it to inode 1. */
  lemma {:induction false} LinkWraps()
    ensures Dir(Splice([], 0, Dirent([97], 65537))) == map[[97] := 1]
  {
    hide Dirent, FirstEmpty, Splice;
    var name: seq<Byte> := [97];
    assert Dir([]) == map[];
    assert FirstEmpty([], 0) == 0 by { NoEntries(); }
    assert Name(name, DIRSIZ) == name by { assert Name(name[1..], DIRSIZ - 1) == []; }
    LinkDone([], name, 65537, DE);
  }

  lemma {:induction false} NoEntries()
    ensures FirstEmpty([], 0) == 0
  {
  }

  /** dirlink of a name that is present fails; of a new name, it adds that name, in the first empty entry,
      exactly if the file may reach that far and the disk has the blocks it lacks for that. Failing leaves
      the directory as it was. The name is bound to
      the number's low 16 bits, or to nothing if these are 0: to inum itself exactly if that is between
      1 and 65535. No other file changes. */
  method DirLink(f: FileSystem, dp: nat, name: seq<Byte>, inum: nat) returns (r: int)
    requires IsDir(f, dp) && Readable(name, DIRSIZ) && HasRow(f.fs, dp) && |Content(f.fs, dp)| % DE == 0
    modifies f`fs, f`log, f`dinodes, f`under
    ensures IsDir(f, dp) && HasRow(f.fs, dp) && SameFiles(old(f.fs), f.fs, dp) && |Content(f.fs, dp)| % DE == 0
    ensures r == 0 || r == -1
    ensures Name(name, DIRSIZ) in Dir(old(Content(f.fs, dp))) ==> r == -1 && f.fs == old(f.fs)
    ensures r == -1 ==> Content(f.fs, dp) == old(Content(f.fs, dp))
    ensures r == 0 ==> var m := Dir(old(Content(f.fs, dp)));
      Dir(Content(f.fs, dp)) == if inum % USHORT == 0 then m else m[Name(name, DIRSIZ) := inum % USHORT]
    ensures r == 0 ==>
              (Dir(Content(f.fs, dp)) == Dir(old(Content(f.fs, dp)))[Name(name, DIRSIZ) := inum] <==> 0 < inum < USHORT)
    ensures r == 0 ==> var c := old(Content(f.fs, dp));
      DE * FirstEmpty(c, 0) <= |c| && Content(f.fs, dp) == Splice(c, DE * FirstEmpty(c, 0), Dirent(name, inum))
    ensures r == 0 <==>
              var c := old(Content(f.fs, dp)); var at := DE * FirstEmpty(c, 0);
              Name(name, DIRSIZ) !in Dir(c) && at + DE <= MAXFILE * BSIZE && HasRoom(f.g, old(f.fs), dp, at, DE)
  {
    hide Valid, Content, Name, Inum, Dir, FirstEmpty, Dirent, Full, SameFiles, SameOthers, HasRoom, Filled, Spots,
         ChunkLen;
    ghost var c, fs0 := Content(f.fs, dp), f.fs;
    DirShape(f.g, f.fs, dp);
    FilesSame(f.g, f.fs, dp);
    var l := DirLookup(f, dp, name);
    if l.Found? { return -1; }
    var off := EmptySlot(f, dp);
    var buf := new Byte[DIRSIZ];
    Strncpy(buf, name, DIRSIZ);
    var de := [inum % USHORT % 0x100, inum % USHORT / 0x100] + buf[..];
    assert de == Dirent(name, inum) by { assert buf[..DIRSIZ] == buf[..]; DirentIs(name, inum); }
    var n; ghost var torn, kept;
    n, torn, kept := f.WriteI(dp, off, de, _ => DE, _ => false);
    LinkDone(c, name, inum, n);
    DirShape(f.g, f.fs, dp);
    r := if n != DE then -1 else 0;
  }
}
