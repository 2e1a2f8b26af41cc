/**
 Path names: skipelem takes a path apart at its slashes, namex follows it through the directories.
 */
module FsPath {
  import opened Common
  import opened FsBlocks
  import opened FsModel
  import opened FsContent
  import opened FsCode
  import opened FsDir

  const SLASH: Byte := 47

  // ----- elements of a path -----

  /** The pieces between slashes, empty ones included. */
  function Split(p: seq<Byte>): (r: seq<seq<Byte>>)
    ensures r != []
  {
    if p == [] then [[]]
    else if p[0] == SLASH then [[]] + Split(p[1..])
    else var r := Split(p[1..]); [[p[0]] + r[0]] + r[1..]
  }

  function NonEmpty(ps: seq<seq<Byte>>): (r: seq<seq<Byte>>) {
    if ps == [] then [] else if ps[0] == [] then NonEmpty(ps[1..]) else [ps[0]] + NonEmpty(ps[1..])
  }

  function Elements(p: seq<Byte>): (r: seq<seq<Byte>>) { NonEmpty(Split(p)) }

  lemma {:induction false} SkipSlash(p: seq<Byte>)
    requires p != [] && p[0] == SLASH
    ensures Elements(p) == Elements(p[1..])
  {
    assert Split(p)[1..] == Split(p[1..]);
  }

  lemma {:induction false} SplitPrefix(p: seq<Byte>, k: nat)
    requires k <= |p| && SLASH !in p[..k]
    ensures Split(p)[0] == p[..k] + Split(p[k..])[0] && Split(p)[1..] == Split(p[k..])[1..]
  {
    if k == 0 {
      assert p[0..] == p;
    } else {
      assert SLASH !in p[1..][..k - 1] by { assert p[1..][..k - 1] == p[1..k]; }
      assert p[0] in p[..k];
      SplitPrefix(p[1..], k - 1);
      assert p[1..][k - 1..] == p[k..];
      var head, tail := p[1..][..k - 1], Split(p[k..])[0];
      assert p[..k] == [p[0]] + head;
      assert [p[0]] + (head + tail) == p[..k] + tail;
    }
  }

  /** A run of bytes up to a slash or the end is the first element. */
  lemma {:induction false} TakeElement(p: seq<Byte>, k: nat)
    requires 0 < k <= |p| && SLASH !in p[..k] && (k == |p| || p[k] == SLASH)
    ensures Elements(p) == [p[..k]] + Elements(p[k..])
  {
    SplitPrefix(p, k);
    assert Split(p[k..])[0] == [];
    assert p[..k] + [] == p[..k];
    assert Split(p) == [Split(p)[0]] + Split(p)[1..];
  }

  /** skipelem: the path's first element goes to name, cut to DIRSIZ bytes; what is left has the
      other elements, no slash in front, and is empty exactly when there are none. */
  method SkipElem(path: seq<Byte>, name: array<Byte>) returns (rest: Option<seq<Byte>>)
    requires name.Length == DIRSIZ && 0 !in path
    modifies name
    ensures rest.None? <==> Elements(path) == []
    ensures rest.None? ==> name[..] == old(name[..])
    ensures rest.Some? ==> Elements(path)[1..] == Elements(rest.value) && 0 !in rest.value
    ensures rest.Some? ==> Name(name[..], DIRSIZ) == Name(Elements(path)[0], DIRSIZ)
    ensures rest.Some? ==> (rest.value == [] <==> |Elements(path)| == 1)
  {
    hide Elements, Name;
    NoElements();
    var p := Slashes(path, 0);
    assert path[0..] == path;
    if p == |path| { return None; }
    var s := p;
    while p < |path| && path[p] != SLASH
      invariant s <= p <= |path| && SLASH !in path[s..p]
    {
      p := p + 1;
    }
    var len := p - s;
    assert path[s..][..len] == path[s..p] && path[s..][len..] == path[p..];
    TakeElement(path[s..], len);
    CopyName(path[s..p], name);
    p := Slashes(path, p);
    rest := Some(path[p..]);
    if p < |path| { SomeElement(path[p..]); }
  }

  // while(*path == '/') path++
  method Slashes(path: seq<Byte>, s: nat) returns (p: nat)
    requires s <= |path|
    ensures s <= p <= |path| && (p < |path| ==> path[p] != SLASH) && Elements(path[s..]) == Elements(path[p..])
  {
    hide Elements;
    p := s;
    while p < |path| && path[p] == SLASH
      invariant s <= p <= |path| && Elements(path[s..]) == Elements(path[p..])
    {
      SkipSlash(path[p..]);
      assert path[p..][1..] == path[p + 1..];
      p := p + 1;
    }
  }

  method CopyName(e: seq<Byte>, name: array<Byte>)
    requires name.Length == DIRSIZ && 0 !in e
    modifies name
    ensures Name(name[..], DIRSIZ) == Name(e, DIRSIZ)
  {
    hide Name;
    if |e| >= DIRSIZ {
      forall k | 0 <= k < DIRSIZ { name[k] := e[k]; }
    } else {
      forall k | 0 <= k < |e| { name[k] := e[k]; }
      name[|e|] := 0;
      assert name[..][..|e|] == e;
    }
    NamePrefix(e, name[..]);
  }

  lemma {:induction false} NoElements()
    ensures Elements([]) == []
  {
  }

  lemma {:induction false} SomeElement(p: seq<Byte>)
    requires p != [] && p[0] != SLASH
    ensures Elements(p) != []
  {
  }

  // A name buffer filled from the element e.
  lemma {:induction false} NameFill(e: seq<Byte>, buf: seq<Byte>, n: nat)
    requires 0 !in e && n <= |buf| && (if |e| >= n then buf[..n] == e[..n] else buf[..|e|] == e && buf[|e|] == 0)
    ensures Name(buf, n) == Name(e, n)
    decreases n
  {
    if n > 0 && e != [] {
      assert e[0] in e;
      assert buf[0] == e[0] by {
        if |e| >= n { assert buf[..n][0] == e[..n][0]; } else { assert buf[..|e|][0] == e[0]; }
      }
      if |e| >= n { assert buf[1..][..n - 1] == buf[..n][1..] == e[..n][1..] == e[1..][..n - 1]; }
      else { assert buf[1..][..|e| - 1] == buf[..|e|][1..] == e[1..]; }
      NameFill(e[1..], buf[1..], n - 1);
    }
  }

  lemma {:induction false} NamePrefix(e: seq<Byte>, buf: seq<Byte>)
    requires 0 !in e && |buf| == DIRSIZ
    requires if |e| >= DIRSIZ then buf == e[..DIRSIZ] else buf[..|e|] == e && buf[|e|] == 0
    ensures Name(buf, DIRSIZ) == Name(e, DIRSIZ)
  {
    assert buf[..DIRSIZ] == buf;
    NameFill(e, buf, DIRSIZ);
  }

  // ----- following a path -----

  /** Which inode the elements lead to from inode i: each names an entry of the directory so far. */
  function Walk(fs: Fs, isDir: nat -> bool, i: nat, es: seq<seq<Byte>>): (r: Option<nat>)
    decreases |es|
  {
    if es == [] then Some(i)
    else if !isDir(i) || !HasRow(fs, i) || Name(es[0], DIRSIZ) !in Dir(Content(fs, i)) then None
    else Walk(fs, isDir, Dir(Content(fs, i))[Name(es[0], DIRSIZ)], es[1..])
  }

  /** Directories are whole numbers of entries that name inodes of the file system. */
  ghost predicate GoodDirs(g: Geo, fs: Fs, isDir: nat -> bool) {
    forall i: nat :: i < g.ninodes && isDir(i) && HasRow(fs, i) ==>
      |Content(fs, i)| % DE == 0 && forall key :: key in Dir(Content(fs, i)) ==> Dir(Content(fs, i))[key] < g.ninodes
  }

  lemma {:induction false} GoodStep(g: Geo, fs: Fs, isDir: nat -> bool, i: nat, key: seq<Byte>)
    requires GoodDirs(g, fs, isDir) && i < g.ninodes && isDir(i) && HasRow(fs, i)
    ensures |Content(fs, i)| % DE == 0
    ensures key in Dir(Content(fs, i)) ==> Dir(Content(fs, i))[key] < g.ninodes
  {
  }

  /** The directory the last element is to be looked up in. */
  function Parent(fs: Fs, isDir: nat -> bool, i: nat, es: seq<seq<Byte>>): (r: Option<nat>) {
    if es == [] then None
    else
      var d := Walk(fs, isDir, i, es[..|es| - 1]);
      if d.Some? && isDir(d.value) then d else None
  }

  function Target(fs: Fs, isDir: nat -> bool, i: nat, es: seq<seq<Byte>>, parent: bool): (r: Option<nat>) {
    if parent then Parent(fs, isDir, i, es) else Walk(fs, isDir, i, es)
  }

  lemma {:induction false} TargetStep(fs: Fs, isDir: nat -> bool, i: nat, es: seq<seq<Byte>>, parent: bool)
    requires es != [] && HasRow(fs, i) && !(parent && |es| == 1)
    ensures var c := Dir(Content(fs, i)); var key := Name(es[0], DIRSIZ);
      && (isDir(i) && key in c ==> Target(fs, isDir, i, es, parent) == Target(fs, isDir, c[key], es[1..], parent))
      && (!isDir(i) || key !in c ==> Target(fs, isDir, i, es, parent) == None)
  {
    if parent { assert es[..|es| - 1][1..] == es[1..][..|es| - 2]; }
  }

  lemma {:induction false} TargetEnd(fs: Fs, isDir: nat -> bool, i: nat, es: seq<seq<Byte>>)
    ensures Target(fs, isDir, i, [], false) == Some(i) && Target(fs, isDir, i, [], true) == None
    ensures |es| == 1 ==> Target(fs, isDir, i, es, true) == if isDir(i) then Some(i) else None
  {
    if |es| == 1 { assert es[..0] == []; }
  }

  /** namex: from the root or the current directory, the inode the path's elements lead to, or the
      directory for the last of them, with that one in name. */
  method Namex(f: FileSystem, isDir: nat -> bool, root: nat, cwd: nat, path: seq<Byte>, parent: bool, name: array<Byte>)
    returns (r: Option<nat>)
    requires Valid(f.g, f.fs) && |f.dinodes| == f.g.ninodes && root < f.g.ninodes && cwd < f.g.ninodes && 0 !in path
    requires GoodDirs(f.g, f.fs, isDir) && name.Length == DIRSIZ
    modifies f`fs, f`log, f`under, name
    ensures f.fs == old(f.fs) && f.log == old(f.log) && f.under == old(f.under)
    ensures r == Target(f.fs, isDir, if path != [] && path[0] == SLASH then root else cwd, Elements(path), parent)
    ensures parent && r.Some? ==>
              Elements(path) != [] && Name(name[..], DIRSIZ) == Name(Elements(path)[|Elements(path)| - 1], DIRSIZ)
  {
    hide Valid, GoodDirs, Name, Target, Elements, AtElement;
    ghost var start := if path != [] && path[0] == SLASH then root else cwd;
    var ip: nat := if path != [] && path[0] == SLASH then root else cwd;
    ghost var es := Elements(path);
    var next := SkipElem(path, name);
    AtFirst(path, next, name[..]);
    while next.Some?
      invariant ip < f.g.ninodes && f.fs == old(f.fs) && f.log == old(f.log) && f.under == old(f.under)
      invariant Target(f.fs, isDir, start, Elements(path), parent) == Target(f.fs, isDir, ip, es, parent)
      invariant AtElement(path, es, next, name[..])
      decreases |es|
    {
      ElementFacts(path, es, next, name[..]);
      TargetHere(f.g, f.fs, isDir, ip, es, parent);
      if !isDir(ip) { return None; }
      if parent && next.value == [] { return Some(ip); }
      var d := Descend(f, isDir, ip, name[..], es, parent);
      if d.None? { return None; }
      ip := d.value;
      ghost var rest, name0 := next.value, name[..];
      next := SkipElem(next.value, name);
      AtFirst(rest, next, name[..]);
      AtNext(path, es, Some(rest), name0, next, name[..]);
      es := es[1..];
    }
    NoneLeft(path, es, next, name[..]);
    TargetEnd(f.fs, isDir, ip, []);
    r := if parent then None else Some(ip);
  }

  // Look the next element up in directory ip.
  method Descend(f: FileSystem, isDir: nat -> bool, ip: nat, name: seq<Byte>, ghost es: seq<seq<Byte>>,
                 ghost parent: bool)
    returns (r: Option<nat>)
    requires Valid(f.g, f.fs) && |f.dinodes| == f.g.ninodes && ip < f.g.ninodes && isDir(ip)
    requires GoodDirs(f.g, f.fs, isDir) && |name| == DIRSIZ
    requires es != [] && Name(name, DIRSIZ) == Name(es[0], DIRSIZ) && !(parent && |es| == 1)
    modifies f`fs, f`log, f`under
    ensures f.fs == old(f.fs) && f.log == old(f.log) && f.under == old(f.under)
    ensures r.None? ==> Target(f.fs, isDir, ip, es, parent) == None
    ensures r.Some? ==>
              && r.value < f.g.ninodes
              && Target(f.fs, isDir, ip, es, parent) == Target(f.fs, isDir, r.value, es[1..], parent)
  {
    hide Valid, GoodDirs, Content, Name, Target, Dir, FirstFor;
    DirShape(f.g, f.fs, ip);
    TargetStep(f.fs, isDir, ip, es, parent);
    GoodStep(f.g, f.fs, isDir, ip, Name(name, DIRSIZ));
    var l := DirLookup(f, ip, name);
    if l.Absent? { return None; }
    r := Some(l.inum);
  }

  // Where namex stands: the elements es of the path are still to be followed, the first of them is in
  // name, and next is the path after it.
  ghost predicate AtElement(path: seq<Byte>, es: seq<seq<Byte>>, next: Option<seq<Byte>>, name: seq<Byte>) {
    && (next.None? <==> es == [])
    && (next.Some? ==> es[1..] == Elements(next.value) && 0 !in next.value && (next.value == [] <==> |es| == 1))
    && (next.Some? ==> Name(name, DIRSIZ) == Name(es[0], DIRSIZ))
    && |es| <= |Elements(path)| && es == Elements(path)[|Elements(path)| - |es|..]
  }

  lemma {:induction false} AtFirst(path: seq<Byte>, next: Option<seq<Byte>>, name: seq<Byte>)
    requires next.None? <==> Elements(path) == []
    requires next.Some? ==> Elements(path)[1..] == Elements(next.value) && 0 !in next.value
    requires next.Some? ==> Name(name, DIRSIZ) == Name(Elements(path)[0], DIRSIZ)
    requires next.Some? ==> (next.value == [] <==> |Elements(path)| == 1)
    ensures AtElement(path, Elements(path), next, name)
  {
    hide Elements, Name;
  }

  lemma {:induction false} AtNext(path: seq<Byte>, es: seq<seq<Byte>>, next: Option<seq<Byte>>, name: seq<Byte>,
                                  next': Option<seq<Byte>>, name': seq<Byte>)
    requires AtElement(path, es, next, name) && next.Some? && AtElement(next.value, Elements(next.value), next', name')
    ensures AtElement(path, es[1..], next', name')
  {
    hide Elements, Name;
  }

  lemma {:induction false} ElementFacts(path: seq<Byte>, es: seq<seq<Byte>>, next: Option<seq<Byte>>, name: seq<Byte>)
    requires AtElement(path, es, next, name) && next.Some?
    ensures es != [] && 0 !in next.value && (next.value == [] <==> |es| == 1)
    ensures Name(name, DIRSIZ) == Name(es[0], DIRSIZ)
    ensures |es| == 1 ==> Elements(path) != [] && es[0] == Elements(path)[|Elements(path)| - 1]
  {
    hide Elements, Name;
  }

  lemma {:induction false} NoneLeft(path: seq<Byte>, es: seq<seq<Byte>>, next: Option<seq<Byte>>, name: seq<Byte>)
    requires AtElement(path, es, next, name) && next.None?
    ensures es == []
  {
  }

  lemma {:induction false} TargetHere(g: Geo, fs: Fs, isDir: nat -> bool, i: nat, es: seq<seq<Byte>>, parent: bool)
    requires Valid(g, fs) && i < g.ninodes && es != []
    ensures !isDir(i) ==> Target(fs, isDir, i, es, parent) == None
    ensures isDir(i) && parent && |es| == 1 ==> Target(fs, isDir, i, es, parent) == Some(i)
  {
    hide Valid, Content, Name, Dir, Target;
    DirShape(g, fs, i);
    TargetEnd(fs, isDir, i, es);
    if !(parent && |es| == 1) { TargetStep(fs, isDir, i, es, parent); }
  }
}
