/**
 Ranges of mappings, the pages a system accounts for, and the pages of one tree.
 */
module VmRange {
  import opened VmModel

  /** All pages on the free list or with a place in some tree. */
  function Pages(free: seq<nat>, at: map<Node, nat>): (s: set<nat>) { (set p | p in free) + at.Values }

  lemma {:induction false} PlacePages(free: seq<nat>, at: map<Node, nat>, n: Node)
    requires free != [] && n !in at
    ensures Pages(free[1..], at[n := free[0]]) == Pages(free, at)
  {
    var at' := at[n := free[0]];
    assert free == [free[0]] + free[1..];
    assert at'[n] == free[0];
    forall p | p in at.Values ensures p in at'.Values {
      var m :| m in at && at[m] == p;
      assert at'[m] == p;
    }
  }

  lemma {:induction false} FreePages(free: seq<nat>, at: map<Node, nat>, n: Node)
    requires n in at
    ensures Pages([at[n]] + free, at - {n}) == Pages(free, at)
  {
    var at' := at - {n};
    forall p | p in at.Values ensures p in Pages([at[n]] + free, at') {
      var m :| m in at && at[m] == p;
      if m != n { assert at'[m] == p; }
    }
    forall p | p in [at[n]] + free ensures p in Pages(free, at) {
    }
  }

  /** Page-table pages may have been added to r; nothing else has changed hands. */
  ghost predicate Grew(free: seq<nat>, at: map<Node, nat>, free': seq<nat>, at': map<Node, nat>, r: nat) {
    && (forall n :: n in at ==> n in at' && at'[n] == at[n])
    && (forall n :: n in at' && n !in at ==> n.root == r && (n.Mid? || n.Last?))
    && (forall p :: p in free' ==> p in free)
    && Pages(free', at') == Pages(free, at)
  }

  lemma {:induction false} GrewRefl(free: seq<nat>, at: map<Node, nat>, r: nat)
    ensures Grew(free, at, free, at, r)
  {
  }

  lemma {:induction false} GrewFree(free: seq<nat>, at: map<Node, nat>, free': seq<nat>, at': map<Node, nat>, r: nat)
    requires Grew(free, at, free', at', r)
    ensures forall p :: p in free' ==> p in free
    ensures forall n :: n in at ==> n in at' && at'[n] == at[n]
    ensures forall n :: n in at' && n.Root? ==> n in at
  {
  }

  lemma {:induction false} GrewTrans(free: seq<nat>, at: map<Node, nat>, free1: seq<nat>, at1: map<Node, nat>,
                                     free2: seq<nat>, at2: map<Node, nat>, r: nat)
    requires Grew(free, at, free1, at1, r) && Grew(free1, at1, free2, at2, r)
    ensures Grew(free, at, free2, at2, r)
  {
  }

  /** No page but these has changed. */
  ghost predicate SameBut<T>(pages: seq<nat>, data: map<nat, T>, data': map<nat, T>) {
    forall p :: p in data && p !in pages ==> p in data' && data'[p] == data[p]
  }

  /** If nothing changed but pages that were free before, or are free now, then a page of data that keeps its
      place keeps its contents. */
  lemma {:induction false} DataKept<T>(mem: map<nat, Table>, free: seq<nat>, at: map<Node, nat>, leaf: map<Key, nat>,
                                       mem': map<nat, Table>, free': seq<nat>, at': map<Node, nat>,
                                       leaf': map<Key, nat>, data: map<nat, T>, data': map<nat, T>, n: Node)
    requires Good(mem, free, at, leaf) && Good(mem', free', at', leaf')
    requires SameBut(free, data, data') || SameBut(free', data, data')
    requires n in at && n in at' && at'[n] == at[n] && at[n] in data
    ensures at[n] in data' && data'[at[n]] == data[at[n]]
  {
    hide Shape, Pointers, Leaves;
    if at[n] in free {
      assert false;
    }
    if at[n] in free' {
      assert false;
    }
  }

  // Taking the first free page, and giving it a place or returning it.
  lemma {:induction false} TakePages(p: nat, free: seq<nat>, at: map<Node, nat>)
    requires Loose(free, at, p)
    ensures p !in Pages(free, at) && Pages([p] + free, at) == Pages(free, at) + {p}
    ensures forall n :: n !in at ==> Pages(free, at[n := p]) == Pages(free, at) + {p}
  {
    forall n | n !in at ensures Pages(free, at[n := p]) == Pages(free, at) + {p} {
      var at' := at[n := p];
      assert at'[n] == p;
      forall q | q in at.Values ensures q in at'.Values {
        var m :| m in at && at[m] == q;
        assert at'[m] == q;
      }
    }
  }

  // ----- ranges of mappings -----

  predicate In(r: nat, lo: nat, hi: nat, k: Key) { k.root == r && lo <= k.v < hi }

  /** n pages from p on, mapped at v on. */
  function MapRange(leaf: map<Key, nat>, r: nat, v: nat, n: nat, p: nat, perm: nat): (leaf': map<Key, nat>)
    requires perm < FLAGS
  {
    if n == 0 then leaf else MapRange(leaf, r, v, n - 1, p, perm)[Key(r, v + n - 1) := MkPte(p + n - 1, perm)]
  }

  /** Exactly the range is mapped, and everything else is as it was. */
  lemma {:induction false} MapRangeGet(leaf: map<Key, nat>, r: nat, v: nat, n: nat, p: nat, perm: nat, k: Key)
    requires perm < FLAGS
    ensures Get(MapRange(leaf, r, v, n, p, perm), k.root, k.v) ==
      if In(r, v, v + n, k) then MkPte(p + k.v - v, perm) else Get(leaf, k.root, k.v)
    ensures k in MapRange(leaf, r, v, n, p, perm) <==> k in leaf || In(r, v, v + n, k)
  {
    if n > 0 { MapRangeGet(leaf, r, v, n - 1, p, perm, k); }
  }

  function Without(leaf: map<Key, nat>, r: nat, lo: nat, hi: nat): (leaf': map<Key, nat>) {
    map k | k in leaf && !In(r, lo, hi, k) :: leaf[k]
  }

  predicate DataIn(r: nat, lo: nat, hi: nat, n: Node) { n.Data? && n.root == r && lo <= n.v < hi }

  function Disowned(at: map<Node, nat>, r: nat, lo: nat, hi: nat): (at': map<Node, nat>) {
    map n | n in at && !DataIn(r, lo, hi, n) :: at[n]
  }

  lemma {:induction false} WithoutNext(leaf: map<Key, nat>, r: nat, lo: nat, hi: nat)
    requires lo <= hi
    ensures Without(leaf, r, lo, hi + 1) == Put(Without(leaf, r, lo, hi), r, hi, 0)
    ensures Key(r, hi) in Without(leaf, r, lo, hi) <==> Key(r, hi) in leaf
    ensures Key(r, hi) !in leaf ==> Without(leaf, r, lo, hi + 1) == Without(leaf, r, lo, hi)
    ensures Without(leaf, r, lo, lo) == leaf
  {
  }

  lemma {:induction false} DisownedNext(at: map<Node, nat>, r: nat, lo: nat, hi: nat)
    requires lo <= hi
    ensures Disowned(at, r, lo, hi + 1) == Disowned(at, r, lo, hi) - {Data(r, hi)}
    ensures Data(r, hi) in Disowned(at, r, lo, hi) <==> Data(r, hi) in at
    ensures Data(r, hi) !in at ==> Disowned(at, r, lo, hi + 1) == Disowned(at, r, lo, hi)
    ensures Disowned(at, r, lo, lo) == at
    ensures forall n: Node :: !n.Data? ==> (n in Disowned(at, r, lo, hi) <==> n in at)
  {
  }

  /** Mappings and owned pages have been added in the range of r, and page-table pages of r. */
  ghost predicate AddedIn(leaf: map<Key, nat>, at: map<Node, nat>, leaf': map<Key, nat>, at': map<Node, nat>, r: nat,
                          lo: nat, hi: nat) {
    && (forall k :: k in leaf ==> k in leaf' && leaf'[k] == leaf[k])
    && (forall k :: k in leaf' && k !in leaf ==> In(r, lo, hi, k) && Data(k.root, k.v) in at')
    && (forall n :: n in at ==> n in at' && at'[n] == at[n])
    && (forall n :: n in at' && n !in at ==> n.root == r && (n.Mid? || n.Last? || DataIn(r, lo, hi, n)))
  }

  lemma {:induction false} AddedStart(leaf: map<Key, nat>, at: map<Node, nat>, r: nat, lo: nat)
    ensures AddedIn(leaf, at, leaf, at, r, lo, lo)
  {
  }

  lemma {:induction false} AddedNext(leaf: map<Key, nat>, at: map<Node, nat>, leaf1: map<Key, nat>, at1: map<Node, nat>,
                  leaf2: map<Key, nat>, at2: map<Node, nat>, r: nat, lo: nat, hi: nat)
    requires lo <= hi && AddedIn(leaf, at, leaf1, at1, r, lo, hi) && AddedIn(leaf1, at1, leaf2, at2, r, hi, hi + 1)
    ensures AddedIn(leaf, at, leaf2, at2, r, lo, hi + 1)
  {
  }

  // The same when nothing was mapped at hi after all.
  lemma {:induction false} AddedNot(leaf: map<Key, nat>, at: map<Node, nat>, leaf1: map<Key, nat>, at1: map<Node, nat>,
                 leaf2: map<Key, nat>, at2: map<Node, nat>, r: nat, lo: nat, hi: nat)
    requires lo <= hi && AddedIn(leaf, at, leaf1, at1, r, lo, hi) && AddedIn(leaf1, at1, leaf2, at2, r, hi, hi + 1)
    requires leaf2 == leaf1 && Data(r, hi) !in at2
    ensures AddedIn(leaf, at, leaf2, at2, r, lo, hi)
  {
    forall n | n in at2 && n !in at ensures n.root == r && (n.Mid? || n.Last? || DataIn(r, lo, hi, n)) {
      assert n != Data(r, hi);
    }
  }

  /** Unmapping the range again leaves the mappings and their pages as they were. */
  lemma {:induction false} AddedUndone(leaf: map<Key, nat>, at: map<Node, nat>, leaf': map<Key, nat>,
                                       at': map<Node, nat>, r: nat, lo: nat, hi: nat)
    requires AddedIn(leaf, at, leaf', at', r, lo, hi)
    requires forall k :: k in leaf ==> !In(r, lo, hi, k)
    requires forall n :: n in at ==> !DataIn(r, lo, hi, n)
    ensures Without(leaf', r, lo, hi) == leaf && AddedIn(leaf, at, leaf, Disowned(at', r, lo, hi), r, lo, lo)
    ensures forall w :: lo <= w < hi && Key(r, w) in leaf' ==> Data(r, w) in at'
  {
    var leaf2, at2 := Without(leaf', r, lo, hi), Disowned(at', r, lo, hi);
    forall n | n in at ensures n in at2 && at2[n] == at[n] {
    }
    forall w | lo <= w < hi && Key(r, w) in leaf' ensures Data(r, w) in at' {
      assert In(r, lo, hi, Key(r, w));
    }
  }

  /** Pages lo..hi of r each have a page of their own with this content and these permissions. */
  ghost predicate Holds<T>(leaf: map<Key, nat>, at: map<Node, nat>, data: map<nat, T>, r: nat, lo: nat, hi: nat,
                           content: T, perm: nat)
    requires perm < FLAGS
  { forall w :: lo <= w < hi ==> HoldsAt(leaf, at, data, r, w, content, perm) }

  ghost predicate HoldsAt<T>(leaf: map<Key, nat>, at: map<Node, nat>, data: map<nat, T>, r: nat, v: nat, content: T,
                             perm: nat)
    requires perm < FLAGS
  {
    && Key(r, v) in leaf && Data(r, v) in at && leaf[Key(r, v)] == MkPte(at[Data(r, v)], perm)
    && at[Data(r, v)] in data && data[at[Data(r, v)]] == content
  }

  lemma {:induction false} HoldsNext<T>(leaf: map<Key, nat>, at: map<Node, nat>, data: map<nat, T>, free: seq<nat>,
                     leaf': map<Key, nat>, at': map<Node, nat>, data': map<nat, T>, r: nat, lo: nat, hi: nat,
                     content: T, perm: nat)
    requires perm < FLAGS && lo <= hi && Holds(leaf, at, data, r, lo, hi, content, perm)
    requires AddedIn(leaf, at, leaf', at', r, hi, hi + 1) && SameBut(free, data, data')
    requires forall n :: n in at ==> at[n] !in free
    requires HoldsAt(leaf', at', data', r, hi, content, perm)
    ensures Holds(leaf', at', data', r, lo, hi + 1, content, perm)
  {
    forall w | lo <= w < hi ensures HoldsAt(leaf', at', data', r, w, content, perm) {
      assert HoldsAt(leaf, at, data, r, w, content, perm);
    }
  }

  /** Page v of r' is what page v of r is: unmapped, or mapped with the same flags to a page of its own
      with the same contents. */
  ghost predicate CopiedAt<T>(leaf: map<Key, nat>, at: map<Node, nat>, data: map<nat, T>, r: nat, r': nat, v: nat) {
    && (Key(r', v) in leaf <==> Key(r, v) in leaf)
    && (Key(r, v) in leaf ==>
          var pte := leaf[Key(r, v)];
          Ppn(pte) in data && HoldsAt(leaf, at, data, r', v, data[Ppn(pte)], Flags(pte)))
  }

  ghost predicate Copied<T>(leaf: map<Key, nat>, at: map<Node, nat>, data: map<nat, T>, r: nat, r': nat, n: nat) {
    forall w :: 0 <= w < n ==> CopiedAt(leaf, at, data, r, r', w)
  }

  // Each page that r maps below n is its own.
  ghost predicate OwnsBelow(leaf: map<Key, nat>, at: map<Node, nat>, r: nat, n: nat) {
    forall w :: 0 <= w < n && Key(r, w) in leaf ==> Data(r, w) in at && at[Data(r, w)] == Ppn(leaf[Key(r, w)])
  }

  lemma {:induction false} CopiedNext<T>(leaf: map<Key, nat>, at: map<Node, nat>, data: map<nat, T>, free: seq<nat>,
                      leaf': map<Key, nat>, at': map<Node, nat>, data': map<nat, T>, r: nat, r': nat, n: nat, top: nat)
    requires r != r' && n <= top && Copied(leaf, at, data, r, r', n) && OwnsBelow(leaf, at, r, top)
    requires AddedIn(leaf, at, leaf', at', r', n, n + 1) && SameBut(free, data, data')
    requires forall m :: m in at ==> at[m] !in free
    requires CopiedAt(leaf', at', data', r, r', n)
    ensures Copied(leaf', at', data', r, r', n + 1)
  {
    forall w | 0 <= w < n ensures CopiedAt(leaf', at', data', r, r', w) {
      assert CopiedAt(leaf, at, data, r, r', w);
    }
  }

  lemma {:induction false} SameButRefl<T>(free: seq<nat>, data: map<nat, T>)
    ensures SameBut(free, data, data)
  {
  }

  lemma {:induction false} SameButTrans<T>(free0: seq<nat>, data0: map<nat, T>, free1: seq<nat>, data1: map<nat, T>,
                                           data2: map<nat, T>)
    requires SameBut(free0, data0, data1) && SameBut(free1, data1, data2) && forall p :: p in free1 ==> p in free0
    ensures SameBut(free0, data0, data2)
  {
  }

  // The same when pages are given back.
  lemma {:induction false} SameButGrow<T>(free1: seq<nat>, data0: map<nat, T>, data1: map<nat, T>,
                                          free2: seq<nat>, data2: map<nat, T>)
    requires SameBut(free1, data0, data1) && SameBut(free2, data1, data2) && forall p :: p in free1 ==> p in free2
    ensures SameBut(free2, data0, data2)
  {
  }

  lemma {:induction false} AddedNone(leaf: map<Key, nat>, at: map<Node, nat>, r: nat, lo: nat, hi: nat)
    ensures AddedIn(leaf, at, leaf, at, r, lo, hi)
  {
  }

  // Growth, and growth with one page mapped and owned at v.
  lemma {:induction false} GrewAdded(free: seq<nat>, at: map<Node, nat>, free': seq<nat>, at': map<Node, nat>,
                                     leaf: map<Key, nat>, r: nat, v: nat, pte: nat, p: nat)
    requires Grew(free, at, free', at', r) && Key(r, v) !in leaf && Data(r, v) !in at
    ensures AddedIn(leaf, at, leaf, at', r, v, v + 1) && Data(r, v) !in at' && Pages(free', at') == Pages(free, at)
    ensures AddedIn(leaf, at, leaf[Key(r, v) := pte], at'[Data(r, v) := p], r, v, v + 1)
  {
  }

  lemma {:induction false} OwnsStill(leaf: map<Key, nat>, at: map<Node, nat>, leaf': map<Key, nat>,
                                     at': map<Node, nat>, r: nat, r': nat, v: nat, n: nat)
    requires r != r' && OwnsBelow(leaf, at, r, n) && AddedIn(leaf, at, leaf', at', r', v, v + 1)
    ensures OwnsBelow(leaf', at', r, n)
  {
  }

  // One page of uvmcopy: copied, or not there.
  lemma {:induction false} CopyDone<T>(leaf: map<Key, nat>, at: map<Node, nat>, data: map<nat, T>, free: seq<nat>,
                    leaf': map<Key, nat>, at': map<Node, nat>, data': map<nat, T>, r: nat, r': nat, v: nat, n: nat)
    requires r != r' && v < n && OwnsBelow(leaf, at, r, n) && Key(r, v) in leaf && Ppn(leaf[Key(r, v)]) in data
    requires AddedIn(leaf, at, leaf', at', r', v, v + 1) && SameBut(free, data, data')
    requires forall m :: m in at ==> at[m] !in free
    requires HoldsAt(leaf', at', data', r', v, data[Ppn(leaf[Key(r, v)])], Flags(leaf[Key(r, v)]))
    ensures CopiedAt(leaf', at', data', r, r', v)
  {
  }

  lemma {:induction false} CopyNone<T>(leaf: map<Key, nat>, at: map<Node, nat>, data: map<nat, T>, r: nat, r': nat,
                                       v: nat)
    requires Key(r, v) !in leaf && Key(r', v) !in leaf
    ensures CopiedAt(leaf, at, data, r, r', v)
  {
  }

  // ----- the pages of one tree -----

  predicate Under(n: Node, m: Node) {
    match n
    case Root(r) => m.root == r && !m.Data?
    case Mid(r, i) => m == n || (m.Last? && m.root == r && m.i == i)
    case Last(_, _, _) => m == n
    case Data(_, _) => false
  }

  // m is below one of the first k children of n, or is one.
  predicate UnderKids(n: Node, k: nat, m: Node) {
    match n
    case Root(r) => (m.Mid? || m.Last?) && m.root == r && m.i < k
    case Mid(r, i) => m.Last? && m.root == r && m.i == i && m.j < k
    case Last(_, _, _) => false
    case Data(_, _) => false
  }

  function Cut(at: map<Node, nat>, n: Node): (at': map<Node, nat>) { map m | m in at && !Under(n, m) :: at[m] }

  function CutKids(at: map<Node, nat>, n: Node, k: nat): (at': map<Node, nat>) {
    map m | m in at && !UnderKids(n, k, m) :: at[m]
  }

  /** The page-table pages under n are linked as they should be, and map nothing. */
  ghost predicate Bare(mem: map<nat, Table>, at: map<Node, nat>, n: Node) {
    && (forall m :: m in at && Under(n, m) ==> at[m] in mem)
    && (forall m :: m in at && Under(n, m) && m.Mid? ==> m.i < ENTRIES)
    && (forall m :: m in at && Under(n, m) && m.Last? ==> m.j < ENTRIES && (n.Root? ==> Mid(m.root, m.i) in at))
    && (forall m, i {:trigger mem[at[m]][i]} :: m in at && Under(n, m) && 0 <= i < ENTRIES ==>
          mem[at[m]][i] == if m.Root? || m.Mid? then Ptr(at, Child(m, i)) else 0)
  }

  // Pages that still have a place keep their contents.
  ghost predicate SameTablesAt(mem: map<nat, Table>, mem': map<nat, Table>, at: map<Node, nat>, n: Node) {
    forall m :: m in at && m != n && at[m] in mem ==> at[m] in mem' && mem'[at[m]] == mem[at[m]]
  }

  lemma {:induction false} BareKid(mem: map<nat, Table>, mem': map<nat, Table>, at: map<Node, nat>, n: Node, i: nat)
    requires (n.Root? || n.Mid?) && n in at && Bare(mem, at, n) && i < ENTRIES && Child(n, i) in at
    requires SameTablesAt(mem, mem', CutKids(at, n, i), n)
    ensures Bare(mem', CutKids(at, n, i), Child(n, i)) && Child(n, i) in CutKids(at, n, i)
  {
    var at' := CutKids(at, n, i);
    forall m | m in at' && Under(Child(n, i), m)
      ensures m in at && Under(n, m) && m != n && at[m] in mem' && mem'[at[m]] == mem[at[m]]
    { assert at'[m] == at[m]; }
    forall m, k | m in at' && Under(Child(n, i), m) && 0 <= k < ENTRIES
      ensures mem'[at'[m]][k] == if m.Root? || m.Mid? then Ptr(at', Child(m, k)) else 0
    {
      assert mem[at[m]][k] == if m.Root? || m.Mid? then Ptr(at, Child(m, k)) else 0;
    }
  }

  lemma {:induction false} NextKid(mem: map<nat, Table>, at: map<Node, nat>, n: Node, i: nat)
    requires n in at && !n.Data? && Bare(mem, at, n) && i < ENTRIES
    ensures n.Last? ==> CutKids(at, n, i + 1) == CutKids(at, n, i)
    ensures (n.Root? || n.Mid?) && Child(n, i) in at ==> Cut(CutKids(at, n, i), Child(n, i)) == CutKids(at, n, i + 1)
    ensures (n.Root? || n.Mid?) && Child(n, i) !in at ==> CutKids(at, n, i + 1) == CutKids(at, n, i)
    ensures n in CutKids(at, n, i)
  {
    if (n.Root? || n.Mid?) && Child(n, i) !in at {
      forall m | m in at && UnderKids(n, i + 1, m) ensures UnderKids(n, i, m) {
        if n.Root? && m.Last? { assert Mid(m.root, m.i) in at; }
      }
    }
  }

  lemma {:induction false} AllKids(mem: map<nat, Table>, at: map<Node, nat>, n: Node)
    requires n in at && !n.Data? && Bare(mem, at, n)
    ensures CutKids(at, n, 0) == at && CutKids(at, n, ENTRIES) - {n} == Cut(at, n)
  {
    forall m | m in at && Under(n, m) && m != n ensures UnderKids(n, ENTRIES, m) {
      if n.Root? && m.Last? { assert Mid(m.root, m.i) in at; assert Under(n, Mid(m.root, m.i)); }
    }
  }

  lemma {:induction false} BareEntry(mem: map<nat, Table>, at: map<Node, nat>, n: Node, i: nat)
    requires n in at && !n.Data? && Bare(mem, at, n) && i < ENTRIES
    ensures at[n] in mem && (V(mem[at[n]][i]) ==> !Rwx(mem[at[n]][i]))
    ensures V(mem[at[n]][i]) <==> (n.Root? || n.Mid?) && Child(n, i) in at
    ensures V(mem[at[n]][i]) ==> Ppn(mem[at[n]][i]) == at[Child(n, i)]
  {
    assert Under(n, n);
    assert mem[at[n]][i] == if n.Root? || n.Mid? then Ptr(at, Child(n, i)) else 0;
    if V(mem[at[n]][i]) { PtrIsPtr(at[Child(n, i)]); }
  }

  lemma {:induction false} PtrIsPtr(p: nat)
    ensures !Rwx(MkPte(p, 0))
  {
    assert MkPte(p, 0) / 2 == 8 * (p * 64);
  }

  lemma {:induction false} KidPlace(at: map<Node, nat>, n: Node, i: nat)
    requires n in at && (n.Root? || n.Mid?) && Child(n, i) in at
    ensures Child(n, i) in CutKids(at, n, i) && CutKids(at, n, i)[Child(n, i)] == at[Child(n, i)]
    ensures n in Cut(CutKids(at, n, i), Child(n, i)) && Cut(CutKids(at, n, i), Child(n, i))[n] == at[n]
  {
  }

  // Freeing a child leaves the pages still placed alone.
  lemma {:induction false} KidsFrame(mem0: map<nat, Table>, mem1: map<nat, Table>, mem2: map<nat, Table>,
                                     at: map<Node, nat>, at2: map<Node, nat>, n: Node, i: nat)
    requires n in at && (n.Root? || n.Mid?) && at2 == Cut(CutKids(at, n, i), Child(n, i)) && at[n] in mem1
    requires SameTablesAt(mem0, mem1, CutKids(at, n, i), n) && SameTablesAt(mem1, mem2, at2, Child(n, i))
    ensures SameTablesAt(mem0, mem2, at2, n) && at[n] in mem2 && mem2[at[n]] == mem1[at[n]]
  {
    assert at2[n] == at[n];
    forall m | m in at2 && m != n && at2[m] in mem0 ensures at2[m] in mem2 && mem2[at2[m]] == mem0[at2[m]] {
      assert CutKids(at, n, i)[m] == at2[m] && m != Child(n, i);
    }
  }

  // So does clearing an entry of n's own page.
  lemma {:induction false} KidsClear(mem0: map<nat, Table>, mem: map<nat, Table>, free: seq<nat>, at: map<Node, nat>,
                                     n: Node, t: Table)
    requires Apart(free, at) && n in at && SameTablesAt(mem0, mem, at, n)
    ensures SameTablesAt(mem0, mem[at[n] := t], at, n)
  {
  }

  lemma {:induction false} FreeLast(mem0: map<nat, Table>, mem: map<nat, Table>, free: seq<nat>, at: map<Node, nat>,
                                    n: Node)
    requires Apart(free, at) && n in at && SameTablesAt(mem0, mem, at, n)
    ensures Apart([at[n]] + free, at - {n}) && SameTablesAt(mem0, mem - {at[n]}, at - {n}, n)
  {
  }

  /** A tree whose root maps nothing is bare. */
  lemma {:induction false} GoodBare(mem: map<nat, Table>, free: seq<nat>, at: map<Node, nat>, leaf: map<Key, nat>,
                                    r: nat)
    requires Good(mem, free, at, leaf) && Root(r) in at && forall k :: k in leaf ==> k.root != r
    ensures Bare(mem, at, Root(r))
  {
    hide Px0, Px1, Px2, Apart;
    forall m, i | m in at && Under(Root(r), m) && 0 <= i < ENTRIES
      ensures mem[at[m]][i] == if m.Root? || m.Mid? then Ptr(at, Child(m, i)) else 0
    {
      if m.Last? {
        assert Mid(m.root, m.i) in at;
        PxVpn(m.i, m.j, i);
        assert LastOf(r, Vpn(m.i, m.j, i)) == m;
        assert Get(leaf, r, Vpn(m.i, m.j, i)) == 0;
      }
    }
  }

  lemma {:induction false} CutShape(mem: map<nat, Table>, mem': map<nat, Table>, at: map<Node, nat>, r: nat)
    requires Shape(mem, at) && Pointers(mem, at) && SameTablesAt(mem, mem', Cut(at, Root(r)), Root(r))
    ensures Shape(mem', Cut(at, Root(r))) && Pointers(mem', Cut(at, Root(r)))
  {
    var at' := Cut(at, Root(r));
    assert Shape(mem', at');
    forall m, i | m in at' && (m.Root? || m.Mid?) && 0 <= i < ENTRIES ensures mem'[at'[m]][i] == Ptr(at', Child(m, i)) {
      assert mem[at[m]][i] == Ptr(at, Child(m, i));
    }
  }

  lemma {:induction false} CutEntries(mem: map<nat, Table>, mem': map<nat, Table>, at: map<Node, nat>,
                                      leaf: map<Key, nat>, r: nat)
    requires Shape(mem, at) && Entries(mem, at, leaf) && SameTablesAt(mem, mem', Cut(at, Root(r)), Root(r))
    requires Shape(mem', Cut(at, Root(r)))
    ensures Entries(mem', Cut(at, Root(r)), leaf)
  {
    hide Px0, Px1, Px2;
    var at' := Cut(at, Root(r));
    forall q, v | 0 <= v < VPNS && LastOf(q, v) in at' ensures mem'[at'[LastOf(q, v)]][Px0(v)] == Get(leaf, q, v) {
      assert mem[at[LastOf(q, v)]][Px0(v)] == Get(leaf, q, v);
    }
  }

  /** Without the tree of r, everything else is as it was. */
  lemma {:induction false} CutGood(mem: map<nat, Table>, free: seq<nat>, at: map<Node, nat>, leaf: map<Key, nat>,
                                   mem': map<nat, Table>, free': seq<nat>, r: nat)
    requires Good(mem, free, at, leaf) && forall k :: k in leaf ==> k.root != r
    requires Apart(free', Cut(at, Root(r))) && SameTablesAt(mem, mem', Cut(at, Root(r)), Root(r))
    ensures Good(mem', free', Cut(at, Root(r)), leaf)
  {
    hide Px0, Px1, Px2, Apart, Pointers, Entries, SameTablesAt;
    CutShape(mem, mem', at, r);
    CutEntries(mem, mem', at, leaf, r);
  }
}
