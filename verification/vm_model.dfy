/**
 Sv39 page tables: three levels of 512-entry pages refine a map from (table, page number) to
 page-table entries; every page-table page has one place in one tree.
 */
module VmModel {
  const ENTRIES: nat := 512
  const FLAGS: nat := 0x400
  // Page numbers of a 39-bit address space; walk takes only the lower half of them.
  const VPNS: nat := ENTRIES * ENTRIES * ENTRIES
  const MAXVPN: nat := VPNS / 2

  type Table = t: seq<nat> | |t| == ENTRIES witness seq(ENTRIES, _ => 0)

  function NoEntries(): (t: Table)
    ensures forall i :: 0 <= i < ENTRIES ==> t[i] == 0
  { seq(ENTRIES, _ => 0) }

  // ----- entries -----

  predicate V(pte: nat) { pte % 2 == 1 }
  // PTE_R, PTE_W or PTE_X
  predicate Rwx(pte: nat) { pte / 2 % 8 != 0 }
  predicate U(pte: nat) { pte / 16 % 2 == 1 }
  // The page number in an entry, PTE2PA >> 12, and its flags.
  function Ppn(pte: nat): nat { pte / FLAGS }
  function Flags(pte: nat): (f: nat) { pte % FLAGS }
  // PA2PTE(pa) | flags | PTE_V, for page number p
  function MkPte(p: nat, flags: nat): (pte: nat)
    requires flags < FLAGS
    ensures V(pte) && Ppn(pte) == p && pte / 2 % 512 == flags / 2
  { p * FLAGS + flags / 2 * 2 + 1 }

  // ----- indices -----

  // PX(level, va), for va in page v
  function Px2(v: nat): (i: nat) ensures i < ENTRIES { v / (ENTRIES * ENTRIES) % ENTRIES }
  function Px1(v: nat): (i: nat) ensures i < ENTRIES { v / ENTRIES % ENTRIES }
  function Px0(v: nat): (i: nat) ensures i < ENTRIES { v % ENTRIES }

  function Vpn(i: nat, j: nat, k: nat): (v: nat)
  { (i * ENTRIES + j) * ENTRIES + k }

  lemma {:induction false} PxVpn(i: nat, j: nat, k: nat)
    requires i < ENTRIES && j < ENTRIES && k < ENTRIES
    ensures Vpn(i, j, k) < VPNS && Px2(Vpn(i, j, k)) == i && Px1(Vpn(i, j, k)) == j && Px0(Vpn(i, j, k)) == k
  {
    var v := Vpn(i, j, k);
    assert v / ENTRIES == i * ENTRIES + j;
    assert v / (ENTRIES * ENTRIES) == v / ENTRIES / ENTRIES;
  }

  lemma {:induction false} VpnPx(v: nat)
    requires v < VPNS
    ensures Vpn(Px2(v), Px1(v), Px0(v)) == v
  {
    assert v / (ENTRIES * ENTRIES) == v / ENTRIES / ENTRIES;
  }

  /** Index extraction is injective. */
  lemma {:induction false} PxInjective(v: nat, w: nat)
    requires v < VPNS && w < VPNS && Px2(v) == Px2(w) && Px1(v) == Px1(w) && Px0(v) == Px0(w)
    ensures v == w
  {
    VpnPx(v);
    VpnPx(w);
  }

  // ----- the tree -----

  /** A page's place: the root of a table, a middle page, a last-level page, or the page that entry v
      of a table maps and owns. */
  datatype Node = Root(root: nat) | Mid(root: nat, i: nat) | Last(root: nat, i: nat, j: nat) | Data(root: nat, v: nat)

  datatype Key = Key(root: nat, v: nat)

  function Child(n: Node, i: nat): (m: Node)
    requires n.Root? || n.Mid?
  { if n.Root? then Mid(n.root, i) else Last(n.root, n.i, i) }

  function LastOf(r: nat, v: nat): (n: Node) { Last(r, Px2(v), Px1(v)) }

  function Ptr(at: map<Node, nat>, n: Node): (pte: nat) { if n in at then MkPte(at[n], 0) else 0 }

  function Get(leaf: map<Key, nat>, r: nat, v: nat): (pte: nat) { if Key(r, v) in leaf then leaf[Key(r, v)] else 0 }

  /** No page has two places, and none that has one is free. */
  ghost predicate Apart(free: seq<nat>, at: map<Node, nat>) {
    && 0 !in free && (forall k, l :: 0 <= k < l < |free| ==> free[k] != free[l])
    && (forall n :: n in at ==> at[n] != 0 && at[n] !in free)
    && (forall n, m :: n in at && m in at && n != m ==> at[n] != at[m])
  }

  lemma {:induction false} Placed(free: seq<nat>, at: map<Node, nat>, n: Node)
    requires Apart(free, at) && n in at
    ensures at[n] != 0
  {
  }

  ghost predicate Shape(mem: map<nat, Table>, at: map<Node, nat>) {
    && (forall n :: n in at && !n.Data? ==> at[n] in mem)
    && (forall r :: Root(r) in at ==> at[Root(r)] == r)
    && (forall n :: n in at && n.Mid? ==> Root(n.root) in at && n.i < ENTRIES)
    && (forall n :: n in at && n.Last? ==> Mid(n.root, n.i) in at && n.j < ENTRIES)
  }

  /** Upper-level entries point to the pages of the next level that exist. */
  ghost predicate Pointers(mem: map<nat, Table>, at: map<Node, nat>)
    requires Shape(mem, at)
  {
    forall n, i {:trigger mem[at[n]][i]} :: n in at && (n.Root? || n.Mid?) && 0 <= i < ENTRIES ==>
      mem[at[n]][i] == Ptr(at, Child(n, i))
  }

  predicate GoodLeaf(pte: nat) { V(pte) && Rwx(pte) }

  /** Every mapping has its last-level page. */
  ghost predicate Covered(at: map<Node, nat>, leaf: map<Key, nat>) {
    forall k :: k in leaf ==> k.v < VPNS && LastOf(k.root, k.v) in at && GoodLeaf(leaf[k])
  }

  /** Last-level entries are what `leaf` says. */
  ghost predicate Entries(mem: map<nat, Table>, at: map<Node, nat>, leaf: map<Key, nat>)
    requires Shape(mem, at)
  {
    forall r, v {:trigger Get(leaf, r, v)} {:trigger LastOf(r, v)} :: 0 <= v < VPNS && LastOf(r, v) in at ==>
      mem[at[LastOf(r, v)]][Px0(v)] == Get(leaf, r, v)
  }

  /** Pages owned by mappings are the ones they map. */
  ghost predicate Owns(at: map<Node, nat>, leaf: map<Key, nat>) {
    forall n :: n in at && n.Data? ==> Key(n.root, n.v) in leaf && Ppn(leaf[Key(n.root, n.v)]) == at[n]
  }

  ghost predicate Leaves(mem: map<nat, Table>, at: map<Node, nat>, leaf: map<Key, nat>)
    requires Shape(mem, at)
  { Covered(at, leaf) && Entries(mem, at, leaf) && Owns(at, leaf) }

  ghost predicate Good(mem: map<nat, Table>, free: seq<nat>, at: map<Node, nat>, leaf: map<Key, nat>) {
    Apart(free, at) && Shape(mem, at) && Pointers(mem, at) && Leaves(mem, at, leaf)
  }

  // ----- what the hardware sees -----

  // The page an upper-level entry points to.
  function Next(mem: map<nat, Table>, page: nat, i: nat): (p: nat)
    requires i < ENTRIES
  { if page in mem && V(mem[page][i]) then Ppn(mem[page][i]) else 0 }

  /** The entry that translation reads for page v under root r (section 4.3.2 of the RISC-V privileged
      architecture, with no superpages): 0 if a level is missing. */
  function Translate(mem: map<nat, Table>, r: nat, v: nat): (pte: nat) {
    var p1 := Next(mem, r, Px2(v));
    var p0 := Next(mem, p1, Px1(v));
    if p1 != 0 && p0 != 0 && p0 in mem then mem[p0][Px0(v)] else 0
  }

  /** The tree refines the map. */
  lemma {:induction false} TranslateIsLeaf(mem: map<nat, Table>, free: seq<nat>, at: map<Node, nat>,
                                           leaf: map<Key, nat>, r: nat, v: nat)
    requires Good(mem, free, at, leaf) && Root(r) in at && v < VPNS
    ensures Translate(mem, r, v) == Get(leaf, r, v)
  {
    var i, j := Px2(v), Px1(v);
    assert mem[at[Root(r)]][i] == Ptr(at, Mid(r, i));
    if Mid(r, i) in at {
      assert mem[at[Mid(r, i)]][j] == Ptr(at, Last(r, i, j));
      if Last(r, i, j) in at { assert LastOf(r, v) in at; assert mem[at[LastOf(r, v)]][Px0(v)] == Get(leaf, r, v); }
    }
  }

  // ----- a new table page -----

  function AddTable(mem: map<nat, Table>, page: nat, i: nat, p: nat): (mem': map<nat, Table>)
    requires page in mem && i < ENTRIES
  {
    var m := mem[p := NoEntries()];
    m[page := m[page][i := MkPte(p, 0)]]
  }

  /** A page with no place. */
  ghost predicate Loose(free: seq<nat>, at: map<Node, nat>, p: nat) {
    p != 0 && p !in free && forall n :: n in at ==> at[n] != p
  }

  // The entry for child i of n is missing, and p may become that child.
  ghost predicate CanAdd(free: seq<nat>, at: map<Node, nat>, n: Node, i: nat, p: nat) {
    Loose(free, at, p) && n in at && (n.Root? || n.Mid?) && i < ENTRIES && Child(n, i) !in at
  }

  lemma {:induction false} PlaceApart(free: seq<nat>, at: map<Node, nat>, n: Node, p: nat)
    requires Apart(free, at) && Loose(free, at, p)
    ensures Apart(free, at[n := p])
  {
  }

  lemma {:induction false} AddShape(mem: map<nat, Table>, free: seq<nat>, at: map<Node, nat>, n: Node, i: nat, p: nat)
    requires Shape(mem, at) && CanAdd(free, at, n, i, p)
    ensures Shape(AddTable(mem, at[n], i, p), at[Child(n, i) := p])
  {
  }

  lemma {:induction false} AddPointers(mem: map<nat, Table>, free: seq<nat>, at: map<Node, nat>, n: Node, i: nat,
                                       p: nat)
    requires Apart(free, at) && Shape(mem, at) && Pointers(mem, at) && CanAdd(free, at, n, i, p)
    requires Shape(AddTable(mem, at[n], i, p), at[Child(n, i) := p])
    ensures Pointers(AddTable(mem, at[n], i, p), at[Child(n, i) := p])
  {
    hide Px0, Px1, Px2, Ppn, GoodLeaf;
    var mem', at' := AddTable(mem, at[n], i, p), at[Child(n, i) := p];
    forall m, k | m in at' && (m.Root? || m.Mid?) && 0 <= k < ENTRIES ensures mem'[at'[m]][k] == Ptr(at', Child(m, k)) {
      if m == Child(n, i) {
        assert Child(m, k) !in at;
      } else {
        assert mem[at[m]][k] == Ptr(at, Child(m, k));
      }
    }
  }

  lemma {:induction false} AddEntries(mem: map<nat, Table>, free: seq<nat>, at: map<Node, nat>, leaf: map<Key, nat>,
                                      n: Node, i: nat, p: nat)
    requires Apart(free, at) && Shape(mem, at) && Covered(at, leaf) && Entries(mem, at, leaf)
    requires CanAdd(free, at, n, i, p)
    requires Shape(AddTable(mem, at[n], i, p), at[Child(n, i) := p])
    ensures Entries(AddTable(mem, at[n], i, p), at[Child(n, i) := p], leaf)
  {
    hide Px0, Px1, Px2, Ppn, GoodLeaf;
    var mem', at' := AddTable(mem, at[n], i, p), at[Child(n, i) := p];
    forall r, v | 0 <= v < VPNS && LastOf(r, v) in at' ensures mem'[at'[LastOf(r, v)]][Px0(v)] == Get(leaf, r, v) {
      if LastOf(r, v) == Child(n, i) {
        assert Key(r, v) !in leaf;
      } else {
        assert mem[at[LastOf(r, v)]][Px0(v)] == Get(leaf, r, v);
      }
    }
  }

  /** Adding an empty table page maps nothing. */
  lemma {:induction false} AddGood(mem: map<nat, Table>, free: seq<nat>, at: map<Node, nat>, leaf: map<Key, nat>,
                                   n: Node, i: nat, p: nat)
    requires Good(mem, free, at, leaf) && CanAdd(free, at, n, i, p)
    ensures at[n] in mem && Good(AddTable(mem, at[n], i, p), free, at[Child(n, i) := p], leaf)
  {
    hide Pointers, Entries, Apart, Px0, Px1, Px2;
    PlaceApart(free, at, Child(n, i), p);
    AddShape(mem, free, at, n, i, p);
    AddPointers(mem, free, at, n, i, p);
    AddEntries(mem, free, at, leaf, n, i, p);
  }

  // ----- a new root -----

  lemma {:induction false} RootPointers(mem: map<nat, Table>, free: seq<nat>, at: map<Node, nat>, p: nat)
    requires Apart(free, at) && Shape(mem, at) && Pointers(mem, at) && Loose(free, at, p)
    ensures Shape(mem[p := NoEntries()], at[Root(p) := p]) && Pointers(mem[p := NoEntries()], at[Root(p) := p])
  {
    var mem', at' := mem[p := NoEntries()], at[Root(p) := p];
    assert Root(p) !in at;
    forall m, k | m in at' && (m.Root? || m.Mid?) && 0 <= k < ENTRIES ensures mem'[at'[m]][k] == Ptr(at', Child(m, k)) {
      if m == Root(p) {
        assert Mid(p, k) !in at;
      } else {
        assert mem[at[m]][k] == Ptr(at, Child(m, k));
      }
    }
  }

  lemma {:induction false} RootEntries(mem: map<nat, Table>, at: map<Node, nat>, leaf: map<Key, nat>, p: nat)
    requires Shape(mem, at) && Entries(mem, at, leaf) && (forall n :: n in at ==> at[n] != p)
    requires Shape(mem[p := NoEntries()], at[Root(p) := p])
    ensures Entries(mem[p := NoEntries()], at[Root(p) := p], leaf)
  {
    hide Px0, Px1, Px2;
    var mem', at' := mem[p := NoEntries()], at[Root(p) := p];
    forall r, v | 0 <= v < VPNS && LastOf(r, v) in at' ensures mem'[at'[LastOf(r, v)]][Px0(v)] == Get(leaf, r, v) {
      assert mem[at[LastOf(r, v)]][Px0(v)] == Get(leaf, r, v);
    }
  }

  lemma {:induction false} RootGood(mem: map<nat, Table>, free: seq<nat>, at: map<Node, nat>, leaf: map<Key, nat>,
                                    p: nat)
    requires Good(mem, free, at, leaf) && Loose(free, at, p)
    ensures Good(mem[p := NoEntries()], free, at[Root(p) := p], leaf)
  {
    hide Pointers, Entries, Apart, Px0, Px1, Px2;
    PlaceApart(free, at, Root(p), p);
    RootPointers(mem, free, at, p);
    RootEntries(mem, at, leaf, p);
  }

  // ----- writing a last-level entry -----

  function SetEntry(mem: map<nat, Table>, page: nat, i: nat, pte: nat): (mem': map<nat, Table>)
    requires page in mem && i < ENTRIES
  { mem[page := mem[page][i := pte]] }

  function Put(leaf: map<Key, nat>, r: nat, v: nat, pte: nat): (leaf': map<Key, nat>) {
    if pte == 0 then leaf - {Key(r, v)} else leaf[Key(r, v) := pte]
  }

  lemma {:induction false} SetPointers(mem: map<nat, Table>, free: seq<nat>, at: map<Node, nat>, r: nat, v: nat,
                                       pte: nat)
    requires Apart(free, at) && Shape(mem, at) && Pointers(mem, at) && LastOf(r, v) in at
    ensures Shape(SetEntry(mem, at[LastOf(r, v)], Px0(v), pte), at)
    ensures Pointers(SetEntry(mem, at[LastOf(r, v)], Px0(v), pte), at)
  {
    var mem' := SetEntry(mem, at[LastOf(r, v)], Px0(v), pte);
    forall m, k | m in at && (m.Root? || m.Mid?) && 0 <= k < ENTRIES ensures mem'[at[m]][k] == Ptr(at, Child(m, k)) {
      assert mem[at[m]][k] == Ptr(at, Child(m, k));
    }
  }

  lemma {:induction false} SetEntries(mem: map<nat, Table>, free: seq<nat>, at: map<Node, nat>, leaf: map<Key, nat>,
                                      r: nat, v: nat, pte: nat)
    requires Apart(free, at) && Shape(mem, at) && Entries(mem, at, leaf) && LastOf(r, v) in at && v < VPNS
    requires Shape(SetEntry(mem, at[LastOf(r, v)], Px0(v), pte), at)
    ensures Entries(SetEntry(mem, at[LastOf(r, v)], Px0(v), pte), at, Put(leaf, r, v, pte))
  {
    hide Px0, Px1, Px2, Rwx;
    var mem', leaf' := SetEntry(mem, at[LastOf(r, v)], Px0(v), pte), Put(leaf, r, v, pte);
    forall r', w | 0 <= w < VPNS && LastOf(r', w) in at ensures mem'[at[LastOf(r', w)]][Px0(w)] == Get(leaf', r', w) {
      assert mem[at[LastOf(r', w)]][Px0(w)] == Get(leaf, r', w);
      if LastOf(r', w) == LastOf(r, v) && Px0(w) == Px0(v) { PxInjective(v, w); }
    }
  }

  /** Writing one entry changes the map there and nowhere else. */
  lemma {:induction false} SetGood(mem: map<nat, Table>, free: seq<nat>, at: map<Node, nat>, leaf: map<Key, nat>,
                                   r: nat, v: nat, pte: nat)
    requires Good(mem, free, at, leaf) && LastOf(r, v) in at && v < VPNS && (pte == 0 || GoodLeaf(pte))
    requires Data(r, v) !in at
    ensures at[LastOf(r, v)] in mem
    ensures Good(SetEntry(mem, at[LastOf(r, v)], Px0(v), pte), free, at, Put(leaf, r, v, pte))
  {
    hide Pointers, Entries, Apart, Px0, Px1, Px2;
    SetPointers(mem, free, at, r, v, pte);
    SetEntries(mem, free, at, leaf, r, v, pte);
  }

  // ----- owning a mapped page -----

  // The same page-table pages.
  ghost predicate SameTables(at: map<Node, nat>, at': map<Node, nat>) {
    forall n: Node :: !n.Data? ==> (n in at <==> n in at') && (n in at ==> at'[n] == at[n])
  }

  lemma {:induction false} TablesFrame(mem: map<nat, Table>, at: map<Node, nat>, at': map<Node, nat>,
                                       leaf: map<Key, nat>)
    requires Shape(mem, at) && Pointers(mem, at) && Covered(at, leaf) && Entries(mem, at, leaf) && SameTables(at, at')
    ensures Shape(mem, at') && Pointers(mem, at') && Covered(at', leaf) && Entries(mem, at', leaf)
  {
    hide Px0, Px1, Px2, GoodLeaf;
    assert Shape(mem, at');
    forall m, k | m in at' && (m.Root? || m.Mid?) && 0 <= k < ENTRIES ensures mem[at'[m]][k] == Ptr(at', Child(m, k)) {
      assert mem[at[m]][k] == Ptr(at, Child(m, k));
    }
    forall r', w | 0 <= w < VPNS && LastOf(r', w) in at' ensures mem[at'[LastOf(r', w)]][Px0(w)] == Get(leaf, r', w) {
      assert mem[at[LastOf(r', w)]][Px0(w)] == Get(leaf, r', w);
    }
  }

  /** A page that an entry maps may become the entry's own. */
  lemma {:induction false} OwnGood(mem: map<nat, Table>, free: seq<nat>, at: map<Node, nat>, leaf: map<Key, nat>,
                                   r: nat, v: nat)
    requires Good(mem, free, at, leaf) && Key(r, v) in leaf && Loose(free, at, Ppn(leaf[Key(r, v)]))
    ensures Good(mem, free, at[Data(r, v) := Ppn(leaf[Key(r, v)])], leaf)
  {
    hide Pointers, Entries, Covered, Apart, Shape, Ppn;
    var p := Ppn(leaf[Key(r, v)]);
    PlaceApart(free, at, Data(r, v), p);
    TablesFrame(mem, at, at[Data(r, v) := p], leaf);
  }

  /** And an entry may give its page up. */
  lemma {:induction false} DisownGood(mem: map<nat, Table>, free: seq<nat>, at: map<Node, nat>, leaf: map<Key, nat>,
                                      r: nat, v: nat)
    requires Good(mem, free, at, leaf) && Data(r, v) in at
    ensures Good(mem, free, at - {Data(r, v)}, leaf) && Loose(free, at - {Data(r, v)}, at[Data(r, v)])
  {
    hide Pointers, Entries, Covered, Shape, Ppn;
    TablesFrame(mem, at, at - {Data(r, v)}, leaf);
  }

  // ----- the free list -----

  lemma {:induction false} FreeGood(mem: map<nat, Table>, free: seq<nat>, at: map<Node, nat>, leaf: map<Key, nat>,
                                    p: nat)
    requires Good(mem, free, at, leaf) && Loose(free, at, p)
    ensures Good(mem, [p] + free, at, leaf)
  {
    assert Apart([p] + free, at);
  }

  lemma {:induction false} AllocGood(mem: map<nat, Table>, free: seq<nat>, at: map<Node, nat>, leaf: map<Key, nat>)
    requires Good(mem, free, at, leaf) && free != []
    ensures Good(mem, free[1..], at, leaf) && Loose(free[1..], at, free[0])
  {
    assert free[0] in free;
    assert Apart(free[1..], at);
  }
}
