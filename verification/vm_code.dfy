/**
 walk, mappages, uvmunmap, uvmalloc, uvmdealloc, uvmcopy, freewalk, uvmfree, vmfault, proc_pagetable
 and proc_freepagetable over the free list, by page number.
 */
module VmCode {
  import opened VmModel
  import opened VmRange

  const PGSIZE: nat := 4096
  const PTE_R: nat := 2
  const PTE_W: nat := 4
  const PTE_X: nat := 8
  const PTE_U: nat := 16
  const TRAMPOLINE: nat := MAXVPN - 1
  const TRAPFRAME: nat := MAXVPN - 2

  // PGROUNDUP(sz) / PGSIZE
  function Up(sz: nat): (n: nat) { (sz + PGSIZE - 1) / PGSIZE }

  // What a page of memory holds, and pages of equal bytes.
  type Bytes = seq<nat>
  function Filled(c: nat): Bytes { seq(PGSIZE, _ => c) }

  class Vm {
    const lo: nat   // the allocator's pages are lo..hi
    const hi: nat
    var mem: map<nat, Table>     // the contents of page-table pages
    var data: map<nat, Bytes>    // the contents of other pages
    var free: seq<nat>
    ghost var at: map<Node, nat>
    ghost var leaf: map<Key, nat>

    /** A system with no tables, whose free list is as freerange leaves it. */
    constructor (lo: nat, hi: nat)
      requires 0 < lo <= hi
      ensures Ok() && at == map[] && leaf == map[] && this.lo == lo && this.hi == hi
      ensures |free| == hi - lo && forall p: nat :: p in Pages(free, at) <==> lo <= p < hi
    {
      this.lo, this.hi := lo, hi;
      mem, data, at, leaf := map[], map[], map[], map[];
      var f: seq<nat>, p := [], lo;
      while p < hi
        invariant lo <= p <= hi && |f| == p - lo && forall k :: 0 <= k < |f| ==> f[k] == p - 1 - k
      {
        f, p := [p] + f, p + 1;
      }
      free := f;
      forall q | lo <= q < hi ensures q in f { assert f[hi - 1 - q] == q; }
    }

    ghost predicate Ok()
      reads this
    {
      && Good(mem, free, at, leaf) && (forall p :: p in Pages(free, at) ==> lo <= p < hi)
      && (forall n :: n in at && n.Data? ==> at[n] in data)
    }

    // ----- the page allocator -----

    /** kalloc: the first free page; or 0, exactly when there is none. */
    method Kalloc() returns (p: nat)
      requires Ok()
      modifies this`free, this`data
      ensures Ok() && SameBut(old(free), old(data), data) && (p == 0 ==> free == old(free) && data == old(data))
      ensures p != 0 ==> old(free) == [p] + free && Loose(free, at, p) && lo <= p < hi
      ensures p == 0 <==> old(free) == []
      ensures p != 0 ==> data == old(data)[p := Filled(5)]
    {
      hide Good;
      if free == [] { return 0; }
      AllocGood(mem, free, at, leaf);
      assert Pages(free[1..], at) <= Pages(free, at);
      p := free[0];
      assert p in Pages(free, at);
      data := data[p := Filled(5)];
      free := free[1..];
    }

    /** kfree: halts exactly when the page is not one of the allocator's. */
    method Kfree(p: nat) returns (halted: bool)
      modifies this`free, this`data
      ensures halted <==> p < lo || p >= hi
      ensures halted ==> free == old(free) && data == old(data)
      ensures !halted ==> free == [p] + old(free) && data == old(data)[p := Filled(1)]
    {
      if p < lo || p >= hi { return true; }
      data := data[p := Filled(1)];
      free := [p] + free;
      halted := false;
    }

    // ----- walk -----

    // The next level's page for index i of page, whose place is n; 0 if it is missing.
    method Step(page: nat, i: nat, alloc: bool, ghost n: Node) returns (p: nat)
      requires Ok() && n in at && (n.Root? || n.Mid?) && page == at[n] && i < ENTRIES
      modifies this`mem, this`free, this`data, this`at
      ensures Ok() && Grew(old(free), old(at), free, at, n.root) && SameBut(old(free), old(data), data)
      ensures p != 0 ==> Child(n, i) in at && p == at[Child(n, i)]
      ensures p == 0 ==> free == old(free) && mem == old(mem) && at == old(at)
      ensures p == 0 ==> Child(n, i) !in at && (alloc ==> old(free) == [])
      ensures !alloc ==> free == old(free) && mem == old(mem) && at == old(at) && data == old(data)
      ensures |old(free)| <= |free| + 1
    {
      hide Apart, Leaves, Px0, Px1, Px2, Pages, SameBut;
      assert page in mem;
      SameButRefl(free, data);
      var pte := mem[page][i];
      assert mem[at[n]][i] == Ptr(at, Child(n, i));
      if V(pte) {
        Placed(free, at, Child(n, i));
        return Ppn(pte);
      }
      if !alloc { return 0; }
      p := AddLevel(page, i, n);
    }

    // kalloc a page-table page, clear it, and point to it.
    method AddLevel(page: nat, i: nat, ghost n: Node) returns (p: nat)
      requires Ok() && n in at && (n.Root? || n.Mid?) && page == at[n] && page in mem && i < ENTRIES
      requires Child(n, i) !in at
      modifies this`mem, this`free, this`data, this`at
      ensures Ok() && Grew(old(free), old(at), free, at, n.root) && SameBut(old(free), old(data), data)
      ensures p != 0 ==> Child(n, i) in at && p == at[Child(n, i)]
      ensures p == 0 ==> free == old(free) && mem == old(mem) && at == old(at)
      ensures (p == 0 <==> old(free) == []) && |old(free)| <= |free| + 1
    {
      hide Good, Px0, Px1, Px2, Pages, SameBut;
      p := Kalloc();
      if p == 0 {
        GrewRefl(free, at, n.root);
        return;
      }
      AddGood(mem, free, at, leaf, n, i, p);
      PlacePages(old(free), at, Child(n, i));
      mem := AddTable(mem, page, i, p);
      at := at[Child(n, i) := p];
    }

    /** walk: the page that holds page v's entry, with any missing levels added if alloc is set. It
        maps nothing and moves no other page. */
    method Walk(r: nat, v: nat, alloc: bool) returns (page: nat)
      requires Ok() && Root(r) in at && v < MAXVPN
      modifies this`mem, this`free, this`data, this`at
      ensures Ok() && Grew(old(free), old(at), free, at, r) && SameBut(old(free), old(data), data)
      ensures page != 0 ==> LastOf(r, v) in at && page == at[LastOf(r, v)] && page in mem
      ensures page == 0 ==> LastOf(r, v) !in at && (alloc ==> |old(free)| < 2)
      ensures !alloc ==> free == old(free) && mem == old(mem) && at == old(at) && data == old(data)
      ensures |old(free)| <= |free| + 2
    {
      hide Apart, Leaves, Pointers, Px0, Px1, Px2, Pages, SameBut, Grew;
      GrewRefl(free, at, r);
      SameButRefl(free, data);
      ghost var n := Root(r);
      page := r;
      var level := 2;
      while level > 0
        invariant 0 <= level <= 2 && Ok() && Grew(old(free), old(at), free, at, r)
        invariant SameBut(old(free), old(data), data)
        invariant n in at && page == at[n]
        invariant n == if level == 2 then Root(r) else if level == 1 then Mid(r, Px2(v)) else LastOf(r, v)
        invariant !alloc ==> free == old(free) && mem == old(mem) && at == old(at) && data == old(data)
        invariant |old(free)| <= |free| + (2 - level)
      {
        var i := if level == 2 then Px2(v) else Px1(v);
        ghost var free1, at1, data1 := free, at, data;
        page := Step(page, i, alloc, n);
        GrewTrans(old(free), old(at), free1, at1, free, at, r);
        GrewFree(old(free), old(at), free1, at1, r);
        SameButTrans(old(free), old(data), free1, data1, data);
        if page == 0 { return; }
        n := Child(n, i);
        level := level - 1;
      }
      Placed(free, at, n);
    }

    /** walkaddr: the page that v is mapped to for the user, or 0; any v may be asked for. */
    method WalkAddr(r: nat, v: nat) returns (p: nat)
      requires Ok() && Root(r) in at
      modifies this`mem, this`free, this`data, this`at
      ensures mem == old(mem) && free == old(free) && data == old(data) && at == old(at)
      ensures p == if v < MAXVPN && Key(r, v) in leaf && U(leaf[Key(r, v)]) then Ppn(leaf[Key(r, v)]) else 0
    {
      hide Good, Px0, Px1, Px2, Pages, U, Ppn;
      if v >= MAXVPN { return 0; }
      UnmapReads(mem, free, at, leaf, r, v);
      var page := Walk(r, v, false);
      if page == 0 { return 0; }
      var pte := mem[page][Px0(v)];
      if !V(pte) { return 0; }
      if !U(pte) { return 0; }
      p := Ppn(pte);
    }

    // ----- mappages -----

    /** mappages: maps pages p.. at v.., done of the n, and nothing else. It halts exactly on an empty range
        and on the first page that is mapped already or out of bounds; it fails, with that page still
        unmapped, only when there is no memory for a page-table page: two for each page are enough. */
    method MapPages(r: nat, v: nat, n: nat, p: nat, perm: nat) returns (ok: bool, halted: bool, ghost done: nat)
      requires Ok() && Root(r) in at && perm < FLAGS && Rwx(perm)
      modifies this`mem, this`free, this`data, this`at, this`leaf
      ensures Ok() && Grew(old(free), old(at), free, at, r) && SameBut(old(free), old(data), data)
      ensures done <= n && leaf == MapRange(old(leaf), r, v, done, p, perm)
      ensures ok <==> !halted && done == n
      ensures halted <==> n == 0 || (done < n && (v + done >= MAXVPN || Key(r, v + done) in old(leaf)))
      ensures (done > 0 ==> v + done <= MAXVPN) && forall w :: v <= w < v + done ==> Key(r, w) !in old(leaf)
      ensures |old(free)| <= |free| + 2 * (done + 1) && (ok ==> |old(free)| <= |free| + 2 * n)
      ensures !ok && !halted ==> |old(free)| < 2 * (done + 1)
    {
      hide Good, Px0, Px1, Px2, Rwx, MapRange, MkPte, Grew, SameBut;
      done, ok, halted := 0, false, false;
      GrewRefl(free, at, r);
      SameButRefl(free, data);
      MapRangeStart(leaf, r, v, p, perm);
      if n == 0 { return false, true, 0; }
      var a := v;
      while true
        invariant a == v + done && done < n && Ok() && Root(r) in at && Grew(old(free), old(at), free, at, r)
        invariant SameBut(old(free), old(data), data) && !ok && !halted
        invariant leaf == MapRange(old(leaf), r, v, done, p, perm)
        invariant (done > 0 ==> v + done <= MAXVPN) && forall w :: v <= w < v + done ==> Key(r, w) !in old(leaf)
        invariant |old(free)| <= |free| + 2 * done
        decreases n - done
      {
        if a >= MAXVPN { return false, true, done; }
        NotYet(old(leaf), r, v, done, p, perm);
        MkGood(p + done, perm);
        ghost var free1, at1, data1 := free, at, data;
        ok, halted := MapPage(r, a, MkPte(p + (a - v), perm));
        GrewTrans(old(free), old(at), free1, at1, free, at, r);
        GrewFree(old(free), old(at), free1, at1, r);
        SameButTrans(old(free), old(data), free1, data1, data);
        if !ok { return; }
        MapRangeNext(old(leaf), r, v, done, p, perm);
        done := done + 1;
        if a == v + n - 1 { return; }
        ok := false;
        a := a + 1;
      }
    }

    // One round of mappages: walk, the remap test, the entry.
    method MapPage(r: nat, a: nat, pte: nat) returns (ok: bool, halted: bool)
      requires Ok() && Root(r) in at && a < MAXVPN && GoodLeaf(pte) && pte != 0
      modifies this`mem, this`free, this`data, this`at, this`leaf
      ensures Ok() && Root(r) in at && Grew(old(free), old(at), free, at, r) && SameBut(old(free), old(data), data)
      ensures halted <==> Key(r, a) in old(leaf)
      ensures leaf == if ok then old(leaf)[Key(r, a) := pte] else old(leaf)
      ensures ok ==> !halted
      ensures |old(free)| <= |free| + 2 && (!ok && !halted ==> |old(free)| < 2)
    {
      hide Good, Px0, Px1, Px2, GoodLeaf;
      var page := Walk(r, a, true);
      UnmapReads(mem, free, at, leaf, r, a);
      if page == 0 { return false, false; }
      if V(mem[page][Px0(a)]) { return false, true; }
      SetGood(mem, free, at, leaf, r, a, pte);
      mem := SetEntry(mem, page, Px0(a), pte);
      leaf := leaf[Key(r, a) := pte];
      ok, halted := true, false;
    }

    // ----- uvmunmap -----

    /** uvmunmap: the range is unmapped and nothing else; with doFree every page that was mapped there
        goes to the free list, once. */
    method UvmUnmap(r: nat, v: nat, n: nat, doFree: bool)
      requires Ok() && Root(r) in at && v + n <= MAXVPN
      requires forall w :: v <= w < v + n && Key(r, w) in leaf ==> (doFree <==> Data(r, w) in at)
      modifies this`mem, this`free, this`data, this`at, this`leaf
      ensures Ok() && Pages(free, at) == Pages(old(free), old(at)) && SameBut(free, old(data), data)
      ensures leaf == Without(old(leaf), r, v, v + n) && at == Disowned(old(at), r, v, v + n)
      ensures forall p :: p in old(free) ==> p in free
    {
      hide Good, Px0, Px1, Px2, Rwx, Without, Disowned, Pages, SameBut;
      ghost var leaf0, at0 := leaf, at;
      WithoutNext(leaf, r, v, v);
      DisownedNext(at, r, v, v);
      SameButRefl(free, data);
      var a := v;
      while a < v + n
        invariant v <= a <= v + n && Ok() && Root(r) in at && Pages(free, at) == Pages(old(free), at0)
        invariant SameBut(free, old(data), data) && (forall p :: p in old(free) ==> p in free)
        invariant leaf == Without(leaf0, r, v, a) && at == Disowned(at0, r, v, a)
      {
        WithoutNext(leaf0, r, v, a);
        DisownedNext(at0, r, v, a);
        ghost var free1, data1 := free, data;
        UnmapPage(r, a, doFree);
        SameButGrow(free1, old(data), data1, free, data);
        a := a + 1;
      }
    }

    // One round of uvmunmap.
    method UnmapPage(r: nat, a: nat, doFree: bool)
      requires Ok() && Root(r) in at && a < MAXVPN
      requires Key(r, a) in leaf ==> (doFree <==> Data(r, a) in at)
      modifies this`mem, this`free, this`data, this`at, this`leaf
      ensures Ok() && Root(r) in at && Pages(free, at) == Pages(old(free), old(at)) && SameBut(free, old(data), data)
      ensures forall p :: p in old(free) ==> p in free
      ensures leaf == Put(old(leaf), r, a, 0) && at == old(at) - {Data(r, a)}
    {
      hide Good, Px0, Px1, Px2, Pages;
      UnmapReads(mem, free, at, leaf, r, a);
      var page := Walk(r, a, false);
      if page != 0 {
        var pte := mem[page][Px0(a)];
        if V(pte) {
          if doFree {
            UnmapOwned(mem, free, at, leaf, r, a);
            assert Ppn(pte) in Pages(free, at) by { AtPages(free, at, Data(r, a)); }
            var halted := Kfree(Ppn(pte));
            assert !halted;
            at := at - {Data(r, a)};
          }
          UnmapGood(mem, free, at, leaf, r, a);
          mem := SetEntry(mem, page, Px0(a), 0);
          leaf := Put(leaf, r, a, 0);
        }
      }
      assert Key(r, a) !in old(leaf) ==> Put(old(leaf), r, a, 0) == old(leaf);
    }

    /** uvmdealloc: unmaps and frees the pages between the two sizes. */
    method UvmDealloc(r: nat, oldsz: nat, newsz: nat) returns (sz: nat)
      requires Ok() && Root(r) in at && Up(oldsz) <= MAXVPN
      requires forall w :: Up(newsz) <= w < Up(oldsz) && Key(r, w) in leaf ==> Data(r, w) in at
      modifies this`mem, this`free, this`data, this`at, this`leaf
      ensures Ok() && Pages(free, at) == Pages(old(free), old(at)) && SameBut(free, old(data), data)
      ensures sz == if newsz < oldsz then newsz else oldsz
      ensures leaf == Without(old(leaf), r, Up(newsz), Up(oldsz)) && at == Disowned(old(at), r, Up(newsz), Up(oldsz))
      ensures forall p :: p in old(free) ==> p in free
    {
      hide Good, Px0, Px1, Px2, Pages;
      if newsz >= oldsz {
        EmptyRange(leaf, at, r, Up(newsz), Up(oldsz));
        return oldsz;
      }
      if Up(newsz) < Up(oldsz) {
        UvmUnmap(r, Up(newsz), Up(oldsz) - Up(newsz), true);
      } else {
        EmptyRange(leaf, at, r, Up(newsz), Up(oldsz));
      }
      sz := newsz;
    }

    // ----- growing and copying memory -----

    // kalloc, fill the page, mappages, and kfree if that fails: how uvmalloc, uvmcopy and vmfault add a
    // page to r. Only page-table pages are left over from a failure.
    method AddPage(r: nat, v: nat, content: Bytes, perm: nat) returns (p: nat)
      requires Ok() && Root(r) in at && v < MAXVPN && perm < FLAGS && Rwx(perm) && Key(r, v) !in leaf
      requires Data(r, v) !in at
      modifies this`mem, this`free, this`data, this`at, this`leaf
      ensures Ok() && Pages(free, at) == Pages(old(free), old(at)) && SameBut(old(free), old(data), data)
      ensures AddedIn(old(leaf), old(at), leaf, at, r, v, v + 1) && forall q :: q in free ==> q in old(free)
      ensures p != 0 ==> HoldsAt(leaf, at, data, r, v, content, perm) && p == at[Data(r, v)]
      ensures p == 0 ==> leaf == old(leaf) && Data(r, v) !in at && |old(free)| < 3
      ensures |old(free)| <= |free| + 3
    {
      hide Good, Px0, Px1, Px2, Pages, Rwx, MapRange, MkPte, AddedIn, Grew;
      p := Kalloc();
      if p == 0 {
        AddedNone(leaf, at, r, v, v + 1);
        return;
      }
      TakePages(p, free, at);
      ghost var free1, at1 := free, at;
      data := data[p := content];
      var ok, halted, done := MapPages(r, v, 1, p, perm);
      assert !halted;
      GrewFree(free1, at1, free, at, r);
      GrewAdded(free1, at1, free, at, old(leaf), r, v, MkPte(p, perm), p);
      LooseStill(p, free, at);
      TakePages(p, free, at);
      if !ok {
        MapRangeStart(old(leaf), r, v, p, perm);
        FreeGood(mem, free, at, leaf, p);
        halted := Kfree(p);
        assert !halted;
        return 0;
      }
      MapOne(old(leaf), r, v, p, perm);
      OwnGood(mem, free, at, leaf, r, v);
      at := at[Data(r, v) := p];
    }

    /** uvmalloc: either every page up to newsz has a zeroed page of its own, or nothing is mapped that
        was not before and every data page taken is free again. No page that was not free changes. With
        three free pages for each page to add it does not fail. */
    method UvmAlloc(r: nat, oldsz: nat, newsz: nat, xperm: nat) returns (sz: nat, ghost ok: bool)
      requires Ok() && Root(r) in at && Up(newsz) <= MAXVPN && xperm in {0, PTE_W, PTE_X, PTE_W + PTE_X}
      requires forall w :: Up(oldsz) <= w < Up(newsz) ==> Key(r, w) !in leaf
      modifies this`mem, this`free, this`data, this`at, this`leaf
      ensures Ok() && Pages(free, at) == Pages(old(free), old(at))
      ensures newsz < oldsz ==> ok && sz == oldsz && leaf == old(leaf) && at == old(at)
      ensures oldsz <= newsz ==> sz == if ok then newsz else 0
      ensures oldsz <= newsz ==>
                AddedIn(old(leaf), old(at), leaf, at, r, Up(oldsz), if ok then Up(newsz) else Up(oldsz))
      ensures oldsz <= newsz && ok ==> Holds(leaf, at, data, r, Up(oldsz), Up(newsz), Filled(0), PTE_R + PTE_U + xperm)
      ensures !ok ==> leaf == old(leaf)
      ensures SameBut(old(free), old(data), data)
      ensures !ok ==> |old(free)| < 3 * (Up(newsz) - Up(oldsz))
    {
      hide Good, Px0, Px1, Px2, Pages, MkPte, Filled, AddedIn, SameBut, HoldsAt;
      SameButRefl(free, data);
      if newsz < oldsz { return oldsz, true; }
      ghost var leaf0, at0, first := leaf, at, Up(oldsz);
      var perm := PTE_R + PTE_U + xperm;
      AddedStart(leaf, at, r, first);
      NoData(mem, free, at, leaf, r, first, Up(newsz));
      var oldsz', a := Up(oldsz), Up(oldsz);
      while a * PGSIZE < newsz
        invariant first <= a && (first <= Up(newsz) ==> a <= Up(newsz)) && Ok() && Root(r) in at
        invariant Pages(free, at) == Pages(old(free), at0) && AddedIn(leaf0, at0, leaf, at, r, first, a)
        invariant Holds(leaf, at, data, r, first, a, Filled(0), perm)
        invariant SameBut(old(free), old(data), data) && (forall p :: p in free ==> p in old(free))
        invariant |old(free)| <= |free| + 3 * (a - first)
      {
        UpNext(a, newsz);
        ghost var leaf1, at1, data1, free1 := leaf, at, data, free;
        NotFree(mem, free, at, leaf);
        AddedStay(leaf0, at0, leaf, at, r, first, a);
        var added := AddPage(r, a, Filled(0), perm);
        AddedStay(leaf1, at1, leaf, at, r, a, a + 1);
        SameButTrans(old(free), old(data), free1, data1, data);
        if added != 0 {
          AddedNext(leaf0, at0, leaf1, at1, leaf, at, r, first, a);
          HoldsNext(leaf1, at1, data1, free1, leaf, at, data, r, first, a, Filled(0), perm);
        } else {
          AddedNot(leaf0, at0, leaf1, at1, leaf, at, r, first, a);
          AddedUndone(leaf0, at0, leaf, at, r, first, a);
          UpExact(a);
          UpExact(first);
          ghost var data2 := data;
          var s := UvmDealloc(r, a * PGSIZE, oldsz' * PGSIZE);
          AllBack(mem, old(free), at0, free, at, leaf);
          SameButTrans(old(free), old(data), free, data2, data);
          return 0, false;
        }
        a := a + 1;
      }
      UpEnd(a, oldsz, newsz);
      return newsz, true;
    }

    /** vmfault: a page below sz that is not mapped gets a zeroed page of its own; its number, or 0 and
        nothing mapped. */
    method VmFault(r: nat, va: nat, sz: nat) returns (p: nat)
      requires Ok() && Root(r) in at && Up(sz) <= MAXVPN
      modifies this`mem, this`free, this`data, this`at, this`leaf
      ensures Ok() && Pages(free, at) == Pages(old(free), old(at)) && SameBut(old(free), old(data), data)
      ensures AddedIn(old(leaf), old(at), leaf, at, r, va / PGSIZE, va / PGSIZE + 1)
      ensures va >= sz || Key(r, va / PGSIZE) in old(leaf) ==> p == 0
      ensures p == 0 ==> leaf == old(leaf) && (va >= sz || Key(r, va / PGSIZE) in old(leaf) || |old(free)| < 3)
      ensures p != 0 ==>
                && HoldsAt(leaf, at, data, r, va / PGSIZE, Filled(0), PTE_W + PTE_U + PTE_R)
                && p == at[Data(r, va / PGSIZE)]
    {
      hide Good, Px0, Px1, Px2, Pages, MkPte, Filled, HoldsAt;
      var v := va / PGSIZE;
      if va >= sz { return 0; }
      FaultBound(va, sz);
      var mapped := IsMapped(r, v);
      if mapped { return 0; }
      NoData(mem, free, at, leaf, r, v, v + 1);
      assert Data(r, v) !in at by { assert DataIn(r, v, v + 1, Data(r, v)); }
      p := AddPage(r, v, Filled(0), PTE_W + PTE_U + PTE_R);
    }

    // ismapped
    method IsMapped(r: nat, v: nat) returns (b: bool)
      requires Ok() && Root(r) in at && v < MAXVPN
      modifies this`mem, this`free, this`data, this`at
      ensures mem == old(mem) && free == old(free) && data == old(data) && at == old(at)
      ensures b <==> Key(r, v) in leaf
    {
      hide Good, Px0, Px1, Px2, Pages;
      UnmapReads(mem, free, at, leaf, r, v);
      var page := Walk(r, v, false);
      b := page != 0 && V(mem[page][Px0(v)]);
    }

    /** uvmcopy: either every page of the old table below sz has a copy in the new one, in a page of
        its own, with the same flags; or nothing is mapped that was not before, and every data page taken
        is free again. No page that was not free changes. With three free pages for each page to copy it
        does not fail. */
    method UvmCopy(r: nat, r': nat, sz: nat) returns (ok: bool)
      requires Ok() && Root(r) in at && Root(r') in at && r != r' && Up(sz) <= MAXVPN && OwnsBelow(leaf, at, r, Up(sz))
      requires forall w :: 0 <= w < Up(sz) ==> Key(r', w) !in leaf
      modifies this`mem, this`free, this`data, this`at, this`leaf
      ensures Ok() && Pages(free, at) == Pages(old(free), old(at))
      ensures AddedIn(old(leaf), old(at), leaf, at, r', 0, if ok then Up(sz) else 0)
      ensures ok ==> Copied(leaf, at, data, r, r', Up(sz))
      ensures SameBut(old(free), old(data), data)
      ensures !ok ==> leaf == old(leaf) && |old(free)| < 3 * Up(sz)
    {
      hide Good, Px0, Px1, Px2, Pages, AddedIn, SameBut, HoldsAt, CopiedAt, OwnsBelow, Ppn, Flags;
      ghost var leaf0, at0, free0, data0 := leaf, at, free, data;
      AddedStart(leaf, at, r', 0);
      SameButRefl(free, data);
      NoData(mem, free, at, leaf, r', 0, Up(sz));
      var i := 0;
      while i * PGSIZE < sz
        invariant 0 <= i <= Up(sz) && Ok() && Root(r) in at && Root(r') in at
        invariant Pages(free, at) == Pages(free0, at0) && AddedIn(leaf0, at0, leaf, at, r', 0, i)
        invariant OwnsBelow(leaf, at, r, Up(sz)) && Copied(leaf, at, data, r, r', i)
        invariant SameBut(free0, data0, data) && forall p :: p in free ==> p in free0
        invariant |free0| <= |free| + 3 * i
      {
        UpNext(i, sz);
        ghost var leaf1, at1, data1, free1 := leaf, at, data, free;
        NotFree(mem, free, at, leaf);
        AddedStay(leaf0, at0, leaf, at, r', 0, i);
        ok := CopyPage(r, r', i, Up(sz));
        if !ok {
          AddedNot(leaf0, at0, leaf1, at1, leaf, at, r', 0, i);
          AddedUndone(leaf0, at0, leaf, at, r', 0, i);
          AddedStay(leaf0, at0, leaf, at, r', 0, i);
          SameButTrans(free0, data0, free1, data1, data);
          ghost var data2 := data;
          UvmUnmap(r', 0, i, true);
          AllBack(mem, free0, at0, free, at, leaf);
          SameButTrans(free0, data0, free, data2, data);
          return;
        }
        AddedNext(leaf0, at0, leaf1, at1, leaf, at, r', 0, i);
        SameButTrans(free0, data0, free1, data1, data);
        OwnsStill(leaf1, at1, leaf, at, r, r', i, Up(sz));
        CopiedNext(leaf1, at1, data1, free1, leaf, at, data, r, r', i, Up(sz));
        AddedStay(leaf1, at1, leaf, at, r', i, i + 1);
        i := i + 1;
      }
      UpNext(i, sz);
      ok := true;
    }

    // One round of uvmcopy: page i, if r maps it, gets a copy in r'.
    method CopyPage(r: nat, r': nat, i: nat, ghost top: nat) returns (ok: bool)
      requires Ok() && Root(r) in at && Root(r') in at && r != r' && i < top <= MAXVPN && OwnsBelow(leaf, at, r, top)
      requires Key(r', i) !in leaf && Data(r', i) !in at
      modifies this`mem, this`free, this`data, this`at, this`leaf
      ensures Ok() && Pages(free, at) == Pages(old(free), old(at)) && SameBut(old(free), old(data), data)
      ensures AddedIn(old(leaf), old(at), leaf, at, r', i, i + 1) && forall q :: q in free ==> q in old(free)
      ensures ok ==> CopiedAt(leaf, at, data, r, r', i)
      ensures !ok ==> leaf == old(leaf) && Data(r', i) !in at && |old(free)| < 3
      ensures |old(free)| <= |free| + 3
    {
      hide Good, Px0, Px1, Px2, Pages, AddedIn, SameBut, HoldsAt, CopiedAt, OwnsBelow, Ppn, Flags;
      NotFree(mem, free, at, leaf);
      UnmapReads(mem, free, at, leaf, r, i);
      SameButRefl(free, data);
      AddedNone(leaf, at, r', i, i + 1);
      var page := Walk(r, i, false);
      var pte := if page == 0 then 0 else mem[page][Px0(i)];
      if !V(pte) {
        CopyNone(leaf, at, data, r, r', i);
        return true;
      }
      CopySource(mem, free, at, leaf, data, r, i, top);
      var added := AddPage(r', i, data[Ppn(pte)], Flags(pte));
      ok := added != 0;
      if ok { CopyDone(old(leaf), old(at), old(data), old(free), leaf, at, data, r, r', i, top); }
    }

    // ----- freeing a table -----

    /** freewalk: of a tree that maps nothing, every page goes to the free list, once; no other page is
        touched. */
    method FreeWalk(page: nat, ghost n: Node)
      requires Apart(free, at) && !n.Data? && n in at && page == at[n] && Bare(mem, at, n)
      requires forall p :: p in Pages(free, at) ==> lo <= p < hi
      modifies this`mem, this`free, this`data, this`at
      ensures Apart(free, at) && at == Cut(old(at), n) && Pages(free, at) == Pages(old(free), old(at))
      ensures SameTablesAt(old(mem), mem, at, n) && SameBut(free, old(data), data)
      ensures forall p :: p in old(free) ==> p in free
      decreases if n.Root? then 2 else if n.Mid? then 1 else 0
    {
      hide Apart, Pages, Bare, Cut, CutKids;
      ghost var mem0, at0 := mem, at;
      AllKids(mem, at, n);
      BareEntry(mem, at, n, 0);
      var i := 0;
      while i < ENTRIES
        invariant 0 <= i <= ENTRIES && Apart(free, at) && at == CutKids(at0, n, i) && n in at && at[n] == page
        invariant Pages(free, at) == Pages(old(free), at0) && SameTablesAt(mem0, mem, at, n)
        invariant page in mem && forall k :: i <= k < ENTRIES ==> mem[page][k] == mem0[page][k]
        invariant SameBut(free, old(data), data) && forall p :: p in old(free) ==> p in free
      {
        var pte := mem[page][i];
        BareEntry(mem0, at0, n, i);
        NextKid(mem0, at0, n, i);
        if V(pte) && !Rwx(pte) {
          ghost var c, mem1 := Child(n, i), mem;
          BareKid(mem0, mem, at0, n, i);
          KidPlace(at0, n, i);
          FreeWalk(Ppn(pte), c);
          KidsFrame(mem0, mem1, mem, at0, at, n, i);
          KidsClear(mem0, mem, free, at, n, mem[page][i := 0]);
          mem := mem[page := mem[page][i := 0]];
        } else if V(pte) {
          assert false;
        }
        i := i + 1;
      }
      FreeLast(mem0, mem, free, at, n);
      FreePages(free, at, n);
      AtPages(free, at, n);
      var halted := Kfree(page);
      assert !halted;
      at := at - {n};
      mem := mem - {page};
    }

    /** uvmfree: of a table whose mappings are all below sz and own their pages, every page goes to the
        free list, data and page-table pages alike, and every other table stays as it is. */
    method UvmFree(r: nat, sz: nat)
      requires Ok() && Root(r) in at && Up(sz) <= MAXVPN
      requires forall k :: k in leaf && k.root == r ==> k.v < Up(sz) && Data(r, k.v) in at
      modifies this`mem, this`free, this`data, this`at, this`leaf
      ensures Ok() && Pages(free, at) == Pages(old(free), old(at))
      ensures leaf == LeavesOf(old(leaf), r) && at == TreesBut(old(at), r) && SameBut(free, old(data), data)
      ensures forall p :: p in old(free) ==> p in free
    {
      hide Good, Px0, Px1, Px2, Pages, Bare, Up, Cut, Apart, SameTablesAt, Without, Disowned, LeavesOf, TreesBut,
           SameBut;
      SameButRefl(free, data);
      ghost var leaf0, at0 := leaf, at;
      UnmapAll(mem, free, at, leaf, r, Up(sz));
      if sz > 0 {
        UvmUnmap(r, 0, Up(sz), true);
      } else {
        UpNext(0, 0);
        EmptyRange(leaf, at, r, 0, 0);
      }
      RootPlace(mem, free, at, leaf, r);
      NoneLeft(leaf0, r);
      GoodBare(mem, free, at, leaf, r);
      ghost var mem1, free1, at1, data1 := mem, free, at, data;
      FreeWalk(r, Root(r));
      SameButGrow(free1, old(data), data1, free, data);
      CutGood(mem1, free1, at1, leaf, mem, free, r);
      CutOk(free, at1, at, data1, data, r);
    }

    /** proc_pagetable: a new table that maps the trampoline and the trap frame and owns neither; or 0,
        and every page, page-table pages included, is where it was. No page that was not free changes; with
        five free pages it does not fail. */
    method ProcPagetable(trampoline: nat, trapframe: nat) returns (r: nat)
      requires Ok()
      modifies this`mem, this`free, this`data, this`at, this`leaf
      ensures Ok() && Pages(free, at) == Pages(old(free), old(at))
      ensures r == 0 ==> at == old(at) && leaf == old(leaf)
      ensures r != 0 ==>
                Root(r) !in old(at) && Root(r) in at && TreesBut(at, r) == old(at) && forall v :: Data(r, v) !in at
      ensures r != 0 ==> leaf == old(leaf)[Key(r, TRAMPOLINE) := MkPte(trampoline, PTE_R + PTE_X)]
                                          [Key(r, TRAPFRAME) := MkPte(trapframe, PTE_R + PTE_W)]
      ensures SameBut(old(free), old(data), data) && (r == 0 ==> |old(free)| < 5)
    {
      hide Good, Px0, Px1, Px2, Pages, MapRange, MkPte, Grew, TreesBut, Ppn, SameBut, LeavesOf, Without;
      r := UvmCreate();
      if r == 0 { return; }
      ghost var data1 := data;
      NewTree(mem, free, old(at), at, leaf, r);
      ghost var free1, at1 := free, at;
      var ok, halted, done := MapPages(r, TRAMPOLINE, 1, trampoline, PTE_R + PTE_X);
      assert !halted;
      GrewTree(old(at), free1, at1, free, at, r);
      GrewFree(free1, at1, free, at, r);
      SameButTrans(old(free), old(data), free1, data1, data);
      ghost var data2 := data;
      MapOne(old(leaf), r, TRAMPOLINE, trampoline, PTE_R + PTE_X);
      MapRangeStart(old(leaf), r, TRAMPOLINE, trampoline, PTE_R + PTE_X);
      if !ok {
        NoLeaves(old(leaf), r);
        UvmFree(r, 0);
        AllBack(mem, old(free), old(at), free, at, leaf);
        SameButTrans(old(free), old(data), free, data2, data);
        return 0;
      }
      ghost var leaf2, free2, at2 := leaf, free, at;
      ok, halted, done := MapPages(r, TRAPFRAME, 1, trapframe, PTE_R + PTE_W);
      assert !halted;
      GrewTree(old(at), free2, at2, free, at, r);
      SameButTrans(old(free), old(data), free2, data2, data);
      ghost var data3 := data;
      MapOne(leaf2, r, TRAPFRAME, trapframe, PTE_R + PTE_W);
      MapRangeStart(leaf2, r, TRAPFRAME, trapframe, PTE_R + PTE_W);
      if !ok {
        UndoTrampoline(old(leaf), MkPte(trampoline, PTE_R + PTE_X), at, r);
        UvmUnmap(r, TRAMPOLINE, 1, false);
        ghost var free4, data4 := free, data;
        NoLeaves(old(leaf), r);
        UvmFree(r, 0);
        AllBack(mem, old(free), old(at), free, at, leaf);
        SameButGrow(free4, data3, data4, free, data);
        SameButTrans(old(free), old(data), free, data3, data);
        return 0;
      }
    }

    /** proc_freepagetable: when a table maps, besides pages of its own below sz, at most the trampoline
        and the trap frame, its whole tree and all its pages go to the free list. */
    method ProcFreePagetable(r: nat, sz: nat)
      requires Ok() && Root(r) in at && Up(sz) <= MAXVPN
      requires forall k :: k in leaf && k.root == r ==>
        if k.v == TRAMPOLINE || k.v == TRAPFRAME then Data(r, k.v) !in at else k.v < Up(sz) && Data(r, k.v) in at
      modifies this`mem, this`free, this`data, this`at, this`leaf
      ensures Ok() && Pages(free, at) == Pages(old(free), old(at))
      ensures leaf == LeavesOf(old(leaf), r) && at == TreesBut(old(at), r) && SameBut(free, old(data), data)
      ensures forall p :: p in old(free) ==> p in free
    {
      hide Good, Px0, Px1, Px2, Pages, Up, Without, Disowned, LeavesOf, TreesBut, SameBut;
      ghost var leaf0, at0 := leaf, at;
      TopKept(leaf, at, r);
      UvmUnmap(r, TRAMPOLINE, 1, false);
      ghost var leaf1, at1, free1, data1 := leaf, at, free, data;
      UvmUnmap(r, TRAPFRAME, 1, false);
      SameButGrow(free1, old(data), data1, free, data);
      TopGone(leaf0, at0, leaf1, at1, r, Up(sz));
      ghost var free2, data2 := free, data;
      UvmFree(r, sz);
      SameButGrow(free2, old(data), data2, free, data);
    }

    // uvmcreate
    method UvmCreate() returns (r: nat)
      requires Ok()
      modifies this`mem, this`free, this`data, this`at
      ensures Ok() && Pages(free, at) == Pages(old(free), old(at))
      ensures r == 0 ==> at == old(at) && free == old(free) && data == old(data) && old(free) == []
      ensures r != 0 ==> at == old(at)[Root(r) := r] && forall n :: n in old(at) ==> n.root != r
      ensures SameBut(old(free), old(data), data) && (r != 0 ==> old(free) == [r] + free)
    {
      hide Good, Px0, Px1, Px2, Pages;
      r := Kalloc();
      if r == 0 { return; }
      RootLoose(mem, free, at, leaf, r);
      TakePages(r, free, at);
      RootGood(mem, free, at, leaf, r);
      mem := mem[r := NoEntries()];
      at := at[Root(r) := r];
    }
  }

  // Pages that are free now and whose places are all as before were free before.
  lemma {:induction false} AllBack(mem: map<nat, Table>, free0: seq<nat>, at0: map<Node, nat>, free: seq<nat>,
                                   at: map<Node, nat>, leaf: map<Key, nat>)
    requires Good(mem, free, at, leaf) && Pages(free, at) == Pages(free0, at0)
    requires forall n :: n in at0 ==> n in at && at[n] == at0[n]
    ensures forall p :: p in free ==> p in free0
  {
    hide Shape, Pointers, Leaves;
    forall p | p in free ensures p in free0 {
      assert p in Pages(free0, at0);
      assert forall n :: n in at0 ==> at0[n] != p;
    }
  }

  /** All mappings, and all places, but those of r. */
  function LeavesOf(leaf: map<Key, nat>, r: nat): (leaf': map<Key, nat>) { map k | k in leaf && k.root != r :: leaf[k] }

  function TreesBut(at: map<Node, nat>, r: nat): (at': map<Node, nat>) { map n | n in at && n.root != r :: at[n] }

  // Unmapping 0..n leaves r with no mappings and no data pages.
  lemma {:induction false} UnmapAll(mem: map<nat, Table>, free: seq<nat>, at: map<Node, nat>, leaf: map<Key, nat>,
                                    r: nat, n: nat)
    requires Good(mem, free, at, leaf) && forall k :: k in leaf && k.root == r ==> k.v < n && Data(r, k.v) in at
    ensures Without(leaf, r, 0, n) == LeavesOf(leaf, r) && Cut(Disowned(at, r, 0, n), Root(r)) == TreesBut(at, r)
    ensures Root(r) in at ==> Root(r) in Disowned(at, r, 0, n)
  {
    hide Px0, Px1, Px2, Apart, Pointers, Entries, Shape;
    forall m | m in at && m.root == r && m.Data? ensures DataIn(r, 0, n, m) { assert Key(r, m.v) in leaf; }
  }

  lemma {:induction false} NoneLeft(leaf: map<Key, nat>, r: nat)
    ensures forall k :: k in LeavesOf(leaf, r) ==> k.root != r
  {
  }

  lemma {:induction false} RootPlace(mem: map<nat, Table>, free: seq<nat>, at: map<Node, nat>, leaf: map<Key, nat>,
                                     r: nat)
    requires Good(mem, free, at, leaf) && Root(r) in at
    ensures at[Root(r)] == r && Apart(free, at)
  {
  }

  lemma {:induction false} RootLoose(mem: map<nat, Table>, free: seq<nat>, at: map<Node, nat>, leaf: map<Key, nat>,
                                     r: nat)
    requires Good(mem, free, at, leaf) && Loose(free, at, r)
    ensures forall n :: n in at ==> n.root != r
  {
    hide Px0, Px1, Px2, Pointers, Entries, Apart;
    forall n | n in at ensures n.root != r {
      if n.Last? { assert Mid(n.root, n.i) in at; }
      if n.Data? { assert Key(n.root, n.v) in leaf; assert LastOf(n.root, n.v) in at; }
    }
  }

  // Data pages are not free, so they keep their contents.
  lemma {:induction false} CutOk(free: seq<nat>, at: map<Node, nat>, at': map<Node, nat>, data: map<nat, Bytes>,
                                 data': map<nat, Bytes>, r: nat)
    requires at' == Cut(at, Root(r)) && Apart(free, at') && SameBut(free, data, data')
    requires forall n :: n in at && n.Data? ==> at[n] in data
    ensures forall n :: n in at' && n.Data? ==> at'[n] in data'
  {
  }

  // A tree that was just made is all there is of r.
  lemma {:induction false} NewTree(mem: map<nat, Table>, free: seq<nat>, at0: map<Node, nat>, at: map<Node, nat>,
                                   leaf: map<Key, nat>, r: nat)
    requires Good(mem, free, at, leaf) && at == at0[Root(r) := r] && (forall n :: n in at0 ==> n.root != r)
    ensures TreesBut(at, r) == at0 && (forall k :: k in leaf ==> k.root != r) && forall v: nat :: Data(r, v) !in at
  {
    hide Px0, Px1, Px2, Pointers, Entries, Apart;
    forall k | k in leaf ensures k.root != r { assert LastOf(k.root, k.v) in at; }
  }

  lemma {:induction false} GrewTree(at0: map<Node, nat>, free: seq<nat>, at: map<Node, nat>, free': seq<nat>,
                                    at': map<Node, nat>, r: nat)
    requires Grew(free, at, free', at', r) && TreesBut(at, r) == at0 && Root(r) in at
    requires forall v: nat :: Data(r, v) !in at
    ensures TreesBut(at', r) == at0 && Root(r) in at' && (forall v: nat :: Data(r, v) !in at')
    ensures Pages(free', at') == Pages(free, at)
  {
    forall n | n in at' && n.root != r ensures n in at0 && at0[n] == at'[n] { assert n in at; }
    forall n | n in at0 ensures n in at' && n.root != r && at'[n] == at0[n] { assert n in TreesBut(at, r); }
  }

  lemma {:induction false} NoLeaves(leaf: map<Key, nat>, r: nat)
    requires forall k :: k in leaf ==> k.root != r
    ensures LeavesOf(leaf, r) == leaf && Up(0) == 0
  {
  }

  lemma {:induction false} UndoTrampoline(leaf: map<Key, nat>, pte: nat, at: map<Node, nat>, r: nat)
    requires forall k :: k in leaf ==> k.root != r
    ensures Without(leaf[Key(r, TRAMPOLINE) := pte], r, TRAMPOLINE, TRAMPOLINE + 1) == leaf
    ensures TreesBut(Disowned(at, r, TRAMPOLINE, TRAMPOLINE + 1), r) == TreesBut(at, r)
  {
  }

  // Taking out the trampoline leaves the trap frame's mapping and the tree alone.
  lemma {:induction false} TopKept(leaf: map<Key, nat>, at: map<Node, nat>, r: nat)
    ensures var leaf1, at1 := Without(leaf, r, TRAMPOLINE, TRAMPOLINE + 1), Disowned(at, r, TRAMPOLINE, TRAMPOLINE + 1);
      && (Key(r, TRAPFRAME) in leaf1 <==> Key(r, TRAPFRAME) in leaf)
      && (Data(r, TRAPFRAME) in at1 <==> Data(r, TRAPFRAME) in at) && (Root(r) in at1 <==> Root(r) in at)
      && (Root(r) in Disowned(at1, r, TRAPFRAME, TRAPFRAME + 1) <==> Root(r) in at)
  {
  }

  lemma {:induction false} TopGone(leaf0: map<Key, nat>, at0: map<Node, nat>, leaf1: map<Key, nat>,
                                   at1: map<Node, nat>, r: nat, n: nat)
    requires forall k :: k in leaf0 && k.root == r && k.v != TRAMPOLINE && k.v != TRAPFRAME ==>
              k.v < n && Data(r, k.v) in at0
    requires leaf1 == Without(leaf0, r, TRAMPOLINE, TRAMPOLINE + 1)
    requires at1 == Disowned(at0, r, TRAMPOLINE, TRAMPOLINE + 1)
    ensures var leaf2, at2 := Without(leaf1, r, TRAPFRAME, TRAPFRAME + 1), Disowned(at1, r, TRAPFRAME, TRAPFRAME + 1);
      && (forall k :: k in leaf2 && k.root == r ==> k.v < n && Data(r, k.v) in at2)
      && LeavesOf(leaf2, r) == LeavesOf(leaf0, r) && TreesBut(at2, r) == TreesBut(at0, r)
  {
  }

  // p is still loose after page-table pages were added.
  lemma {:induction false} LooseStill(p: nat, free: seq<nat>, at: map<Node, nat>)
    requires p != 0 && p !in Pages(free, at)
    ensures Loose(free, at, p)
  {
    forall n | n in at ensures at[n] != p { AtPages(free, at, n); }
  }

  lemma {:induction false} MapOne(leaf: map<Key, nat>, r: nat, v: nat, p: nat, perm: nat)
    requires perm < FLAGS
    ensures MapRange(leaf, r, v, 1, p, perm) == leaf[Key(r, v) := MkPte(p, perm)]
  {
    assert MapRange(leaf, r, v, 0, p, perm) == leaf;
  }

  // Unmapped pages own nothing, and owned pages are not free.
  lemma {:induction false} NoData(mem: map<nat, Table>, free: seq<nat>, at: map<Node, nat>, leaf: map<Key, nat>,
                                  r: nat, lo: nat, hi: nat)
    requires Good(mem, free, at, leaf) && forall w :: lo <= w < hi ==> Key(r, w) !in leaf
    ensures forall n :: n in at ==> !DataIn(r, lo, hi, n)
  {
  }

  lemma {:induction false} NotFree(mem: map<nat, Table>, free: seq<nat>, at: map<Node, nat>, leaf: map<Key, nat>)
    requires Good(mem, free, at, leaf)
    ensures forall n :: n in at ==> at[n] !in free
  {
  }

  lemma {:induction false} AddedStay(leaf: map<Key, nat>, at: map<Node, nat>, leaf': map<Key, nat>,
                                     at': map<Node, nat>, r: nat, lo: nat, hi: nat)
    requires AddedIn(leaf, at, leaf', at', r, lo, hi)
    ensures Key(r, hi) !in leaf ==> Key(r, hi) !in leaf'
    ensures Data(r, hi) !in at ==> Data(r, hi) !in at'
    ensures forall r: nat :: Root(r) in at <==> Root(r) in at'
  {
  }

  // What uvmcopy copies: a page of its own, with usable flags.
  lemma {:induction false} CopySource(mem: map<nat, Table>, free: seq<nat>, at: map<Node, nat>, leaf: map<Key, nat>,
                                      data: map<nat, Bytes>, r: nat, v: nat, n: nat)
    requires Good(mem, free, at, leaf) && OwnsBelow(leaf, at, r, n) && v < n && Key(r, v) in leaf
    requires forall n :: n in at && n.Data? ==> at[n] in data
    ensures var pte := leaf[Key(r, v)]; Ppn(pte) in data && Flags(pte) < FLAGS && Rwx(Flags(pte))
  {
    assert GoodLeaf(leaf[Key(r, v)]);
    FlagsRwx(leaf[Key(r, v)]);
  }

  lemma {:induction false} FlagsRwx(pte: nat)
    requires Rwx(pte)
    ensures Flags(pte) < FLAGS && Rwx(Flags(pte))
  {
    var q, f := pte / FLAGS, pte % FLAGS;
    var h := f / 2;
    assert pte == 2 * (512 * q + h) + f % 2;
    assert pte / 2 == 512 * q + h;
    assert 512 * q + h == 8 * (64 * q + h / 8) + h % 8;
  }

  lemma {:induction false} FaultBound(va: nat, sz: nat)
    requires va < sz && Up(sz) <= MAXVPN
    ensures va / PGSIZE < MAXVPN
  {
  }

  lemma {:induction false} UpNext(a: nat, sz: nat)
    ensures a * PGSIZE < sz <==> a < Up(sz)
  {
  }

  lemma {:induction false} UpExact(a: nat)
    ensures Up(a * PGSIZE) == a
  {
  }

  lemma {:induction false} UpEnd(a: nat, oldsz: nat, newsz: nat)
    requires Up(oldsz) <= a && (Up(oldsz) <= Up(newsz) ==> a <= Up(newsz)) && newsz <= a * PGSIZE && oldsz <= newsz
    ensures a == Up(newsz)
  {
  }

  lemma {:induction false} EmptyRange(leaf: map<Key, nat>, at: map<Node, nat>, r: nat, lo: nat, hi: nat)
    requires hi <= lo
    ensures Without(leaf, r, lo, hi) == leaf && Disowned(at, r, lo, hi) == at
  {
  }

  lemma {:induction false} AtPages(free: seq<nat>, at: map<Node, nat>, n: Node)
    requires n in at
    ensures at[n] in Pages(free, at)
  {
  }

  // What uvmunmap finds at page v.
  lemma {:induction false} UnmapReads(mem: map<nat, Table>, free: seq<nat>, at: map<Node, nat>, leaf: map<Key, nat>,
                                      r: nat, v: nat)
    requires Good(mem, free, at, leaf) && v < VPNS
    ensures LastOf(r, v) !in at ==> Key(r, v) !in leaf
    ensures Data(r, v) in at ==> Key(r, v) in leaf
    ensures LastOf(r, v) in at ==> at[LastOf(r, v)] in mem && mem[at[LastOf(r, v)]][Px0(v)] == Get(leaf, r, v)
    ensures Key(r, v) in leaf ==> V(leaf[Key(r, v)])
  {
    hide Px0, Px1, Px2, Apart, Pointers;
    if LastOf(r, v) in at { assert mem[at[LastOf(r, v)]][Px0(v)] == Get(leaf, r, v); }
  }

  lemma {:induction false} UnmapOwned(mem: map<nat, Table>, free: seq<nat>, at: map<Node, nat>, leaf: map<Key, nat>,
                                      r: nat, v: nat)
    requires Good(mem, free, at, leaf) && v < VPNS && Data(r, v) in at
    ensures Key(r, v) in leaf && at[Data(r, v)] == Ppn(leaf[Key(r, v)])
    ensures Good(mem, [at[Data(r, v)]] + free, at - {Data(r, v)}, leaf)
    ensures Pages([at[Data(r, v)]] + free, at - {Data(r, v)}) == Pages(free, at)
  {
    hide Px0, Px1, Px2, Apart, Pointers, Entries, Covered, Shape, Pages;
    FreePages(free, at, Data(r, v));
    DisownGood(mem, free, at, leaf, r, v);
    FreeGood(mem, free, at - {Data(r, v)}, leaf, at[Data(r, v)]);
  }

  lemma {:induction false} UnmapGood(mem: map<nat, Table>, free: seq<nat>, at: map<Node, nat>, leaf: map<Key, nat>,
                                     r: nat, v: nat)
    requires Good(mem, free, at, leaf) && v < VPNS && LastOf(r, v) in at && Data(r, v) !in at
    ensures at[LastOf(r, v)] in mem && Good(SetEntry(mem, at[LastOf(r, v)], Px0(v), 0), free, at, Put(leaf, r, v, 0))
  {
    SetGood(mem, free, at, leaf, r, v, 0);
  }

  lemma {:induction false} MapRangeStart(leaf: map<Key, nat>, r: nat, v: nat, p: nat, perm: nat)
    requires perm < FLAGS
    ensures MapRange(leaf, r, v, 0, p, perm) == leaf
  {
  }

  // The next page is mapped now exactly if it was before.
  lemma {:induction false} NotYet(leaf0: map<Key, nat>, r: nat, v: nat, done: nat, p: nat, perm: nat)
    requires perm < FLAGS
    ensures Key(r, v + done) in MapRange(leaf0, r, v, done, p, perm) <==> Key(r, v + done) in leaf0
  {
    MapRangeGet(leaf0, r, v, done, p, perm, Key(r, v + done));
  }

  // One page more of mappages.
  lemma {:induction false} MapRangeNext(leaf: map<Key, nat>, r: nat, v: nat, done: nat, p: nat, perm: nat)
    requires perm < FLAGS
    ensures MapRange(leaf, r, v, done, p, perm)[Key(r, v + done) := MkPte(p + done, perm)] ==
            MapRange(leaf, r, v, done + 1, p, perm)
  {
    hide MkPte;
  }

  lemma {:induction false} LowBits(x: nat)
    ensures x % 512 % 8 == x % 8
  {
    var q, r := x / 512, x % 512;
    assert x == 8 * (64 * q + r / 8) + r % 8;
  }

  lemma {:induction false} MkGood(p: nat, perm: nat)
    requires perm < FLAGS && Rwx(perm)
    ensures GoodLeaf(MkPte(p, perm)) && MkPte(p, perm) != 0
  {
    hide MkPte;
    LowBits(MkPte(p, perm) / 2);
    LowBits(perm / 2);
  }

}
