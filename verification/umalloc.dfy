/**
 The K&R allocator of user/umalloc.c: a circular list of free blocks, headers rewritten in
 place. Addresses count headers (16 bytes). A block is its header and the units after it.
 */
module Umalloc {
  // A run of n units starting at unit a.
  datatype Span = Span(a: nat, n: nat)

  const HEADER: nat := 16
  const MINUNITS: nat := 4096

  // ----- free lists as values -----

  /** In address order, and coalesced: a gap of at least one unit between neighbours. */
  predicate Sorted(f: seq<Span>) {
    forall i :: 0 < i < |f| ==> f[i - 1].a + f[i - 1].n < f[i].a
  }

  lemma {:induction false} InOrder(f: seq<Span>, i: nat, j: nat)
    requires Sorted(f) && i < j < |f|
    ensures f[i].a + f[i].n < f[j].a
  {
    if i + 1 < j { InOrder(f, i, j - 1); }
  }

  predicate In(s: Span, u: nat) { s.a <= u < s.a + s.n }
  predicate Free(f: seq<Span>, u: nat) { exists i :: 0 <= i < |f| && In(f[i], u) }
  predicate Apart(s: Span, t: Span) { s.a + s.n <= t.a || t.a + t.n <= s.a }

  function Units(s: Span): (r: set<nat>)
    ensures forall u: nat :: u in r <==> In(s, u)
  { set u: nat | s.a <= u < s.a + s.n && In(s, u) }

  /** The index of the last block below address b. */
  predicate Precedes(f: seq<Span>, k: nat, b: nat) {
    k < |f| && f[k].a < b && (k + 1 < |f| ==> b < f[k + 1].a)
  }

  // free's result: block s put after the k-th, merged with whichever neighbours it touches.
  function Merged(f: seq<Span>, k: nat, s: Span): (r: seq<Span>)
    requires k < |f|
  {
    var right := k + 1 < |f| && s.a + s.n == f[k + 1].a;
    var t := if right then Span(s.a, s.n + f[k + 1].n) else s;
    var rest := if right then f[k + 2..] else f[k + 1..];
    if f[k].a + f[k].n == s.a then f[..k] + [Span(f[k].a, f[k].n + t.n)] + rest
    else f[..k + 1] + [t] + rest
  }

  // Whether s touches the block before it, and the one after it.
  predicate Left(f: seq<Span>, k: nat, s: Span) requires k < |f| { f[k].a + f[k].n == s.a }
  predicate Right(f: seq<Span>, k: nat, s: Span) requires k < |f| { k + 1 < |f| && s.a + s.n == f[k + 1].a }
  // Where s ends up, and how many blocks it absorbs.
  function Where(f: seq<Span>, k: nat, s: Span): nat requires k < |f| { if Left(f, k, s) then k else k + 1 }
  function Absorbed(f: seq<Span>, k: nat, s: Span): nat
    requires k < |f|
  { (if Left(f, k, s) then 1 else 0) + if Right(f, k, s) then 1 else 0 }

  lemma {:induction false} MergedIs(f: seq<Span>, k: nat, s: Span, i: nat)
    requires k < |f|
    ensures |Merged(f, k, s)| == |f| + 1 - Absorbed(f, k, s) && Where(f, k, s) < |Merged(f, k, s)|
    ensures i < Where(f, k, s) ==> Merged(f, k, s)[i] == f[i]
    ensures Where(f, k, s) < i < |Merged(f, k, s)| ==> Merged(f, k, s)[i] == f[i - 1 + Absorbed(f, k, s)]
    ensures Merged(f, k, s)[Where(f, k, s)] ==
      Span(if Left(f, k, s) then f[k].a else s.a,
           s.n + (if Left(f, k, s) then f[k].n else 0) + if Right(f, k, s) then f[k + 1].n else 0)
  {
  }

  lemma {:induction false} MergedSorted(f: seq<Span>, k: nat, s: Span)
    requires Sorted(f) && Precedes(f, k, s.a) && s.n > 0
    requires forall i :: 0 <= i < |f| ==> Apart(f[i], s) && (i > 0 ==> f[i].n > 0)
    ensures Sorted(Merged(f, k, s)) && Merged(f, k, s)[0].a == f[0].a
    ensures forall i :: 0 < i < |Merged(f, k, s)| ==> Merged(f, k, s)[i].n > 0
    ensures k < |Merged(f, k, s)| && Merged(f, k, s)[k].a == f[k].a
  {
    hide Merged;
    assert Apart(f[k], s);
    if k + 1 < |f| { assert Apart(f[k + 1], s); }
    var r := Merged(f, k, s);
    MergedIs(f, k, s, 0);
    MergedIs(f, k, s, k);
    forall i | 0 < i < |r| ensures r[i - 1].a + r[i - 1].n < r[i].a && r[i].n > 0 {
      MergedIs(f, k, s, i);
      MergedIs(f, k, s, i - 1);
    }
  }

  /** Freeing adds exactly the block's units. */
  lemma {:induction false} MergedUnits(f: seq<Span>, k: nat, s: Span, u: nat)
    requires k < |f|
    ensures Free(Merged(f, k, s), u) <==> Free(f, u) || In(s, u)
  {
    hide Merged;
    var r, at, n := Merged(f, k, s), Where(f, k, s), Absorbed(f, k, s);
    MergedIs(f, k, s, at);
    if i :| 0 <= i < |r| && In(r[i], u) {
      MergedIs(f, k, s, i);
      if i == at {
        assert In(s, u) || (Left(f, k, s) && In(f[k], u)) || (Right(f, k, s) && In(f[k + 1], u));
      } else {
        assert r[i] == f[if i < at then i else i - 1 + n];
      }
    }
    if In(s, u) { assert In(r[at], u); }
    if i :| 0 <= i < |f| && In(f[i], u) {
      if (Left(f, k, s) && i == k) || (Right(f, k, s) && i == k + 1) {
        assert In(r[at], u);
      } else {
        var j := if i <= k then i else i + 1 - n;
        MergedIs(f, k, s, j);
        assert In(r[j], u);
      }
    }
  }

  // malloc's result: n units taken from the end of the k-th block, or the whole block.
  function Carved(f: seq<Span>, k: nat, n: nat): (r: seq<Span>)
    requires k < |f| && f[k].n >= n
  { if f[k].n == n then f[..k] + f[k + 1..] else f[k := Span(f[k].a, f[k].n - n)] }

  function Piece(f: seq<Span>, k: nat, n: nat): (s: Span)
    requires k < |f| && f[k].n >= n
  { Span(f[k].a + f[k].n - n, n) }

  lemma {:induction false} CarvedSorted(f: seq<Span>, k: nat, n: nat)
    requires Sorted(f) && 0 < k < |f| && f[k].n >= n > 0
    requires forall i :: 0 < i < |f| ==> f[i].n > 0
    ensures Sorted(Carved(f, k, n)) && Carved(f, k, n)[0] == f[0]
    ensures forall i :: 0 < i < |Carved(f, k, n)| ==> Carved(f, k, n)[i].n > 0
  {
    var r := Carved(f, k, n);
    if f[k].n == n {
      forall i | 0 < i < |r| ensures r[i - 1].a + r[i - 1].n < r[i].a && r[i].n > 0 {
        if i == k { InOrder(f, k - 1, k + 1); }
      }
    }
  }

  /** Allocating removes exactly the block's units. */
  lemma {:induction false} CarvedUnits(f: seq<Span>, k: nat, n: nat, u: nat)
    requires Sorted(f) && k < |f| && f[k].n >= n > 0
    ensures Free(Carved(f, k, n), u) <==> Free(f, u) && !In(Piece(f, k, n), u)
  {
    var r := Carved(f, k, n);
    if Free(r, u) {
      var i :| 0 <= i < |r| && In(r[i], u);
      var j := if f[k].n == n && i >= k then i + 1 else i;
      assert In(f[j], u);
      if j < k { InOrder(f, j, k); } else if k < j { InOrder(f, k, j); }
    }
    if Free(f, u) && !In(Piece(f, k, n), u) {
      var i :| 0 <= i < |f| && In(f[i], u);
      assert r[if f[k].n == n && i > k then i - 1 else i].a == f[i].a;
    }
  }

  // ----- the list in memory -----

  function Next(f: seq<Span>, i: nat): nat { if i + 1 < |f| then i + 1 else 0 }

  predicate Node(s: Span, next: nat, ptr: map<nat, nat>, size: map<nat, nat>) {
    s.a in ptr && s.a in size && size[s.a] == s.n && ptr[s.a] == next
  }

  /** The headers in memory spell out the free list, circularly. */
  predicate Linked(f: seq<Span>, ptr: map<nat, nat>, size: map<nat, nat>) {
    |f| > 0 && forall i: nat {:trigger Node(f[i], f[Next(f, i)].a, ptr, size)} :: i < |f| ==>
        Node(f[i], f[Next(f, i)].a, ptr, size)
  }

  lemma {:induction false} Addresses(f: seq<Span>, i: nat, j: nat)
    requires Sorted(f) && i < |f| && j < |f| && f[i].a == f[j].a
    ensures i == j
  {
    if i < j { InOrder(f, i, j); } else if j < i { InOrder(f, j, i); }
  }

  predicate Touches(f: seq<Span>, k: nat, s: Span) { k + 1 < |f| && s.a + s.n == f[k + 1].a }

  /** x, followed by the block at nx, is a block of the merged list: an old one, the one at f[k],
      or s itself. */
  predicate MergedBlock(f: seq<Span>, k: nat, s: Span, x: Span, nx: nat)
    requires k < |f|
  {
    var after := f[Next(f, if Touches(f, k, s) then k + 1 else k)].a;
    var n := s.n + if Touches(f, k, s) then f[k + 1].n else 0;
    var left := f[k].a + f[k].n == s.a;
    || (exists j: nat :: j < |f| && j != k && x == f[j] && nx == f[Next(f, j)].a)
    || (left && x == Span(f[k].a, f[k].n + n) && nx == after)
    || (!left && x == f[k] && nx == s.a)
    || (!left && x == Span(s.a, n) && nx == after)
  }

  lemma {:induction false} MergedAt(f: seq<Span>, k: nat, s: Span, i: nat)
    requires k < |f| && i < |Merged(f, k, s)|
    ensures MergedBlock(f, k, s, Merged(f, k, s)[i], Merged(f, k, s)[Next(Merged(f, k, s), i)].a)
  {
    var r := Merged(f, k, s);
    var left := f[k].a + f[k].n == s.a;
    var at := if left then k else k + 1;
    var j := i - 1 + (if Touches(f, k, s) then 1 else 0) + (if left then 1 else 0);
    assert |r| == |f| + i - j;
    if i < k {
      assert r[i] == f[i] && r[Next(r, i)].a == f[Next(f, i)].a;
    } else if i > at {
      assert r[i] == f[j] && r[Next(r, i)].a == f[Next(f, j)].a;
    }
  }

  // What free writes into headers when it puts s after the k-th free block.
  predicate Freed(f: seq<Span>, k: nat, s: Span, ptr: map<nat, nat>, size: map<nat, nat>,
                  ptr': map<nat, nat>, size': map<nat, nat>)
    requires k < |f|
  {
    var after := f[Next(f, if Touches(f, k, s) then k + 1 else k)].a;
    var n := s.n + if Touches(f, k, s) then f[k + 1].n else 0;
    var left := f[k].a + f[k].n == s.a;
    && ptr' == ptr[s.a := after][f[k].a := if left then after else s.a]
    && size' == if left then size[s.a := n][f[k].a := f[k].n + n] else size[s.a := n]
  }

  lemma {:induction false} MergedNode(f: seq<Span>, k: nat, s: Span, ptr: map<nat, nat>, size: map<nat, nat>,
                   ptr': map<nat, nat>, size': map<nat, nat>, x: Span, nx: nat)
    requires Sorted(f) && Linked(f, ptr, size) && k < |f| && Freed(f, k, s, ptr, size, ptr', size')
    requires forall j :: 0 <= j < |f| ==> f[j].a != s.a
    requires MergedBlock(f, k, s, x, nx)
    ensures Node(x, nx, ptr', size')
  {
    hide Sorted, Linked;
    NodeOf(f, ptr, size, k);
    if j: nat :| j < |f| && j != k && x == f[j] && nx == f[Next(f, j)].a {
      NodeOf(f, ptr, size, j);
      if f[j].a == f[k].a { Addresses(f, j, k); }
    }
  }

  /** The header writes of free link the merged list. */
  lemma {:induction false} LinkedMerged(f: seq<Span>, k: nat, s: Span, ptr: map<nat, nat>, size: map<nat, nat>,
                     ptr': map<nat, nat>, size': map<nat, nat>)
    requires Sorted(f) && Linked(f, ptr, size) && k < |f| && Freed(f, k, s, ptr, size, ptr', size')
    requires forall j :: 0 <= j < |f| ==> f[j].a != s.a
    ensures Linked(Merged(f, k, s), ptr', size')
  {
    var r := Merged(f, k, s);
    forall i: nat | i < |r| ensures Node(r[i], r[Next(r, i)].a, ptr', size') {
      MergedAt(f, k, s, i);
      MergedNode(f, k, s, ptr, size, ptr', size', r[i], r[Next(r, i)].a);
    }
  }

  // The k-th block is taken whole: its predecessor now points past it.
  lemma {:induction false} UnlinkedNode(f: seq<Span>, ptr: map<nat, nat>, size: map<nat, nat>, k: nat, i: nat)
    requires Sorted(f) && Linked(f, ptr, size) && 0 < k < |f| && i < |f| - 1
    ensures var r := f[..k] + f[k + 1..]; Node(r[i], r[Next(r, i)].a, ptr[f[k - 1].a := f[Next(f, k)].a], size)
  {
    hide Linked, Sorted;
    var r, j := f[..k] + f[k + 1..], if i < k then i else i + 1;
    NodeOf(f, ptr, size, j);
    if j != k - 1 && f[j].a == f[k - 1].a { Addresses(f, j, k - 1); }
    assert r[i] == f[j];
    assert r[Next(r, i)] == f[Next(f, if j == k - 1 then k else j)];
  }

  // The k-th block is shortened: its piece becomes a block of its own.
  lemma {:induction false} ShortenedNode(f: seq<Span>, ptr: map<nat, nat>, size: map<nat, nat>, k: nat, n: nat, i: nat)
    requires Sorted(f) && Linked(f, ptr, size) && 0 < k < |f| && f[k].n > n > 0 && i < |f|
    ensures var r := f[k := Span(f[k].a, f[k].n - n)];
      Node(r[i], r[Next(r, i)].a, ptr, size[f[k].a := f[k].n - n][f[k].a + f[k].n - n := n])
  {
    hide Linked, Sorted;
    var r := f[k := Span(f[k].a, f[k].n - n)];
    NodeOf(f, ptr, size, i);
    if i < k { InOrder(f, i, k); } else if k < i { InOrder(f, k, i); }
    assert r[Next(r, i)].a == f[Next(f, i)].a;
  }

  lemma {:induction false} NodeOf(f: seq<Span>, ptr: map<nat, nat>, size: map<nat, nat>, i: nat)
    requires Linked(f, ptr, size) && i < |f|
    ensures Node(f[i], f[Next(f, i)].a, ptr, size)
  {
  }

  /** The header writes of malloc link the carved list. */
  lemma {:induction false} LinkedCarved(f: seq<Span>, ptr: map<nat, nat>, size: map<nat, nat>, k: nat, n: nat,
                     ptr': map<nat, nat>, size': map<nat, nat>)
    requires Sorted(f) && Linked(f, ptr, size) && 0 < k < |f| && f[k].n >= n > 0
    requires if f[k].n == n then ptr' == ptr[f[k - 1].a := f[Next(f, k)].a] && size' == size
             else ptr' == ptr && size' == size[f[k].a := f[k].n - n][f[k].a + f[k].n - n := n]
    ensures Linked(Carved(f, k, n), ptr', size')
  {
    hide Sorted, Node;
    var r := Carved(f, k, n);
    forall i: nat | i < |r| ensures Node(r[i], r[Next(r, i)].a, ptr', size') {
      if f[k].n == n { UnlinkedNode(f, ptr, size, k, i); } else { ShortenedNode(f, ptr, size, k, n, i); }
    }
  }

  // ----- the whole heap -----

  predicate ListOk(f: seq<Span>, base: nat) {
    |f| > 0 && f[0] == Span(base, 0) && Sorted(f) && forall i :: 0 < i < |f| ==> f[i].n > 0
  }

  predicate Live(live: map<nat, nat>, u: nat) { exists a :: a in live && In(Span(a, live[a]), u) }

  /** The blocks handed out: apart from each other, with their headers intact. */
  predicate LiveOk(live: map<nat, nat>, size: map<nat, nat>, base: nat) {
    && (forall a :: a in live ==> a > base && live[a] > 0 && a in size && size[a] == live[a])
    && (forall a, b :: a in live && b in live && a != b ==> Apart(Span(a, live[a]), Span(b, live[b])))
  }

  /** Every unit obtained from the system is either free or in a block handed out, not both. */
  ghost predicate Exact(f: seq<Span>, live: map<nat, nat>, arena: set<nat>) {
    && (forall u: nat {:trigger u in arena} :: u in arena <==> Free(f, u) || Live(live, u))
    && (forall u: nat :: !(Free(f, u) && Live(live, u)))
  }

  ghost predicate HeapOk(f: seq<Span>, base: nat, live: map<nat, nat>, arena: set<nat>, ptr: map<nat, nat>,
                         size: map<nat, nat>) {
    ListOk(f, base) && Linked(f, ptr, size) && LiveOk(live, size, base) && Exact(f, live, arena)
  }

  lemma {:induction false} NoCommonUnit(x: Span, y: Span)
    requires x.n > 0 && y.n > 0 && forall u: nat :: !(In(x, u) && In(y, u))
    ensures Apart(x, y)
  {
    if !Apart(x, y) {
      var u := if x.a < y.a then y.a else x.a;
      assert In(x, u) && In(y, u);
    }
  }

  lemma {:induction false} LiveApart(f: seq<Span>, base: nat, live: map<nat, nat>, size: map<nat, nat>,
                                     arena: set<nat>, a: nat)
    requires ListOk(f, base) && LiveOk(live, size, base) && Exact(f, live, arena) && a in live
    ensures forall i :: 0 <= i < |f| ==> Apart(f[i], Span(a, live[a])) && f[i].a != a
  {
    var s := Span(a, live[a]);
    forall i | 0 <= i < |f| ensures Apart(f[i], s) && f[i].a != a {
      if i > 0 {
        forall u: nat ensures !(In(f[i], u) && In(s, u)) {
          if In(f[i], u) && In(s, u) { assert Free(f, u) && Live(live, u); }
        }
        NoCommonUnit(f[i], s);
      }
    }
  }

  /** free moves the units of one block from live to free and nothing else. */
  lemma {:induction false} FreeKeeps(f: seq<Span>, base: nat, live: map<nat, nat>, arena: set<nat>, k: nat, bp: nat,
                  ptr: map<nat, nat>, size: map<nat, nat>, ptr': map<nat, nat>, size': map<nat, nat>)
    requires HeapOk(f, base, live, arena, ptr, size)
    requires bp in live && Precedes(f, k, bp) && Freed(f, k, Span(bp, live[bp]), ptr, size, ptr', size')
    ensures var r := Merged(f, k, Span(bp, live[bp]));
      HeapOk(r, base, live - {bp}, arena, ptr', size') && k < |r| && r[k].a == f[k].a
  {
    var s := Span(bp, live[bp]);
    LiveApart(f, base, live, size, arena, bp);
    MergedSorted(f, k, s);
    LinkedMerged(f, k, s, ptr, size, ptr', size');
    forall a | a in live - {bp} ensures a in size' && size'[a] == live[a] {
      LiveApart(f, base, live, size, arena, a);
    }
    FreeExact(f, live, arena, k, bp);
    assert Merged(f, k, s)[0] == Span(base, 0) by {
      if f[k].a + f[k].n == bp { assert k > 0; }
    }
  }

  lemma {:induction false} FreeExact(f: seq<Span>, live: map<nat, nat>, arena: set<nat>, k: nat, bp: nat)
    requires k < |f| && bp in live && Exact(f, live, arena)
    requires forall a, b :: a in live && b in live && a != b ==> Apart(Span(a, live[a]), Span(b, live[b]))
    ensures Exact(Merged(f, k, Span(bp, live[bp])), live - {bp}, arena)
  {
    var s := Span(bp, live[bp]);
    forall u: nat
      ensures u in arena <==> Free(Merged(f, k, s), u) || Live(live - {bp}, u)
      ensures !(Free(Merged(f, k, s), u) && Live(live - {bp}, u))
    {
      MergedUnits(f, k, s, u);
      LiveWithout(live, bp, u);
    }
  }

  lemma {:induction false} LiveWithout(live: map<nat, nat>, bp: nat, u: nat)
    requires bp in live
    requires forall a, b :: a in live && b in live && a != b ==> Apart(Span(a, live[a]), Span(b, live[b]))
    ensures Live(live - {bp}, u) <==> Live(live, u) && !In(Span(bp, live[bp]), u)
  {
    if Live(live - {bp}, u) {
      var a :| a in live - {bp} && In(Span(a, (live - {bp})[a]), u);
      assert Apart(Span(a, live[a]), Span(bp, live[bp]));
    }
    if Live(live, u) && !In(Span(bp, live[bp]), u) {
      var a :| a in live && In(Span(a, live[a]), u);
      assert a in live - {bp};
    }
  }

  /** malloc moves the units of one new block from free to live and nothing else. */
  lemma {:induction false} MallocKeeps(f: seq<Span>, base: nat, live: map<nat, nat>, arena: set<nat>, k: nat, n: nat,
                    ptr: map<nat, nat>, size: map<nat, nat>, ptr': map<nat, nat>, size': map<nat, nat>)
    requires HeapOk(f, base, live, arena, ptr, size)
    requires 0 < k < |f| && f[k].n >= n > 0
    requires if f[k].n == n then ptr' == ptr[f[k - 1].a := f[Next(f, k)].a] && size' == size
             else ptr' == ptr && size' == size[f[k].a := f[k].n - n][f[k].a + f[k].n - n := n]
    ensures var s := Piece(f, k, n); var r := Carved(f, k, n);
      s.a !in live && HeapOk(r, base, live[s.a := n], arena, ptr', size')
  {
    var s := Piece(f, k, n);
    InOrder(f, 0, k);
    CarvedSorted(f, k, n);
    LinkedCarved(f, ptr, size, k, n, ptr', size');
    assert Node(f[k], f[Next(f, k)].a, ptr, size);
    forall a | a in live ensures Apart(s, Span(a, live[a])) && a != s.a && a != f[k].a {
      LiveApart(f, base, live, size, arena, a);
      assert Apart(f[k], Span(a, live[a]));
    }
    MallocExact(f, live, arena, k, n);
  }

  lemma {:induction false} MallocExact(f: seq<Span>, live: map<nat, nat>, arena: set<nat>, k: nat, n: nat)
    requires Sorted(f) && k < |f| && f[k].n >= n > 0 && Exact(f, live, arena) && Piece(f, k, n).a !in live
    ensures Exact(Carved(f, k, n), live[Piece(f, k, n).a := n], arena)
  {
    var s := Piece(f, k, n);
    forall u: nat
      ensures u in arena <==> Free(Carved(f, k, n), u) || Live(live[s.a := n], u)
      ensures !(Free(Carved(f, k, n), u) && Live(live[s.a := n], u))
    {
      CarvedUnits(f, k, n, u);
      LiveWith(live, s, u);
      if In(s, u) { assert In(f[k], u); }
    }
  }

  lemma {:induction false} LiveWith(live: map<nat, nat>, s: Span, u: nat)
    requires s.a !in live
    ensures Live(live[s.a := s.n], u) <==> Live(live, u) || In(s, u)
  {
    var l := live[s.a := s.n];
    if Live(live, u) {
      var a :| a in live && In(Span(a, live[a]), u);
      assert a in l && l[a] == live[a];
    }
    if In(s, u) { assert s.a in l && In(Span(s.a, l[s.a]), u); }
  }

  // ----- the program -----

  const TWO31: nat := 0x8000_0000
  const TWO32: nat := 0x1_0000_0000
  // The largest request whose byte count still fits sbrk's int argument.
  const MAXREQUEST: nat := TWO31 - 2 * HEADER

  function NUnits(nbytes: nat): (n: nat)
    ensures n > 0 && (n - 1) * HEADER >= nbytes
  { (nbytes + HEADER - 1) / HEADER + 1 }

  // Conversion of a size_t to int, as in the call sbrk(nu * sizeof(Header)).
  function ToInt(x: nat): (r: int) { if x % TWO32 < TWO31 then x % TWO32 else x % TWO32 - TWO32 }

  /** The byte count survives the conversion exactly up to MAXREQUEST; above it, up to a request
      of nearly 4 GB, sbrk is asked to shrink. */
  lemma {:induction false} RequestFits(nbytes: nat)
    requires nbytes < TWO32
    ensures NUnits(nbytes) < TWO31
    ensures nbytes <= MAXREQUEST <==> ToInt(NUnits(nbytes) * HEADER) == NUnits(nbytes) * HEADER
    ensures MAXREQUEST < nbytes <= TWO32 - 2 * HEADER ==> ToInt(NUnits(nbytes) * HEADER) < 0
    ensures nbytes > TWO32 - 2 * HEADER ==> ToInt(NUnits(nbytes) * HEADER) <= HEADER
  {
  }

  function AtLeastMin(nu: nat): (n: nat) { if nu < MINUNITS then MINUNITS else nu }

  lemma {:induction false} MinimumFits(nu: nat)
    requires nu < TWO31
    ensures ToInt(AtLeastMin(nu) * HEADER) % HEADER == 0
    ensures ToInt(AtLeastMin(nu) * HEADER) == AtLeastMin(nu) * HEADER <==> ToInt(nu * HEADER) == nu * HEADER
  {
  }

  // What morecore asks sbrk for, to get nu units.
  function Asked(nu: nat): (n: int) { ToInt(AtLeastMin(nu) * HEADER) }

  /** What malloc returns; or a store to memory that the process does not have, which kills it. */
  datatype Result = Null | Block(ap: nat) | Trap

  // Units in a page of memory.
  const PAGE: nat := 256
  function Page(u: nat): nat { u / PAGE }

  /** The memory below a break of brk units reaches to the end of its last page. */
  predicate Mapped(brk: nat, u: nat) { Page(u) < Page(brk + PAGE - 1) }

  // The first byte that sbrk never reaches, in units.
  const TRAPFRAME: nat := (0x400_0000 - 2) * PAGE

  /** sbrk refuses to grow the process beyond the trap frame, or without pages. */
  predicate Refused(brk: nat, n: int, noPages: bool) { n > 0 && (noPages || brk + n / HEADER > TRAPFRAME) }

  // Shrinking by more than there is does nothing.
  function NewBrk(brk: nat, n: int): (r: nat) { if brk + n / HEADER < 0 then brk else brk + n / HEADER }

  lemma {:induction false} BelowMapped(brk: nat, u: nat)
    requires u < brk
    ensures Mapped(brk, u)
  {
  }

  /** The largest request: its units are 16 bytes more than 4 GB, so sbrk is asked for 16 bytes. */
  lemma {:induction false} LargestRequest()
    ensures NUnits(TWO32 - 1) == TWO32 / HEADER + 1 && ToInt(NUnits(TWO32 - 1) * HEADER) == HEADER
  {
  }

  class Heap {
    const base: nat
    var ptr: map<nat, nat>
    var size: map<nat, nat>
    var freep: nat               // 0 until the first malloc
    var brk: nat                 // the program break, in units
    ghost var f: seq<Span>       // the free list, starting at base
    ghost var live: map<nat, nat>
    ghost var arena: set<nat>    // every unit obtained from sbrk

    /** What the headers say: a free list and blocks in use that make up the arena. */
    ghost predicate Listed()
      reads this
    {
      HeapOk(f, base, live, arena, ptr, size) && exists i :: 0 <= i < |f| && f[i].a == freep
    }

    /** The arena is memory that the process has. */
    ghost predicate Backed()
      reads this
    {
      0 < base < brk && forall u :: u in arena ==> base < u < brk
    }

    ghost predicate Valid()
      reads this
    {
      Backed() && (freep == 0 ==> f == [] && live == map[] && arena == {}) && (freep != 0 ==> Listed())
    }

    constructor (base: nat, brk: nat)
      requires 0 < base < brk
      ensures Valid() && this.base == base && this.brk == brk && freep == 0 && live == map[]
    {
      this.base, this.brk := base, brk;
      ptr, size, freep, f, live, arena := map[], map[], 0, [], map[], {};
    }

    // free's loop: the free block after which bp belongs.
    method Place(bp: nat) returns (p: nat, ghost k: nat)
      requires 0 < base && Listed() && bp in live
      ensures Precedes(f, k, bp) && p == f[k].a && Node(f[k], f[Next(f, k)].a, ptr, size) && p > 0
    {
      hide HeapOk, Sorted;
      PlaceFacts(f, base, live, arena, ptr, size, bp);
      k := Pred(f, bp);
      ghost var i: nat :| i < |f| && f[i].a == freep;
      p := freep;
      NodeAt(f, base, live, arena, ptr, size, i);
      while !(bp > p && bp < ptr[p])
        invariant i < |f| && p == f[i].a && Node(f[i], f[Next(f, i)].a, ptr, size)
        decreases if i <= k then k - i else k + |f| - i
      {
        StopsAt(f, i, k, bp);
        if p >= ptr[p] && (bp > p || bp < ptr[p]) { break; }
        p, i := ptr[p], Next(f, i);
        NodeAt(f, base, live, arena, ptr, size, i);
      }
      StopsAt(f, i, k, bp);
      if k > 0 { InOrder(f, 0, k); }
    }

    // free's header writes: merge upwards, then downwards.
    method Relink(bp: nat, p: nat, ghost k: nat, ghost s: Span)
      requires k < |f| && p == f[k].a && Node(f[k], f[Next(f, k)].a, ptr, size)
      requires k + 1 < |f| ==> Node(f[k + 1], f[Next(f, k + 1)].a, ptr, size)
      requires bp in size && s == Span(bp, size[bp]) && bp != p && f[0].a < bp
      modifies this`ptr, this`size
      ensures Freed(f, k, s, old(ptr), old(size), ptr, size)
    {
      if bp + size[bp] == ptr[p] {
        size := size[bp := size[bp] + size[ptr[p]]];
        ptr := ptr[bp := ptr[ptr[p]]];
      } else {
        ptr := ptr[bp := ptr[p]];
      }
      assert size == old(size)[bp := s.n + if Touches(f, k, s) then f[k + 1].n else 0];
      if p + size[p] == bp {
        size := size[p := size[p] + size[bp]];
        ptr := ptr[p := ptr[bp]];
      } else {
        ptr := ptr[p := bp];
      }
    }

    /** free: the block whose header is just below ap joins the free list after its predecessor,
        merged with whichever neighbours it touches. */
    method Free(ap: nat) returns (ghost k: nat)
      requires 0 < base && Listed() && ap > 0 && ap - 1 in live
      modifies this`ptr, this`size, this`freep, this`f, this`live
      ensures Listed() && (old(Backed()) ==> Valid()) && freep != 0 && live == old(live) - {ap - 1}
      ensures Precedes(old(f), k, ap - 1) && f == Merged(old(f), k, Span(ap - 1, old(live)[ap - 1]))
      ensures k < |f| && freep == f[k].a
    {
      hide HeapOk, Freed;
      var bp := ap - 1;
      var p;
      p, k := Place(bp);
      if k + 1 < |f| { NodeAt(f, base, live, arena, ptr, size, k + 1); }
      LiveBlock(f, base, live, arena, ptr, size, bp);
      Relink(bp, p, k, Span(bp, live[bp]));
      freep := p;
      FreeKeeps(f, base, live, arena, k, bp, old(ptr), old(size), ptr, size);
      f, live := Merged(f, k, Span(bp, live[bp])), live - {bp};
      assert HeapOk(f, base, live, arena, ptr, size);
      assert f[k].a == freep;
    }

    /** sbrk: the break moves by n bytes and its old value is returned, or 0 is and nothing moves. A
        negative n shrinks the process, unless it has fewer bytes than that. */
    method Sbrk(n: int, noPages: bool) returns (p: nat)
      requires n % HEADER == 0 && brk > 0
      modifies this`brk
      ensures p == 0 <==> Refused(old(brk), n, noPages)
      ensures p == 0 ==> brk == old(brk)
      ensures p != 0 ==> p == old(brk) && brk == NewBrk(p, n)
    {
      if n > 0 {
        if brk + n / HEADER > TRAPFRAME || noPages { return 0; }
      }
      p := brk;
      if brk + n / HEADER >= 0 { brk := brk + n / HEADER; }
    }

    /** morecore: Null when sbrk fails; otherwise the free list has a block of at least nu0 units, and
        the process has the memory for it exactly if the byte count survived the conversion to int. When
        sbrk did not move the break up, storing the header may already be a trap. */
    method Morecore(nu0: nat, noPages: bool) returns (r: Result, ghost m: nat)
      requires Valid() && freep != 0 && 0 < nu0 < TWO31
      modifies this
      ensures r.Null? ==> Valid() && f == old(f) && live == old(live) && arena == old(arena) && freep == old(freep)
      ensures r.Null? <==> Refused(old(brk), Asked(nu0), noPages)
      ensures r.Trap? <==> !r.Null? && !Mapped(NewBrk(old(brk), Asked(nu0)), old(brk))
      ensures r.Trap? ==> ToInt(nu0 * HEADER) <= 0 && live == old(live) && arena == old(arena)
      ensures brk == if r.Null? then old(brk) else NewBrk(old(brk), Asked(nu0))
      ensures r.Block? ==> arena == old(arena) + Units(Span(old(brk), AtLeastMin(nu0)))
      ensures r.Block? ==> Listed() && freep != 0 && r.ap == freep && live == old(live) && old(arena) <= arena
                           && 0 < m < |f| && f[m].n >= nu0
      ensures r.Block? ==> (Backed() <==> ToInt(nu0 * HEADER) == nu0 * HEADER)
      ensures r.Block? && !Backed() ==> f[m].a + f[m].n > brk
      ensures r.Block? && !Fits(old(f), nu0) ==> forall j :: 0 <= j < |f| && f[j].n >= nu0 ==> j == m
    {
      hide HeapOk;
      MinimumFits(nu0);
      var nu := AtLeastMin(nu0);
      m := 0;
      var p := Sbrk(ToInt(nu * HEADER), noPages);
      if p == 0 { return Null, 0; }
      if brk > p { BelowMapped(brk, p); }
      if !Mapped(brk, p) { return Trap, 0; }
      m := AddCore(p, nu);
      r := Block(freep);
      assert In(Span(p, nu), p + nu - 1);
    }

    // The new memory goes through free.
    method AddCore(p: nat, nu: nat) returns (ghost m: nat)
      requires freep != 0 && 0 < base < p && nu > 0 && Listed() && (forall u :: u in arena ==> base < u < p)
      modifies this`ptr, this`size, this`freep, this`f, this`live, this`arena
      ensures Listed() && freep != 0 && live == old(live) && arena == old(arena) + Units(Span(p, nu))
      ensures 0 < m < |f| && f[m].n >= nu && f[m].a + f[m].n >= p + nu
      ensures forall n: nat :: !Fits(old(f), n) ==> forall j :: 0 <= j < |f| && f[j].n >= n ==> j == m
    {
      hide HeapOk;
      ghost var f0 := f;
      Grow(p, nu);
      ghost var k := Free(p + 1);
      Facts(f, base, live, arena, ptr, size);
      MergedBig(f0, k, Span(p, nu));
      m := Where(f0, k, Span(p, nu));
      assert live == old(live);
    }

    // hp->s.size = nu: the new memory becomes a block in the caller's hands.
    method Grow(p: nat, nu: nat)
      requires freep != 0 && 0 < base < p && nu > 0 && Listed() && (forall u :: u in arena ==> base < u < p)
      modifies this`size, this`live, this`arena
      ensures Listed() && p !in old(live) && live == old(live)[p := nu] && arena == old(arena) + Units(Span(p, nu))
    {
      GrowKeeps(f, base, live, arena, ptr, size, Span(p, nu), arena + Units(Span(p, nu)));
      size := size[p := nu];
      live, arena := live[p := nu], arena + Units(Span(p, nu));
    }

    // base.s.ptr = freep = prevp = &base; base.s.size = 0
    method Start()
      requires Valid() && freep == 0
      modifies this`ptr, this`size, this`freep, this`f
      ensures Valid() && freep != 0 && live == map[] && arena == {} && f == [Span(base, 0)]
    {
      ptr := ptr[base := base];
      size := size[base := 0];
      freep := base;
      f := [Span(base, 0)];
      assert Node(f[0], f[Next(f, 0)].a, ptr, size);
      assert f[0].a == freep;
    }

    // malloc's header writes: unlink the whole block, or shorten it and use its end.
    method Carve(prevp: nat, p0: nat, n: nat) returns (p: nat)
      requires p0 in size && p0 in ptr && size[p0] >= n > 0
      modifies this`ptr, this`size
      ensures p == p0 + old(size)[p0] - n
      ensures if old(size)[p0] == n then ptr == old(ptr)[prevp := old(ptr)[p0]] && size == old(size)
              else ptr == old(ptr) && size == old(size)[p0 := old(size)[p0] - n][p := n]
    {
      p := p0;
      if size[p] == n {
        ptr := ptr[prevp := ptr[p]];
      } else {
        size := size[p := size[p] - n];
        p := p + size[p];
        size := size[p := n];
      }
    }

    // Take n units from the k-th free block p0, which follows prevp.
    method Take(prevp: nat, p0: nat, n: nat, ghost k: nat) returns (p: nat)
      requires 0 < base && Listed() && 0 < k < |f| && prevp == f[k - 1].a && p0 == f[k].a && f[k].n >= n > 0
      modifies this`ptr, this`size, this`freep, this`f, this`live
      ensures Listed() && freep != 0 && p == Piece(old(f), k, n).a && f == Carved(old(f), k, n)
      ensures p !in old(live) && live == old(live)[p := n]
    {
      assert Node(f[k], f[Next(f, k)].a, ptr, size);
      p := Carve(prevp, p0, n);
      freep := prevp;
      if k > 1 { InOrder(f, 0, k - 1); }
      ghost var s := Piece(f, k, n);
      assert p == s.a;
      MallocKeeps(f, base, live, arena, k, n, old(ptr), old(size), ptr, size);
      f, live := Carved(f, k, n), live[s.a := n];
      assert HeapOk(f, base, live, arena, ptr, size);
      assert f[k - 1].a == freep;
    }

    /** malloc's loop, once around the list from freep, which is at place s: the first block of at least n
        units. */
    method Fit(n: nat) returns (found: bool, prevp: nat, p: nat, ghost k: nat, ghost s: nat)
      requires Listed() && n > 0
      ensures found <==> Fits(f, n)
      ensures found ==> s < |f| && f[s].a == freep && FirstFit(f, s, k, n) && prevp == f[k - 1].a && p == f[k].a
    {
      hide HeapOk, Dist, Linked, Sorted;
      ghost var i: nat :| i < |f| && f[i].a == freep;
      s := i;
      prevp := freep;
      Facts(f, base, live, arena, ptr, size);
      NodeAt(f, base, live, arena, ptr, size, i);
      p := ptr[prevp];
      k := Next(f, i);
      DistStart(f, s);
      while true
        invariant i < |f| && k == Next(f, i) && f[i].a == prevp && f[k].a == p
        invariant forall m :: 0 <= m < |f| && Passed(f, s, k, m) ==> f[m].n < n
        decreases |f| - Dist(|f|, Next(f, s), k)
      {
        NodeAt(f, base, live, arena, ptr, size, k);
        if size[p] >= n { return true, prevp, p, k, s; }
        if p == freep {
          Addresses(f, k, s);
          AllPassed(f, s);
          return false, prevp, p, k, s;
        }
        PassOne(f, s, k);
        prevp, p, i, k := p, ptr[p], k, Next(f, k);
      }
    }

    /** malloc: a block of enough units that was nobody's: the first that is large enough, or a new one.
        Null exactly if none is and sbrk refuses. The heap is as good as before exactly if the request is at
        most MAXREQUEST or fits in a block that was free already; otherwise the block ends beyond the break,
        or storing its header was a trap. */
    method Malloc(nbytes: nat, noPages: bool) returns (r: Result, ghost k: nat, ghost s: nat)
      requires Valid() && nbytes < TWO32
      modifies this
      ensures var n := Asked(NUnits(nbytes)); var fits := Fits(old(f), NUnits(nbytes));
        && (r.Null? <==> !fits && Refused(old(brk), n, noPages))
        && (r.Trap? <==> !fits && !r.Null? && !Mapped(NewBrk(old(brk), n), old(brk)))
        && brk == (if fits || r.Null? then old(brk) else NewBrk(old(brk), n))
        && arena == old(arena) + if fits || !r.Block? then {} else Units(Span(old(brk), AtLeastMin(NUnits(nbytes))))
      ensures Fits(old(f), NUnits(nbytes)) ==>
                && s < |old(f)| && old(f)[s].a == old(freep) && FirstFit(old(f), s, k, NUnits(nbytes))
                && f == Carved(old(f), k, NUnits(nbytes))
      ensures r.Trap? ==> nbytes > MAXREQUEST && live == old(live)
      ensures !r.Trap? ==> Listed() && freep != 0
      ensures r.Null? ==> Valid() && live == old(live)
      ensures r.Block? ==> r.ap > 0 && r.ap - 1 !in old(live) && live == old(live)[r.ap - 1 := NUnits(nbytes)]
      ensures r.Block? ==> (Valid() <==> nbytes <= MAXREQUEST || Fits(old(f), NUnits(nbytes)))
      ensures r.Block? && !Valid() ==> r.ap - 1 + NUnits(nbytes) > brk
    {
      hide HeapOk;
      var nunits := NUnits(nbytes);
      RequestFits(nbytes);
      if freep == 0 { Start(); }
      assert Fits(f, nunits) <==> Fits(old(f), nunits);
      var found, prevp, p;
      found, prevp, p, k, s := Fit(nunits);
      if !found {
        ghost var m;
        r, m := Morecore(nunits, noPages);
        if !r.Block? { return; }
        assert f[m].n >= nunits;
        found, prevp, p, k, s := Fit(nunits);
        assert k == m;
      }
      ghost var end := f[k].a + f[k].n;
      p := Take(prevp, p, nunits, k);
      assert p + nunits == end;
      r := Block(p + 1);
    }
  }

  lemma {:induction false} NodeAt(f: seq<Span>, base: nat, live: map<nat, nat>, arena: set<nat>, ptr: map<nat, nat>,
                                  size: map<nat, nat>, i: nat)
    requires HeapOk(f, base, live, arena, ptr, size) && i < |f|
    ensures Node(f[i], f[Next(f, i)].a, ptr, size)
  {
  }

  lemma {:induction false} Facts(f: seq<Span>, base: nat, live: map<nat, nat>, arena: set<nat>, ptr: map<nat, nat>,
                                 size: map<nat, nat>)
    requires HeapOk(f, base, live, arena, ptr, size)
    ensures Sorted(f) && |f| > 0 && f[0].a == base && f[0].n == 0 && forall i :: 0 < i < |f| ==> f[i].n > 0
  {
  }

  lemma {:induction false} LiveBlock(f: seq<Span>, base: nat, live: map<nat, nat>, arena: set<nat>, ptr: map<nat, nat>,
                                     size: map<nat, nat>, bp: nat)
    requires HeapOk(f, base, live, arena, ptr, size) && bp in live
    ensures bp in size && size[bp] == live[bp] && f[0].a < bp
  {
    LiveApart(f, base, live, size, arena, bp);
  }

  lemma {:induction false} PlaceFacts(f: seq<Span>, base: nat, live: map<nat, nat>, arena: set<nat>,
                                      ptr: map<nat, nat>, size: map<nat, nat>, bp: nat)
    requires HeapOk(f, base, live, arena, ptr, size) && bp in live
    ensures Sorted(f) && |f| > 0 && f[0].a == base < bp && forall i :: 0 <= i < |f| ==> f[i].a != bp
  {
    LiveApart(f, base, live, size, arena, bp);
  }

  // Steps from place a to place b around a ring of n.
  function Dist(n: nat, a: nat, b: nat): int { if a <= b then b - a else b + n - a }

  // Going round from the one after place s, m comes before k.
  predicate Passed(f: seq<Span>, s: nat, k: nat, m: nat)
    requires s < |f|
  { Dist(|f|, Next(f, s), m) < Dist(|f|, Next(f, s), k) }

  /** The first block of at least n units after place s, going round. */
  ghost predicate FirstFit(f: seq<Span>, s: nat, k: nat, n: nat)
    requires s < |f|
  { 0 < k < |f| && f[k].n >= n && forall m :: 0 <= m < |f| && Passed(f, s, k, m) ==> f[m].n < n }

  lemma {:induction false} DistStart(f: seq<Span>, s: nat)
    requires s < |f|
    ensures forall m :: 0 <= m < |f| ==> !Passed(f, s, Next(f, s), m)
  {
  }

  lemma {:induction false} AllPassed(f: seq<Span>, s: nat)
    requires s < |f|
    ensures forall m :: 0 <= m < |f| && m != s ==> Passed(f, s, s, m)
  {
  }

  lemma {:induction false} PassOne(f: seq<Span>, s: nat, k: nat)
    requires k < |f| && s < |f| && k != s
    ensures Dist(|f|, Next(f, s), k) < Dist(|f|, Next(f, s), Next(f, k)) < |f|
    ensures forall m :: 0 <= m < |f| && Passed(f, s, Next(f, k), m) ==> m == k || Passed(f, s, k, m)
  {
  }

  /** The free list always has a block (at worst base) below a heap address. */
  lemma {:induction false} Pred(f: seq<Span>, b: nat) returns (k: nat)
    requires |f| > 0 && f[0].a < b && Sorted(f) && forall i :: 0 <= i < |f| ==> f[i].a != b
    ensures Precedes(f, k, b)
  {
    if f[|f| - 1].a < b {
      k := |f| - 1;
    } else {
      k := Pred(f[..|f| - 1], b);
    }
  }

  /** free's loop stops exactly at the predecessor. */
  lemma {:induction false} StopsAt(f: seq<Span>, i: nat, k: nat, b: nat)
    requires Sorted(f) && i < |f| && Precedes(f, k, b) && f[0].a < b
    ensures var p := f[i].a; var q := f[Next(f, i)].a;
      i == k <==> (b > p && b < q) || (p >= q && (b > p || b < q))
  {
    if i < k {
      InOrder(f, i, i + 1);
      if i + 1 < k { InOrder(f, i + 1, k); }
    } else if i > k {
      if k + 1 < i { InOrder(f, k + 1, i); }
      if i + 1 < |f| { InOrder(f, i, i + 1); }
    }
    if i > 0 { InOrder(f, 0, i); }
  }

  /** A block obtained from the system is new: it can be counted as handed out. */
  lemma {:induction false} GrowKeeps(f: seq<Span>, base: nat, live: map<nat, nat>, arena: set<nat>, ptr: map<nat, nat>,
                                     size: map<nat, nat>,
                  s: Span, arena': set<nat>)
    requires HeapOk(f, base, live, arena, ptr, size) && base < s.a && s.n > 0
    requires forall u :: u in arena ==> u < s.a
    requires forall u: nat {:trigger u in arena'} :: u in arena' <==> u in arena || In(s, u)
    ensures s.a !in live && HeapOk(f, base, live[s.a := s.n], arena', ptr, size[s.a := s.n])
  {
    assert forall u: nat :: Free(f, u) || Live(live, u) ==> u in arena;
    forall a | a in live ensures a + live[a] <= s.a {
      assert In(Span(a, live[a]), a + live[a] - 1);
      assert Live(live, a + live[a] - 1);
    }
    forall i: nat | i < |f| ensures f[i].a != s.a {
      if i > 0 { assert In(f[i], f[i].a); assert Free(f, f[i].a); }
    }
    forall i: nat | i < |f| ensures Node(f[i], f[Next(f, i)].a, ptr, size[s.a := s.n]) {
      assert Node(f[i], f[Next(f, i)].a, ptr, size);
    }
    forall u: nat
      ensures u in arena' <==> Free(f, u) || Live(live[s.a := s.n], u)
      ensures !(Free(f, u) && Live(live[s.a := s.n], u))
    { LiveWith(live, s, u); }
  }

  // Some block of the list has n units.
  predicate Fits(f: seq<Span>, n: nat) { exists i :: 0 <= i < |f| && f[i].n >= n }

  lemma {:induction false} MergedBig(f: seq<Span>, k: nat, s: Span)
    requires k < |f|
    ensures var m, r := Where(f, k, s), Merged(f, k, s);
      && m < |r| && r[m].n >= s.n && r[m].a + r[m].n >= s.a + s.n
      && forall n: nat :: !Fits(f, n) ==> forall j :: 0 <= j < |r| && r[j].n >= n ==> j == m
  {
    hide Merged;
    var m, r := Where(f, k, s), Merged(f, k, s);
    MergedIs(f, k, s, 0);
    forall n: nat, j | !Fits(f, n) && 0 <= j < |r| && r[j].n >= n ensures j == m {
      MergedIs(f, k, s, j);
    }
  }
}
