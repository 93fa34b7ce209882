/** The user-level allocator of umalloc.c (Kernighan and Ritchie, section 8.7).
  *
  * Addresses count header-sized units.  The C structures are the header words next and size,
  * the global freep, and the static header base, which lies below everything sbrk returns.
  * The ghost sequences free and live name the blocks: free in ring order starting at base.
  */
module Heap {
  import opened Param

  const HEADER: nat := 8     // sizeof(Header)
  const MINCORE: nat := 4096

  datatype Blk = Blk(a: int, n: int)

  predicate Apart(x: Blk, y: Blk) {
    x.a + x.n <= y.a || y.a + y.n <= x.a
  }

  predicate ApartAll(x: Blk, s: seq<Blk>) {
    forall i :: 0 <= i < |s| ==> Apart(x, s[i])
  }

  /** base first and empty, the rest nonempty, in address order, with a gap between neighbours. */
  predicate FreeOk(free: seq<Blk>) {
    |free| >= 1 && free[0].n == 0 && Sized(free[1..]) && Ordered(free)
  }

  predicate Sized(s: seq<Blk>) {
    forall i :: 0 <= i < |s| ==> s[i].n >= 1
  }

  predicate Ordered(s: seq<Blk>) {
    forall i, j :: 0 <= i < j < |s| ==> s[i].a + s[i].n < s[j].a
  }

  predicate AllBelow(s: seq<Blk>, a: int) {
    forall i :: 0 <= i < |s| ==> s[i].a + s[i].n < a
  }

  predicate AllAbove(s: seq<Blk>, a: int) {
    forall i :: 0 <= i < |s| ==> a < s[i].a
  }

  lemma JoinOk(lo: seq<Blk>, mid: Blk, hi: seq<Blk>)
    requires FreeOk(lo) && AllBelow(lo, mid.a) && mid.n >= 1
    requires Ordered(hi) && Sized(hi) && AllAbove(hi, mid.a + mid.n)
    ensures FreeOk(lo + [mid] + hi) && (lo + [mid] + hi)[0] == lo[0]
  {
    var r := lo + [mid] + hi;
    assert r[1..] == lo[1..] + [mid] + hi;
    forall i, j | 0 <= i < j < |r|
      ensures r[i].a + r[i].n < r[j].a
    {
      if i < |lo| < j {
        assert lo[i].a + lo[i].n < mid.a;
        assert hi[j - |lo| - 1] == r[j];
      }
    }
  }

  lemma GlueOk(lo: seq<Blk>, a: int, hi: seq<Blk>)
    requires FreeOk(lo) && Ordered(hi) && Sized(hi) && AllBelow(lo, a) && AllAbove(hi, a)
    ensures FreeOk(lo + hi) && (lo + hi)[0] == lo[0]
  {
    assert (lo + hi)[1..] == lo[1..] + hi;
  }

  lemma PrefixOk(s: seq<Blk>, k: nat)
    requires FreeOk(s) && 1 <= k <= |s|
    ensures FreeOk(s[..k]) && Ordered(s[k..]) && Sized(s[k..])
    ensures k < |s| ==> AllBelow(s[..k], s[k].a)
    ensures AllAbove(s[k..], s[k - 1].a + s[k - 1].n)
  {
    assert s[..k][1..] == s[1..][..k - 1];
    assert s[k..] == s[1..][k - 1..];
  }

  predicate LiveFits(l: Blk, free: seq<Blk>) {
    |free| >= 1 && l.n >= 1 && free[0].a < l.a && ApartAll(l, free)
  }

  predicate PairApart(live: seq<Blk>) {
    forall i, j :: 0 <= i < j < |live| ==> Apart(live[i], live[j])
  }

  predicate LiveOk(free: seq<Blk>, live: seq<Blk>) {
    (forall i :: 0 <= i < |live| ==> LiveFits(live[i], free)) && PairApart(live)
  }

  predicate Under(s: seq<Blk>, brk: int) {
    forall i :: 0 <= i < |s| ==> s[i].a + s[i].n <= brk
  }

  function Units(s: seq<Blk>): int {
    if s == [] then 0 else Units(s[..|s| - 1]) + s[|s| - 1].n
  }

  lemma {:induction false} UnitsConcat(s: seq<Blk>, t: seq<Blk>)
    ensures Units(s + t) == Units(s) + Units(t)
  {
    if t == [] {
      assert s + t == s;
    } else {
      UnitsConcat(s, t[..|t| - 1]);
      assert (s + t)[..|s + t| - 1] == s + t[..|t| - 1];
    }
  }

  lemma UnitsOne(b: Blk)
    ensures Units([b]) == b.n
  {
    assert [b][..0] == [];
  }

  lemma UnitsAround(s: seq<Blk>, x: Blk, t: seq<Blk>)
    ensures Units(s + [x] + t) == Units(s) + x.n + Units(t)
  {
    UnitsConcat(s, [x]);
    UnitsOne(x);
    UnitsConcat(s + [x], t);
  }

  lemma UnitsWithout(s: seq<Blk>, k: nat)
    requires k < |s|
    ensures Units(Without(s, k)) == Units(s) - s[k].n
  {
    hide Units;
    assert s == s[..k] + [s[k]] + s[k + 1..];
    UnitsAround(s[..k], s[k], s[k + 1..]);
    UnitsConcat(s[..k], s[k + 1..]);
  }

  // ----- the specification of free

  /** k is the free block just below b. */
  predicate Slot(free: seq<Blk>, k: nat, b: Blk) {
    k < |free| && free[k].a < b.a && (k + 1 < |free| ==> b.a < free[k + 1].a)
  }

  /** b joined to its upper neighbour when they touch. */
  function Upper(free: seq<Blk>, k: nat, b: Blk): Blk
    requires Slot(free, k, b)
  {
    if k + 1 < |free| && b.a + b.n == free[k + 1].a then Blk(b.a, b.n + free[k + 1].n) else b
  }

  function Rest(free: seq<Blk>, k: nat, b: Blk): seq<Blk>
    requires Slot(free, k, b)
  {
    if k + 1 < |free| && b.a + b.n == free[k + 1].a then free[k + 2..] else free[k + 1..]
  }

  /** The free list after b is put back above block k. */
  function PutBack(free: seq<Blk>, k: nat, b: Blk): (r: seq<Blk>)
    requires Slot(free, k, b)
  {
    var m := Upper(free, k, b);
    if free[k].a + free[k].n == b.a then free[..k] + [Blk(free[k].a, free[k].n + m.n)] + Rest(free, k, b)
    else free[..k + 1] + [m] + Rest(free, k, b)
  }

  lemma UpperFits(free: seq<Blk>, k: nat, b: Blk)
    requires FreeOk(free) && Slot(free, k, b) && b.n >= 1 && ApartAll(b, free)
    ensures Upper(free, k, b).n >= b.n && Upper(free, k, b).a == b.a && free[k].a + free[k].n <= b.a
    ensures Ordered(Rest(free, k, b)) && Sized(Rest(free, k, b))
    ensures AllAbove(Rest(free, k, b), b.a + Upper(free, k, b).n)
  {
    assert Apart(b, free[k]);
    PrefixOk(free, k + 1);
    if k + 1 < |free| {
      assert Apart(b, free[k + 1]);
      assert free[k + 1] == free[1..][k];
      PrefixOk(free, k + 2);
    }
  }

  /** Freeing keeps the list ordered and fully coalesced. */
  lemma PutBackOk(free: seq<Blk>, k: nat, b: Blk)
    requires FreeOk(free) && Slot(free, k, b) && b.n >= 1 && ApartAll(b, free)
    ensures FreeOk(PutBack(free, k, b)) && PutBack(free, k, b)[0] == free[0]
  {
    UpperFits(free, k, b);
    var m, rest := Upper(free, k, b), Rest(free, k, b);
    if free[k].a + free[k].n == b.a {
      assert k >= 1;
      PrefixOk(free, k);
      assert free[k] == free[1..][k - 1];
      hide FreeOk, Ordered, Sized, AllBelow, Upper, Rest, ApartAll;
      JoinOk(free[..k], Blk(free[k].a, free[k].n + m.n), rest);
    } else {
      PrefixOk(free, k + 1);
      BelowNext(free, k, b.a);
      hide FreeOk, Ordered, Sized, AllBelow, Upper, Rest, ApartAll;
      JoinOk(free[..k + 1], m, rest);
    }
  }

  lemma BelowNext(free: seq<Blk>, k: nat, a: int)
    requires FreeOk(free) && k < |free| && free[k].a + free[k].n < a
    ensures AllBelow(free[..k + 1], a)
  {
    assert k > 0 ==> free[k] == free[1..][k - 1];
  }

  lemma PutBackUnits(free: seq<Blk>, k: nat, b: Blk)
    requires Slot(free, k, b)
    ensures Units(PutBack(free, k, b)) == Units(free) + b.n
  {
    hide Units;
    var m, rest := Upper(free, k, b), Rest(free, k, b);
    assert Units(free[k + 1..]) + b.n == Units(rest) + m.n by {
      if k + 1 < |free| && b.a + b.n == free[k + 1].a {
        assert free[k + 1..] == [] + [free[k + 1]] + rest;
        UnitsAround([], free[k + 1], rest);
        UnitsNone();
      }
    }
    assert free == free[..k] + [free[k]] + free[k + 1..];
    UnitsAround(free[..k], free[k], free[k + 1..]);
    if free[k].a + free[k].n == b.a {
      UnitsAround(free[..k], Blk(free[k].a, free[k].n + m.n), rest);
    } else {
      UnitsAround(free[..k + 1], m, rest);
      assert free[..k + 1] == free[..k] + [free[k]] + [];
      UnitsAround(free[..k], free[k], []);
      UnitsNone();
    }
  }

  lemma UnitsNone()
    ensures Units([]) == 0
  {
  }

  lemma ApartJoin(l: Blk, lo: seq<Blk>, mid: Blk, hi: seq<Blk>)
    requires ApartAll(l, lo) && Apart(l, mid) && ApartAll(l, hi)
    ensures ApartAll(l, lo + [mid] + hi)
  {
  }

  /** A block disjoint from the old list and from b stays disjoint from the new list. */
  lemma PutBackApart(free: seq<Blk>, k: nat, b: Blk, l: Blk)
    requires Slot(free, k, b) && l.n >= 1 && b.n >= 1
    requires ApartAll(l, free) && Apart(l, b)
    ensures ApartAll(l, PutBack(free, k, b))
  {
    var rest, m := Rest(free, k, b), Upper(free, k, b);
    assert ApartAll(l, rest) && ApartAll(l, free[..k]) && ApartAll(l, free[..k + 1]);
    assert Apart(l, free[k]);
    if k + 1 < |free| {
      assert Apart(l, free[k + 1]);
    }
    assert Apart(l, m);
    hide ApartAll;
    if free[k].a + free[k].n == b.a {
      ApartJoin(l, free[..k], Blk(free[k].a, free[k].n + m.n), rest);
    } else {
      ApartJoin(l, free[..k + 1], m, rest);
    }
  }

  // ----- the specification of malloc

  /** The free list after malloc takes n units from block i: all of it, or its tail. */
  function Taken(free: seq<Blk>, i: nat, n: int): seq<Blk>
    requires i < |free|
  {
    if free[i].n == n then Without(free, i) else free[i := Blk(free[i].a, free[i].n - n)]
  }

  function Given(free: seq<Blk>, i: nat, n: int): Blk
    requires i < |free|
  {
    Blk(free[i].a + free[i].n - n, n)
  }

  lemma UpdateSplit(s: seq<Blk>, i: nat, x: Blk)
    requires i < |s|
    ensures s[i := x] == s[..i] + [x] + s[i + 1..]
  {
  }

  /** Allocating keeps the list ordered and coalesced. */
  lemma TakenOk(free: seq<Blk>, i: nat, n: int)
    requires FreeOk(free) && i < |free| && 1 <= n <= free[i].n
    ensures FreeOk(Taken(free, i, n)) && Taken(free, i, n)[0] == free[0]
  {
    assert i >= 1;
    hide FreeOk, Ordered, Sized, AllBelow;
    PrefixOk(free, i);
    PrefixOk(free, i + 1);
    assert AllAbove(free[i + 1..], free[i].a) by {
      assert free[i + 1 - 1] == free[i];
    }
    assert AllAbove(free[i + 1..], free[i].a + free[i].n - n) by {
      assert free[i + 1 - 1] == free[i];
    }
    hide AllAbove;
    if free[i].n == n {
      GlueOk(free[..i], free[i].a, free[i + 1..]);
    } else {
      JoinOk(free[..i], Blk(free[i].a, free[i].n - n), free[i + 1..]);
      UpdateSplit(free, i, Blk(free[i].a, free[i].n - n));
    }
  }

  /** The block handed out has units no remaining free block has. */
  lemma GivenApart(free: seq<Blk>, i: nat, n: int)
    requires FreeOk(free) && i < |free| && 1 <= n <= free[i].n
    ensures ApartAll(Given(free, i, n), Taken(free, i, n)) && free[0].a < Given(free, i, n).a
  {
    assert i >= 1;
    var r, g := Taken(free, i, n), Given(free, i, n);
    forall j | 0 <= j < |r|
      ensures Apart(g, r[j])
    {
      if free[i].n == n {
        assert r[j] == free[if j < i then j else j + 1];
      }
    }
  }

  lemma TakenUnits(free: seq<Blk>, i: nat, n: int)
    requires i < |free|
    ensures Units(Taken(free, i, n)) == Units(free) - n
  {
    var r := Taken(free, i, n);
    UnitsWithout(free, i);
    if free[i].n != n {
      UnitsWithout(r, i);
      assert Without(r, i) == Without(free, i);
    }
  }

  lemma TakenApart(free: seq<Blk>, i: nat, n: int, l: Blk)
    requires FreeOk(free) && i < |free| && 1 <= n <= free[i].n && l.n >= 1
    requires ApartAll(l, free)
    ensures ApartAll(l, Taken(free, i, n)) && Apart(l, Given(free, i, n))
  {
    var r := Taken(free, i, n);
    assert Apart(l, free[i]);
    forall j | 0 <= j < |r|
      ensures Apart(l, r[j])
    {
      if free[i].n == n {
        assert r[j] == free[if j < i then j else j + 1];
      } else {
        assert Apart(l, free[j]);
      }
    }
  }

  lemma Gaps(free: seq<Blk>, i: nat)
    requires FreeOk(free) && 1 <= i < |free|
    ensures free[i - 1].n >= 0 && free[i].n >= 1 && free[i - 1].a + free[i - 1].n < free[i].a
    ensures i + 1 < |free| ==> free[i].a + free[i].n < free[i + 1].a
  {
    assert free[i] == free[1..][i - 1];
    assert i > 1 ==> free[i - 1] == free[1..][i - 2];
  }

  lemma UndoExact(free: seq<Blk>, i: nat)
    requires FreeOk(free) && 1 <= i < |free|
    ensures Slot(Without(free, i), i - 1, free[i]) && PutBack(Without(free, i), i - 1, free[i]) == free
  {
    Gaps(free, i);
    hide FreeOk;
    var r := Without(free, i);
    assert r[i - 1] == free[i - 1] && r[..i] == free[..i] && r[i..] == free[i + 1..];
    assert i < |r| ==> r[i] == free[i + 1];
    assert free == free[..i] + [free[i]] + free[i + 1..];
  }

  lemma UndoTail(free: seq<Blk>, i: nat, n: int)
    requires FreeOk(free) && 1 <= i < |free| && 1 <= n < free[i].n
    ensures Slot(Taken(free, i, n), i, Given(free, i, n)) && PutBack(Taken(free, i, n), i, Given(free, i, n)) == free
  {
    Gaps(free, i);
    hide FreeOk;
    var r := Taken(free, i, n);
    assert r[..i] == free[..i] && r[i + 1..] == free[i + 1..];
    assert i + 1 < |r| ==> r[i + 1] == free[i + 1];
    assert free == free[..i] + [free[i]] + free[i + 1..];
  }

  /** Freeing the block malloc has just handed out gives back exactly the list malloc found. */
  lemma FreeUndoesMalloc(free: seq<Blk>, i: nat, n: int, t: nat)
    requires FreeOk(free) && i < |free| && 1 <= n <= free[i].n
    requires Slot(Taken(free, i, n), t, Given(free, i, n))
    ensures PutBack(Taken(free, i, n), t, Given(free, i, n)) == free
  {
    assert i >= 1;
    TakenOk(free, i, n);
    if free[i].n == n {
      UndoExact(free, i);
      SlotUnique(Taken(free, i, n), Given(free, i, n), t, i - 1);
    } else {
      UndoTail(free, i, n);
      SlotUnique(Taken(free, i, n), Given(free, i, n), t, i);
    }
  }

  lemma SlotUnique(free: seq<Blk>, b: Blk, s: nat, t: nat)
    requires FreeOk(free) && Slot(free, s, b) && Slot(free, t, b)
    ensures s == t
  {
    assert forall i :: 1 <= i < |free| ==> free[i] == free[1..][i - 1];
  }

  // ----- the ring in memory

  function Nxt(i: nat, n: nat): nat
    requires i < n
  {
    if i + 1 == n then 0 else i + 1
  }

  /** The header words of block i of s hold its size and point to block i + 1, the last one to end. */
  predicate HeaderAt(s: seq<Blk>, i: nat, next: map<int, int>, size: map<int, int>, end: int)
    requires i < |s|
  {
    && s[i].a in next && s[i].a in size && size[s[i].a] == s[i].n
    && next[s[i].a] == (if i + 1 < |s| then s[i + 1].a else end)
  }

  predicate Chain(s: seq<Blk>, next: map<int, int>, size: map<int, int>, end: int) {
    forall i :: 0 <= i < |s| ==> HeaderAt(s, i, next, size, end)
  }

  /** The header words of the free blocks form one ring in the order of the list. */
  predicate Linked(free: seq<Blk>, next: map<int, int>, size: map<int, int>) {
    |free| >= 1 && Chain(free, next, size, free[0].a)
  }

  function Head(s: seq<Blk>, end: int): int {
    if s == [] then end else s[0].a
  }

  lemma ChainSplit(s: seq<Blk>, k: nat, next: map<int, int>, size: map<int, int>, end: int)
    requires Chain(s, next, size, end) && k <= |s|
    ensures Chain(s[..k], next, size, Head(s[k..], end)) && Chain(s[k..], next, size, end)
  {
    forall i | 0 <= i < k
      ensures HeaderAt(s[..k], i, next, size, Head(s[k..], end))
    {
      assert HeaderAt(s, i, next, size, end);
    }
    forall i | 0 <= i < |s[k..]|
      ensures HeaderAt(s[k..], i, next, size, end)
    {
      assert HeaderAt(s, k + i, next, size, end);
    }
  }

  lemma ChainConcat(s: seq<Blk>, t: seq<Blk>, next: map<int, int>, size: map<int, int>, end: int)
    requires Chain(s, next, size, Head(t, end)) && Chain(t, next, size, end)
    ensures Chain(s + t, next, size, end)
  {
    forall i | 0 <= i < |s + t|
      ensures HeaderAt(s + t, i, next, size, end)
    {
      if i < |s| {
        assert HeaderAt(s, i, next, size, Head(t, end));
      } else {
        assert HeaderAt(t, i - |s|, next, size, end);
      }
    }
  }

  /** The only header words that differ are those at x and y. */
  ghost predicate OnlyAt(x: int, y: int, next: map<int, int>, size: map<int, int>, next': map<int, int>, size': map<int, int>) {
    forall z :: z != x && z != y ==>
      && (z in next <==> z in next') && (z in next ==> next'[z] == next[z])
      && (z in size <==> z in size') && (z in size ==> size'[z] == size[z])
  }

  lemma ChainFrame(s: seq<Blk>, x: int, y: int, end: int,
                   next: map<int, int>, size: map<int, int>, next': map<int, int>, size': map<int, int>)
    requires Chain(s, next, size, end) && OnlyAt(x, y, next, size, next', size')
    requires forall i :: 0 <= i < |s| ==> s[i].a != x && s[i].a != y
    ensures Chain(s, next', size', end)
  {
    forall i | 0 <= i < |s|
      ensures HeaderAt(s, i, next', size', end)
    {
      assert HeaderAt(s, i, next, size, end);
    }
  }

  /** What the two coalescing tests of free must leave in the header words at b and at its slot. */
  predicate JoinedHeaders(free: seq<Blk>, t: nat, b: Blk, next: map<int, int>, size: map<int, int>)
    requires Slot(free, t, b)
  {
    var p, m, succ := free[t], Upper(free, t, b), Head(Rest(free, t, b), free[0].a);
    && p.a in next && p.a in size && b.a in next && b.a in size
    && if p.a + p.n == b.a then size[p.a] == p.n + m.n && next[p.a] == succ
       else size[p.a] == p.n && next[p.a] == b.a && size[b.a] == m.n && next[b.a] == succ
  }

  lemma LinkedIntro(free: seq<Blk>, next: map<int, int>, size: map<int, int>, end: int)
    requires |free| >= 1 && free[0].a == end && Chain(free, next, size, end)
    ensures Linked(free, next, size)
  {
  }

  lemma SlotChains(free: seq<Blk>, t: nat, b: Blk,
                   next: map<int, int>, size: map<int, int>, next': map<int, int>, size': map<int, int>)
    requires FreeOk(free) && Linked(free, next, size) && Slot(free, t, b) && b.n >= 1 && ApartAll(b, free)
    requires OnlyAt(b.a, free[t].a, next, size, next', size')
    ensures Chain(free[..t], next', size', free[t].a)
    ensures Chain(Rest(free, t, b), next', size', free[0].a)
  {
    var lo, rest, end := free[..t], Rest(free, t, b), free[0].a;
    Neighbours(free, t, b);
    ChainSplit(free, t, next, size, end);
    assert Head(free[t..], end) == free[t].a;
    if t + 1 < |free| && b.a + b.n == free[t + 1].a {
      ChainSplit(free, t + 2, next, size, end);
    } else {
      ChainSplit(free, t + 1, next, size, end);
    }
    hide OnlyAt, FreeOk, ApartAll, Chain;
    ChainFrame(lo, b.a, free[t].a, free[t].a, next, size, next', size');
    ChainFrame(rest, b.a, free[t].a, end, next, size, next', size');
  }

  lemma LinkedPutBack(free: seq<Blk>, t: nat, b: Blk,
                      next: map<int, int>, size: map<int, int>, next': map<int, int>, size': map<int, int>)
    requires FreeOk(free) && Linked(free, next, size) && Slot(free, t, b) && b.n >= 1 && ApartAll(b, free)
    requires OnlyAt(b.a, free[t].a, next, size, next', size') && JoinedHeaders(free, t, b, next', size')
    ensures Linked(PutBack(free, t, b), next', size')
  {
    var lo, rest, m, end := free[..t], Rest(free, t, b), Upper(free, t, b), free[0].a;
    SlotChains(free, t, b, next, size, next', size');
    UpperFits(free, t, b);
    PutBackOk(free, t, b);
    hide OnlyAt, FreeOk, Linked, ApartAll, AllAbove, Ordered, Sized, Rest, Upper;
    if free[t].a + free[t].n == b.a {
      var j := Blk(free[t].a, free[t].n + m.n);
      assert Chain([j], next', size', Head(rest, end));
      ChainConcat(lo, [j], next', size', Head(rest, end));
      ChainConcat(lo + [j], rest, next', size', end);
    } else {
      assert Chain([free[t]], next', size', m.a);
      assert Chain([m], next', size', Head(rest, end));
      ChainConcat(lo, [free[t]], next', size', m.a);
      ChainConcat(lo + [free[t]], [m], next', size', Head(rest, end));
      ChainConcat(lo + [free[t]] + [m], rest, next', size', end);
      assert free[..t + 1] == lo + [free[t]];
    }
    hide Chain;
    LinkedIntro(PutBack(free, t, b), next', size', end);
  }

  /** The blocks below and above the slot are neither the slot nor b. */
  lemma Neighbours(free: seq<Blk>, t: nat, b: Blk)
    requires FreeOk(free) && Slot(free, t, b) && b.n >= 1 && ApartAll(b, free)
    ensures forall i :: 0 <= i < t ==> free[..t][i].a != b.a && free[..t][i].a != free[t].a
    ensures forall i :: 0 <= i < |Rest(free, t, b)| ==> Rest(free, t, b)[i].a != b.a && Rest(free, t, b)[i].a != free[t].a
  {
    UpperFits(free, t, b);
    PrefixOk(free, t + 1);
    assert free[..t + 1][..t] == free[..t];
    forall i | 0 <= i < t
      ensures free[i].a < free[t].a
    {
      assert i > 0 ==> free[i] == free[1..][i - 1];
    }
  }

  predicate Sizes(live: seq<Blk>, size: map<int, int>) {
    forall i :: 0 <= i < |live| ==> live[i].a in size && size[live[i].a] == live[i].n
  }

  /** No header word inside block l changed. */
  ghost predicate Intact(l: Blk, next: map<int, int>, size: map<int, int>, next': map<int, int>, size': map<int, int>) {
    forall x :: l.a <= x < l.a + l.n ==>
      && (x in next <==> x in next') && (x in next ==> next'[x] == next[x])
      && (x in size <==> x in size') && (x in size ==> size'[x] == size[x])
  }

  /** No header word inside any of these blocks changed. */
  ghost predicate AllIntact(ls: seq<Blk>, next: map<int, int>, size: map<int, int>, next': map<int, int>, size': map<int, int>) {
    forall i :: 0 <= i < |ls| ==> Intact(ls[i], next, size, next', size')
  }

  lemma IntactTrans(ls: seq<Blk>, n0: map<int, int>, s0: map<int, int>, n1: map<int, int>, s1: map<int, int>,
                    n2: map<int, int>, s2: map<int, int>)
    requires AllIntact(ls, n0, s0, n1, s1) && AllIntact(ls, n1, s1, n2, s2)
    ensures AllIntact(ls, n0, s0, n2, s2)
  {
    forall i | 0 <= i < |ls|
      ensures Intact(ls[i], n0, s0, n2, s2)
    {
      assert Intact(ls[i], n0, s0, n1, s1) && Intact(ls[i], n1, s1, n2, s2);
    }
  }

  lemma FindSlot(free: seq<Blk>, b: Blk) returns (t: nat)
    requires FreeOk(free) && b.n >= 1 && free[0].a < b.a && ApartAll(b, free)
    ensures Slot(free, t, b)
  {
    t := 0;
    while t + 1 < |free| && free[t + 1].a < b.a
      invariant t < |free| && free[t].a < b.a
    {
      t := t + 1;
    }
    if t + 1 < |free| {
      assert free[t + 1] == free[1..][t];
      assert Apart(b, free[t + 1]);
    }
  }

  /** Ordered, coalesced free blocks; live blocks disjoint from them and from each other; everything
    * below brk; and every unit obtained from sbrk is in exactly one block.
    */
  predicate HeapOk(base: int, free: seq<Blk>, live: seq<Blk>, brk: int, obtained: int) {
    && FreeOk(free) && free[0].a == base && LiveOk(free, live)
    && Under(free, brk) && Under(live, brk) && Units(free) + Units(live) == obtained
  }

  predicate InRing(free: seq<Blk>, p: int) {
    exists i :: 0 <= i < |free| && free[i].a == p
  }

  /** Freeing live block k: it moves from the live blocks to the free ones, and nothing overlaps. */
  lemma FreeKeepsHeap(base: int, free: seq<Blk>, live: seq<Blk>, brk: int, obtained: int, t: nat, k: nat)
    requires HeapOk(base, free, live, brk, obtained) && k < |live| && Slot(free, t, live[k])
    ensures HeapOk(base, PutBack(free, t, live[k]), Without(live, k), brk, obtained)
  {
    var b, rest, free' := live[k], Without(live, k), PutBack(free, t, live[k]);
    assert LiveFits(b, free);
    PutBackOk(free, t, b);
    PutBackUnits(free, t, b);
    UnitsWithout(live, k);
    PutBackUnder(free, t, b, brk);
    forall i | 0 <= i < |rest|
      ensures LiveFits(rest[i], free') && rest[i].a + rest[i].n <= brk
    {
      var j := if i < k then i else i + 1;
      assert rest[i] == live[j] && LiveFits(live[j], free) && Apart(live[j], b);
      PutBackApart(free, t, b, rest[i]);
    }
    hide FreeOk, ApartAll, PutBack, Units;
    assert PairApart(rest);
  }

  lemma PutBackUnder(free: seq<Blk>, t: nat, b: Blk, brk: int)
    requires Slot(free, t, b) && Under(free, brk) && b.a + b.n <= brk
    ensures Under(PutBack(free, t, b), brk)
  {
    var rest := Rest(free, t, b);
    assert free[t].a + free[t].n <= brk;
    forall i | 0 <= i < |rest|
      ensures rest[i].a + rest[i].n <= brk
    {
      assert rest[i] == free[|free| - |rest| + i];
    }
  }

  lemma FreeKeepsSizes(live: seq<Blk>, k: nat, p: int,
                       next: map<int, int>, size: map<int, int>, next': map<int, int>, size': map<int, int>)
    requires k < |live| && Sizes(live, size) && PairApart(live) && OnlyAt(live[k].a, p, next, size, next', size')
    requires Outside(live, p)
    ensures Sizes(Without(live, k), size')
    ensures AllIntact(Without(live, k), next, size, next', size')
  {
    forall i | 0 <= i < |live| && i != k
      ensures Intact(live[i], next, size, next', size')
    {
      assert Apart(live[i], live[k]);
    }
    forall i | 0 <= i < |Without(live, k)|
      ensures Without(live, k)[i].a in size' && size'[Without(live, k)[i].a] == Without(live, k)[i].n
      ensures Intact(Without(live, k)[i], next, size, next', size')
    {
      var j := if i < k then i else i + 1;
      assert Without(live, k)[i] == live[j];
      assert Apart(live[j], live[k]);
    }
  }

  lemma PutBackRing(free: seq<Blk>, t: nat, b: Blk)
    requires FreeOk(free) && Slot(free, t, b)
    ensures InRing(PutBack(free, t, b), free[t].a) && free[0].a <= free[t].a
  {
    assert PutBack(free, t, b)[t].a == free[t].a;
  }

  /** The head of a free block lies in no live block. */
  lemma FreeHeadOutside(free: seq<Blk>, live: seq<Blk>, t: nat)
    requires FreeOk(free) && LiveOk(free, live) && t < |free|
    ensures Outside(live, free[t].a)
  {
    forall i | 0 <= i < |live|
      ensures live[i].n >= 1 && !(live[i].a <= free[t].a < live[i].a + live[i].n)
    {
      assert LiveFits(live[i], free) && Apart(live[i], free[t]);
      assert t > 0 ==> free[t] == free[1..][t - 1];
    }
  }

  predicate HasRoom(free: seq<Blk>, n: int) {
    exists i :: 0 <= i < |free| && free[i].n >= n
  }

  lemma PutBackRoom(free: seq<Blk>, t: nat, b: Blk, n: int)
    requires FreeOk(free) && Slot(free, t, b) && 1 <= n <= b.n && LiveFits(b, free)
    ensures HasRoom(PutBack(free, t, b), n)
  {
    UpperFits(free, t, b);
    var r := PutBack(free, t, b);
    assert t > 0 ==> free[t] == free[1..][t - 1];
    if free[t].a + free[t].n == b.a {
      assert r[t].n == free[t].n + Upper(free, t, b).n;
    } else {
      assert r[t + 1].n == Upper(free, t, b).n;
    }
  }

  /** Memory fresh from sbrk joins the live blocks, to be freed at once. */
  lemma GrowKeepsHeap(base: int, free: seq<Blk>, live: seq<Blk>, brk: int, obtained: int, b: Blk)
    requires HeapOk(base, free, live, brk, obtained) && base < brk <= b.a && b.n >= 1
    ensures HeapOk(base, free, live + [b], b.a + b.n, obtained + b.n)
  {
    UnitsConcat(live, [b]);
    UnitsOne(b);
    var l := live + [b];
    assert LiveFits(b, free);
    forall i | 0 <= i < |l|
      ensures LiveFits(l[i], free)
    {
      assert i < |live| ==> l[i] == live[i];
    }
    hide FreeOk, LiveFits, Units;
    assert PairApart(l);
  }

  /** Taking n units from free block i: they become the newest live block, and nothing overlaps. */
  lemma TakeKeepsHeap(base: int, free: seq<Blk>, live: seq<Blk>, brk: int, obtained: int, i: nat, n: int)
    requires HeapOk(base, free, live, brk, obtained) && i < |free| && 1 <= n <= free[i].n
    ensures HeapOk(base, Taken(free, i, n), live + [Given(free, i, n)], brk, obtained)
  {
    var g, free', l := Given(free, i, n), Taken(free, i, n), live + [Given(free, i, n)];
    TakenOk(free, i, n);
    TakenUnits(free, i, n);
    TakenUnder(free, i, n, brk);
    GivenApart(free, i, n);
    UnitsConcat(live, [g]);
    UnitsOne(g);
    assert g.a + g.n == free[i].a + free[i].n <= brk;
    assert LiveFits(g, free');
    forall j | 0 <= j < |live|
      ensures LiveFits(live[j], free') && Apart(live[j], g)
    {
      assert LiveFits(live[j], free);
      TakenApart(free, i, n, live[j]);
    }
    hide FreeOk, LiveFits, Units, Taken, Given, Apart;
    assert LiveOk(free', l);
  }

  lemma TakenUnder(free: seq<Blk>, i: nat, n: int, brk: int)
    requires i < |free| && 1 <= n <= free[i].n && Under(free, brk)
    ensures Under(Taken(free, i, n), brk)
  {
    var r := Taken(free, i, n);
    forall j | 0 <= j < |r|
      ensures r[j].a + r[j].n <= brk
    {
      assert free[i].n == n ==> r[j] == free[if j < i then j else j + 1];
    }
  }

  /** Exact fit: unlinking block i from its predecessor leaves the ring of the others. */
  lemma LinkedWithout(free: seq<Blk>, i: nat, next: map<int, int>, size: map<int, int>, next': map<int, int>)
    requires FreeOk(free) && Linked(free, next, size) && 1 <= i < |free|
    requires free[i].a in next && next' == next[free[i - 1].a := next[free[i].a]]
    ensures Linked(Without(free, i), next', size)
  {
    var lo, pre, hi, end := free[..i - 1], free[i - 1], free[i + 1..], free[0].a;
    forall j | 0 <= j < |free| && j != i - 1
      ensures free[j].a != pre.a
    {
      OrderedDistinct(free, j, i - 1);
    }
    ChainSplit(free, i - 1, next, size, end);
    ChainSplit(free, i + 1, next, size, end);
    assert HeaderAt(free, i, next, size, end) && HeaderAt(free, i - 1, next, size, end);
    ChainFrame(lo, pre.a, pre.a, pre.a, next, size, next', size);
    ChainFrame(hi, pre.a, pre.a, end, next, size, next', size);
    assert Chain([pre], next', size, Head(hi, end));
    assert Without(free, i) == lo + [pre] + hi;
    hide FreeOk, Linked;
    ChainConcat(lo, [pre], next', size, Head(hi, end));
    ChainConcat(lo + [pre], hi, next', size, end);
    hide Chain;
    LinkedIntro(Without(free, i), next', size, end);
  }

  lemma OrderedDistinct(free: seq<Blk>, i: nat, j: nat)
    requires FreeOk(free) && i < |free| && j < |free| && i != j
    ensures free[i].a != free[j].a
  {
    assert i > 0 ==> free[i] == free[1..][i - 1];
    assert j > 0 ==> free[j] == free[1..][j - 1];
  }

  /** Tail split: only the size word of block i changes in the ring. */
  lemma LinkedShrunk(free: seq<Blk>, i: nat, n: int, next: map<int, int>, size: map<int, int>, size': map<int, int>)
    requires FreeOk(free) && Linked(free, next, size) && 1 <= i < |free| && 1 <= n < free[i].n
    requires size' == size[free[i].a := free[i].n - n][free[i].a + free[i].n - n := n]
    ensures Linked(Taken(free, i, n), next, size')
  {
    var r := Taken(free, i, n);
    forall j | 0 <= j < |r|
      ensures HeaderAt(r, j, next, size', r[0].a)
    {
      assert HeaderAt(free, j, next, size, free[0].a);
      GivenApart(free, i, n);
      assert Apart(Given(free, i, n), r[j]);
      if j != i {
        OrderedDistinct(free, i, j);
        assert j > 0 ==> free[j] == free[1..][j - 1];
      }
    }
  }

  /** Writing the header of fresh memory disturbs no block below brk. */
  lemma Fresh(free: seq<Blk>, live: seq<Blk>, brk: int, b: Blk, next: map<int, int>, size: map<int, int>)
    requires Under(free, brk) && Under(live, brk) && brk <= b.a
    requires FreeOk(free) && Linked(free, next, size) && Sizes(live, size)
    requires LiveOk(free, live) && free[0].a < brk
    ensures Linked(free, next, size[b.a := b.n]) && Sizes(live + [b], size[b.a := b.n])
    ensures AllIntact(live, next, size, next, size[b.a := b.n])
  {
    var size' := size[b.a := b.n];
    forall j | 0 <= j < |free|
      ensures HeaderAt(free, j, next, size', free[0].a)
    {
      assert HeaderAt(free, j, next, size, free[0].a);
      assert j > 0 ==> free[j] == free[1..][j - 1];
    }
    forall i | 0 <= i < |live|
      ensures live[i].n >= 1
    {
      assert LiveFits(live[i], free);
    }
  }

  lemma TakenRing(free: seq<Blk>, i: nat, n: int)
    requires FreeOk(free) && 1 <= i < |free|
    ensures InRing(Taken(free, i, n), free[i - 1].a) && free[i - 1].a >= free[0].a
  {
    assert Taken(free, i, n)[i - 1].a == free[i - 1].a;
  }

  predicate Outside(live: seq<Blk>, x: int) {
    forall i :: 0 <= i < |live| ==> live[i].n >= 1 && !(live[i].a <= x < live[i].a + live[i].n)
  }

  lemma GivenOutside(free: seq<Blk>, live: seq<Blk>, i: nat, n: int)
    requires FreeOk(free) && LiveOk(free, live) && i < |free| && 1 <= n <= free[i].n
    ensures Outside(live, Given(free, i, n).a)
  {
    forall j | 0 <= j < |live|
      ensures live[j].n >= 1 && !(live[j].a <= Given(free, i, n).a < live[j].a + live[j].n)
    {
      assert LiveFits(live[j], free) && Apart(live[j], free[i]);
    }
  }

  ghost predicate OnlyAtThree(x: int, y: int, z: int,
                              next: map<int, int>, size: map<int, int>, next': map<int, int>, size': map<int, int>) {
    forall a :: a != x && a != y && a != z ==>
      && (a in next <==> a in next') && (a in next ==> next'[a] == next[a])
      && (a in size <==> a in size') && (a in size ==> size'[a] == size[a])
  }

  /** Header words written at x, y and z, all outside the live blocks, disturb none of them. */
  lemma KeepSizes(live: seq<Blk>, x: int, y: int, z: int,
                  next: map<int, int>, size: map<int, int>, next': map<int, int>, size': map<int, int>)
    requires Sizes(live, size) && Outside(live, x) && Outside(live, y) && Outside(live, z)
    requires OnlyAtThree(x, y, z, next, size, next', size')
    ensures Sizes(live, size') && AllIntact(live, next, size, next', size')
  {
  }

  lemma SizesExtend(live: seq<Blk>, g: Blk, size: map<int, int>)
    requires Sizes(live, size) && g.a in size && size[g.a] == g.n
    ensures Sizes(live + [g], size)
  {
  }

  // ----- malloc's search

  /** The C expression for nunits, in 32-bit unsigned arithmetic. */
  function NUnits(nbytes: nat): (n: nat)
    ensures n >= 1
  {
    (nbytes + HEADER - 1) % U32 / HEADER + 1
  }

  /** sbrk takes an int, so the request must stay below 2^31 bytes. */
  predicate SbrkFits(nunits: nat) {
    nunits * HEADER < U32 / 2
  }

  /** The int that sbrk receives for nunits * sizeof(Header), an unsigned product. */
  function SbrkArgument(nunits: nat): int {
    var bytes := nunits * HEADER % U32;
    if bytes < U32 / 2 then bytes else bytes - U32
  }

  /** malloc's request reaches sbrk as it was meant exactly when it fits an int; any larger one arrives as zero
    * or negative, which gives no memory or takes memory away.
    */
  lemma SbrkFitsExactly(nbytes: nat)
    requires nbytes < U32
    ensures SbrkArgument(NUnits(nbytes)) == NUnits(nbytes) * HEADER <==> SbrkFits(NUnits(nbytes))
    ensures !SbrkFits(NUnits(nbytes)) ==> SbrkArgument(NUnits(nbytes)) <= 0
  {
    var n := NUnits(nbytes);
    assert n <= U32 / HEADER;
    assert n == U32 / HEADER || n * HEADER % U32 == n * HEADER;
  }

  /** The block holds the bytes asked for exactly when nbytes + 7 does not wrap around. */
  lemma NUnitsSuffices(nbytes: nat)
    requires nbytes < U32
    ensures (NUnits(nbytes) - 1) * HEADER >= nbytes <==> nbytes <= U32 - HEADER
  {
  }

  /** The position d steps after the block that follows position f. */
  function At(f: nat, d: nat, n: nat): (r: nat)
    requires f < n && d < n
    ensures r < n
  {
    if f + 1 + d < n then f + 1 + d else f + 1 + d - n
  }

  function Prev(f: nat, d: nat, n: nat): (r: nat)
    requires f < n && d < n
    ensures r < n
  {
    if d == 0 then f else At(f, d - 1, n)
  }

  /** malloc's loop stands at p, d steps into a lap that started after freep's position f, and the
    * blocks it has passed are too small.
    */
  predicate Looking(free: seq<Blk>, f: nat, d: nat, n: int, prevp: int, p: int, freep: int) {
    && f < |free| && d < |free| && free[f].a == freep
    && p == free[At(f, d, |free|)].a && prevp == free[Prev(f, d, |free|)].a
    && forall e :: 0 <= e < d ==> free[At(f, e, |free|)].n < n
  }

  /** A ring in memory as HeapOk and Linked describe it. */
  predicate Ring(free: seq<Blk>, next: map<int, int>, size: map<int, int>) {
    FreeOk(free) && Linked(free, next, size)
  }

  lemma Here(free: seq<Blk>, f: nat, d: nat, n: int, prevp: int, p: int, freep: int,
             next: map<int, int>, size: map<int, int>) returns (i: nat)
    requires Looking(free, f, d, n, prevp, p, freep) && Ring(free, next, size)
    ensures i < |free| && free[i].a == p && p in next && p in size && size[p] == free[i].n
    ensures size[p] >= n >= 1 ==> i >= 1 && prevp == free[i - 1].a && FirstFit(free, freep, n, i)
  {
    i := At(f, d, |free|);
    assert AfterSmaller(free, freep, n, f, d, i);
    assert HeaderAt(free, i, next, size, free[0].a);
  }

  /** From freep on, the d + 1st block of the ring is block i, and none before it has n units. */
  predicate AfterSmaller(free: seq<Blk>, freep: int, n: int, f: nat, d: nat, i: nat) {
    && f < |free| && d < |free| && free[f].a == freep && i == At(f, d, |free|)
    && forall e :: 0 <= e < d ==> free[At(f, e, |free|)].n < n
  }

  /** Block i is the first with n units, going round the ring from the block after freep. */
  ghost predicate FirstFit(free: seq<Blk>, freep: int, n: int, i: nat) {
    i < |free| && free[i].n >= n && exists f, d :: AfterSmaller(free, freep, n, f, d, i)
  }

  /** free' is the free list once b is back in it, and freep' the block free leaves the ring pointer at. */
  ghost predicate Freed(free: seq<Blk>, b: Blk, free': seq<Blk>, freep': int) {
    exists t: nat :: Slot(free, t, b) && free' == PutBack(free, t, b) && freep' == free[t].a
  }

  lemma StartLooking(free: seq<Blk>, freep: int, n: int, next: map<int, int>, size: map<int, int>) returns (f: nat)
    requires Ring(free, next, size) && InRing(free, freep)
    ensures freep in next && Looking(free, f, 0, n, freep, next[freep], freep) && f < |free|
  {
    f :| f < |free| && free[f].a == freep;
    assert HeaderAt(free, f, next, size, free[0].a);
  }

  lemma KeepLooking(free: seq<Blk>, f: nat, d: nat, n: int, prevp: int, p: int, freep: int,
                    next: map<int, int>, size: map<int, int>)
    requires Looking(free, f, d, n, prevp, p, freep) && Ring(free, next, size) && p != freep
    requires p in size && size[p] < n
    ensures p in next && d + 1 < |free| && Looking(free, f, d + 1, n, p, next[p], freep)
  {
    assert HeaderAt(free, At(f, d, |free|), next, size, free[0].a);
  }

  /** Back at freep with nothing found means no free block is large enough. */
  lemma LapEnds(free: seq<Blk>, f: nat, d: nat, n: int, prevp: int, p: int, freep: int,
                next: map<int, int>, size: map<int, int>)
    requires Looking(free, f, d, n, prevp, p, freep) && Ring(free, next, size) && p == freep
    requires p in size && size[p] < n
    ensures !HasRoom(free, n)
  {
    assert HeaderAt(free, At(f, d, |free|), next, size, free[0].a);
    if At(f, d, |free|) != f {
      OrderedDistinct(free, At(f, d, |free|), f);
    }
    forall j | 0 <= j < |free|
      ensures free[j].n < n
    {
      var e := if j > f then j - f - 1 else j - f - 1 + |free|;
      assert At(f, e, |free|) == j;
    }
  }

  lemma HeapLast(base: int, free: seq<Blk>, live: seq<Blk>, b: Blk, brk: int, obtained: int)
    requires HeapOk(base, free, live + [b], brk, obtained)
    ensures FreeOk(free) && LiveFits(b, free) && Without(live + [b], |live|) == live
  {
    assert (live + [b])[|live|] == b;
  }

  lemma HeapRing(base: int, free: seq<Blk>, live: seq<Blk>, brk: int, obtained: int,
                 next: map<int, int>, size: map<int, int>)
    requires HeapOk(base, free, live, brk, obtained) && Linked(free, next, size)
    ensures Ring(free, next, size)
  {
  }

  lemma NothingWritten(live: seq<Blk>, n0: map<int, int>, s0: map<int, int>, n1: map<int, int>, s1: map<int, int>)
    requires live == [] || (n0 == n1 && s0 == s1)
    ensures AllIntact(live, n0, s0, n1, s1)
  {
  }

  lemma FirstRing(base: int, brk: int, next: map<int, int>, size: map<int, int>)
    requires 0 < base < brk && base in next && next[base] == base && base in size && size[base] == 0
    ensures HeapOk(base, [Blk(base, 0)], [], brk, 0) && Linked([Blk(base, 0)], next, size)
    ensures InRing([Blk(base, 0)], base)
  {
    assert [Blk(base, 0)][0].a == base;
    UnitsOne(Blk(base, 0));
  }

  class Heap {
    const base: int
    var freep: int               // 0 until the first malloc
    var next: map<int, int>
    var size: map<int, int>
    var brk: int                 // the end of the memory sbrk has handed out
    ghost var free: seq<Blk>
    ghost var live: seq<Blk>
    ghost var obtained: int      // units obtained from sbrk

    ghost predicate Valid()
      reads this
    {
      && 0 < base < brk
      && (freep == 0 ==> live == [] && obtained == 0)
      && (freep != 0 ==> Ready())
    }

    /** The state after the first malloc has set up base. */
    ghost predicate Ready()
      reads this
    {
      && HeapOk(base, free, live, brk, obtained) && Linked(free, next, size) && Sizes(live, size)
      && InRing(free, freep) && freep != 0
    }

    constructor (base: int, brk: int)
      requires 0 < base < brk
      ensures Valid() && freep == 0
    {
      this.base, this.brk, freep := base, brk, 0;
      next, size, free, live, obtained := map[], map[], [], [], 0;
    }

    /** The search loop of free: from freep around the ring to the block just below bp. */
    method FindPlace(bp: int, ghost b: Blk) returns (p: int, ghost t: nat)
      requires FreeOk(free) && Linked(free, next, size) && InRing(free, freep) && free[0].a == base
      requires b.a == bp && b.n >= 1 && base < bp && ApartAll(b, free)
      ensures Slot(free, t, b) && p == free[t].a
    {
      t := FindSlot(free, b);
      p := freep;
      ghost var i :| 0 <= i < |free| && free[i].a == freep;
      assert HeaderAt(free, i, next, size, base);
      while !(bp > p && bp < next[p])
        invariant 0 <= i < |free| && p == free[i].a && HeaderAt(free, i, next, size, base)
        decreases if i <= t then t - i else |free| - i + t
      {
        if p >= next[p] && (bp > p || bp < next[p]) {
          break;
        }
        p := next[p];
        i := Nxt(i, |free|);
        assert HeaderAt(free, i, next, size, base);
      }
      assert i == t;
    }

    lemma HeadersAround(free: seq<Blk>, t: nat, next: map<int, int>, size: map<int, int>)
      requires Linked(free, next, size) && t < |free|
      ensures HeaderAt(free, t, next, size, free[0].a) && HeaderAt(free, Nxt(t, |free|), next, size, free[0].a)
    {
    }

    /** The two coalescing tests of free. */
    method Join(bp: int, p: int, ghost t: nat, ghost b: Blk)
      requires FreeOk(free) && Linked(free, next, size) && Slot(free, t, b) && ApartAll(b, free)
      requires b.n >= 1 && b.a == bp && p == free[t].a && bp in size && size[bp] == b.n && free[0].a < bp
      modifies this`next, this`size, this`freep, this`free
      ensures free == PutBack(old(free), t, b) && Linked(free, next, size) && freep == p
      ensures OnlyAt(bp, p, old(next), old(size), next, size)
    {
      hide FreeOk, Linked, Chain, ApartAll, PutBack;
      ghost var m, succ := Upper(free, t, b), Head(Rest(free, t, b), free[0].a);
      HeadersAround(free, t, next, size);
      if bp + size[bp] == next[p] {
        size := size[bp := size[bp] + size[next[p]]];
        next := next[bp := next[next[p]]];
      } else {
        next := next[bp := next[p]];
      }
      assert size[bp] == m.n && next[bp] == succ && size[p] == free[t].n;
      hide Rest, Upper;
      if p + size[p] == bp {
        size := size[p := size[p] + size[bp]];
        next := next[p := next[bp]];
      } else {
        next := next[p := bp];
      }
      freep := p;
      LinkedPutBack(free, t, b, old(next), old(size), next, size);
      free := PutBack(free, t, b);
    }

    /** free(ap), for the live block k whose data starts at ap.  It becomes free memory, joined to
      * the free neighbours it touches; no word of any other live block is written.
      */
    method Free(ap: int, ghost k: nat)
      requires Valid() && Ready() && k < |live| && live[k].a == ap - 1
      modifies this`next, this`size, this`freep, this`free, this`live
      ensures Valid() && Ready() && live == Without(old(live), k)
      ensures exists t: nat ::
        Slot(old(free), t, old(live)[k]) && free == PutBack(old(free), t, old(live)[k]) && freep == old(free)[t].a
      ensures AllIntact(live, old(next), old(size), next, size)
    {
      var bp := ap - 1;
      ghost var b, t := live[k], 0;
      var p;
      assert LiveFits(b, free);
      p, t := FindPlace(bp, b);
      FreeHeadOutside(free, live, t);
      FreeKeepsHeap(base, free, live, brk, obtained, t, k);
      PutBackRing(free, t, b);
      assert PairApart(live) && bp in size && size[bp] == b.n;
      Join(bp, p, t, b);
      hide HeapOk, FreeOk, ApartAll, LiveFits, PutBack;
      FreeKeepsSizes(live, k, p, old(next), old(size), next, size);
      live := Without(live, k);
    }

    /** sbrk hands out fresh memory above a gap of other allocations; it gets one header. */
    method Core(nu: nat, gap: nat) returns (hp: int)
      requires Valid() && Ready() && nu >= 1
      modifies this`size, this`live, this`brk, this`obtained
      ensures Valid() && Ready() && obtained == old(obtained) + nu && hp == old(brk) + gap && brk == hp + nu
      ensures live == old(live) + [Blk(hp, nu)]
      ensures AllIntact(old(live), next, old(size), next, size)
    {
      hp := brk + gap;
      ghost var b := Blk(hp, nu);
      GrowKeepsHeap(base, free, live, brk, obtained, b);
      Fresh(free, live, brk, b, next, size);
      hide HeapOk, Linked, Sizes, Intact, AllIntact;
      brk := hp + nu;
      size := size[hp := nu];
      live := live + [b];
      obtained := obtained + nu;
    }

    /** morecore: core is sbrk's answer, the gap it leaves above earlier memory, or None for failure.
      * Returns freep, or 0.
      */
    method Morecore(nu: nat, core: Option<nat>) returns (p: int)
      requires Valid() && Ready() && nu >= 1
      modifies this`next, this`size, this`freep, this`free, this`live, this`brk, this`obtained
      ensures Valid() && Ready() && live == old(live)
      ensures AllIntact(live, old(next), old(size), next, size)
      ensures core.None? ==> p == 0 && free == old(free) && freep == old(freep) && obtained == old(obtained) && brk == old(brk)
      ensures core.Some? ==> p == freep != 0 && HasRoom(free, nu) && obtained == old(obtained) + Max(nu, MINCORE)
      ensures core.Some? ==> brk == old(brk) + core.value + Max(nu, MINCORE)
      ensures core.Some? ==> Freed(old(free), Blk(old(brk) + core.value, Max(nu, MINCORE)), free, freep)
    {
      hide HeapOk, Linked, Sizes, AllIntact, LiveFits, PutBack, FreeOk, Without, HasRoom, InRing;
      NothingWritten(live, next, size, next, size);
      var nu' := if nu < MINCORE then MINCORE else nu;
      if core.None? {
        return 0;
      }
      var hp := Core(nu', core.value);
      ghost var b, size0, free0 := Blk(hp, nu'), size, free;
      HeapLast(base, free, old(live), b, brk, obtained);
      Free(hp + 1, |live| - 1);
      IntactTrans(live, old(next), old(size), old(next), size0, next, size);
      ghost var t: nat :| Slot(free0, t, b) && free == PutBack(free0, t, b) && freep == free0[t].a;
      PutBackRoom(free0, t, b, nu);
      p := freep;
    }

    /** The header words malloc writes: unlink an exact fit, or cut the tail off a larger block. */
    method Cut(prevp: int, fit: int, nunits: nat, ghost i: nat) returns (p: int)
      requires FreeOk(free) && Linked(free, next, size) && 1 <= i < |free| && 1 <= nunits <= free[i].n
      requires fit == free[i].a && prevp == free[i - 1].a
      modifies this`next, this`size
      ensures p == Given(free, i, nunits).a && Linked(Taken(free, i, nunits), next, size)
      ensures p in size && size[p] == nunits && OnlyAtThree(prevp, fit, p, old(next), old(size), next, size)
    {
      p := fit;
      assert HeaderAt(free, i, next, size, free[0].a) && HeaderAt(free, i - 1, next, size, free[0].a);
      OrderedDistinct(free, i - 1, i);
      hide FreeOk, Linked, ApartAll;
      if size[p] == nunits {
        next := next[prevp := next[p]];
        LinkedWithout(free, i, old(next), size, next);
      } else {
        size := size[p := size[p] - nunits];
        p := p + size[p];
        size := size[p := nunits];
        LinkedShrunk(free, i, nunits, next, old(size), size);
      }
    }

    /** malloc's last step: the block at fit yields nunits units, which are now live. */
    method Take(prevp: int, fit: int, nunits: nat, ghost i: nat) returns (p: int)
      requires Valid() && Ready() && 1 <= i < |free| && 1 <= nunits <= free[i].n
      requires fit == free[i].a && prevp == free[i - 1].a
      modifies this`next, this`size, this`freep, this`free, this`live
      ensures Valid() && Ready() && p == Given(old(free), i, nunits).a
      ensures free == Taken(old(free), i, nunits) && live == old(live) + [Blk(p, nunits)] && freep == prevp
      ensures AllIntact(old(live), old(next), old(size), next, size)
    {
      ghost var g, n0, s0 := Given(free, i, nunits), next, size;
      TakeKeepsHeap(base, free, live, brk, obtained, i, nunits);
      TakenRing(free, i, nunits);
      FreeHeadOutside(free, live, i - 1);
      FreeHeadOutside(free, live, i);
      GivenOutside(free, live, i, nunits);
      assert prevp >= base;
      p := Cut(prevp, fit, nunits, i);
      hide HeapOk, Linked, FreeOk, Taken, Outside, Sizes, OnlyAtThree;
      KeepSizes(live, prevp, fit, p, n0, s0, next, size);
      SizesExtend(live, g, size);
      freep := prevp;
      free := Taken(free, i, nunits);
      live := live + [g];
    }

    /** malloc's first call makes base a ring of its own. */
    method Setup()
      requires Valid() && freep == 0
      modifies this`next, this`size, this`freep, this`free
      ensures Valid() && Ready() && freep == base && free == [Blk(base, 0)]
    {
      next := next[base := base];
      freep := base;
      size := size[base := 0];
      free := [Blk(base, 0)];
      FirstRing(base, brk, next, size);
    }

    /** One lap of malloc's loop: from the block after freep to the first that is large enough, or
      * back to freep.
      */
    method Lap(nunits: nat) returns (prevp: int, p: int, ghost i: nat)
      requires Valid() && Ready() && nunits >= 1
      ensures p in size && i < |free| && free[i].a == p && size[p] == free[i].n
      ensures size[p] >= nunits ==> i >= 1 && prevp == free[i - 1].a && FirstFit(free, freep, nunits, i)
      ensures size[p] < nunits ==> p == freep && !HasRoom(free, nunits)
    {
      hide HeapOk, Linked, Sizes, Looking, Ring, InRing, HasRoom, FirstFit;
      HeapRing(base, free, live, brk, obtained, next, size);
      ghost var d := 0;
      ghost var f := StartLooking(free, freep, nunits, next, size);
      prevp := freep;
      p := next[prevp];
      i := Here(free, f, d, nunits, prevp, p, freep, next, size);
      while size[p] < nunits && p != freep
        invariant Looking(free, f, d, nunits, prevp, p, freep) && d <= |free|
        invariant i < |free| && free[i].a == p && p in next && p in size && size[p] == free[i].n
        invariant size[p] >= nunits ==> i >= 1 && prevp == free[i - 1].a && FirstFit(free, freep, nunits, i)
        decreases |free| - d
      {
        KeepLooking(free, f, d, nunits, prevp, p, freep, next, size);
        prevp := p;
        p := next[p];
        d := d + 1;
        i := Here(free, f, d, nunits, prevp, p, freep, next, size);
      }
      if size[p] < nunits {
        LapEnds(free, f, d, nunits, prevp, p, freep, next, size);
      }
    }

    /** The free list malloc starts from: before the first call it is the degenerate list of base alone. */
    ghost function StartFree(): seq<Blk>
      reads this
    {
      if freep == 0 then [Blk(base, 0)] else free
    }

    ghost function StartPointer(): int
      reads this
    {
      if freep == 0 then base else freep
    }

    /** malloc; core is what sbrk would answer.  g is the free list in which the block is found: the one malloc starts
      * from if any of its blocks is large enough, and only otherwise that list with the memory from sbrk freed into it.
      * The block is the tail, or all, of the first one large enough from the ring pointer on, and the pointer is left
      * at the block before it.
      */
    method Malloc(nbytes: nat, core: Option<nat>) returns (r: Option<int>, ghost g: seq<Blk>, ghost gp: int, ghost i: nat)
      requires Valid() && nbytes < U32 && SbrkFits(NUnits(nbytes))
      modifies this
      ensures Valid() && Ready()
      ensures HasRoom(old(StartFree()), NUnits(nbytes)) ==>
        r.Some? && obtained == old(obtained) && brk == old(brk) && g == old(StartFree()) && gp == old(StartPointer())
      ensures !HasRoom(old(StartFree()), NUnits(nbytes)) ==> (r.Some? <==> core.Some?)
      ensures !HasRoom(old(StartFree()), NUnits(nbytes)) && core.Some? ==>
        var m := Max(NUnits(nbytes), MINCORE);
        && obtained == old(obtained) + m && brk == old(brk) + core.value + m
        && Freed(old(StartFree()), Blk(old(brk) + core.value, m), g, gp)
      ensures r.Some? ==>
        && FirstFit(g, gp, NUnits(nbytes), i) && i >= 1 && free == Taken(g, i, NUnits(nbytes)) && freep == g[i - 1].a
        && r.value - 1 == g[i].a + g[i].n - NUnits(nbytes) && live == old(live) + [Blk(r.value - 1, NUnits(nbytes))]
      ensures r.None? ==>
        && live == old(live) && obtained == old(obtained) && brk == old(brk)
        && free == old(StartFree()) && freep == old(StartPointer())
      ensures AllIntact(old(live), old(next), old(size), next, size)
    {
      hide HeapOk, Linked, Sizes, AllIntact, InRing, HasRoom, Taken, NUnits, FirstFit, Freed;
      var nunits := NUnits(nbytes);
      var prevp := freep;
      if prevp == 0 {
        Setup();
        prevp := base;
      }
      NothingWritten(live, old(next), old(size), next, size);
      ghost var start, sp := free, freep;
      ghost var grown := false;
      while true
        invariant Valid() && Ready() && live == old(live)
        invariant AllIntact(live, old(next), old(size), next, size)
        invariant grown ==> core.Some? && !HasRoom(start, nunits) && HasRoom(free, nunits)
        invariant grown ==> Freed(start, Blk(old(brk) + core.value, Max(nunits, MINCORE)), free, freep)
        invariant grown ==> obtained == old(obtained) + Max(nunits, MINCORE) && brk == old(brk) + core.value + Max(nunits, MINCORE)
        invariant !grown ==> obtained == old(obtained) && brk == old(brk) && free == start && freep == sp
        decreases !grown
      {
        ghost var n1, s1 := next, size;
        var p;
        prevp, p, i := Lap(nunits);
        g, gp := free, freep;
        if size[p] >= nunits {
          FitHasRoom(free, freep, nunits, i);
          p := Take(prevp, p, nunits, i);
          IntactTrans(old(live), old(next), old(size), n1, s1, next, size);
          return Some(p + 1), g, gp, i;
        }
        p := Morecore(nunits, core);
        IntactTrans(live, old(next), old(size), n1, s1, next, size);
        if p == 0 {
          return None, g, gp, i;
        }
        grown := true;
      }
    }

    lemma FitHasRoom(free: seq<Blk>, freep: int, n: int, i: nat)
      requires FirstFit(free, freep, n, i)
      ensures HasRoom(free, n) && i < |free|
    {
    }
  }
}
