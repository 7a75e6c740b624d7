/**
 The storage allocator of os/memory-assignment/umalloc.c. Memory is an array of header
 units; an address is the index of a unit. A block starts with its header: ptr links the
 free blocks into a cycle, size is the length of the block in units, header included.
 Inside a live block both words of a unit belong to the program.
 */
module Umalloc {

  const Null: nat := 0

  // `base`, which comes before every unit that sbrk hands out.
  const Base: nat := 1

  const HeaderSize: nat := 8

  const WordRange: nat := 0x1_0000_0000

  datatype Block = Block(a: nat, n: nat)

  // ---- The free list as a value ----

  ghost predicate Ordered(f: seq<Block>) {
    forall i, j :: 0 <= i < j < |f| ==> f[i].a + f[i].n < f[j].a
  }

  // A free list in the order of addresses: base, then blocks no two of which touch.
  ghost predicate FreeList(f: seq<Block>, brk: nat) {
    && |f| > 0 && f[0] == Block(Base, 0) && Base < brk && Ordered(f)
    && forall i :: 0 < i < |f| ==> f[i].n > 0 && f[i].a + f[i].n <= brk
  }

  ghost predicate Disjoint(a: nat, n: nat, b: nat, m: nat) {
    a + n <= b || b + m <= a
  }

  // Live blocks, by address, apart from each other.
  ghost predicate LiveBlocks(live: map<nat, nat>, brk: nat) {
    && (forall a <- live :: Base < a && 0 < live[a] && a + live[a] <= brk)
    && (forall a <- live, b <- live :: a != b ==> Disjoint(a, live[a], b, live[b]))
  }

  // Block a of n units is apart from everything on the list.
  ghost predicate OffList(f: seq<Block>, a: nat, n: nat) {
    forall i :: 0 <= i < |f| ==> Disjoint(a, n, f[i].a, f[i].n)
  }

  ghost predicate Laid(f: seq<Block>, live: map<nat, nat>, brk: nat) {
    FreeList(f, brk) && LiveBlocks(live, brk) && forall a <- live :: OffList(f, a, live[a])
  }

  // ---- Units ----

  ghost predicate Within(u: nat, a: nat, n: nat) {
    a <= u < a + n
  }

  ghost function Span(a: nat, n: nat): set<nat> {
    set u | a <= u < a + n && Within(u, a, n)
  }

  ghost function FreeUnits(f: seq<Block>): set<nat> {
    if f == [] then {} else FreeUnits(f[..|f| - 1]) + Span(f[|f| - 1].a, f[|f| - 1].n)
  }

  ghost function LiveUnits(live: map<nat, nat>): set<nat> {
    set a, u | a in live.Keys && u in Span(a, live[a]) :: u
  }

  lemma {:induction false} InFree(f: seq<Block>, u: nat)
    ensures u in FreeUnits(f) <==> exists i :: 0 <= i < |f| && f[i].a <= u < f[i].a + f[i].n
  {
    if f != [] {
      InFree(f[..|f| - 1], u);
    }
  }

  lemma FreeApart(f: seq<Block>, live: map<nat, nat>, brk: nat)
    requires Laid(f, live, brk)
    ensures FreeUnits(f) !! LiveUnits(live)
  {
    forall u | u in LiveUnits(live) ensures u !in FreeUnits(f) {
      InFree(f, u);
    }
  }

  // ---- Returning a block ----

  // k is the place of address a: the last block before it.
  ghost predicate PlaceOf(f: seq<Block>, a: nat, k: nat) {
    k < |f| && f[k].a < a && (k + 1 < |f| ==> a < f[k + 1].a)
  }

  ghost function Inserted(f: seq<Block>, k: nat, b: Block): seq<Block>
    requires k < |f|
  {
    f[..k + 1] + [b] + f[k + 1..]
  }

  ghost predicate Touch(f: seq<Block>, k: nat) {
    k + 1 < |f| && f[k].a + f[k].n == f[k + 1].a
  }

  // Block k swallows its right neighbour if they touch.
  ghost function Merged(f: seq<Block>, k: nat): seq<Block> {
    if Touch(f, k) then f[..k] + [Block(f[k].a, f[k].n + f[k + 1].n)] + f[k + 2..] else f
  }

  // Block b enters the list after place k, and merges with its neighbours where they touch.
  ghost function Returned(f: seq<Block>, k: nat, b: Block): seq<Block>
    requires k < |f|
  {
    Merged(Merged(Inserted(f, k, b), k + 1), k)
  }

  lemma FreeUnitsConcat(f: seq<Block>, g: seq<Block>)
    ensures FreeUnits(f + g) == FreeUnits(f) + FreeUnits(g)
  {
    if g == [] {
      assert f + g == f;
    } else {
      var h := g[..|g| - 1];
      assert (f + g)[..|f + g| - 1] == f + h;
      FreeUnitsConcat(f, h);
    }
  }

  lemma FreeUnitsOne(b: Block)
    ensures FreeUnits([b]) == Span(b.a, b.n)
  {
    assert [b][..0] == [];
  }

  lemma SpanJoin(a: nat, n: nat, m: nat)
    ensures Span(a, n) + Span(a + n, m) == Span(a, n + m)
  {
    assert forall u: nat {:trigger Within(u, a, n + m)} ::
      Within(u, a, n + m) <==> Within(u, a, n) || Within(u, a + n, m);
  }

  lemma MergedUnits(f: seq<Block>, k: nat)
    ensures FreeUnits(Merged(f, k)) == FreeUnits(f)
  {
    if Touch(f, k) {
      var c := Block(f[k].a, f[k].n + f[k + 1].n);
      var two := [f[k]] + [f[k + 1]];
      FreeUnitsConcat([f[k]], [f[k + 1]]);
      FreeUnitsOne(f[k]);
      FreeUnitsOne(f[k + 1]);
      FreeUnitsOne(c);
      SpanJoin(f[k].a, f[k].n, f[k + 1].n);
      Between(f[..k], [c], f[k + 2..]);
      Between(f[..k], two, f[k + 2..]);
      assert f == f[..k] + two + f[k + 2..];
    }
  }

  lemma Between(f: seq<Block>, g: seq<Block>, h: seq<Block>)
    ensures FreeUnits(f + g + h) == FreeUnits(f) + FreeUnits(g) + FreeUnits(h)
  {
    FreeUnitsConcat(f + g, h);
    FreeUnitsConcat(f, g);
  }

  lemma InsertedUnits(f: seq<Block>, k: nat, b: Block)
    requires k < |f|
    ensures FreeUnits(Inserted(f, k, b)) == FreeUnits(f) + Span(b.a, b.n)
  {
    hide FreeUnits, Span;
    var l, r := f[..k + 1], f[k + 1..];
    assert f == l + r;
    Between(l, [b], r);
    FreeUnitsConcat(l, r);
    FreeUnitsOne(b);
  }

  ghost predicate Before(x: Block, y: Block) {
    x.a + x.n <= y.a && x.a < y.a
  }

  ghost predicate InRange(x: Block, brk: nat) {
    x.n > 0 && x.a + x.n <= brk
  }

  // A list in order in which blocks may touch.
  ghost predicate Loose(f: seq<Block>, brk: nat) {
    && |f| > 0 && f[0] == Block(Base, 0) && Base < brk
    && (forall i, j :: 0 <= i < j < |f| ==> Before(f[i], f[j]))
    && (forall i :: 0 < i < |f| ==> InRange(f[i], brk))
  }

  ghost predicate TouchOnly(f: seq<Block>, ks: set<nat>) {
    forall k: nat :: Touch(f, k) ==> k in ks
  }

  lemma LooseOrdered(f: seq<Block>, brk: nat)
    ensures FreeList(f, brk) <==> Loose(f, brk) && TouchOnly(f, {})
  {
    if Loose(f, brk) && TouchOnly(f, {}) {
      forall i, j | 0 <= i < j < |f| ensures f[i].a + f[i].n < f[j].a {
        assert !Touch(f, i);
        if i + 1 < j { assert Before(f[i + 1], f[j]) && Before(f[i], f[i + 1]); }
      }
    } else if FreeList(f, brk) {
      forall i, j | 0 <= i < j < |f| ensures Before(f[i], f[j]) {
        assert f[i].a + f[i].n < f[j].a;
      }
    }
  }

  lemma InsertedAt(f: seq<Block>, k: nat, b: Block, i: nat)
    requires k < |f| && i <= |f|
    ensures |Inserted(f, k, b)| == |f| + 1
    ensures Inserted(f, k, b)[i] == if i <= k then f[i] else if i == k + 1 then b else f[i - 1]
  {
  }

  // Everything up to place k is before the block, everything after it behind.
  lemma PlaceSplits(f: seq<Block>, k: nat, b: Block, brk: nat, i: nat)
    requires FreeList(f, brk) && PlaceOf(f, b.a, k) && OffList(f, b.a, b.n) && 0 < b.n && i < |f|
    ensures if i <= k then Before(f[i], b) else Before(b, f[i])
  {
    assert Disjoint(b.a, b.n, f[i].a, f[i].n);
    if i < k { assert f[i].a + f[i].n < f[k].a; }
    if i > k + 1 { assert f[k + 1].a + f[k + 1].n < f[i].a; }
  }

  lemma InsertedLoose(f: seq<Block>, k: nat, b: Block, brk: nat)
    requires FreeList(f, brk) && PlaceOf(f, b.a, k) && OffList(f, b.a, b.n) && 0 < b.n && b.a + b.n <= brk
    ensures Loose(Inserted(f, k, b), brk) && TouchOnly(Inserted(f, k, b), {k, k + 1})
  {
    hide Inserted, Before, OffList, FreeList;
    LooseOrdered(f, brk);
    var g := Inserted(f, k, b);
    InsertedAt(f, k, b, 0);
    forall i, j | 0 <= i < j < |g| ensures Before(g[i], g[j]) {
      InsertedAt(f, k, b, i);
      InsertedAt(f, k, b, j);
      if i == k + 1 { PlaceSplits(f, k, b, brk, j - 1); }
      if j == k + 1 { PlaceSplits(f, k, b, brk, i); }
    }
    forall i | 0 < i < |g| ensures InRange(g[i], brk) {
      InsertedAt(f, k, b, i);
    }
    forall i: nat ensures Touch(g, i) ==> i in {k, k + 1} {
      if i < |f| {
        InsertedAt(f, k, b, i);
        InsertedAt(f, k, b, i + 1);
        if i < k {
          assert Touch(f, i) <==> Touch(g, i);
        } else if i > k + 1 {
          assert Touch(f, i - 1) <==> Touch(g, i);
        }
      }
    }
  }

  lemma MergedAt(f: seq<Block>, k: nat, i: nat)
    requires Touch(f, k) && i < |f| - 1
    ensures |Merged(f, k)| == |f| - 1
    ensures Merged(f, k)[i] == if i < k then f[i] else if i == k then Block(f[k].a, f[k].n + f[k + 1].n) else f[i + 1]
  {
  }

  // Behind place k nothing comes before the block returned there.
  lemma ReturnedPlace(f: seq<Block>, k: nat, b: Block, brk: nat)
    requires FreeList(f, brk) && PlaceOf(f, b.a, k) && OffList(f, b.a, b.n) && 0 < b.n
    ensures LastBefore(Returned(f, k, b), k, b.a)
  {
    var g := Inserted(f, k, b);
    var h := Merged(g, k + 1);
    InsertedAt(f, k, b, k);
    forall i | k < i < |g| ensures g[i].a >= b.a {
      InsertedAt(f, k, b, i);
      if i > k + 1 { PlaceSplits(f, k, b, brk, i - 1); }
    }
    hide Inserted, Merged, OffList, FreeList;
    MergedPlace(g, k + 1, k, b.a);
    MergedPlace(h, k, k, b.a);
  }

  // k is the last place of a block before address a.
  ghost predicate LastBefore(f: seq<Block>, k: nat, a: nat) {
    k < |f| && f[k].a < a && forall i | k < i < |f| :: f[i].a >= a
  }

  lemma MergedPlace(f: seq<Block>, m: nat, k: nat, a: nat)
    requires LastBefore(f, k, a) && k <= m
    ensures LastBefore(Merged(f, m), k, a)
  {
  }

  lemma MergedPair(f: seq<Block>, k: nat, brk: nat, i: nat, j: nat)
    requires Loose(f, brk) && Touch(f, k) && i < j < |f| - 1
    ensures Before(Merged(f, k)[i], Merged(f, k)[j])
  {
    hide Merged;
    MergedAt(f, k, i);
    MergedAt(f, k, j);
    if i < k {
      assert Before(f[i], f[j]) && Before(f[i], f[j + 1]);
    } else if i == k {
      assert Before(f[k], f[k + 1]) && Before(f[k + 1], f[j + 1]);
    } else {
      assert Before(f[i + 1], f[j + 1]);
    }
  }

  lemma MergedTouch(f: seq<Block>, k: nat, ks: set<nat>, i: nat)
    requires TouchOnly(f, ks) && (forall m <- ks :: m <= k) && Touch(f, k)
    ensures Touch(Merged(f, k), i) ==> i in ks - {k}
  {
    hide Merged;
    var g := Merged(f, k);
    MergedAt(f, k, 0);
    if i + 1 < |g| {
      MergedAt(f, k, i);
      MergedAt(f, k, i + 1);
      if i < k {
        assert Touch(f, i) <==> Touch(g, i);
      } else {
        assert Touch(f, i + 1) <==> Touch(g, i);
      }
    }
  }

  lemma MergedLoose(f: seq<Block>, k: nat, ks: set<nat>, brk: nat)
    requires Loose(f, brk) && TouchOnly(f, ks) && forall m <- ks :: m <= k
    ensures Loose(Merged(f, k), brk) && TouchOnly(Merged(f, k), ks - {k})
  {
    var g := Merged(f, k);
    if Touch(f, k) {
      assert Before(f[0], f[1]) && Before(f[0], f[k + 1]) && InRange(f[k + 1], brk);
      hide Merged, Before;
      MergedAt(f, k, 0);
      forall i, j | 0 <= i < j < |g| ensures Before(g[i], g[j]) {
        MergedPair(f, k, brk, i, j);
      }
      forall i | 0 < i < |g| ensures InRange(g[i], brk) {
        MergedAt(f, k, i);
        assert InRange(f[i], brk) && InRange(f[i + 1], brk);
      }
      forall i: nat ensures Touch(g, i) ==> i in ks - {k} {
        MergedTouch(f, k, ks, i);
      }
    }
  }

  lemma ReturnedList(f: seq<Block>, k: nat, b: Block, brk: nat)
    requires FreeList(f, brk) && PlaceOf(f, b.a, k) && OffList(f, b.a, b.n) && 0 < b.n && b.a + b.n <= brk
    ensures FreeList(Returned(f, k, b), brk) && FreeUnits(Returned(f, k, b)) == FreeUnits(f) + Span(b.a, b.n)
    ensures Loose(Merged(Inserted(f, k, b), k + 1), brk)
  {
    hide Inserted, Merged, Loose, FreeList, OffList, Touch;
    var g := Inserted(f, k, b);
    var h := Merged(g, k + 1);
    InsertedLoose(f, k, b, brk);
    InsertedUnits(f, k, b);
    MergedLoose(g, k + 1, {k, k + 1}, brk);
    MergedUnits(g, k + 1);
    assert {k, k + 1} - {k + 1} == {k};
    MergedLoose(h, k, {k}, brk);
    MergedUnits(h, k);
    assert {k} - {k} == {};
    LooseOrdered(Merged(h, k), brk);
  }

  lemma MergedOff(f: seq<Block>, k: nat, a: nat, n: nat)
    requires OffList(f, a, n) && 0 < n
    ensures OffList(Merged(f, k), a, n)
  {
    if Touch(f, k) {
      hide Merged;
      forall i | 0 <= i < |Merged(f, k)| ensures Disjoint(a, n, Merged(f, k)[i].a, Merged(f, k)[i].n) {
        MergedAt(f, k, 0);
        MergedAt(f, k, i);
        assert Disjoint(a, n, f[k].a, f[k].n) && Disjoint(a, n, f[k + 1].a, f[k + 1].n);
      }
    }
  }

  lemma ReturnedOff(f: seq<Block>, k: nat, b: Block, a: nat, n: nat)
    requires k < |f| && OffList(f, a, n) && Disjoint(a, n, b.a, b.n) && 0 < n
    ensures OffList(Returned(f, k, b), a, n)
  {
    var g := Inserted(f, k, b);
    assert OffList(g, a, n);
    hide OffList, Inserted, Merged;
    MergedOff(g, k + 1, a, n);
    MergedOff(Merged(g, k + 1), k, a, n);
  }

  ghost predicate Fits(f: seq<Block>, n: nat) {
    exists i :: 0 <= i < |f| && f[i].n >= n
  }

  lemma FitsLess(f: seq<Block>, m: nat, n: nat)
    requires Fits(f, m) && n <= m
    ensures Fits(f, n)
  {
  }

  lemma MergedFits(f: seq<Block>, k: nat, n: nat)
    requires Fits(f, n)
    ensures Fits(Merged(f, k), n)
  {
    var i :| 0 <= i < |f| && f[i].n >= n;
    if Touch(f, k) {
      MergedAt(f, k, if i <= k then i else i - 1);
    }
  }

  lemma ReturnedFits(f: seq<Block>, k: nat, b: Block, n: nat)
    requires k < |f| && n <= b.n
    ensures Fits(Returned(f, k, b), n)
  {
    var g := Inserted(f, k, b);
    assert g[k + 1] == b;
    MergedFits(g, k + 1, n);
    MergedFits(Merged(g, k + 1), k, n);
  }

  // ---- Taking a block ----

  // The last n units of block i leave the list, and the block with them if nothing is left.
  ghost function Taken(f: seq<Block>, i: nat, n: nat): seq<Block>
    requires i < |f| && n <= f[i].n
  {
    if f[i].n == n then f[..i] + f[i + 1..] else f[..i] + [Block(f[i].a, f[i].n - n)] + f[i + 1..]
  }

  lemma TakenAt(f: seq<Block>, i: nat, n: nat, j: nat)
    requires i < |f| && n <= f[i].n && j < |f| - (if f[i].n == n then 1 else 0)
    ensures |Taken(f, i, n)| == if f[i].n == n then |f| - 1 else |f|
    ensures var b := Taken(f, i, n)[j];
      if f[i].n == n then b == f[if j < i then j else j + 1]
      else b == if j == i then Block(f[i].a, f[i].n - n) else f[j]
  {
  }

  lemma TakenLength(f: seq<Block>, i: nat, n: nat)
    requires i < |f| && n <= f[i].n
    ensures |Taken(f, i, n)| == if f[i].n == n then |f| - 1 else |f|
  {
  }

  lemma TakenList(f: seq<Block>, i: nat, n: nat, brk: nat)
    requires FreeList(f, brk) && i < |f| && 0 < n <= f[i].n
    ensures FreeList(Taken(f, i, n), brk) && OffList(Taken(f, i, n), f[i].a + f[i].n - n, n)
  {
    hide Taken;
    var g := Taken(f, i, n);
    TakenAt(f, i, n, 0);
    forall j | 0 <= j < |g|
      ensures Disjoint(f[i].a + f[i].n - n, n, g[j].a, g[j].n) && (0 < j ==> g[j].n > 0 && g[j].a + g[j].n <= brk)
    {
      TakenAt(f, i, n, j);
    }
    forall j, k | 0 <= j < k < |g| ensures g[j].a + g[j].n < g[k].a {
      TakenAt(f, i, n, j);
      TakenAt(f, i, n, k);
    }
  }

  lemma TakenOff(f: seq<Block>, i: nat, n: nat, a: nat, m: nat)
    requires i < |f| && 0 < n <= f[i].n && OffList(f, a, m)
    ensures OffList(Taken(f, i, n), a, m) && Disjoint(f[i].a + f[i].n - n, n, a, m)
  {
    hide Taken;
    var g := Taken(f, i, n);
    TakenLength(f, i, n);
    forall j | 0 <= j < |g| ensures Disjoint(a, m, g[j].a, g[j].n) {
      TakenAt(f, i, n, j);
    }
  }

  lemma TakenUnits(f: seq<Block>, i: nat, n: nat)
    requires i < |f| && 0 < n <= f[i].n
    ensures FreeUnits(Taken(f, i, n)) + Span(f[i].a + f[i].n - n, n) == FreeUnits(f)
  {
    hide FreeUnits, Span;
    var b := f[i];
    var l, r := f[..i], f[i + 1..];
    assert f == l + [b] + r;
    Between(l, [b], r);
    FreeUnitsOne(b);
    if b.n == n {
      FreeUnitsConcat(l, r);
      assert FreeUnits(f) == FreeUnits(l) + Span(b.a, n) + FreeUnits(r);
    } else {
      var c := Block(b.a, b.n - n);
      Between(l, [c], r);
      FreeUnitsOne(c);
      SpanJoin(b.a, b.n - n, n);
      assert FreeUnits(f) == FreeUnits(l) + (Span(b.a, b.n - n) + Span(b.a + (b.n - n), n)) + FreeUnits(r);
    }
  }

  // ---- The list in memory ----

  ghost function Next(f: seq<Block>, i: nat): nat {
    if i + 1 < |f| then i + 1 else 0
  }

  // The header of block i in memory: its length, and the link to the next block of the cycle.
  ghost predicate SizeOk(f: seq<Block>, size: seq<nat>, i: nat)
    requires i < |f|
  {
    f[i].a < |size| && size[f[i].a] == f[i].n
  }

  ghost predicate LinkOk(f: seq<Block>, ptr: seq<nat>, i: nat)
    requires i < |f|
  {
    f[i].a < |ptr| && ptr[f[i].a] == f[Next(f, i)].a
  }

  // The list is in memory, except that the link of block `stale` may be out of date.
  ghost predicate ChainBut(f: seq<Block>, ptr: seq<nat>, size: seq<nat>, stale: int) {
    forall i: nat :: i < |f| ==> SizeOk(f, size, i) && (i != stale ==> LinkOk(f, ptr, i))
  }

  ghost predicate Chain(f: seq<Block>, ptr: seq<nat>, size: seq<nat>) {
    ChainBut(f, ptr, size, -1)
  }

  lemma InsertedChain(f: seq<Block>, k: nat, b: Block, ptr: seq<nat>, size: seq<nat>, brk: nat)
    requires FreeList(f, brk) && PlaceOf(f, b.a, k) && OffList(f, b.a, b.n) && 0 < b.n
    requires Chain(f, ptr, size) && b.a < |ptr| && b.a < |size| && size[b.a] == b.n
    ensures ChainBut(Inserted(f, k, b), ptr[b.a := f[Next(f, k)].a], size, k)
  {
    hide Inserted;
    var g := Inserted(f, k, b);
    var ptr' := ptr[b.a := f[Next(f, k)].a];
    InsertedAt(f, k, b, 0);
    InsertedAt(f, k, b, k + 1);
    forall i: nat | i < |g| ensures SizeOk(g, size, i) && (i != k ==> LinkOk(g, ptr', i)) {
      InsertedAt(f, k, b, i);
      if i + 1 < |g| { InsertedAt(f, k, b, i + 1); }
      if i != k + 1 {
        var j := if i <= k then i else i - 1;
        PlaceSplits(f, k, b, brk, j);
        assert SizeOk(f, size, j) && LinkOk(f, ptr, j);
      }
    }
  }

  // Block k has swallowed block k + 1 in memory.
  lemma MergedChain(h: seq<Block>, k: nat, stale: int, ptr: seq<nat>, size: seq<nat>, ptr': seq<nat>, size': seq<nat>,
                    brk: nat)
    requires Loose(h, brk) && Touch(h, k) && ChainBut(h, ptr, size, stale) && stale <= k
    requires var p, c := h[k].a, h[k + 1].a;
      && p < |size| && p < |ptr| && c < |size| && c < |ptr|
      && size' == size[p := size[p] + size[c]] && ptr' == ptr[p := ptr[c]]
    ensures ChainBut(Merged(h, k), ptr', size', if stale == k then -1 else stale)
  {
    hide Merged;
    var g := Merged(h, k);
    MergedAt(h, k, 0);
    assert SizeOk(h, size, k) && SizeOk(h, size, k + 1) && LinkOk(h, ptr, k + 1);
    forall i: nat | i < |g| ensures SizeOk(g, size', i) && (i == stale < k || LinkOk(g, ptr', i)) {
      MergedAt(h, k, i);
      if i + 1 < |g| { MergedAt(h, k, i + 1); }
      var j := if i <= k then i else i + 1;
      assert SizeOk(h, size, j) && (j != stale ==> LinkOk(h, ptr, j));
      if j < k { assert Before(h[j], h[k]); } else if k < j { assert Before(h[k], h[j]); }
    }
  }

  // free's first half joins block b with what follows.
  lemma LinkedIn(f: seq<Block>, k: nat, b: Block, ptr: seq<nat>, size: seq<nat>, ptr': seq<nat>, size': seq<nat>,
                 brk: nat)
    requires FreeList(f, brk) && PlaceOf(f, b.a, k) && OffList(f, b.a, b.n) && 0 < b.n && b.a + b.n <= brk
    requires Chain(f, ptr, size) && |ptr| == |size| && b.a < |size| && size[b.a] == b.n
    requires var q := f[Next(f, k)].a;
      && q < |size|
      && if b.a + b.n == q then size' == size[b.a := b.n + size[q]] && ptr' == ptr[b.a := ptr[q]]
         else size' == size && ptr' == ptr[b.a := q]
    ensures ChainBut(Merged(Inserted(f, k, b), k + 1), ptr', size', k)
  {
    hide Inserted, Merged, ChainBut;
    var g := Inserted(f, k, b);
    var q := f[Next(f, k)].a;
    var ptr1 := ptr[b.a := q];
    InsertedLoose(f, k, b, brk);
    InsertedChain(f, k, b, ptr, size, brk);
    InsertedAt(f, k, b, k + 1);
    if k + 1 < |f| { InsertedAt(f, k, b, k + 2); }
    assert Touch(g, k + 1) <==> b.a + b.n == q;
    if b.a + b.n == q {
      assert ptr' == ptr1[b.a := ptr1[q]];
      MergedChain(g, k + 1, k, ptr1, size, ptr', size', brk);
    } else {
      assert Merged(g, k + 1) == g by { NotMerged(g, k + 1); }
    }
  }

  lemma NotMerged(f: seq<Block>, k: nat)
    requires !Touch(f, k)
    ensures Merged(f, k) == f
  {
  }

  // free's second half joins block k with the one it now precedes.
  lemma JoinedOn(h: seq<Block>, k: nat, ptr: seq<nat>, size: seq<nat>, ptr': seq<nat>, size': seq<nat>, brk: nat)
    requires Loose(h, brk) && k + 1 < |h| && ChainBut(h, ptr, size, k) && |ptr| == |size|
    requires var p, c := h[k].a, h[k + 1].a;
      && p < |size| && c < |size|
      && if p + size[p] == c then size' == size[p := size[p] + size[c]] && ptr' == ptr[p := ptr[c]]
         else size' == size && ptr' == ptr[p := c]
    ensures Chain(Merged(h, k), ptr', size')
  {
    hide Merged;
    assert SizeOk(h, size, k);
    if Touch(h, k) {
      MergedChain(h, k, k, ptr, size, ptr', size', brk);
    } else {
      NotMerged(h, k);
      forall i: nat | i < |h| ensures SizeOk(h, size', i) && LinkOk(h, ptr', i) {
        assert SizeOk(h, size, i) && (i != k ==> LinkOk(h, ptr, i));
        if i < k { assert Before(h[i], h[k]); } else if k < i { assert Before(h[k], h[i]); }
      }
    }
  }

  // A block is taken whole: its predecessor i - 1 is linked past it.
  lemma UnlinkedChain(f: seq<Block>, i: nat, ptr: seq<nat>, size: seq<nat>, brk: nat)
    requires FreeList(f, brk) && 0 < i < |f| && Chain(f, ptr, size) && |ptr| == |size|
    requires f[i].a < |ptr| && f[i - 1].a < |ptr|
    ensures Chain(Taken(f, i, f[i].n), ptr[f[i - 1].a := ptr[f[i].a]], size)
  {
    hide Taken;
    var g := Taken(f, i, f[i].n);
    TakenLength(f, i, f[i].n);
    assert LinkOk(f, ptr, i);
    forall j: nat | j < |g| ensures SizeOk(g, size, j) && LinkOk(g, ptr[f[i - 1].a := ptr[f[i].a]], j) {
      TakenAt(f, i, f[i].n, j);
      if j + 1 < |g| { TakenAt(f, i, f[i].n, j + 1); }
      TakenAt(f, i, f[i].n, 0);
      var k := if j < i then j else j + 1;
      assert SizeOk(f, size, k) && LinkOk(f, ptr, k);
      if k < i - 1 { assert f[k].a + f[k].n < f[i - 1].a; } else if i - 1 < k { assert f[i - 1].a + f[i - 1].n < f[k].a; }
    }
  }

  // The tail of a block is taken: the header of what is left says so.
  lemma SplitChain(f: seq<Block>, i: nat, n: nat, ptr: seq<nat>, size: seq<nat>, brk: nat)
    requires FreeList(f, brk) && 0 < i < |f| && 0 < n < f[i].n && Chain(f, ptr, size) && brk <= |size|
    ensures Chain(Taken(f, i, n), ptr, size[f[i].a := f[i].n - n][f[i].a + f[i].n - n := n])
  {
    hide Taken;
    var g := Taken(f, i, n);
    TakenLength(f, i, n);
    var size' := size[f[i].a := f[i].n - n][f[i].a + f[i].n - n := n];
    forall j: nat | j < |g| ensures SizeOk(g, size', j) && LinkOk(g, ptr, j) {
      TakenAt(f, i, n, j);
      TakenAt(f, i, n, Next(g, j));
      assert SizeOk(f, size, j) && LinkOk(f, ptr, j);
      if j < i { assert f[j].a + f[j].n < f[i].a; } else if i < j { assert f[i].a + f[i].n < f[j].a; }
    }
  }

  // ---- Live memory ----

  // The headers of the live blocks say how long they are.
  ghost predicate LiveHeaders(live: map<nat, nat>, size: seq<nat>) {
    forall a <- live :: a < |size| && size[a] == live[a]
  }

  // What the program has written to its blocks is there.
  ghost predicate Kept(written: map<nat, (nat, nat)>, live: map<nat, nat>, ptr: seq<nat>, size: seq<nat>) {
    forall u <- written :: u in LiveUnits(live) && u !in live && u < |ptr| && u < |size| && written[u] == (ptr[u],
        size[u])
  }

  ghost predicate Listed(f: seq<Block>, freep: nat, at: nat) {
    at < |f| && f[at].a == freep
  }

  ghost predicate State(f: seq<Block>, live: map<nat, nat>, granted: set<nat>, brk: nat, freep: nat, at: nat,
                        ptr: seq<nat>, size: seq<nat>, written: map<nat, (nat, nat)>) {
    && brk <= |ptr| == |size| && Laid(f, live, brk) && FreeUnits(f) + LiveUnits(live) == granted
    && (if freep == Null then f == [Block(Base, 0)] && live == map[] else Listed(f, freep, at) && Chain(f, ptr, size))
    && LiveHeaders(live, size) && Kept(written, live, ptr, size)
  }

  lemma LiveWithout(live: map<nat, nat>, a: nat, brk: nat)
    requires LiveBlocks(live, brk) && a in live
    ensures LiveBlocks(live - {a}, brk) && LiveUnits(live) == LiveUnits(live - {a}) + Span(a, live[a])
    ensures LiveUnits(live - {a}) !! Span(a, live[a])
  {
    forall u | u in LiveUnits(live) ensures u in LiveUnits(live - {a}) + Span(a, live[a]) {
      var b :| b in live && u in Span(b, live[b]);
      if b != a { assert b in live - {a} && (live - {a})[b] == live[b]; }
    }
    forall u | u in LiveUnits(live - {a}) ensures u in LiveUnits(live) && u !in Span(a, live[a]) {
      var b :| b in live - {a} && u in Span(b, live[b]);
      assert Disjoint(a, live[a], b, live[b]);
    }
  }

  lemma LiveWith(live: map<nat, nat>, a: nat, n: nat, brk: nat)
    requires LiveBlocks(live, brk) && Base < a && 0 < n && a + n <= brk
    requires forall b <- live :: Disjoint(a, n, b, live[b])
    ensures a !in live && LiveBlocks(live[a := n], brk) && LiveUnits(live[a := n]) == LiveUnits(live) + Span(a, n)
  {
    assert a in live ==> Disjoint(a, n, a, live[a]);
    var l := live[a := n];
    forall u | u in LiveUnits(l) ensures u in LiveUnits(live) + Span(a, n) {
      var b :| b in l && u in Span(b, l[b]);
      assert b != a ==> b in live;
    }
    forall u | u in LiveUnits(live) ensures u in LiveUnits(l) {
      var b :| b in live && u in Span(b, live[b]);
      assert b in l && l[b] == live[b];
    }
    assert a in l && l[a] == n;
  }

  // Where s and t differ.
  ghost predicate SameBut(s: seq<nat>, t: seq<nat>, x: nat, y: nat) {
    |s| == |t| && forall u: nat :: u < |s| && u != x && u != y ==> s[u] == t[u]
  }

  // A unit of a live block is no header on the list.
  lemma LiveNotListed(f: seq<Block>, live: map<nat, nat>, brk: nat, i: nat, u: nat)
    requires Laid(f, live, brk) && i < |f| && u in LiveUnits(live)
    ensures u != f[i].a
  {
    var b :| b in live && u in Span(b, live[b]);
    assert Disjoint(b, live[b], f[i].a, f[i].n);
    assert Within(u, b, live[b]);
  }

  lemma HeaderLive(live: map<nat, nat>, brk: nat, a: nat)
    requires LiveBlocks(live, brk) && a in live
    ensures a in LiveUnits(live)
  {
    assert Within(a, a, live[a]) && a in Span(a, live[a]);
  }

  // Live memory survives when only a header on the list and the units of a dead block change.
  lemma Survives(f: seq<Block>, live: map<nat, nat>, brk: nat, k: nat, a: nat, written: map<nat, (nat, nat)>,
                 kept: map<nat, (nat, nat)>,
                 ptr: seq<nat>, size: seq<nat>, ptr': seq<nat>, size': seq<nat>)
    requires Laid(f, live, brk) && k < |f| && a !in LiveUnits(live) && LiveHeaders(live, size)
    requires SameBut(ptr, ptr', a, f[k].a) && SameBut(size, size', a, f[k].a)
    requires forall u <- kept :: u in written && kept[u] == written[u] && u in LiveUnits(live)
    requires forall u <- kept :: u !in live && u < |ptr| && u < |size| && written[u] == (ptr[u], size[u])
    ensures LiveHeaders(live, size') && Kept(kept, live, ptr', size')
  {
    forall b | b in live ensures b < |size'| && size'[b] == live[b] {
      HeaderLive(live, brk, b);
      LiveNotListed(f, live, brk, k, b);
    }
    forall u | u in kept ensures u < |ptr'| && u < |size'| && kept[u] == (ptr'[u], size'[u]) {
      LiveNotListed(f, live, brk, k, u);
    }
  }

  ghost function Without(written: map<nat, (nat, nat)>, a: nat, n: nat): map<nat, (nat, nat)> {
    map u | u in written && !Within(u, a, n) :: written[u]
  }

  lemma {:induction false} PlaceExists(f: seq<Block>, a: nat, m: nat) returns (k: nat)
    requires m < |f| && f[0].a < a && forall i :: m < i < |f| ==> a < f[i].a
    requires forall i :: 0 <= i < |f| ==> f[i].a != a
    ensures PlaceOf(f, a, k)
    decreases m
  {
    if f[m].a < a { k := m; } else { k := PlaceExists(f, a, m - 1); }
  }

  // How far the scan at index i still has to go.
  ghost function Distance(f: seq<Block>, i: nat, k: nat): nat
    requires i < |f|
  {
    if i <= k then k - i else k + |f| - i
  }

  // The scan of free stops at the block's place and nowhere else.
  lemma ScanStep(f: seq<Block>, ptr: seq<nat>, size: seq<nat>, i: nat, k: nat, a: nat, brk: nat)
    requires FreeList(f, brk) && Chain(f, ptr, size) && i < |f| && PlaceOf(f, a, k)
    ensures f[i].a < |ptr| && ptr[f[i].a] == f[Next(f, i)].a && f[i].a < |size| && size[f[i].a] == f[i].n
    ensures var p, q := f[i].a, ptr[f[i].a];
      if (a > p && a < q) || (p >= q && (a > p || a < q)) then PlaceOf(f, a, i)
      else Next(f, i) < |f| && Distance(f, Next(f, i), k) < Distance(f, i, k)
  {
    assert SizeOk(f, size, i) && LinkOk(f, ptr, i);
    if i + 1 < |f| { assert f[i].a + f[i].n < f[i + 1].a; }
    if 0 < i { assert f[0].a + f[0].n < f[i].a; }
    if 0 < k { assert f[0].a + f[0].n < f[k].a; }
    if i < k { assert f[i].a + f[i].n < f[k].a; }
    if i == |f| - 1 && k < i { assert f[k + 1].a <= f[i].a; }
  }

  // The state after free, from what it wrote.
  lemma Freed(f: seq<Block>, live: map<nat, nat>, granted: set<nat>, brk: nat, freep: nat, at: nat,
              ptr: seq<nat>, size: seq<nat>, written: map<nat, (nat, nat)>, k: nat, a: nat, ptr': seq<nat>, size': seq<nat>)
    requires State(f, live, granted, brk, freep, at, ptr, size, written) && a in live && PlaceOf(f, a, k)
    requires Chain(Returned(f, k, Block(a, live[a])), ptr', size')
    requires SameBut(ptr, ptr', a, f[k].a) && SameBut(size, size', a, f[k].a)
    ensures State(Returned(f, k, Block(a, live[a])), live - {a}, granted, brk, f[k].a, k, ptr', size', Without(written,
        a, live[a]))
    ensures f[k].a != Null && FreeUnits(Returned(f, k, Block(a, live[a]))) == FreeUnits(f) + Span(a, live[a])
  {
    hide Returned, ChainBut;
    var b := Block(a, live[a]);
    var g := Returned(f, k, b);
    var rest := live - {a};
    LiveWithout(live, a, brk);
    ReturnedList(f, k, b, brk);
    assert Span(a, live[a]) !! LiveUnits(rest);
    assert FreeUnits(g) + LiveUnits(rest) == granted;
    forall c | c in rest ensures OffList(g, c, rest[c]) {
      assert Disjoint(c, live[c], a, live[a]);
      ReturnedOff(f, k, b, c, rest[c]);
    }
    HeaderLive(live, brk, a);
    assert Within(a, a, live[a]);
    Survives(f, rest, brk, k, a, written, Without(written, a, live[a]), ptr, size, ptr', size');
    assert Listed(g, f[k].a, k) by { ReturnedKeeps(f, k, b, brk); }
  }

  lemma ReturnedKeeps(f: seq<Block>, k: nat, b: Block, brk: nat)
    requires k < |f|
    ensures k < |Returned(f, k, b)| && Returned(f, k, b)[k].a == f[k].a
  {
    var g := Inserted(f, k, b);
    var h := Merged(g, k + 1);
    InsertedAt(f, k, b, k);
    if Touch(g, k + 1) { MergedAt(g, k + 1, k); }
    if Touch(h, k) { MergedAt(h, k, k); }
  }

  lemma FreeFacts(f: seq<Block>, live: map<nat, nat>, granted: set<nat>, brk: nat, freep: nat, at: nat,
                  ptr: seq<nat>, size: seq<nat>, written: map<nat, (nat, nat)>, a: nat) returns (k: nat)
    requires State(f, live, granted, brk, freep, at, ptr, size, written) && a in live
    ensures freep != Null && Listed(f, freep, at) && Chain(f, ptr, size) && FreeList(f, brk) && PlaceOf(f, a, k)
    ensures OffList(f, a, live[a]) && 0 < live[a] && a + live[a] <= brk <= |ptr| == |size| && size[a] == live[a]
  {
    forall i | 0 <= i < |f| ensures f[i].a != a {
      assert Disjoint(a, live[a], f[i].a, f[i].n);
    }
    k := PlaceExists(f, a, |f| - 1);
  }

  // Where the neighbours of the block are.
  lemma AfterPlace(f: seq<Block>, k: nat, b: Block, ptr: seq<nat>, size: seq<nat>, brk: nat)
    requires FreeList(f, brk) && PlaceOf(f, b.a, k) && OffList(f, b.a, b.n) && 0 < b.n && b.a + b.n <= brk
    requires Chain(f, ptr, size) && |ptr| == |size|
    ensures k < |f| && f[k].a < |size| && f[Next(f, k)].a < |size| && f[k].a != b.a && ptr[f[k].a] == f[Next(f, k)].a
    ensures var h := Merged(Inserted(f, k, b), k + 1);
      Returned(f, k, b) == Merged(h, k) && k + 1 < |h| && h[k].a == f[k].a && h[k + 1].a == b.a && Loose(h, brk)
  {
    assert SizeOk(f, size, k) && SizeOk(f, size, Next(f, k)) && LinkOk(f, ptr, k);
    ReturnedList(f, k, b, brk);
    hide Inserted, Merged;
    var g := Inserted(f, k, b);
    InsertedAt(f, k, b, k);
    InsertedAt(f, k, b, k + 1);
    if Touch(g, k + 1) { MergedAt(g, k + 1, k); MergedAt(g, k + 1, k + 1); } else { NotMerged(g, k + 1); }
  }

  // sbrk's answer.
  datatype Grant = Refused | Granted(a: nat)

  // The region is new, there is room for it, and the increment is not negative.
  ghost predicate Possible(g: Grant, n: nat, brk: nat, top: nat) {
    g.Granted? ==> brk <= g.a && g.a + n <= top && n * HeaderSize < WordRange / 2
  }

  function AtLeast4096(nu: nat): (r: nat)
    ensures r >= 4096 && r >= nu && r in {4096, nu}
  {
    if nu < 4096 then 4096 else nu
  }

  lemma OffGrown(live: map<nat, nat>, brk: nat, top: nat)
    requires LiveBlocks(live, brk) && brk <= top
    ensures LiveBlocks(live, top) && forall u <- LiveUnits(live) :: u < brk
  {
    forall u | u in LiveUnits(live) ensures u < brk {
      var b :| b in live && u in Span(b, live[b]);
    }
  }

  lemma LaidExtended(f: seq<Block>, live: map<nat, nat>, brk: nat, a: nat, n: nat)
    requires Laid(f, live, brk) && brk <= a && 0 < n
    ensures Laid(f, live[a := n], a + n) && LiveUnits(live[a := n]) == LiveUnits(live) + Span(a, n) && a !in live
  {
    hide LiveUnits;
    OffGrown(live, brk, a + n);
    LiveWith(live, a, n, a + n);
    forall i | 0 <= i < |f| ensures Disjoint(a, n, f[i].a, f[i].n) {
      assert i == 0 || f[i].n > 0;
    }
    assert FreeList(f, a + n);
    assert OffList(f, a, n);
    assert forall b <- live :: OffList(f, b, live[b]);
  }

  lemma ChainBelow(f: seq<Block>, brk: nat, ptr: seq<nat>, size: seq<nat>, a: nat, n: nat)
    requires FreeList(f, brk) && Chain(f, ptr, size) && brk <= a < |size|
    ensures Chain(f, ptr, size[a := n])
  {
    var size' := size[a := n];
    forall i: nat | i < |f| ensures SizeOk(f, size', i) && LinkOk(f, ptr, i) {
      assert SizeOk(f, size, i) && LinkOk(f, ptr, i);
      assert i == 0 || f[i].n > 0;
    }
    assert ChainBut(f, ptr, size', -1);
  }

  // What sbrk has granted becomes a live block for a moment.
  lemma Extended(f: seq<Block>, live: map<nat, nat>, granted: set<nat>, brk: nat, freep: nat, at: nat,
                 ptr: seq<nat>, size: seq<nat>, written: map<nat, (nat, nat)>, a: nat, n: nat)
    requires State(f, live, granted, brk, freep, at, ptr, size, written) && freep != Null
    requires brk <= a && 0 < n && a + n <= |size|
    ensures State(f, live[a := n], granted + Span(a, n), a + n, freep, at, ptr, size[a := n], written)
    ensures live[a := n] - {a} == live && Without(written, a, n) == written
  {
    hide FreeUnits, LiveUnits, Laid, FreeList, Chain;
    assert FreeList(f, brk) && LiveBlocks(live, brk) by { LaidParts(f, live, brk); }
    LaidExtended(f, live, brk, a, n);
    ChainBelow(f, brk, ptr, size, a, n);
    OffGrown(live, brk, brk);
    hide LiveBlocks;
    assert LiveHeaders(live[a := n], size[a := n]);
    assert Kept(written, live[a := n], ptr, size[a := n]);
    assert forall u <- written :: !Within(u, a, n);
    assert (FreeUnits(f) + LiveUnits(live)) + Span(a, n) == FreeUnits(f) + (LiveUnits(live) + Span(a, n));
  }

  // The first call links `base` to itself.
  lemma FirstBase(live: map<nat, nat>, granted: set<nat>, brk: nat, at: nat, ptr: seq<nat>, size: seq<nat>,
                  written: map<nat, (nat, nat)>)
    requires State([Block(Base, 0)], live, granted, brk, Null, at, ptr, size, written)
    ensures Base < |ptr|
    ensures State([Block(Base, 0)], live, granted, brk, Base, 0, ptr[Base := Base], size[Base := 0], written)
  {
  }

  lemma OnlyBase(n: nat)
    requires n > 0
    ensures !Fits([Block(Base, 0)], n)
  {
  }

  lemma StateFacts(f: seq<Block>, live: map<nat, nat>, granted: set<nat>, brk: nat, freep: nat, at: nat,
                   ptr: seq<nat>, size: seq<nat>, written: map<nat, (nat, nat)>)
    requires State(f, live, granted, brk, freep, at, ptr, size, written)
    ensures freep == Null ==> f == [Block(Base, 0)]
    ensures freep != Null ==> Listed(f, freep, at) && Chain(f, ptr, size) && FreeList(f, brk) && freep < |ptr|
  {
    if freep != Null { assert SizeOk(f, size, at); }
  }

  lemma TakeFacts(f: seq<Block>, live: map<nat, nat>, granted: set<nat>, brk: nat, freep: nat, at: nat,
                  ptr: seq<nat>, size: seq<nat>, written: map<nat, (nat, nat)>, i: nat)
    requires State(f, live, granted, brk, freep, at, ptr, size, written) && freep != Null && 0 < i < |f|
    ensures f[i].a < |size| && size[f[i].a] == f[i].n && f[i].a + f[i].n <= brk <= |size| == |ptr|
    ensures f[i - 1].a < |size|
  {
    Headers(f, brk, ptr, size, i);
    Headers(f, brk, ptr, size, i - 1);
  }

  lemma Overwritten(f: seq<Block>, live: map<nat, nat>, granted: set<nat>, brk: nat, freep: nat, at: nat,
                    ptr: seq<nat>, size: seq<nat>, written: map<nat, (nat, nat)>, u: nat, x: nat, y: nat)
    requires State(f, live, granted, brk, freep, at, ptr, size, written) && u in LiveUnits(live) && u !in live
    ensures u < |ptr| && State(f, live, granted, brk, freep, at, ptr[u := x], size[u := y], written[u := (x, y)])
  {
    OffGrown(live, brk, brk);
    if freep != Null {
      var ptr', size' := ptr[u := x], size[u := y];
      forall i: nat | i < |f| ensures SizeOk(f, size', i) && LinkOk(f, ptr', i) {
        assert SizeOk(f, size, i) && LinkOk(f, ptr, i);
        LiveNotListed(f, live, brk, i, u);
      }
      assert Chain(f, ptr', size');
    }
    hide Laid, LiveUnits, FreeUnits, Chain;
  }

  lemma LaidParts(f: seq<Block>, live: map<nat, nat>, brk: nat)
    requires Laid(f, live, brk)
    ensures FreeList(f, brk) && LiveBlocks(live, brk)
  {
  }

  lemma LaidTaken(f: seq<Block>, live: map<nat, nat>, brk: nat, i: nat, n: nat)
    requires Laid(f, live, brk) && i < |f| && 0 < n <= f[i].n
    ensures var a := f[i].a + f[i].n - n;
      && Laid(Taken(f, i, n), live[a := n], brk) && LiveUnits(live[a := n]) == LiveUnits(live) + Span(a, n)
      && a !in live
  {
    var a := f[i].a + f[i].n - n;
    var g := Taken(f, i, n);
    TakenList(f, i, n, brk);
    assert 0 < i;
    assert Base < a && a + n <= brk by { assert f[0].a + f[0].n < f[i].a; }
    forall b | b in live ensures Disjoint(a, n, b, live[b]) && OffList(g, b, live[b]) {
      TakenOff(f, i, n, b, live[b]);
    }
    hide Taken, LiveUnits, OffList, FreeList;
    LiveWith(live, a, n, brk);
  }

  lemma SetsTaken(rest: set<nat>, part: set<nat>, whole: set<nat>, other: set<nat>)
    requires rest + part == whole && whole !! other
    ensures part !! other && rest + (other + part) == whole + other
  {
  }

  lemma InSpan(a: nat, n: nat)
    requires 0 < n
    ensures a in Span(a, n)
  {
    assert Within(a, a, n);
  }

  lemma UnitsTaken(f: seq<Block>, live: map<nat, nat>, brk: nat, i: nat, n: nat, a: nat)
    requires Laid(f, live, brk) && i < |f| && 0 < n <= f[i].n && a == f[i].a + f[i].n - n
    ensures Span(a, n) !! LiveUnits(live) && a !in LiveUnits(live)
    ensures FreeUnits(Taken(f, i, n)) + (LiveUnits(live) + Span(a, n)) == FreeUnits(f) + LiveUnits(live)
  {
    hide Taken, LiveUnits, FreeUnits, Laid, Span;
    TakenUnits(f, i, n);
    FreeApart(f, live, brk);
    InSpan(a, n);
    SetsTaken(FreeUnits(Taken(f, i, n)), Span(a, n), FreeUnits(f), LiveUnits(live));
  }

  // Block i, or its tail, is handed out.
  lemma Took(f: seq<Block>, live: map<nat, nat>, granted: set<nat>, brk: nat, freep: nat, at: nat,
             ptr: seq<nat>, size: seq<nat>, written: map<nat, (nat, nat)>, i: nat, n: nat, ptr': seq<nat>, size': seq<nat>)
    requires State(f, live, granted, brk, freep, at, ptr, size, written) && freep != Null
    requires 0 < i < |f| && 0 < n <= f[i].n && f[i].a < |size| && f[i - 1].a < |size| && f[i].a + f[i].n <= |size|
    requires if f[i].n == n then size' == size && ptr' == ptr[f[i - 1].a := ptr[f[i].a]]
             else ptr' == ptr && size' == size[f[i].a := f[i].n - n][f[i].a + f[i].n - n := n]
    ensures var a := f[i].a + f[i].n - n;
      && a !in live && State(Taken(f, i, n), live[a := n], granted, brk, f[i - 1].a, i - 1, ptr', size', written)
      && f[i - 1].a != Null && Span(a, n) !! LiveUnits(live)
  {
    hide FreeUnits, LiveUnits, FreeList, Chain, LiveBlocks;
    var a := f[i].a + f[i].n - n;
    var k := if f[i].n == n then i - 1 else i;
    LaidParts(f, live, brk);
    LaidTaken(f, live, brk, i, n);
    UnitsTaken(f, live, brk, i, n, a);
    assert SizeOk(f, size, i) && f[i - 1].a >= Base by { Headers(f, brk, ptr, size, i); Headers(f, brk, ptr, size,
        i - 1); }
    if f[i].n == n {
      UnlinkedChain(f, i, ptr, size, brk);
    } else {
      SplitChain(f, i, n, ptr, size, brk);
    }
    assert forall u <- written :: u in live || (u < |ptr| && u < |size| && written[u] == (ptr[u], size[u]));
    Survives(f, live, brk, k, a, written, written, ptr, size, ptr', size');
    hide Laid;
    assert LiveHeaders(live[a := n], size');
    assert Kept(written, live[a := n], ptr', size');
    TakenAt(f, i, n, i - 1);
    TakenLength(f, i, n);
  }

  lemma Headers(f: seq<Block>, brk: nat, ptr: seq<nat>, size: seq<nat>, i: nat)
    requires FreeList(f, brk) && Chain(f, ptr, size) && i < |f|
    ensures SizeOk(f, size, i) && LinkOk(f, ptr, i) && Base <= f[i].a && f[i].a + f[i].n <= brk
    ensures i == 0 <==> f[i].n == 0
    ensures Next(f, i) < |f| && f[Next(f, i)].a < |size| 
  {
    assert SizeOk(f, size, Next(f, i));
    if 0 < i { assert f[0].a + f[0].n < f[i].a; }
  }

  // The d-th block of the cycle, counted from block `at`.
  ghost function Ahead(f: seq<Block>, at: nat, d: nat): nat {
    if at + d < |f| then at + d else at + d - |f|
  }

  // None of the first d blocks behind block `at` is long enough.
  ghost predicate Searched(f: seq<Block>, at: nat, d: nat, n: nat) {
    at < |f| && d < |f| && forall e: nat :: 1 <= e <= d ==> f[Ahead(f, at, e)].n < n
  }

  // The block comes from the first place behind freep where one is long enough, and is its tail.
  ghost predicate NextFit(f: seq<Block>, at: nat, n: nat, ap: nat, f': seq<Block>, at': nat) {
    exists d: nat :: Searched(f, at, d, n) && TailOf(f, Ahead(f, at, d), n, ap, f', at')
  }

  ghost predicate TailOf(f: seq<Block>, j: nat, n: nat, ap: nat, f': seq<Block>, at': nat) {
    j + 1 < |f| && n <= f[j + 1].n && ap == f[j + 1].a + f[j + 1].n - n + 1 && f' == Taken(f, j + 1, n) && at' == j
  }

  // malloc's scan at distance d: prev is the block before p.
  ghost predicate Scanning(f: seq<Block>, at: nat, d: nat, n: nat, prev: nat, p: nat) {
    Searched(f, at, d, n) && prev == f[Ahead(f, at, d)].a && p == f[Next(f, Ahead(f, at, d))].a
  }

  lemma ScanEnds(f: seq<Block>, brk: nat, ptr: seq<nat>, size: seq<nat>, at: nat, d: nat, n: nat, prev: nat, p: nat)
    requires FreeList(f, brk) && Chain(f, ptr, size) && |ptr| == |size| && Scanning(f, at, d, n, prev, p) && 0 < n
    ensures var j := Ahead(f, at, d); var i := Next(f, j);
      && d < |f| && j < |f| && i < |f| && prev == f[j].a && p == f[i].a && p < |ptr| && p < |size| && prev < |ptr|
      && prev < |size| && size[p] == f[i].n && ptr[prev] == p
      && (size[p] >= n ==> i == j + 1 && Fits(f, n))
      && (size[p] < n && p == f[at].a ==> !Fits(f, n))
      && (size[p] < n && p != f[at].a ==> ptr[p] < |ptr| && Scanning(f, at, d + 1, n, p, ptr[p]))
  {
    var j := Ahead(f, at, d);
    var i := Next(f, j);
    Headers(f, brk, ptr, size, j);
    Headers(f, brk, ptr, size, i);
    if size[p] < n {
      if i == at {
        assert d == |f| - 1;
        forall m: nat | m < |f| ensures f[m].n < n {
          var e := if m > at then m - at else m + |f| - at;
          if e < |f| { assert Ahead(f, at, e) == m; }
        }
      } else {
        assert Ahead(f, at, d + 1) == i;
        if i < at { assert f[i].a + f[i].n < f[at].a; } else { assert f[at].a + f[at].n < f[i].a; }
      }
    } else {
      assert i != 0;
    }
  }

  lemma FoundAt(f: seq<Block>, at: nat, d: nat, n: nat, prev: nat, p: nat, ap: nat, f': seq<Block>, at': nat)
    requires Scanning(f, at, d, n, prev, p) && TailOf(f, Ahead(f, at, d), n, ap, f', at')
    ensures NextFit(f, at, n, ap, f', at')
  {
  }

  lemma StartScan(f: seq<Block>, brk: nat, ptr: seq<nat>, size: seq<nat>, at: nat, n: nat)
    requires FreeList(f, brk) && Chain(f, ptr, size) && at < |f|
    ensures f[at].a < |ptr| && Scanning(f, at, 0, n, f[at].a, ptr[f[at].a])
  {
    Headers(f, brk, ptr, size, at);
  }

  // malloc's number of units, computed in 32 bits.
  function Units(nbytes: nat): nat
    requires nbytes < WordRange
  {
    (nbytes + HeaderSize - 1) % WordRange / HeaderSize + 1
  }

  // The units behind the header have room for the bytes unless the sum wrapped around.
  lemma UnitsEnough(nbytes: nat)
    requires nbytes < WordRange
    ensures (Units(nbytes) - 1) * HeaderSize >= nbytes <==> nbytes <= WordRange - HeaderSize
    ensures nbytes <= WordRange - HeaderSize ==> Units(nbytes) * HeaderSize < nbytes + 2 * HeaderSize
  {
  }

  class Heap {
    const ptr: array<nat>
    const size: array<nat>
    var freep: nat

    ghost var f: seq<Block>
    ghost var live: map<nat, nat>
    ghost var granted: set<nat>
    ghost var written: map<nat, (nat, nat)>
    ghost var brk: nat
    ghost var at: nat

    ghost predicate Valid()
      reads this, ptr, size
    {
      ptr != size && ptr.Length == size.Length && ptr.Length * HeaderSize <= WordRange
      && State(f, live, granted, brk, freep, at, ptr[..], size[..], written)
    }

    constructor (top: nat)
      requires 2 < top && top * HeaderSize <= WordRange
      ensures Valid() && live == map[] && granted == {} && written == map[]
    {
      ptr, size, freep := new nat[top], new nat[top], Null;
      f, live, granted, written, brk, at := [Block(Base, 0)], map[], {}, map[], 2, 0;
    }

    // free's loop: p is the last block of the list before bp.
    method FindPlace(bp: nat, ghost k: nat) returns (p: nat, ghost i: nat)
      requires FreeList(f, brk) && Chain(f, ptr[..], size[..]) && Listed(f, freep, at) && PlaceOf(f, bp, k)
      ensures PlaceOf(f, bp, i) && p == f[i].a && p < ptr.Length && ptr[p] == f[Next(f, i)].a
      ensures p < size.Length && size[p] == f[i].n
    {
      hide FreeList, Chain, PlaceOf;
      p, i := freep, at;
      ScanStep(f, ptr[..], size[..], i, k, bp, brk);
      while !(bp > p && bp < ptr[p])
        invariant i < |f| && p == f[i].a && p < ptr.Length && ptr[p] == f[Next(f, i)].a
        decreases Distance(f, i, k)
      {
        ScanStep(f, ptr[..], size[..], i, k, bp, brk);
        if p >= ptr[p] && (bp > p || bp < ptr[p]) { break; }
        p := ptr[p];
        i := Next(f, i);
        ScanStep(f, ptr[..], size[..], i, k, bp, brk);
      }
      ScanStep(f, ptr[..], size[..], i, k, bp, brk);
    }

    // The rest of free: bp is linked in behind p and joined with its neighbours.
    method LinkIn(bp: nat, p: nat, ghost b: Block, ghost k: nat)
      requires ptr != size && ptr.Length == size.Length && FreeList(f, brk) && Chain(f, ptr[..], size[..])
      requires PlaceOf(f, bp, k) && p == f[k].a && b == Block(bp, b.n) && OffList(f, bp, b.n)
      requires 0 < b.n && bp + b.n <= brk <= size.Length && size[bp] == b.n
      modifies ptr, size
      ensures Chain(Returned(f, k, b), ptr[..], size[..])
      ensures SameBut(old(ptr[..]), ptr[..], bp, p) && SameBut(old(size[..]), size[..], bp, p)
    {
      hide Returned, Inserted, Merged, ChainBut, Chain, Loose, FreeList, PlaceOf, OffList;
      ghost var ptr0, size0 := ptr[..], size[..];
      AfterPlace(f, k, b, ptr0, size0, brk);
      FirstHalf(bp, p, b, k);
      ghost var ptr1, size1 := ptr[..], size[..];
      ghost var h := Merged(Inserted(f, k, b), k + 1);
      if p + size[p] == bp {
        size[p] := size[p] + size[bp];
        ptr[p] := ptr[bp];
      } else {
        ptr[p] := bp;
      }
      JoinedOn(h, k, ptr1, size1, ptr[..], size[..], brk);
    }

    method FirstHalf(bp: nat, p: nat, ghost b: Block, ghost k: nat)
      requires ptr != size && ptr.Length == size.Length && FreeList(f, brk) && Chain(f, ptr[..], size[..])
      requires PlaceOf(f, bp, k) && p == f[k].a && b == Block(bp, b.n) && OffList(f, bp, b.n)
      requires 0 < b.n && bp + b.n <= brk <= size.Length && size[bp] == b.n
      modifies ptr, size
      ensures ChainBut(Merged(Inserted(f, k, b), k + 1), ptr[..], size[..], k)
      ensures SameBut(old(ptr[..]), ptr[..], bp, bp) && SameBut(old(size[..]), size[..], bp, bp)
    {
      hide Returned, Inserted, Merged, ChainBut, Chain, Loose, FreeList, OffList;
      ghost var ptr0, size0 := ptr[..], size[..];
      AfterPlace(f, k, b, ptr0, size0, brk);
      assert ptr[p] == f[Next(f, k)].a && ptr[p] < size.Length;
      if bp + size[bp] == ptr[p] {
        size[bp] := size[bp] + size[ptr[p]];
        ptr[bp] := ptr[ptr[p]];
      } else {
        ptr[bp] := ptr[p];
      }
      LinkedIn(f, k, b, ptr0, size0, ptr[..], size[..], brk);
    }

    // free: the block behind the header at ap - 1 goes back to the list.
    method Free(ap: nat)
      requires Valid() && ap > 0 && ap - 1 in live
      modifies this, ptr, size
      ensures Valid() && freep != Null && brk == old(brk) && granted == old(granted)
      ensures live == old(live) - {ap - 1}
      ensures written == Without(old(written), ap - 1, old(live)[ap - 1])
      ensures Fits(f, old(live)[ap - 1])
      ensures freep != Null && FreeUnits(f) == FreeUnits(old(f)) + Span(ap - 1, old(live)[ap - 1])
      ensures LastBefore(f, at, ap - 1)
    {
      hide State, Returned, Chain, FreeUnits, LiveUnits, FreeList, OffList;
      var bp := ap - 1;
      ghost var ptr0, size0 := ptr[..], size[..];
      ghost var b := Block(bp, live[bp]);
      ghost var k := FreeFacts(f, live, granted, brk, freep, at, ptr0, size0, written, bp);
      var p: nat;
      ghost var i: nat;
      p, i := FindPlace(bp, k);
      LinkIn(bp, p, b, i);
      freep := p;
      Freed(f, live, granted, brk, old(freep), at, ptr0, size0, written, i, bp, ptr[..], size[..]);
      written := Without(written, bp, live[bp]);
      ReturnedFits(f, i, b, b.n);
      ReturnedPlace(f, i, b, brk);
      f, live, at := Returned(f, i, b), live - {bp}, i;
    }
  
    // morecore: the new region is freed into the list.
    method Morecore(nu: nat, grant: Grant) returns (p: nat)
      requires Valid() && freep != Null && 0 < nu && Possible(grant, AtLeast4096(nu), brk, ptr.Length)
      modifies this, ptr, size
      ensures Valid() && freep != Null && live == old(live) && written == old(written)
      ensures grant.Refused? ==> p == Null && f == old(f) && granted == old(granted)
      ensures grant.Granted? ==> LastBefore(f, at, grant.a)
      ensures grant.Granted? ==> p == freep && Fits(f, nu) && granted == old(granted) + Span(grant.a, AtLeast4096(nu))
    {
      hide State, Fits;
      var n := if nu < 4096 then 4096 else nu;
      if grant.Refused? { return Null; }
      var hp := grant.a;
      Extended(f, live, granted, brk, freep, at, ptr[..], size[..], written, hp, n);
      size[hp] := n;
      live, granted, brk := live[hp := n], granted + Span(hp, n), hp + n;
      Free(hp + 1);
      p := freep;
      FitsLess(f, n, nu);
    }
  
    // malloc. `grant` is sbrk's answer, should it be asked.
    method Malloc(nbytes: nat, grant: Grant) returns (ap: nat)
      requires Valid() && nbytes < WordRange && Possible(grant, AtLeast4096(Units(nbytes)), brk, ptr.Length)
      modifies this, ptr, size
      ensures Valid() && written == old(written)
      ensures ap == Null <==> !Fits(old(f), Units(nbytes)) && grant.Refused?
      ensures ap == Null ==> live == old(live)
      ensures ap != Null ==> ap - 1 !in old(live) && live == old(live)[ap - 1 := Units(nbytes)]
      ensures ap != Null ==> Span(ap - 1, Units(nbytes)) !! LiveUnits(old(live))
      ensures granted == old(granted) + if Fits(old(f), Units(nbytes)) || grant.Refused? then {}
                                        else Span(grant.a, AtLeast4096(Units(nbytes)))
      ensures Fits(old(f), Units(nbytes)) ==> NextFit(old(f), old(at), Units(nbytes), ap, f, at)
    {
      hide State, Taken, Fits, FreeList, Chain, FreeUnits, LiveUnits, Scanning, NextFit, TailOf;
      var nunits := Units(nbytes);
      if freep == Null {
        StateFacts(f, live, granted, brk, freep, at, ptr[..], size[..], written);
        FirstBase(live, granted, brk, at, ptr[..], size[..], written);
        OnlyBase(nunits);
        ptr[Base] := Base;
        freep := Base;
        size[Base] := 0;
        at := 0;
      }
      var prevp := freep;
      StateFacts(f, live, granted, brk, freep, at, ptr[..], size[..], written);
      var p := ptr[prevp];
      ghost var d := 0;
      ghost var asked := false;
      StartScan(f, brk, ptr[..], size[..], at, nunits);
      while true
        invariant Valid() && freep != Null && Scanning(f, at, d, nunits, prevp, p) && FreeList(f, brk)
        invariant Chain(f, ptr[..], size[..])
        invariant Listed(f, freep, at) && live == old(live) && written == old(written)
        invariant if asked then grant.Granted? && !Fits(old(f), nunits) && Fits(f,
            nunits) && granted == old(granted) + Span(grant.a, AtLeast4096(nunits))
                  else f == old(f) && granted == old(granted) && brk == old(brk)
        invariant !asked ==> at == old(at) || !Fits(f, nunits)
        decreases !asked, |f| - d
      {
        ghost var j := Ahead(f, at, d);
        ScanEnds(f, brk, ptr[..], size[..], at, d, nunits, prevp, p);
        if size[p] >= nunits {
          ghost var f1, at1 := f, at;
          ap := Take(prevp, p, nunits, j);
          FoundAt(f1, at1, d, nunits, prevp, p, ap, f, at);
          return;
        }
        if p == freep {
          p := Morecore(nunits, grant);
          if p == Null { return Null; }
          asked := true;
          prevp := p;
          StateFacts(f, live, granted, brk, freep, at, ptr[..], size[..], written);
          p := ptr[p];
          StartScan(f, brk, ptr[..], size[..], at, nunits);
          d := 0;
        } else {
          prevp := p;
          p := ptr[p];
          d := d + 1;
        }
      }
    }

    // The block p that malloc has found, or its tail, is unlinked.
    method Take(prevp: nat, p: nat, nunits: nat, ghost j: nat) returns (ap: nat)
      requires Valid() && freep != Null && j + 1 < |f| && prevp == f[j].a && p == f[j + 1].a && 0 < nunits <= f[j + 1].n
      modifies this, ptr, size
      ensures Valid() && written == old(written) && granted == old(granted)
      ensures ap != Null && ap - 1 !in old(live) && live == old(live)[ap - 1 := nunits]
      ensures Span(ap - 1, nunits) !! LiveUnits(old(live))
      ensures TailOf(old(f), j, nunits, ap, f, at)
    {
      hide State, Taken, FreeUnits, LiveUnits;
      ghost var ptr0, size0 := ptr[..], size[..];
      TakeFacts(f, live, granted, brk, freep, at, ptr0, size0, written, j + 1);
      var q := p;
      if size[p] == nunits {
        ptr[prevp] := ptr[p];
      } else {
        size[p] := size[p] - nunits;
        q := p + size[p];
        size[q] := nunits;
      }
      Took(f, live, granted, brk, freep, at, ptr0, size0, written, j + 1, nunits, ptr[..], size[..]);
      f, live, at, freep := Taken(f, j + 1, nunits), live[q := nunits], j, prevp;
      ap := q + 1;
    }
  
    // The program writes a unit of a block it holds, behind the header, and reads one.
    method Write(u: nat, x: nat, y: nat)
      requires Valid() && u in LiveUnits(live) && u !in live
      modifies this, ptr, size
      ensures Valid() && f == old(f) && live == old(live) && granted == old(granted)
      ensures written == old(written)[u := (x, y)]
    {
      hide State;
      Overwritten(f, live, granted, brk, freep, at, ptr[..], size[..], written, u, x, y);
      ptr[u] := x;
      size[u] := y;
      written := written[u := (x, y)];
    }

    method Read(u: nat) returns (x: nat, y: nat)
      requires Valid() && u in written
      ensures (x, y) == written[u]
    {
      x, y := ptr[u], size[u];
    }
  }

  // ---- The list has one form ----

  lemma LastUnits(f: seq<Block>, brk: nat, u: nat)
    requires FreeList(f, brk) && |f| > 1
    ensures var b := f[|f| - 1];
      && (u in FreeUnits(f) ==> u < b.a + b.n)
      && (b.a <= u < b.a + b.n ==> u in FreeUnits(f))
      && (u == b.a - 1 ==> u !in FreeUnits(f))
      && (u in FreeUnits(f[..|f| - 1]) <==> u in FreeUnits(f) && u < b.a)
  {
    InFree(f, u);
    InFree(f[..|f| - 1], u);
  }

  // What is free determines the list: no two lists of the allocator cover the same units.
  lemma {:induction false} OneForm(f: seq<Block>, g: seq<Block>, brk: nat)
    requires FreeList(f, brk) && FreeList(g, brk) && FreeUnits(f) == FreeUnits(g)
    ensures f == g
    decreases |f|
  {
    hide FreeUnits;
    if |f| == 1 && |g| == 1 {
    } else if |f| == 1 {
      LastUnits(g, brk, g[|g| - 1].a);
      InFree(f, g[|g| - 1].a);
    } else if |g| == 1 {
      LastUnits(f, brk, f[|f| - 1].a);
      InFree(g, f[|f| - 1].a);
    } else {
      var b, c := f[|f| - 1], g[|g| - 1];
      SameLast(f, g, brk, b, c);
      SameLast(g, f, brk, c, b);
      var f', g' := f[..|f| - 1], g[..|g| - 1];
      forall u: nat ensures u in FreeUnits(f') <==> u in FreeUnits(g') {
        LastUnits(f, brk, u);
        LastUnits(g, brk, u);
      }
      assert FreeUnits(f') == FreeUnits(g');
      OneForm(f', g', brk);
      assert f == f' + [b] && g == g' + [c];
    }
  }

  lemma SameLast(f: seq<Block>, g: seq<Block>, brk: nat, b: Block, c: Block)
    requires FreeList(f, brk) && FreeList(g, brk) && FreeUnits(f) == FreeUnits(g) && |f| > 1 && |g| > 1
    requires b == f[|f| - 1] && c == g[|g| - 1]
    ensures b.a + b.n <= c.a + c.n && c.a <= b.a
  {
    LastUnits(f, brk, b.a + b.n - 1);
    LastUnits(g, brk, b.a + b.n - 1);
    LastUnits(f, brk, c.a - 1);
    LastUnits(g, brk, c.a - 1);
    LastUnits(f, brk, c.a + c.n - 1);
    LastUnits(g, brk, c.a + c.n - 1);
  }

  // So the free list is a function of what was granted and what is live: freeing all
  // that was allocated since brings back the list as it was.
  lemma ListDetermined(f: seq<Block>, g: seq<Block>, live: map<nat, nat>, granted: set<nat>, brk: nat, freep: nat,
                       freep': nat, at: nat, at': nat,
                       ptr: seq<nat>, ptr': seq<nat>, size: seq<nat>, size': seq<nat>,
                       written: map<nat, (nat, nat)>, written': map<nat, (nat, nat)>)
    requires State(f, live, granted, brk, freep, at, ptr, size, written)
    requires State(g, live, granted, brk, freep', at', ptr', size', written')
    ensures f == g
  {
    hide FreeUnits, LiveUnits, FreeList, LiveBlocks;
    FreeApart(f, live, brk);
    FreeApart(g, live, brk);
    assert FreeUnits(f) == granted - LiveUnits(live) == FreeUnits(g);
    OneForm(f, g, brk);
  }
}
