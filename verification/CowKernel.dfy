/**
 os/memory-assignment/kalloc.c and vm.c: page allocation with reference counts,
 page tables, copy-on-write fork and its page-fault handler. Every operation is
 proved to keep the counts exact and to change what programs see as
 PrivateMemory says, on the paths where memory runs out as well.
 */
module CowKernel {
  import opened Options
  import opened PageState
  import opened PrivateMemory

  // Page directory entries of the kernel part: KERNBASE up to PHYSTOP, and the devices.
  function KernelPdes(): (r: seq<nat>)
    ensures forall i | 0 <= i < |r| :: r[i] < NPDENTRIES
  {
    seq(56, (i: nat) => 512 + i) + seq(8, (i: nat) => 1016 + i)
  }

  const PHYSTOP: nat := 0xE000000
  const DEVSPACE: nat := 0xFE000000

  predicate KernelAddress(a: nat) {
    KERNBASE <= a < KERNBASE + PHYSTOP || DEVSPACE <= a < 0x1_0000_0000
  }

  // Exactly the entries, of 4 MB each, with an address in one of the two parts.
  lemma KernelPdesAre(d: nat)
    ensures d in KernelPdes() <==> exists a: nat :: a / 0x400000 == d && KernelAddress(a)
  {
    var a := d * 0x400000;
    var r := KernelPdes();
    if d in r {
      assert a / 0x400000 == d && KernelAddress(a);
    } else if b: nat :| b / 0x400000 == d && KernelAddress(b) {
      assert r[if d < 568 then d - 512 else d - 960] == d;
    }
  }

  const BOOT_END: nat := 4 * 1024 * 1024 // where kinit1 ends and kinit2 starts

  // ---- Boot ----

  // Pages lo..hi as freerange leaves them: the last one freed comes first.
  function Down(lo: nat, hi: nat): (r: seq<nat>)
    ensures |r| == if lo < hi then hi - lo else 0
    decreases hi
  {
    if hi <= lo then [] else [hi - 1] + Down(lo, hi - 1)
  }

  lemma {:induction false} DownHas(lo: nat, hi: nat, p: nat)
    ensures multiset(Down(lo, hi))[p] == if lo <= p < hi then 1 else 0
    decreases hi
  {
    hide Down;
    if lo < hi {
      DownHas(lo, hi - 1, p);
      DownFirst(lo, hi);
    } else {
      assert Down(lo, hi) == [];
    }
  }

  lemma DownFirst(lo: nat, hi: nat)
    requires lo < hi
    ensures multiset(Down(lo, hi)) == multiset{hi - 1} + multiset(Down(lo, hi - 1))
  {
    assert Down(lo, hi) == [hi - 1] + Down(lo, hi - 1);
  }

  predicate Within(lo: nat, p: nat, hi: nat) {
    lo <= p < hi
  }

  ghost function PagesIn(lo: nat, hi: nat): set<nat> {
    set p: nat | p < hi && Within(lo, p, hi)
  }

  // freerange, while kfree does not count yet.
  method FreeRange(list: seq<nat>, lo: nat, hi: nat) returns (free: seq<nat>)
    requires lo <= hi
    ensures free == Down(lo, hi) + list
  {
    free := list;
    var p := lo;
    while p < hi
      invariant lo <= p <= hi && free == Down(lo, p) + list
    {
      assert [p] + (Down(lo, p) + list) == Down(lo, p + 1) + list;
      free := [p] + free;
      p := p + 1;
    }
  }

  // n calls of kalloc, while it does not count yet.
  method TakeUncounted(list: seq<nat>, ghost lo: nat, ghost hi: nat, n: nat) returns (free: seq<nat>, taken: set<nat>)
    requires list == Down(lo, hi) && lo + n <= hi
    ensures free == Down(lo, hi - n) && taken == PagesIn(hi - n, hi)
  {
    free, taken := list, {};
    var i := 0;
    while i < n
      invariant i <= n && free == Down(lo, hi - i) && taken == PagesIn(hi - i, hi)
    {
      taken := taken + {free[0]};
      free := free[1..];
      i := i + 1;
    }
  }

  // The state after kinit2: pages split..boot are in use and not counted, all the others are free.
  ghost function Booted(free: seq<nat>, mem: map<nat, Page>, top: nat): Pages {
    Pages(free, seq(top, i => 0), mem, map[], map[], map[])
  }

  lemma BootOk(first: nat, split: nat, boot: nat, top: nat, free: seq<nat>, mem: map<nat, Page>)
    requires 0 < first <= split <= boot <= top && free == Down(boot, top) + Down(first, split)
    requires forall p: nat :: p in mem <==> first <= p < top
    ensures Ok(Geometry(first, top, PagesIn(split, boot)), Booted(free, mem, top), multiset{})
  {
    var g, s := Geometry(first, top, PagesIn(split, boot)), Booted(free, mem, top);
    forall p: nat ensures multiset(free)[p] == if g.Managed(p) then 1 else 0 {
      DownHas(boot, top, p);
      DownHas(first, split, p);
    }
    forall p: nat ensures Maps(s.pte, p) == {} {
    }
  }

  // The first page of the first process: the initial code.
  function InitPage(code: seq<int>): Page
    requires |code| < PGSIZE
  {
    code + seq(PGSIZE - |code|, i => 0)
  }

  // ---- How many pages a call takes ----

  // A page directory with the page tables of the kernel part.
  function DirPages(): nat {
    1 + |KernelPdes()|
  }

  // Page tables for the first n pages of a directory that has none.
  function TablesFor(n: nat): nat {
    (n + NPTENTRIES - 1) / NPTENTRIES
  }

  // Page tables for pages lo..hi that directory d does not have yet.
  ghost function NewTables(tables: set<Pde>, d: nat, lo: nat, hi: nat): nat
    decreases hi
  {
    if hi <= lo then 0
    else NewTables(tables, d, lo, hi - 1) + if Covered(tables, d, lo, hi - 1, (hi - 1) / NPTENTRIES) then 0 else 1
  }

  // Whether page table t is there once pages lo..a have one.
  ghost predicate Covered(tables: set<Pde>, d: nat, lo: nat, a: nat, t: nat) {
    Pde(d, t) in tables || (lo < a && lo / NPTENTRIES <= t <= (a - 1) / NPTENTRIES)
  }

  ghost function AllocNeed(tables: set<Pde>, d: nat, lo: nat, hi: nat): nat {
    (if lo < hi then hi - lo else 0) + NewTables(tables, d, lo, hi)
  }

  lemma {:induction false} NewTablesGrow(tables: set<Pde>, d: nat, lo: nat, a: nat, hi: nat)
    requires lo <= a <= hi
    ensures AllocNeed(tables, d, lo, a) + (hi - a) <= AllocNeed(tables, d, lo, hi)
    decreases hi
  {
    if a < hi { NewTablesGrow(tables, d, lo, a, hi - 1); }
  }

  // What is left of `free` pages, and which page tables there are, when pages lo..a have been allocated.
  ghost predicate Taken(tables0: set<Pde>, free0: nat, d: nat, lo: nat, a: nat, tables: set<Pde>, free: nat) {
    && free == free0 - AllocNeed(tables0, d, lo, a)
    && forall t: nat :: Pde(d, t) in tables <==> Covered(tables0, d, lo, a, t)
  }

  lemma TakenNone(tables: set<Pde>, free: nat, d: nat, lo: nat)
    ensures Taken(tables, free, d, lo, lo, tables, free)
  {
  }

  lemma TakenOne(tables0: set<Pde>, free0: nat, d: nat, lo: nat, a: nat, tables: set<Pde>, free: nat)
    requires lo <= a && Taken(tables0, free0, d, lo, a, tables, free)
    ensures var n := if Pde(d, a / NPTENTRIES) in tables then 1 else 2;
            && (n <= free ==> Taken(tables0, free0, d, lo, a + 1, tables + {Pde(d, a / NPTENTRIES)}, free - n))
            && (free < n ==> free0 < AllocNeed(tables0, d, lo, a + 1))
  {
  }

  lemma TakenAll(tables0: set<Pde>, free0: nat, d: nat, lo: nat, a: nat, tables: set<Pde>, free: nat)
    requires Taken(tables0, free0, d, lo, a, tables, free)
    ensures free == free0 - AllocNeed(tables0, d, lo, a)
  {
  }

  // The same for copyuvm into directory c, after n pages.
  ghost predicate TakenByCopy(free0: nat, c: nat, n: nat, tables: set<Pde>, free: nat) {
    && free == free0 - DirPages() - TablesFor(n)
    && forall j: nat | j < NPDENTRIES / 2 :: Pde(c, j) in tables <==> j < TablesFor(n)
  }

  lemma CopyTakesNone(free0: nat, c: nat, tables: set<Pde>, free: nat)
    requires free == free0 - DirPages() && forall j: nat | j < NPDENTRIES / 2 :: Pde(c, j) !in tables
    ensures TakenByCopy(free0, c, 0, tables, free)
  {
  }

  lemma CopyTakesOne(free0: nat, c: nat, n: nat, m: nat, tables: set<Pde>, free: nat)
    requires TakenByCopy(free0, c, n, tables, free) && n < KERNBASE / PGSIZE && n < m
    ensures Pde(c, n / NPTENTRIES) in tables ==> TakenByCopy(free0, c, n + 1, tables + {Pde(c, n / NPTENTRIES)}, free)
    ensures Pde(c, n / NPTENTRIES) !in tables && free > 0 ==>
              TakenByCopy(free0, c, n + 1, tables + {Pde(c, n / NPTENTRIES)}, free - 1)
    ensures Pde(c, n / NPTENTRIES) !in tables && free == 0 ==> free0 < DirPages() + TablesFor(m)
  {
  }

  lemma CopyTakes(free0: nat, c: nat, n: nat, tables: set<Pde>, free: nat)
    requires TakenByCopy(free0, c, n, tables, free)
    ensures free == free0 - DirPages() - TablesFor(n)
  {
  }

  // Pages that a request can need, at most.
  ghost function MostNeeded(w: World, rq: Request): nat {
    if rq.p !in w.sz then 0
    else
      match rq
      case Fork(p) => 1 + DirPages() + TablesFor(RoundUp(w.sz[p]))
      case Write(p, va, b) => 1
      case Sbrk(p, n) => if n > 0 then MostToGrow(RoundUp(w.sz[p]), RoundUp(NewSize(w.sz[p], n))) else 0
      case OpenPipe(p) => 1
      case _ => 0
  }

  // The pages and their page tables.
  function MostToGrow(lo: nat, hi: nat): nat {
    if lo < hi then hi - lo + ((hi - 1) / NPTENTRIES - lo / NPTENTRIES + 1) else 0
  }

  // The replies that stand for memory having run out.
  ghost predicate Refused(w: World, rq: Request, rp: Reply) {
    rp.Failed? && rq.p in w.sz && (rq.Sbrk? ==> rq.n > 0 && NewSize(w.sz[rq.p], rq.n) < KERNBASE)
  }

  ghost predicate Granted(ws: seq<World>, rqs: seq<Request>, rps: seq<Reply>)
    requires |rps| <= |ws| && |rps| <= |rqs|
  {
    forall i | 0 <= i < |rps| :: !Refused(ws[i], rqs[i], rps[i])
  }

  ghost function TotalNeeded(ws: seq<World>, rqs: seq<Request>, n: nat): nat
    requires n <= |ws| && n <= |rqs|
  {
    if n == 0 then 0 else TotalNeeded(ws, rqs, n - 1) + MostNeeded(ws[n - 1], rqs[n - 1])
  }

  lemma {:induction false} TotalSame(ws: seq<World>, w: World, rqs: seq<Request>, n: nat)
    requires n <= |ws| && n <= |rqs|
    ensures TotalNeeded(ws + [w], rqs, n) == TotalNeeded(ws, rqs, n)
  {
    if n > 0 {
      TotalSame(ws, w, rqs, n - 1);
    }
  }

  lemma OneMoreNeeded(ws: seq<World>, w: World, rqs: seq<Request>, rps: seq<Reply>, r: Reply)
    requires |ws| == |rps| + 1 <= |rqs|
    ensures var n := |rps|;
            && TotalNeeded(ws + [w], rqs, n + 1) == TotalNeeded(ws, rqs, n) + MostNeeded(ws[n], rqs[n])
            && (Granted(ws + [w], rqs, rps + [r]) <==> Granted(ws, rqs, rps) && !Refused(ws[n], rqs[n], r))
  {
    hide MostNeeded, Refused;
    var n := |rps|;
    TotalSame(ws, w, rqs, n);
    var ws', rps' := ws + [w], rps + [r];
    assert ws'[n] == ws[n] && rps'[n] == r;
    if Granted(ws', rqs, rps') {
      forall i | 0 <= i < n ensures !Refused(ws[i], rqs[i], rps[i]) {
        assert !Refused(ws'[i], rqs[i], rps'[i]);
      }
      assert !Refused(ws'[n], rqs[n], rps'[n]);
    }
  }

  lemma GrowNeeds(tables: set<Pde>, d: nat, lo: nat, hi: nat)
    ensures AllocNeed(tables, d, lo, hi) <= MostToGrow(lo, hi)
  {
    NewTablesBound(tables, d, lo, hi);
  }

  // At most one page table for each group of pages that is touched.
  lemma {:induction false} NewTablesBound(tables: set<Pde>, d: nat, lo: nat, hi: nat)
    ensures lo < hi ==> NewTables(tables, d, lo, hi) <= (hi - 1) / NPTENTRIES - lo / NPTENTRIES + 1
    decreases hi
  {
    if lo < hi { NewTablesBound(tables, d, lo, hi - 1); }
  }

  lemma NextPde(i: nat)
    requires i < |KernelPdes()|
    ensures KernelPdes()[i] !in KernelPdes()[..i] && KernelPdes()[i] >= NPDENTRIES / 2
    ensures forall j | j in KernelPdes()[..i + 1] :: j in KernelPdes()[..i] || j == KernelPdes()[i]
    ensures KernelPdes()[i] in KernelPdes()[..i + 1] && forall j | j in KernelPdes()[..i] :: j in KernelPdes()[..i + 1]
  {
    var s := KernelPdes();
    assert s[..i + 1] == s[..i] + [s[i]];
    assert forall j :: 0 <= j < i ==> s[j] < s[i];
  }

  // Page tables and kernel pages that have nothing to do with directory d.
  ghost function TablesApart(tables: map<Pde, nat>, d: nat): map<Pde, nat> {
    map t | t in tables && t.dir != d :: tables[t]
  }

  ghost function KernelApart(kernel: map<nat, Owner>, d: nat): map<nat, Owner> {
    map q | q in kernel && q != d && !(kernel[q].Table? && kernel[q].at.dir == d) :: kernel[q]
  }

  ghost function KeysApart(keys: set<VAddr>, d: nat): set<VAddr> {
    set k | k in keys && k.dir != d
  }

  ghost predicate OnlyUnder(tables: map<Pde, nat>, kernel: map<nat, Owner>, tables': map<Pde, nat>,
                            kernel': map<nat, Owner>, d: nat) {
    && TablesApart(tables', d) == TablesApart(tables, d)
    && KernelApart(kernel', d) == KernelApart(kernel, d)
    && (d in kernel && kernel[d] == Dir ==> d in kernel' && kernel'[d] == Dir)
  }

  lemma AddedUnder(tables: map<Pde, nat>, kernel: map<nat, Owner>, p: nat, t: Pde)
    requires p !in kernel && t !in tables
    ensures OnlyUnder(tables, kernel, tables[t := p], kernel[p := Table(t)], t.dir)
  {
  }

  // proc->sz and proc->kstack
  datatype Proc = Proc(sz: nat, kstack: nat)

  datatype Copy = CopyOf(dir: nat) | NoMemory | NotPresent

  datatype Mapping = Mapped | NoTable | Remap

  class Kernel {
    const g: Geometry
    var free: seq<nat>
    var count: seq<int>
    var mem: map<nat, Page>
    var pte: map<VAddr, Pte>
    var tables: map<Pde, nat>
    var procs: map<nat, Proc> // processes by page directory
    var pipes: set<nat> // open pipes by the page that holds them
    var initproc: nat
    ghost var kernel: map<nat, Owner>

    // main up to userinit: kinit1, the kernel's own page directory, the stacks of the other
    // processors, kinit2, and the first process, which runs code.
    constructor (first: nat, others: nat, code: seq<int>)
      requires 0 < first && first + DirPages() + others <= BOOT_END / PGSIZE && |code| < PGSIZE
      ensures Idle() && Abstract() == FirstWorld(initproc, code)
      ensures var boot := BOOT_END / PGSIZE;
        g == Geometry(first, PHYSTOP / PGSIZE, PagesIn(boot - DirPages() - others, boot))
      ensures |free| == FreeAtFirst(first, others)
    {
      hide Down, DirPages, Ok, ProcsOk;
      var boot, top, own := BOOT_END / PGSIZE, PHYSTOP / PGSIZE, DirPages() + others;
      var pool := FreeRange([], first, boot);
      var rest, taken := TakeUncounted(pool, first, boot, own);
      var list := FreeRange(rest, boot, top);
      g := Geometry(first, top, taken);
      free, count := list, seq(top, i => 0);
      mem := map p: nat | p < top && Within(first, p, top) :: Junk();
      pte, tables, procs, pipes, kernel := map[], map[], map[], {}, map[];
      initproc := 0;
      new;
      assert first <= boot - own <= boot <= top;
      BootOk(first, boot - own, boot, top, free, mem);
      assert S() == Booted(free, mem, top);
      NoProcs(mem);
      assert pte.Keys == {};
      UserInit(code);
    }

    // userinit, as far as memory goes.
    method UserInit(code: seq<int>)
      requires Idle() && |code| < PGSIZE && |free| >= DirPages() + 3
      modifies this`free, this`mem, this`pte, this`tables, this`kernel, this`procs, this`initproc, this`count
      ensures Idle() && initproc !in old(procs)
      ensures Abstract() == WithFirst(old(Abstract()), initproc, code) && |free| == |old(free)| - DirPages() - 3
    {
      hide Ok, User, OnlyUnder, ProcsOk, PipePages, DirPages, InitPage, Below, OnlyIn;
      var ks := AllocStack();
      ghost var s1 := S();
      var d := SetupKvm(multiset{});
      NoneYet(g, s1, multiset{}, d.value);
      label before:
      InitUvm(d.value, code);
      FirstKey(old(pte).Keys, pte.Keys, d.value);
      OnlyUnderTrans(s1.tables, s1.kernel[d.value := Dir], old@before(tables), old@before(kernel), tables, kernel,
          d.value);
      NewProc(procs, old(kernel), old(pte).Keys, PGSIZE, d.value, ks.value, s1.tables, tables, kernel, pte.Keys);
      SetStack(ks.value, d.value);
      procs := procs[d.value := Proc(PGSIZE, ks.value)];
      SizesAdd(old(procs), d.value, procs[d.value]);
      initproc := d.value;
    }

    // inituvm
    method InitUvm(d: nat, code: seq<int>)
      requires Inv(multiset{}) && d in kernel && kernel[d] == Dir && VAddr(d, 0) !in pte && |code| < PGSIZE
      requires |free| >= 2
      modifies this`free, this`mem, this`pte, this`tables, this`kernel, this`count
      ensures Inv(multiset{}) && Apart(d) && pte.Keys == old(pte).Keys + {VAddr(d, 0)} && d in kernel
      ensures kernel[d] == Dir
      ensures Seen() == old(Seen())[VAddr(d, 0) := Cell(InitPage(code), true)]
      ensures |free| == |old(free)| - if Pde(d, 0) in old(tables) then 1 else 2
    {
      hide Ok, User;
      var k := VAddr(d, 0);
      var ok := GrowPage(k, multiset{});
      SeenIff(g, S(), multiset{}, k);
      StoreOk(g, S(), multiset{}, k, InitPage(code));
      Reset(old(Seen()), k, Cell(InitPage(code), true));
      mem := mem[pte[k].ppn := InitPage(code)];
    }

    ghost function S(): Pages
      reads this
    {
      Pages(free, count, mem, pte, tables, kernel)
    }

    // Written with == so that the verifier treats it as one fact.
    ghost predicate Inv(held: multiset<nat>)
      reads this
    {
      Ok(g, S(), held) == true
    }

    // What user programs see.
    ghost function Seen(): Memory
      reads this
    {
      User(pte, mem)
    }

    // Nothing outside directory d is different from before, and d is still one.
    twostate predicate Apart(d: nat)
      reads this
    {
      OnlyUnder(old(tables), old(kernel), tables, kernel, d)
    }

    // kalloc
    method Kalloc(ghost held: multiset<nat>) returns (r: Option<nat>)
      requires Inv(held)
      modifies this`free, this`count
      ensures r.None? <==> old(free) == []
      ensures r.None? ==> free == old(free) && count == old(count)
      ensures r.Some? ==> old(free)[0] < |old(count)|
      ensures r.Some? ==> free == old(free)[1..] && r.value == old(free)[0] && count == old(count)[r.value := 1]
      ensures r.Some? ==> Inv(held + multiset{r.value}) && g.Managed(r.value)
      ensures r.Some? ==> Maps(pte, r.value) == {} && r.value !in kernel && held[r.value] == 0
    {
      if free == [] {
        return None;
      }
      KallocPage(g, S(), held);
      KallocOk(g, S(), held);
      var p := free[0];
      free := free[1..];
      count := count[p := 1];
      r := Some(p);
    }

    // kfree; false stands for its panics.
    method Kfree(p: nat) returns (ok: bool)
      requires |count| == g.top
      modifies this`free, this`mem, this`count
      ensures ok <==> g.InRange(p) && old(count)[p] > 0
      ensures ok ==> count == old(count)[p := old(count)[p] - 1]
      ensures ok ==> mem == if old(count)[p] == 1 then old(mem)[p := Junk()] else old(mem)
      ensures ok ==> free == if old(count)[p] == 1 then [p] + old(free) else old(free)
    {
      if !g.InRange(p) {
        return false;
      }
      count := count[p := count[p] - 1];
      if count[p] < 0 {
        return false;
      }
      if count[p] != 0 {
        return true;
      }
      mem := mem[p := Junk()];
      free := [p] + free;
      ok := true;
    }

    // incrementRefCount; false stands for its panics.
    method IncrementRefCount(p: nat) returns (ok: bool)
      requires |count| == g.top
      modifies this`count
      ensures ok <==> g.InRange(p) && old(count)[p] != 0
      ensures ok ==> count == old(count)[p := old(count)[p] + 1]
    {
      if !g.InRange(p) || count[p] == 0 {
        return false;
      }
      count := count[p := count[p] + 1];
      ok := true;
    }

    // memset or memmove into a page that is not mapped.
    method Memset(p: nat, data: Page, ghost held: multiset<nat>)
      requires Inv(held) && g.Managed(p) && Maps(pte, p) == {}
      modifies this`mem
      ensures Inv(held) && Seen() == old(Seen()) && mem == old(mem)[p := data]
    {
      UserFill(pte, mem, p, data);
      mem := mem[p := data];
    }

    // The new directory entry that walkpgdir makes for a page table.
    method SetPde(t: Pde, p: nat, ghost held: multiset<nat>)
      requires Inv(held) && held[p] > 0 && g.Managed(p) && Maps(pte, p) == {} && p !in kernel
      requires t !in tables && t.index < NPDENTRIES && t.dir in kernel && kernel[t.dir] == Dir
      modifies this`tables, this`kernel
      ensures Inv(held - multiset{p}) && Apart(t.dir)
      ensures tables == old(tables)[t := p] && kernel == old(kernel)[p := Table(t)]
    {
      AddTable(g, S(), held, p, t);
      AddedUnder(tables, kernel, p, t);
      kernel := kernel[p := Table(t)];
      tables := tables[t := p];
    }

    // walkpgdir with alloc != 0, for a page of the user part or of the kernel part.
    method WalkAlloc(d: nat, index: nat, ghost held: multiset<nat>) returns (found: bool)
      requires Inv(held) && d in kernel && kernel[d] == Dir && index < NPDENTRIES
      modifies this`free, this`mem, this`tables, this`kernel, this`count
      ensures Inv(held) && Seen() == old(Seen()) && Apart(d)
      ensures found <==> Pde(d, index) in tables
      ensures !found ==> old(free) == []
      ensures tables.Keys == if found then old(tables).Keys + {Pde(d, index)} else old(tables).Keys
      ensures |free| == |old(free)| - if found && Pde(d, index) !in old(tables) then 1 else 0
      ensures forall t | t in old(tables) :: t in tables
      ensures Untouched(held, old(mem), old(kernel), mem, kernel)
    {
      hide Ok, User, OnlyUnder;
      OnlyUnderRefl(tables, kernel, d);
      if Pde(d, index) in tables {
        return true;
      }
      var r := Kalloc(held);
      if r.None? {
        return false;
      }
      HangTable(Pde(d, index), r.value, held);
      found := true;
    }

    // A page just allocated becomes an empty page table.
    method HangTable(t: Pde, p: nat, ghost held: multiset<nat>)
      requires Inv(held + multiset{p}) && g.Managed(p) && Maps(pte, p) == {} && p !in kernel && held[p] == 0
      requires t !in tables && t.index < NPDENTRIES && t.dir in kernel && kernel[t.dir] == Dir
      modifies this`mem, this`tables, this`kernel
      ensures Inv(held) && Seen() == old(Seen()) && Apart(t.dir)
      ensures tables == old(tables)[t := p] && kernel == old(kernel)[p := Table(t)] && mem == old(mem)[p := ZeroPage()]
    {
      hide Ok, User;
      Memset(p, ZeroPage(), held + multiset{p});
      SetPde(t, p, held + multiset{p});
      assert held + multiset{p} - multiset{p} == held;
    }

    // mappages for one page; the caller's reference to it becomes the entry's.
    method Mappages(k: VAddr, e: Pte, ghost held: multiset<nat>) returns (r: Mapping)
      requires Inv(held) && k.dir in kernel && kernel[k.dir] == Dir
      requires Mappable(g, S(), held, k, e)
      modifies this`free, this`mem, this`pte, this`tables, this`kernel, this`count
      ensures Apart(k.dir)
      ensures r.Remap? <==> k in old(pte)
      ensures r.NoTable? ==> Inv(held) && Seen() == old(Seen()) && pte == old(pte) && old(free) == []
      ensures r.NoTable? ==> Pde(k.dir, k.page / NPTENTRIES) !in old(tables)
      ensures r.Mapped? ==> tables.Keys == old(tables).Keys + {Pde(k.dir, k.page / NPTENTRIES)}
      ensures r.Mapped? ==> |free| == |old(free)| - if Pde(k.dir, k.page / NPTENTRIES) in old(tables) then 0 else 1
      ensures r.Mapped? ==> Inv(held - multiset{e.ppn}) && pte == old(pte)[k := e]
      ensures r.Mapped? ==> Seen() == old(Seen())[k := Cell(old(mem)[e.ppn], e.u)]
    {
      hide Ok, User, OnlyUnder;
      if k in pte {
        PageBelow(g, S(), held, k);
      }
      var found := WalkAlloc(k.dir, k.page / NPTENTRIES, held);
      if !found {
        return NoTable;
      }
      if k in pte {
        return Remap;
      }
      SetPte(k, e, held);
      r := Mapped;
    }

    // The entry that mappages writes.
    method SetPte(k: VAddr, e: Pte, ghost held: multiset<nat>)
      requires Inv(held) && Mappable(g, S(), held, k, e) && k !in pte && Pde(k.dir, k.page / NPTENTRIES) in tables
      modifies this`pte
      ensures Inv(held - multiset{e.ppn}) && pte == old(pte)[k := e]
      ensures Seen() == old(Seen())[k := Cell(mem[e.ppn], e.u)]
    {
      hide Ok;
      MapPage(g, S(), held, k, e);
      pte := pte[k := e];
    }

    // The body of the loop of deallocuvm for a present entry.
    method Unmap(k: VAddr, ghost held: multiset<nat>)
      requires Inv(held) && k in pte
      modifies this`free, this`mem, this`pte, this`count
      ensures Inv(held) && pte == old(pte) - {k} && Seen() == old(Seen()) - {k} && |free| >= |old(free)|
    {
      hide Ok;
      UnmapPage(g, S(), held, k);
      var ok := Kfree(pte[k].ppn);
      assert ok;
      pte := pte - {k};
    }

    // One round of the loop of deallocuvm where there is a page table.
    method UnmapAt(d: nat, a: nat, ghost lo: nat, ghost pte0: map<VAddr, Pte>, ghost u0: Memory,
                   ghost held: multiset<nat>)
      requires Inv(held) && lo <= a && Cut(pte0, u0, d, lo, a, pte, Seen())
      modifies this`free, this`mem, this`pte, this`count
      ensures Inv(held) && Cut(pte0, u0, d, lo, a + 1, pte, Seen()) && |free| >= |old(free)|
    {
      hide Ok;
      CutOne(pte0, u0, d, lo, a);
      if VAddr(d, a) in pte {
        Unmap(VAddr(d, a), held);
      } else {
        assert VAddr(d, a) !in Seen();
      }
    }

    // deallocuvm
    method DeallocUvm(d: nat, oldsz: nat, newsz: nat, ghost held: multiset<nat>) returns (sz: nat)
      requires Inv(held) && oldsz <= KERNBASE
      modifies this`free, this`mem, this`pte, this`count
      ensures Inv(held) && |free| >= |old(free)|
      ensures sz == if newsz >= oldsz then oldsz else newsz
      ensures Cut(old(pte), old(Seen()), d, RoundUp(newsz), if newsz >= oldsz then RoundUp(newsz) else RoundUp(oldsz),
          pte, Seen())
    {
      hide Ok, Cut, User;
      CutNothing(pte, Seen(), d, RoundUp(newsz));
      if newsz >= oldsz {
        return oldsz;
      }
      var a := RoundUp(newsz);
      ghost var lo, hi, pte0, u0 := RoundUp(newsz), RoundUp(oldsz), pte, Seen();
      while a * PGSIZE < oldsz
        invariant lo <= a && Inv(held) && |free| >= |old(free)|
        invariant Cut(pte0, u0, d, lo, if a < hi then a else hi, pte, Seen())
        decreases oldsz - a * PGSIZE
      {
        if Pde(d, a / NPTENTRIES) !in tables {
          a := SkipTable(d, a, lo, hi, pte0, u0, held);
        } else {
          UnmapAt(d, a, lo, pte0, u0, held);
          a := a + 1;
        }
      }
      sz := newsz;
    }

    // Where there is no page table, deallocuvm goes on behind it.
    method SkipTable(d: nat, a: nat, ghost lo: nat, ghost hi: nat, ghost pte0: map<VAddr, Pte>, ghost u0: Memory,
                     ghost held: multiset<nat>) returns (next: nat)
      requires Inv(held) && lo <= a < hi && Pde(d, a / NPTENTRIES) !in tables && Cut(pte0, u0, d, lo, a, pte, Seen())
      ensures next > a && Cut(pte0, u0, d, lo, if next < hi then next else hi, pte, Seen())
    {
      next := (a / NPTENTRIES + 1) * NPTENTRIES;
      CutAbsent(pte0, u0, pte, mem, tables, d, lo, a, if next < hi then next else hi);
    }

    // The body of the loop of freevm: a page table goes. Its directory entry goes with the directory.
    method FreeTable(t: Pde, ghost held: multiset<nat>)
      requires Inv(held) && t in tables && MapsNothing(pte, t)
      modifies this`free, this`mem, this`tables, this`kernel, this`count
      ensures Inv(held) && Seen() == old(Seen()) && Apart(t.dir) && |free| >= |old(free)|
      ensures tables == old(tables) - {t}
    {
      hide Ok;
      RemoveTable(g, S(), held, t);
      RemovedUnder(tables, kernel, t);
      var ok := Kfree(tables[t]);
      assert ok;
      kernel := kernel - {tables[t]};
      tables := tables - {t};
    }

    // The last kfree of freevm, and the one of a kernel stack.
    method FreeKernelPage(p: nat, ghost held: multiset<nat>)
      requires Inv(held) && p in kernel && !kernel[p].Table? && forall t | t in tables :: t.dir != p
      modifies this`free, this`mem, this`kernel, this`count
      ensures Inv(held) && Seen() == old(Seen()) && kernel == old(kernel) - {p} && |free| >= |old(free)|
    {
      hide Ok;
      DisownPage(g, S(), held, p);
      var ok := Kfree(p);
      assert ok;
      kernel := kernel - {p};
    }

    // freevm
    method FreeVm(d: nat, ghost held: multiset<nat>)
      requires Inv(held) && d in kernel && kernel[d] == Dir
      modifies this`free, this`mem, this`pte, this`tables, this`kernel, this`count
      ensures Inv(held) && Seen() == Without(old(Seen()), d) && pte.Keys == KeysApart(old(pte).Keys, d)
      ensures tables == TablesApart(old(tables), d) && kernel == KernelApart(old(kernel), d) && |free| >= |old(free)|
    {
      hide Ok, User, OnlyUnder, Cut;
      ghost var s0 := S();
      var sz := DeallocUvm(d, KERNBASE, 0, held);
      CutAll(g, s0, held, d, pte, Seen());
      OnlyUnderRefl(tables, kernel, d);
      ghost var u := Seen();
      var i := 0;
      while i < NPDENTRIES
        modifies this`free, this`mem, this`tables, this`kernel, this`count
        invariant i <= NPDENTRIES && Inv(held) && Seen() == u && |free| >= |old(free)|
        invariant OnlyUnder(old(tables), old(kernel), tables, kernel, d)
        invariant forall j: nat | j < i :: Pde(d, j) !in tables
      {
        if Pde(d, i) in tables {
          label before:
          FreeTable(Pde(d, i), held);
          OnlyUnderTrans(old(tables), old(kernel), old@before(tables), old@before(kernel), tables, kernel, d);
        }
        i := i + 1;
      }
      NoneUnder(g, S(), held, old(tables), old(kernel), d);
      FreeKernelPage(d, held);
    }

    // setupkvm: a page directory with the page tables of the kernel part, or nothing at all.
    method SetupKvm(ghost held: multiset<nat>) returns (r: Option<nat>)
      requires Inv(held)
      modifies this`free, this`mem, this`pte, this`tables, this`kernel, this`count
      ensures Inv(held) && Seen() == old(Seen())
      ensures r.None? ==> tables == old(tables) && kernel == old(kernel) && pte.Keys == old(pte).Keys
      ensures r.None? ==> |old(free)| < DirPages()
      ensures r.Some? ==> |free| == |old(free)| - DirPages() && forall j: nat | j < NPDENTRIES / 2 ::
        Pde(r.value, j) !in tables
      ensures r.Some? ==> Fresh(old(tables), old(kernel), r.value) && r.value in kernel && kernel[r.value] == Dir
      ensures r.Some? ==> OnlyUnder(old(tables), old(kernel)[r.value := Dir], tables, kernel, r.value)
      ensures r.Some? ==> pte == old(pte)
    {
      hide Ok, User, OnlyUnder;
      r := Kalloc(held);
      if r.None? {
        return;
      }
      var d := r.value;
      FreshPage(g, S(), held + multiset{d}, d);
      NoTableYet(tables, kernel, d);
      NoneYet(g, S(), held + multiset{d}, d);
      Memset(d, ZeroPage(), held + multiset{d});
      OwnDir(d, held);
      OnlyUnderRefl(tables, kernel, d);
      var i := 0;
      while i < |KernelPdes()|
        invariant i <= |KernelPdes()| && Inv(held) && Seen() == old(Seen()) && pte == old(pte)
        invariant d in kernel && kernel[d] == Dir
        invariant OnlyUnder(old(tables), old(kernel)[d := Dir], tables, kernel, d)
        invariant |free| == |old(free)| - 1 - i && forall t | t in tables && t.dir == d :: t.index in KernelPdes()[..i]
      {
        label before:
        NextPde(i);
        var found := WalkAlloc(d, KernelPdes()[i], held);
        OnlyUnderTrans(old(tables), old(kernel)[d := Dir], old@before(tables), old@before(kernel), tables, kernel, d);
        if !found {
          FreeVm(d, held);
          ApartFresh(old(tables), old(kernel), old(Seen()), d);
          ApartKeys(old(pte).Keys, old(pte).Keys, d);
          return None;
        }
        i := i + 1;
      }
    }

    // A page just allocated becomes a page directory.
    method OwnDir(d: nat, ghost held: multiset<nat>)
      requires Inv(held + multiset{d}) && g.Managed(d) && Maps(pte, d) == {} && d !in kernel
      modifies this`kernel
      ensures Inv(held) && kernel == old(kernel)[d := Dir]
    {
      hide Ok;
      OwnPage(g, S(), held + multiset{d}, d, Dir);
      assert held + multiset{d} - multiset{d} == held;
      kernel := kernel[d := Dir];
    }

    // One round of the loop of allocuvm: a zeroed page at k, or nothing.
    method GrowPage(k: VAddr, ghost held: multiset<nat>) returns (ok: bool)
      requires Inv(held) && k.dir in kernel && kernel[k.dir] == Dir && k !in pte && k.page * PGSIZE < KERNBASE
      modifies this`free, this`mem, this`pte, this`tables, this`kernel, this`count
      ensures Inv(held) && Apart(k.dir)
      ensures pte.Keys == if ok then old(pte).Keys + {k} else old(pte).Keys
      ensures ok ==> pte[k].w && pte[k].u
      ensures Seen() == if ok then old(Seen())[k := Cell(ZeroPage(), true)] else old(Seen())
      ensures var t := Pde(k.dir, k.page / NPTENTRIES); var n := if t in old(tables) then 1 else 2;
        if ok then |free| == |old(free)| - n && tables.Keys == old(tables).Keys + {t} else |old(free)| < n
    {
      hide Ok, User, OnlyUnder;
      OnlyUnderRefl(tables, kernel, k.dir);
      var r := Kalloc(held);
      if r.None? {
        return false;
      }
      var p := r.value;
      var e := Pte(p, true, true, false);
      Memset(p, ZeroPage(), held + multiset{p});
      NewMappable(g, S(), held, k, e);
      var m := Mappages(k, e, held + multiset{p});
      assert held + multiset{p} - multiset{p} == held;
      if m.NoTable? {
        KfreeHeld(g, S(), held + multiset{p}, p);
        var freed := Kfree(p);
        assert freed;
        return false;
      }
      ok := true;
    }

    // allocuvm
    method AllocUvm(d: nat, oldsz: nat, newsz: nat, ghost held: multiset<nat>) returns (sz: nat)
      requires Inv(held) && d in kernel && kernel[d] == Dir && Below(pte.Keys, d, RoundUp(oldsz))
      modifies this`free, this`mem, this`pte, this`tables, this`kernel, this`count
      ensures Inv(held) && Apart(d) && d in kernel && kernel[d] == Dir
      ensures sz == 0 || sz == if newsz < oldsz then oldsz else newsz
      ensures newsz >= KERNBASE ==> sz == 0 && free == old(free)
      ensures KeysApart(pte.Keys, d) == KeysApart(old(pte).Keys, d)
      ensures sz == newsz >= oldsz ==>
                && Seen() == Grown(old(Seen()), d, RoundUp(oldsz), RoundUp(newsz))
                && Below(pte.Keys, d, RoundUp(newsz))
      ensures !(sz == newsz >= oldsz) ==> Seen() == old(Seen()) && Below(pte.Keys, d, RoundUp(oldsz))
      ensures oldsz < newsz < KERNBASE ==>
                var need := AllocNeed(old(tables).Keys, d, RoundUp(oldsz), RoundUp(newsz));
                if sz == 0 then |old(free)| < need else |free| == |old(free)| - need
    {
      hide Ok, User, OnlyUnder, Taken, AllocNeed, GrownSoFar;
      OnlyUnderRefl(tables, kernel, d);
      if newsz >= KERNBASE {
        return 0;
      }
      if newsz < oldsz {
        return oldsz;
      }
      ghost var lo, u0 := RoundUp(oldsz), Seen();
      TakenNone(tables.Keys, |free|, d, lo);
      GrownNone(u0, pte.Keys, d, lo);
      var a := RoundUp(oldsz);
      while a * PGSIZE < newsz
        invariant lo <= a <= RoundUp(newsz) && Inv(held)
        invariant GrownSoFar(u0, old(pte).Keys, d, lo, a, Seen(), pte.Keys)
        invariant OnlyUnder(old(tables), old(kernel), tables, kernel, d)
        invariant d in kernel && kernel[d] == Dir
        invariant Taken(old(tables).Keys, |old(free)|, d, lo, a, tables.Keys, |free|)
        decreases newsz - a * PGSIZE
      {
        label before:
        NewTablesGrow(old(tables).Keys, d, lo, a + 1, RoundUp(newsz));
        TakenOne(old(tables).Keys, |old(free)|, d, lo, a, tables.Keys, |free|);
        GrownMeans(u0, old(pte).Keys, d, lo, a, Seen(), pte.Keys);
        GrownOneMore(u0, old(pte).Keys, d, lo, a, Seen(), pte.Keys);
        var ok := GrowPage(VAddr(d, a), held);
        OnlyUnderTrans(old(tables), old(kernel), old@before(tables), old@before(kernel), tables, kernel, d);
        if !ok {
          label full:
          var back := DeallocUvm(d, newsz, oldsz, held);
          SeenKeys(old(pte), old(mem));
          CutKeys(old@full(pte), pte, d, lo, RoundUp(newsz));
          CutGrown(u0, d, lo, a, RoundUp(newsz));
          return 0;
        }
        a := a + 1;
      }
      TakenAll(old(tables).Keys, |old(free)|, d, lo, a, tables.Keys, |free|);
      GrownMeans(u0, old(pte).Keys, d, lo, a, Seen(), pte.Keys);
      sz := newsz;
    }

    // The part of the loop of copyuvm that touches the parent's entry: it loses
    // its write permission, and the caller gets a reference to the page.
    method ShareEntry(k: VAddr, ghost held: multiset<nat>)
      requires Inv(held) && k in pte
      modifies this`pte, this`count
      ensures Inv(held + multiset{old(pte)[k].ppn}) && Seen() == old(Seen())
      ensures pte == old(pte)[k := old(pte)[k].(w := false, cow := true)]
      ensures g.Managed(pte[k].ppn) && pte[k].ppn !in kernel && pte[k].ppn in mem && Protected(pte, pte[k].ppn)
    {
      hide Ok, User;
      ProtectEntry(g, S(), held, k);
      pte := pte[k := pte[k].(w := false, cow := true)];
      SharedPage(g, S(), held, k);
      IncrefOk(g, S(), held, pte[k].ppn);
      var ok := IncrementRefCount(pte[k].ppn);
      assert ok;
    }

    // The body of the loop of copyuvm for a present entry; false when there is no page table.
    method CopyEntry(k: VAddr, j: VAddr, ghost held: multiset<nat>) returns (ok: bool)
      requires Inv(held) && k in pte && j !in pte && j.page == k.page && j.dir in kernel && kernel[j.dir] == Dir
      modifies this`free, this`mem, this`pte, this`tables, this`kernel, this`count
      ensures Inv(held) && Apart(j.dir) && k in old(Seen())
      ensures pte.Keys == if ok then old(pte).Keys + {j} else old(pte).Keys
      ensures Seen() == if ok then old(Seen())[j := old(Seen())[k]] else old(Seen())
      ensures k.page < KERNBASE / PGSIZE
      ensures var t := Pde(j.dir, j.page / NPTENTRIES);
        if ok then |free| == |old(free)| - (if t in old(tables) then 0 else 1) && tables.Keys == old(tables).Keys + {t}
        else t !in old(tables) && old(free) == []
    {
      hide Ok;
      PageBelow(g, S(), held, k);
      ShareEntry(k, held);
      var e := pte[k];
      var m := Mappages(j, e, held + multiset{e.ppn});
      assert held + multiset{e.ppn} - multiset{e.ppn} == held;
      if m.NoTable? {
        KfreeHeld(g, S(), held + multiset{e.ppn}, e.ppn);
        var freed := Kfree(e.ppn);
        assert freed;
        return false;
      }
      ok := true;
    }

    // copyuvm; NotPresent stands for its panics.
    method CopyUvm(d: nat, sz: nat, ghost held: multiset<nat>) returns (r: Copy)
      requires Inv(held) && d in kernel && kernel[d] == Dir
      modifies this`free, this`mem, this`pte, this`tables, this`kernel, this`count
      ensures !r.NotPresent? ==> Inv(held)
      ensures r.CopyOf? ==> forall i: nat | i < RoundUp(sz) :: VAddr(d, i) in old(Seen())
      ensures r.CopyOf? ==> Seen() == Copied(old(Seen()), d, r.dir, RoundUp(sz))
      ensures r.CopyOf? ==> Fresh(old(tables), old(kernel), r.dir) && Below(pte.Keys, r.dir, RoundUp(sz))
      ensures r.CopyOf? ==> r.dir in kernel && kernel[r.dir] == Dir
      ensures r.CopyOf? ==> OnlyUnder(old(tables), old(kernel)[r.dir := Dir], tables, kernel, r.dir)
      ensures r.CopyOf? ==> OnlyIn(old(pte).Keys, pte.Keys, r.dir)
      ensures r.NoMemory? ==> Seen() == old(Seen()) && tables == old(tables) && kernel == old(kernel)
      ensures r.NoMemory? ==> pte.Keys == old(pte).Keys
      ensures r.NoMemory? ==> |old(free)| < DirPages() + TablesFor(RoundUp(sz))
      ensures r.CopyOf? ==> |free| == |old(free)| - DirPages() - TablesFor(RoundUp(sz))
      ensures r.NotPresent? ==> exists i: nat :: i < RoundUp(sz) && VAddr(d, i) !in old(Seen())
    {
      hide Ok, User, OnlyUnder, OnlyIn, Copied, CopiedSoFar, TakenByCopy, DirPages, TablesFor;
      var n := SetupKvm(held);
      if n.None? {
        return NoMemory;
      }
      var c := n.value;
      CopyTakesNone(|old(free)|, c, tables.Keys, |free|);
      ghost var tables1, kernel1, u0 := old(tables), old(kernel)[c := Dir], Seen();
      SeenKeys(pte, mem);
      NoneYet(g, old(S()), held, c);
      CopiedNone(u0, pte.Keys, d, c);
      var i := 0;
      while i * PGSIZE < sz
        invariant i <= RoundUp(sz) && Inv(held)
        invariant c in kernel && kernel[c] == Dir && OnlyUnder(tables1, kernel1, tables, kernel, c)
        invariant CopiedSoFar(u0, old(pte).Keys, d, c, i, Seen(), pte.Keys)
        invariant TakenByCopy(|old(free)|, c, i, tables.Keys, |free|)
        decreases sz - i * PGSIZE
      {
        SeenKeys(pte, mem);
        MissingBefore(u0, old(pte).Keys, d, c, i, Seen(), pte.Keys);
        if VAddr(d, i) !in pte {
          return NotPresent;
        }
        label before:
        PageBelow(g, S(), held, VAddr(d, i));
        CopyTakesOne(|old(free)|, c, i, RoundUp(sz), tables.Keys, |free|);
        var ok := CopyEntry(VAddr(d, i), VAddr(c, i), held);
        OnlyUnderTrans(tables1, kernel1, old@before(tables), old@before(kernel), tables, kernel, c);
        CopiedOneMore(u0, old(pte).Keys, d, c, i, old@before(Seen()), old@before(pte).Keys);
        if !ok {
          FreeVm(c, held);
          ApartFresh(old(tables), old(kernel), u0, c);
          CopiedMeans(u0, old(pte).Keys, d, c, i, old@before(Seen()), old@before(pte).Keys);
          CopyUndone(u0, d, c, i);
          ApartKeys(old(pte).Keys, old@before(pte).Keys, c);
          return NoMemory;
        }
        i := i + 1;
      }
      CopiedMeans(u0, old(pte).Keys, d, c, i, Seen(), pte.Keys);
      CopyTakes(|old(free)|, c, i, tables.Keys, |free|);
      r := CopyOf(c);
    }

    // handle_pgflt_helper; false stands for its panics.
    method HandlePageFault(k: VAddr, ghost held: multiset<nat>) returns (ok: bool)
      requires Inv(held)
      modifies this`free, this`mem, this`pte, this`count
      ensures ok <==> k in old(pte) && old(pte)[k].u && old(free) != []
      ensures Inv(held) && Seen() == old(Seen())
      ensures ok ==> pte.Keys == old(pte).Keys && k in pte && pte[k].w && pte[k].u
      ensures !ok ==> pte == old(pte)
      ensures |free| >= |old(free)| - 1
    {
      hide Ok;
      if k !in pte || !pte[k].u {
        return false;
      }
      PageBelow(g, S(), held, k);
      if !pte[k].w && !pte[k].cow {
        return false;
      }
      var r := Kalloc(held);
      if r.None? {
        return false;
      }
      Recopy(k, r.value, held);
      ok := true;
    }

    // The rest of the handler: copy the page, drop the reference to the old one, map the copy writable.
    method Recopy(k: VAddr, p: nat, ghost held: multiset<nat>)
      requires Inv(held + multiset{p}) && k in pte && pte[k].u
      requires g.Managed(p) && Maps(pte, p) == {} && p !in kernel
      modifies this`free, this`mem, this`pte, this`count
      ensures Inv(held) && Seen() == old(Seen())
      ensures pte == old(pte)[k := Pte(p, true, true, false)] && |free| >= |old(free)|
    {
      hide Ok, User;
      var pa := pte[k].ppn;
      PageBelow(g, S(), held + multiset{p}, k);
      SeenAt(pte, mem, k);
      Memset(p, mem[pa], held + multiset{p});
      UnmapPage(g, S(), held + multiset{p}, k);
      NotMapped(pte, p);
      var ok := Kfree(pa);
      assert ok;
      var e := Pte(p, true, true, false);
      Reset(pte, k, e);
      NotMappedWithout(pte, k, p);
      RemapPage(g, Pages(free, count, mem, pte - {k}, tables, kernel), held, k, e);
      pte := pte[k := e];
      Reset(old(Seen()), k, old(Seen())[k]);
    }

    // ---- Processes ----

    // Between system calls: counts exact with nothing in hand, and every directory
    // and kernel stack belongs to exactly one process.
    ghost predicate Idle()
      reads this
    {
      Inv(multiset{}) && ProcsOk(procs, kernel, pte.Keys) && pipes == PipePages(kernel)
    }

    ghost function Abstract(): World
      reads this
    {
      World(Seen(), Sizes(procs), pipes)
    }

    // The kernel stack that allocproc allocates.
    method AllocStack() returns (r: Option<nat>)
      requires Idle()
      modifies this`free, this`kernel, this`count
      ensures Inv(multiset{})
      ensures r.None? ==> kernel == old(kernel) && old(free) == []
      ensures r.Some? ==> |free| == |old(free)| - 1
      ensures r.Some? ==> r.value !in old(kernel) && kernel == old(kernel)[r.value := Stack(r.value)]
    {
      hide Ok, ProcsOk, PipePages;
      r := Kalloc(multiset{});
      if r.None? {
        return;
      }
      OwnPage(g, S(), multiset{} + multiset{r.value}, r.value, Stack(r.value));
      assert multiset{} + multiset{r.value} - multiset{r.value} == multiset{};
      kernel := kernel[r.value := Stack(r.value)];
    }

    // fork
    method Fork(p: nat) returns (r: Reply)
      requires Idle() && p in procs
      modifies this`free, this`mem, this`pte, this`tables, this`kernel, this`procs, this`count
      ensures !r.Panicked? ==> Idle()
      ensures Step(old(Abstract()), Request.Fork(p), r, Abstract())
      ensures var need := 1 + DirPages() + TablesFor(RoundUp(old(procs)[p].sz));
        (r.Failed? ==> |old(free)| < need) && (r.Child? ==> |free| == |old(free)| - need)
    {
      hide Ok, User, OnlyUnder, ProcsOk, PipePages;
      ProcEntry(procs, kernel, pte.Keys, p);
      var ks := AllocStack();
      if ks.None? {
        return Failed;
      }
      ghost var tables1, kernel1 := tables, kernel;
      var c := CopyUvm(p, procs[p].sz, multiset{});
      if c.NotPresent? {
        return Panicked;
      }
      if c.NoMemory? {
        NotADir(g, S(), multiset{}, ks.value);
        FreeKernelPage(ks.value, multiset{});
        assert kernel == old(kernel);
        return Failed;
      }
      NewProc(procs, old(kernel), old(pte).Keys, procs[p].sz, c.dir, ks.value, tables1, tables, kernel, pte.Keys);
      SetStack(ks.value, c.dir);
      procs := procs[c.dir := Proc(procs[p].sz, ks.value)];
      SizesAdd(old(procs), c.dir, procs[c.dir]);
      r := Child(c.dir);
    }

    // The kernel stack is the new process's.
    ghost method SetStack(q: nat, c: nat)
      requires Inv(multiset{}) && q in kernel && kernel[q].Stack?
      modifies this`kernel
      ensures Inv(multiset{}) && kernel == old(kernel)[q := Stack(c)]
    {
      hide Ok;
      Restack(g, S(), multiset{}, q, c);
      kernel := kernel[q := Stack(c)];
    }

    // growproc, for any C int n.
    method GrowProc(p: nat, n: int) returns (r: Reply)
      requires Idle() && p in procs && -0x8000_0000 <= n < 0x8000_0000
      modifies this`free, this`mem, this`pte, this`tables, this`kernel, this`procs, this`count
      ensures Idle() && Step(old(Abstract()), Sbrk(p, n), r, Abstract())
      ensures n <= 0 ==> |free| >= |old(free)|
      ensures var size := old(procs)[p].sz; var goal := NewSize(size, n);
        n > 0 && goal < KERNBASE ==>
          var need := AllocNeed(old(tables).Keys, p, RoundUp(size), RoundUp(goal));
          if r.Failed? then |old(free)| < need else |free| == |old(free)| - need
      ensures n > 0 && NewSize(old(procs)[p].sz, n) >= KERNBASE ==> free == old(free)
    {
      hide Ok, User, OnlyUnder, ProcsOk, PipePages;
      ProcEntry(procs, kernel, pte.Keys, p);
      var size := procs[p].sz;
      var sz := size;
      if n > 0 {
        sz := AllocUvm(p, size, NewSize(size, n), multiset{});
        ResizedProc(procs, old(kernel), old(pte).Keys, p, if sz == 0 then size else sz, old(tables), tables, kernel,
            pte.Keys);
        if sz == 0 {
          return Failed;
        }
      } else if n < 0 {
        sz := DeallocUvm(p, size, NewSize(size, n), multiset{});
        CutMeans(old(pte), old(Seen()), p, size, NewSize(size, n), pte, Seen());
        OnlyUnderRefl(tables, kernel, p);
        ResizedProc(procs, kernel, old(pte).Keys, p, if sz == 0 then size else sz, tables, tables, kernel, pte.Keys);
        if sz == 0 {
          return Failed;
        }
      }
      assert n == 0 ==> procs[p := procs[p].(sz := sz)] == procs;
      procs := procs[p := procs[p].(sz := sz)];
      r := Done;
    }

    // What wait does with a zombie child: its kernel stack and its memory go.
    method Reap(p: nat) returns (r: Reply)
      requires Idle() && p in procs
      modifies this`free, this`mem, this`pte, this`tables, this`kernel, this`procs, this`count
      ensures Idle() && Step(old(Abstract()), Request.Reap(p), r, Abstract()) && |free| >= |old(free)|
    {
      hide Ok, User, OnlyUnder, ProcsOk, PipePages;
      ProcEntry(procs, kernel, pte.Keys, p);
      var ks := procs[p].kstack;
      NotADir(g, S(), multiset{}, ks);
      FreeKernelPage(ks, multiset{});
      FreeVm(p, multiset{});
      GoneProc(procs, old(kernel), old(pte).Keys, p);
      GonePipes(old(kernel), ks, p);
      procs := procs - {p};
      r := Done;
    }

    // What pipealloc and the last pipeclose do with the page of a pipe.
    method OpenPipe(p: nat) returns (r: Reply)
      requires Idle() && p in procs
      modifies this`free, this`kernel, this`pipes, this`count
      ensures Idle() && Step(old(Abstract()), Request.OpenPipe(p), r, Abstract())
      ensures if r.Failed? then old(free) == [] else |free| == |old(free)| - 1
    {
      hide Ok, User, ProcsOk, PipePages;
      var q := Kalloc(multiset{});
      if q.None? {
        return Failed;
      }
      PipeProcs(procs, kernel, pte.Keys, q.value);
      OwnPage(g, S(), multiset{} + multiset{q.value}, q.value, Owner.Pipe);
      assert multiset{} + multiset{q.value} - multiset{q.value} == multiset{};
      NoSuchPipe(kernel, q.value);
      kernel := kernel[q.value := Owner.Pipe];
      pipes := pipes + {q.value};
      r := Opened(q.value);
    }

    method ClosePipe(p: nat, q: nat) returns (r: Reply)
      requires Idle() && p in procs
      modifies this`free, this`mem, this`kernel, this`pipes, this`count
      ensures Idle() && Step(old(Abstract()), Request.ClosePipe(p, q), r, Abstract()) && |free| >= |old(free)|
    {
      hide Ok, User, ProcsOk;
      if q !in pipes {
        return NoPipe;
      }
      PipeProcs(procs, kernel, pte.Keys, q);
      NotADir(g, S(), multiset{}, q);
      FreeKernelPage(q, multiset{});
      pipes := pipes - {q};
      r := Done;
    }

    // A user store: the hardware checks the entry, and a page fault comes in between if need be.
    method Store(p: nat, va: nat, b: int) returns (r: Reply)
      requires Idle() && p in procs
      modifies this`free, this`mem, this`pte, this`count
      ensures !r.Panicked? ==> Idle()
      ensures Step(old(Abstract()), Write(p, va, b), r, Abstract())
      ensures (r.Failed? ==> old(free) == []) && |free| >= |old(free)| - 1
    {
      hide Ok, User, ProcsOk;
      var k := VAddr(p, va / PGSIZE);
      SeenIff(g, S(), multiset{}, k);
      if k !in pte || !pte[k].u {
        return Panicked;
      }
      if !pte[k].w {
        var ok := HandlePageFault(k, multiset{});
        if !ok {
          return Failed;
        }
      }
      SeenIff(g, S(), multiset{}, k);
      StoreOk(g, S(), multiset{}, k, mem[pte[k].ppn][va % PGSIZE := b]);
      mem := mem[pte[k].ppn := mem[pte[k].ppn][va % PGSIZE := b]];
      r := Done;
    }

    // A user load.
    method Load(p: nat, va: nat) returns (r: Reply)
      requires Idle() && p in procs
      ensures Step(Abstract(), Read(p, va), r, Abstract())
    {
      hide Ok, User, ProcsOk;
      var k := VAddr(p, va / PGSIZE);
      SeenIff(g, S(), multiset{}, k);
      if k !in pte || !pte[k].u {
        return Panicked;
      }
      r := Byte(mem[pte[k].ppn][va % PGSIZE]);
    }

    method Handle(rq: Request) returns (r: Reply)
      requires Idle() && (rq.Sbrk? ==> -0x8000_0000 <= rq.n < 0x8000_0000)
      modifies this`free, this`mem, this`pte, this`tables, this`kernel, this`procs, this`pipes, this`count
      ensures !r.Panicked? ==> Idle()
      ensures Step(old(Abstract()), rq, r, Abstract())
      ensures Refused(old(Abstract()), rq, r) ==> |old(free)| < MostNeeded(old(Abstract()), rq)
      ensures !Refused(old(Abstract()), rq, r) && !r.Panicked? ==>
        |free| >= |old(free)| - MostNeeded(old(Abstract()), rq)
    {
      hide Ok, User, ProcsOk, PipePages, Inv;
      if rq.p !in procs {
        return NoProcess;
      }
      if rq.Sbrk? {
        GrowNeeds(tables.Keys, rq.p, RoundUp(procs[rq.p].sz), RoundUp(NewSize(procs[rq.p].sz, rq.n)));
      }
      match rq
      case Fork(p) => r := Fork(p);
      case Write(p, va, b) => r := Store(p, va, b);
      case Read(p, va) => r := Load(p, va);
      case Sbrk(p, n) => r := GrowProc(p, n);
      case Reap(p) => r := Reap(p);
      case OpenPipe(p) => r := OpenPipe(p);
      case ClosePipe(p, q) => r := ClosePipe(p, q);
    }

    // A run: any sequence of system calls and memory accesses, until something
    // panics. What the processes observe is what processes with private memories
    // would observe, and the counts are exact all along.
    method Serve(rqs: seq<Request>) returns (rps: seq<Reply>, ghost ws: seq<World>)
      requires Idle() && forall i | 0 <= i < |rqs| :: IntSized(rqs[i])
      modifies this`free, this`mem, this`pte, this`tables, this`kernel, this`procs, this`pipes, this`count
      ensures Run(ws, rqs, rps) && ws[0] == old(Abstract())
      ensures |rps| == 0 || !rps[|rps| - 1].Panicked? ==> Idle() && Abstract() == ws[|rqs|]
      ensures Granted(ws, rqs, rps) || |old(free)| < TotalNeeded(ws, rqs, |rps|)
      ensures Tidy(ws[0])
    {
      hide Ok, User, ProcsOk, Step, MostNeeded, Refused, PipePages, Tidy;
      IdleTidy(g, S(), procs, pipes);
      rps, ws := [], [Abstract()];
      while |rps| < |rqs|
        invariant |rps| <= |rqs| && |ws| == |rps| + 1 && Idle()
        invariant ws[0] == old(Abstract()) && ws[|rps|] == Abstract()
        invariant forall i | 0 <= i < |rps| :: Step(ws[i], rqs[i], rps[i], ws[i + 1]) && !rps[i].Panicked?
        invariant if Granted(ws, rqs, rps) then |free| >= |old(free)| - TotalNeeded(ws, rqs, |rps|)
                  else |old(free)| < TotalNeeded(ws, rqs, |rps|)
        decreases |rqs| - |rps|
      {
        var r := Handle(rqs[|rps|]);
        OneMoreNeeded(ws, Abstract(), rqs, rps, r);
        rps, ws := rps + [r], ws + [Abstract()];
        if r.Panicked? {
          return;
        }
      }
    }
  }

  // Memory with one more process, which has one page with the initial code.
  ghost function WithFirst(w: World, p: nat, code: seq<int>): World
    requires |code| < PGSIZE
  {
    World(w.u[VAddr(p, 0) := Cell(InitPage(code), true)], w.sz[p := PGSIZE], w.pipes)
  }

  // What there is when the kernel has booted.
  ghost function FirstWorld(p: nat, code: seq<int>): World
    requires |code| < PGSIZE
  {
    World(map[VAddr(p, 0) := Cell(InitPage(code), true)], map[p := PGSIZE], {})
  }

  // Pages that are free when the kernel has booted.
  function FreeAtFirst(first: nat, others: nat): int {
    PHYSTOP / PGSIZE - first - others - 2 * DirPages() - 3
  }

  // The first process finds its code from address 0 on, and zeroes behind it.
  lemma FirstBytes(p: nat, code: seq<int>, va: nat)
    requires |code| < PGSIZE
    ensures VAddr(p, va / PGSIZE) in FirstWorld(p, code).u <==> va < PGSIZE
    ensures va < PGSIZE ==> ByteAt(FirstWorld(p, code).u, p, va) == if va < |code| then code[va] else 0
    ensures Accessible(FirstWorld(p, code).u, p, va) <==> va < PGSIZE
  {
    if va < PGSIZE { assert va / PGSIZE == 0 && va % PGSIZE == va; }
  }

  // Between requests every user page is a process's and within its size.
  lemma IdleTidy(g: Geometry, s: Pages, procs: map<nat, Proc>, pipes: set<nat>)
    requires Ok(g, s, multiset{}) && ProcsOk(procs, s.kernel, s.pte.Keys)
    ensures Tidy(World(User(s.pte, s.mem), Sizes(procs), pipes))
  {
    hide Ok, ProcsOk;
    forall k | k in s.pte ensures k.dir in procs && k.page < RoundUp(procs[k.dir].sz) {
      KeyTidy(g, s, procs, k);
    }
    forall p | p in procs ensures procs[p].sz <= KERNBASE {
      ProcEntry(procs, s.kernel, s.pte.Keys, p);
    }
  }

  lemma KeyTidy(g: Geometry, s: Pages, procs: map<nat, Proc>, k: VAddr)
    requires Ok(g, s, multiset{}) && ProcsOk(procs, s.kernel, s.pte.Keys) && k in s.pte
    ensures k.dir in procs && k.page < RoundUp(procs[k.dir].sz)
  {
    assert TableAt(s.kernel, s.tables, Pde(k.dir, k.page / NPTENTRIES));
  }

  lemma FirstFull(p: nat, code: seq<int>)
    requires |code| < PGSIZE
    ensures AllFull(FirstWorld(p, code))
  {
    assert Full(FirstWorld(p, code).u, p, PGSIZE);
  }

  // A run from boot, up to a panic if there is one. The free list is exact in the end, but
  // for the pages handed out at boot: they have count zero and are not on it. No fork panics
  // before some sbrk(-sz), and no memory is refused before the requests can need more than there is.
  method RunFromBoot(first: nat, others: nat, code: seq<int>, rqs: seq<Request>)
    returns (k: Kernel, rps: seq<Reply>, ghost ws: seq<World>)
    requires 0 < first && first + DirPages() + others <= BOOT_END / PGSIZE && |code| < PGSIZE
    requires forall i | 0 <= i < |rqs| :: IntSized(rqs[i])
    ensures Run(ws, rqs, rps) && ws[0] == FirstWorld(k.initproc, code)
    ensures |rps| == 0 || !rps[|rps| - 1].Panicked? ==>
              var boot := BOOT_END / PGSIZE;
              && k.Idle() && k.Abstract() == ws[|rqs|]
              && (forall p: nat :: p in k.free <==>
                    && first <= p < PHYSTOP / PGSIZE && !(boot - DirPages() - others <= p < boot)
                    && Maps(k.pte, p) == {} && p !in k.kernel)
              && (forall p: nat | boot - DirPages() - others <= p < boot ::
                    p < |k.count| && k.count[p] == 0 && p !in k.free)
    ensures forall i | 0 <= i < |rps| && (forall j | 0 <= j < i :: !ShrinksToNothing(ws[j], rqs[j])) ::
              rqs[i].Fork? ==> !rps[i].Panicked?
    ensures Granted(ws, rqs, rps) || FreeAtFirst(first, others) < TotalNeeded(ws, rqs, |rps|)
    ensures forall i | 0 <= i < |rps| && rqs[i].Read? && rps[i].Byte? ::
              rps[i].b == Held(ws, rqs, rps, i, rqs[i].p, rqs[i].va)
  {
    hide User, ProcsOk, PipePages, Granted, TotalNeeded, DirPages, FirstWorld, AllFull, Tidy, Held;
    k := new Kernel(first, others, code);
    rps, ws := k.Serve(rqs);
    if |rps| == 0 || !rps[|rps| - 1].Panicked? {
      FreeListExact(k.g, k.S());
      var boot := BOOT_END / PGSIZE;
      forall p: nat | boot - DirPages() - others <= p < boot
        ensures p < |k.count| && k.count[p] == 0 && p !in k.free
      {
        assert Within(boot - DirPages() - others, p, boot);
        FreeIsCountZero(k.g, k.S(), p);
      }
    }
    FirstFull(k.initproc, code);
    forall i | 0 <= i < |rps| && (forall j | 0 <= j < i :: !ShrinksToNothing(ws[j], rqs[j]))
      ensures rqs[i].Fork? ==> !rps[i].Panicked?
    {
      NoForkPanics(ws, rqs, rps, i);
    }
    forall i | 0 <= i < |rps| && rqs[i].Read? && rps[i].Byte?
      ensures rps[i].b == Held(ws, rqs, rps, i, rqs[i].p, rqs[i].va)
    {
      ReadsHeld(ws, rqs, rps, i);
    }
  }

  // Pages held in hand stay as they are.
  ghost predicate Untouched(held: multiset<nat>, mem: map<nat, Page>, kernel: map<nat, Owner>,
                            mem': map<nat, Page>, kernel': map<nat, Owner>) {
    forall p: nat | held[p] > 0 && p in mem ::
      p in mem' && mem'[p] == mem[p] && (p in kernel' <==> p in kernel)
  }

  // A page held in hand that mappages may put at k.
  ghost predicate Mappable(g: Geometry, s: Pages, held: multiset<nat>, k: VAddr, e: Pte) {
    && held[e.ppn] > 0 && g.Managed(e.ppn) && e.ppn !in s.kernel && (e.w || e.cow) && e.ppn in s.mem
    && k.page * PGSIZE < KERNBASE
    && Protected(s.pte, e.ppn) && (e.w ==> Maps(s.pte, e.ppn) == {})
  }

  ghost function CutPte(pte: map<VAddr, Pte>, d: nat, lo: nat, hi: nat): map<VAddr, Pte> {
    map k | k in pte && !(k.dir == d && lo <= k.page < hi) :: pte[k]
  }

  lemma CutNothing(pte: map<VAddr, Pte>, u: Memory, d: nat, lo: nat)
    ensures Cut(pte, u, d, lo, lo, pte, u)
  {
  }

  lemma CutOne(pte: map<VAddr, Pte>, u: Memory, d: nat, lo: nat, a: nat)
    requires lo <= a
    ensures CutPte(pte, d, lo, a + 1) == CutPte(pte, d, lo, a) - {VAddr(d, a)}
    ensures Shrunk(u, d, lo, a + 1) == Shrunk(u, d, lo, a) - {VAddr(d, a)}
  {
  }

  ghost predicate Cut(pte0: map<VAddr, Pte>, u0: Memory, d: nat, lo: nat, hi: nat, pte: map<VAddr, Pte>, u: Memory) {
    pte == CutPte(pte0, d, lo, hi) && u == Shrunk(u0, d, lo, hi)
  }

  // Where the directory has no page table there is nothing to cut.
  lemma CutAbsent(pte0: map<VAddr, Pte>, u0: Memory, pte: map<VAddr, Pte>, mem: map<nat, Page>, tables: map<Pde, nat>,
                  d: nat, lo: nat, a: nat, b: nat)
    requires Hung(pte, tables) && Cut(pte0, u0, d, lo, a, pte, User(pte, mem))
    requires lo <= a <= b <= (a / NPTENTRIES + 1) * NPTENTRIES && Pde(d, a / NPTENTRIES) !in tables
    ensures Cut(pte0, u0, d, lo, b, pte, User(pte, mem))
  {
    forall k | k in pte && k.dir == d ensures !(a <= k.page < b) {
      if a <= k.page < b {
        assert false;
      }
    }
    CutPteMore(pte0, pte, d, lo, a, b);
    ShrunkMore(u0, User(pte, mem), d, lo, a, b);
  }

  lemma CutPteMore(pte0: map<VAddr, Pte>, pte: map<VAddr, Pte>, d: nat, lo: nat, a: nat, b: nat)
    requires pte == CutPte(pte0, d, lo, a) && lo <= a <= b
    requires forall k | k in pte && k.dir == d :: !(a <= k.page < b)
    ensures pte == CutPte(pte0, d, lo, b)
  {
    forall k | k in pte0 && k !in CutPte(pte0, d, lo, b) ensures k !in pte {
    }
  }

  lemma ShrunkMore(u0: Memory, u: Memory, d: nat, lo: nat, a: nat, b: nat)
    requires u == Shrunk(u0, d, lo, a) && lo <= a <= b
    requires forall k | k in u && k.dir == d :: !(a <= k.page < b)
    ensures u == Shrunk(u0, d, lo, b)
  {
    forall k | k in u0 && k !in Shrunk(u0, d, lo, b) ensures k !in u {
    }
  }

  lemma RemovedUnder(tables: map<Pde, nat>, kernel: map<nat, Owner>, t: Pde)
    requires t in tables && tables[t] in kernel && kernel[tables[t]] == Table(t)
    ensures OnlyUnder(tables, kernel, tables - {t}, kernel - {tables[t]}, t.dir)
  {
  }

  lemma OnlyUnderTrans(t0: map<Pde, nat>, k0: map<nat, Owner>, t1: map<Pde, nat>, k1: map<nat, Owner>,
                       t2: map<Pde, nat>, k2: map<nat, Owner>, d: nat)
    requires OnlyUnder(t0, k0, t1, k1, d) && OnlyUnder(t1, k1, t2, k2, d)
    ensures OnlyUnder(t0, k0, t2, k2, d)
  {
  }

  // deallocuvm from KERNBASE to 0 leaves the directory no entry.
  lemma CutAll(g: Geometry, s: Pages, held: multiset<nat>, d: nat, pte: map<VAddr, Pte>, u: Memory)
    requires Ok(g, s, held)
    requires Cut(s.pte, User(s.pte, s.mem), d, RoundUp(0), RoundUp(KERNBASE), pte, u)
    ensures u == Without(User(s.pte, s.mem), d)
    ensures forall i: nat :: MapsNothing(pte, Pde(d, i))
    ensures pte.Keys == KeysApart(s.pte.Keys, d)
  {
    hide Ok;
    AllBelow(g, s, held);
    CutAllSeen(s.pte, User(s.pte, s.mem), d, u);
    CutAllPte(s.pte, d, pte);
  }

  lemma AllBelow(g: Geometry, s: Pages, held: multiset<nat>)
    requires Ok(g, s, held)
    ensures forall k | k in s.pte :: k.page < RoundUp(KERNBASE)
  {
    forall k | k in s.pte ensures k.page < RoundUp(KERNBASE) {
      assert MappedAt(g, s.pte, s.kernel, k);
    }
  }

  lemma CutAllSeen(pte: map<VAddr, Pte>, u0: Memory, d: nat, u: Memory)
    requires forall k | k in pte :: k.page < RoundUp(KERNBASE)
    requires (forall k | k in u0 :: k in pte) && u == Shrunk(u0, d, 0, RoundUp(KERNBASE))
    ensures u == Without(u0, d)
  {
  }

  lemma CutAllPte(pte0: map<VAddr, Pte>, d: nat, pte: map<VAddr, Pte>)
    requires forall k | k in pte0 :: k.page < RoundUp(KERNBASE)
    requires pte == CutPte(pte0, d, 0, RoundUp(KERNBASE))
    ensures forall i: nat :: MapsNothing(pte, Pde(d, i))
    ensures pte.Keys == KeysApart(pte0.Keys, d)
  {
    forall k | k in pte ensures k.dir != d {
      assert k in pte0;
    }
  }

  // No page directory yet, and nothing is looked up in it.
  ghost predicate Fresh(tables: map<Pde, nat>, kernel: map<nat, Owner>, d: nat) {
    && d !in kernel
    && (forall t | t in tables :: t.dir != d)
    && (forall q | q in kernel :: kernel[q].Table? ==> kernel[q].at.dir != d)
  }

  lemma FreshPage(g: Geometry, s: Pages, held: multiset<nat>, d: nat)
    requires Ok(g, s, held) && d !in s.kernel
    ensures Fresh(s.tables, s.kernel, d)
    ensures forall k | k in User(s.pte, s.mem) :: k.dir != d
  {
    forall t | t in s.tables ensures t.dir != d {
      assert TableAt(s.kernel, s.tables, t);
    }
    forall q | q in s.kernel && s.kernel[q].Table? ensures s.kernel[q].at.dir != d {
      assert OwnerAt(g, s.kernel, s.tables, q);
    }
  }

  lemma ApartFresh(tables: map<Pde, nat>, kernel: map<nat, Owner>, u: Memory, d: nat)
    requires Fresh(tables, kernel, d) && forall k | k in u :: k.dir != d
    ensures TablesApart(tables, d) == tables && KernelApart(kernel[d := Dir], d) == kernel && Without(u, d) == u
  {
  }

  lemma OnlyUnderRefl(tables: map<Pde, nat>, kernel: map<nat, Owner>, d: nat)
    ensures OnlyUnder(tables, kernel, tables, kernel, d)
  {
  }

  // When no page table hangs under d, only d itself is left to free.
  lemma NoneUnder(g: Geometry, s: Pages, held: multiset<nat>, tables0: map<Pde, nat>, kernel0: map<nat, Owner>, d: nat)
    requires Ok(g, s, held) && OnlyUnder(tables0, kernel0, s.tables, s.kernel, d)
    requires forall j: nat | j < NPDENTRIES :: Pde(d, j) !in s.tables
    requires d in kernel0 && kernel0[d] == Dir
    ensures forall t | t in s.tables :: t.dir != d
    ensures d in s.kernel && s.kernel[d] == Dir
    ensures s.tables == TablesApart(tables0, d) && s.kernel - {d} == KernelApart(kernel0, d)
  {
    NoTableUnder(g, s.kernel, s.tables, d);
    hide Ok;
    ApartAll(s.tables, s.kernel, d);
  }

  lemma NoTableUnder(g: Geometry, kernel: map<nat, Owner>, tables: map<Pde, nat>, d: nat)
    requires TablesOk(g, kernel, tables) && forall j: nat | j < NPDENTRIES :: Pde(d, j) !in tables
    ensures forall t | t in tables :: t.dir != d
    ensures forall q | q in kernel && kernel[q].Table? :: kernel[q].at.dir != d
  {
    forall t | t in tables ensures t.dir != d {
      assert TableAt(kernel, tables, t);
      assert t == Pde(t.dir, t.index);
    }
    forall q | q in kernel && kernel[q].Table? ensures kernel[q].at.dir != d {
      assert OwnerAt(g, kernel, tables, q);
    }
  }

  lemma ApartAll(tables: map<Pde, nat>, kernel: map<nat, Owner>, d: nat)
    requires forall t | t in tables :: t.dir != d
    requires forall q | q in kernel && kernel[q].Table? :: kernel[q].at.dir != d
    ensures TablesApart(tables, d) == tables && KernelApart(kernel, d) == kernel - {d}
  {
  }

  // Directory d has no entry from page n on.
  ghost predicate Below(keys: set<VAddr>, d: nat, n: nat) {
    forall k | k in keys && k.dir == d :: k.page < n
  }

  lemma NewMappable(g: Geometry, s: Pages, held: multiset<nat>, k: VAddr, e: Pte)
    requires Ok(g, s, held + multiset{e.ppn}) && g.Managed(e.ppn) && e.ppn !in s.kernel
    requires Maps(s.pte, e.ppn) == {} && (e.w || e.cow) && k.page * PGSIZE < KERNBASE
    ensures Mappable(g, s, held + multiset{e.ppn}, k, e)
  {
    NotMapped(s.pte, e.ppn);
  }

  lemma SeenKeys(pte: map<VAddr, Pte>, mem: map<nat, Page>)
    ensures User(pte, mem).Keys <= pte.Keys
  {
  }

  // Taking grown pages away again.
  lemma CutGrown(u: Memory, d: nat, lo: nat, a: nat, hi: nat)
    requires Below(u.Keys, d, lo) && a <= hi
    ensures Shrunk(Grown(u, d, lo, a), d, lo, hi) == u
  {
    forall k | k in u || k in Grown(u, d, lo, a)
      ensures k in u <==> k in Shrunk(Grown(u, d, lo, a), d, lo, hi)
      ensures k in u ==> Shrunk(Grown(u, d, lo, a), d, lo, hi)[k] == u[k]
    {
      GrownAt(u, d, lo, a, k);
    }
  }

  lemma SharedPage(g: Geometry, s: Pages, held: multiset<nat>, k: VAddr)
    requires Ok(g, s, held) && k in s.pte
    ensures var p := s.pte[k].ppn;
            && g.Managed(p) && p !in s.kernel && p in s.mem
            && p < |s.count| == g.top && s.count[p] > 0
  {
    assert MappedAt(g, s.pte, s.kernel, k);
    assert k in Maps(s.pte, s.pte[k].ppn);
    assert s.count[s.pte[k].ppn] == Refs(s.pte, s.kernel, held, s.pte[k].ppn);
  }

  lemma PageBelow(g: Geometry, s: Pages, held: multiset<nat>, k: VAddr)
    requires Ok(g, s, held) && k in s.pte
    ensures k.page * PGSIZE < KERNBASE && s.pte[k].ppn in s.mem && (s.pte[k].w || s.pte[k].cow)
    ensures Pde(k.dir, k.page / NPTENTRIES) in s.tables
  {
    assert MappedAt(g, s.pte, s.kernel, k);
  }

  lemma NoTableYet(tables: map<Pde, nat>, kernel: map<nat, Owner>, d: nat)
    requires Fresh(tables, kernel, d)
    ensures forall t | t in tables :: t.dir != d
  {
  }

  // A page that is no kernel page is no directory of any entry.
  lemma NoneYet(g: Geometry, s: Pages, held: multiset<nat>, c: nat)
    requires Ok(g, s, held) && c !in s.kernel
    ensures Below(s.pte.Keys, c, 0)
    ensures forall k | k in User(s.pte, s.mem) :: k.dir != c
  {
    forall k | k in s.pte ensures k.dir != c {
      assert TableAt(s.kernel, s.tables, Pde(k.dir, k.page / NPTENTRIES));
    }
  }

  lemma ApartKeys(keys0: set<VAddr>, keys: set<VAddr>, c: nat)
    requires OnlyIn(keys0, keys, c) && Below(keys0, c, 0)
    ensures KeysApart(keys, c) == keys0
  {
  }

  // Dropping a partial copy.
  lemma CopyUndone(u: Memory, p: nat, c: nat, n: nat)
    requires p != c && (forall i: nat | i < n :: VAddr(p, i) in u) && forall k | k in u :: k.dir != c
    ensures Without(Copied(u, p, c, n), c) == u
  {
    forall k | k in u || k in Copied(u, p, c, n)
      ensures k in u <==> k in Without(Copied(u, p, c, n), c)
      ensures k in u ==> Without(Copied(u, p, c, n), c)[k] == u[k]
    {
      CopiedAt(u, p, c, n, k);
    }
  }

  lemma RemapPage(g: Geometry, s: Pages, held: multiset<nat>, k: VAddr, e: Pte)
    requires Ok(g, s, held + multiset{e.ppn}) && k !in s.pte && g.Managed(e.ppn) && e.ppn !in s.kernel
    requires Maps(s.pte, e.ppn) == {} && (e.w || e.cow) && k.page * PGSIZE < KERNBASE && e.ppn in s.mem
    requires Pde(k.dir, k.page / NPTENTRIES) in s.tables
    ensures Ok(g, s.(pte := s.pte[k := e]), held)
    ensures User(s.pte[k := e], s.mem) == User(s.pte, s.mem)[k := Cell(s.mem[e.ppn], e.u)]
  {
    NotMapped(s.pte, e.ppn);
    MapPage(g, s, held + multiset{e.ppn}, k, e);
    assert held + multiset{e.ppn} - multiset{e.ppn} == held;
  }

  lemma Reset<K, V>(m: map<K, V>, k: K, v: V)
    ensures m[k := v] == (m - {k})[k := v]
    ensures k in m && m[k] == v ==> m[k := v] == m
  {
  }

  lemma SeenAt(pte: map<VAddr, Pte>, mem: map<nat, Page>, k: VAddr)
    requires k in pte && pte[k].ppn in mem
    ensures k in User(pte, mem) && User(pte, mem)[k] == Cell(mem[pte[k].ppn], pte[k].u)
  {
  }

  lemma NotMappedWithout(pte: map<VAddr, Pte>, k: VAddr, p: nat)
    requires Maps(pte, p) == {}
    ensures Maps(pte - {k}, p) == {}
  {
    NotMapped(pte, p);
  }

  // Entries that came in are entries of directory c.
  ghost predicate OnlyIn(keys: set<VAddr>, keys': set<VAddr>, c: nat) {
    keys <= keys' && forall k | k in keys' && k !in keys :: k.dir == c
  }

  // copyuvm after i pages.
  ghost predicate CopiedSoFar(u0: Memory, keys0: set<VAddr>, d: nat, c: nat, i: nat, u: Memory, keys: set<VAddr>) {
    && (forall j: nat | j < i :: VAddr(d, j) in u0)
    && u == Copied(u0, d, c, i) && Below(keys, c, i) && OnlyIn(keys0, keys, c)
  }

  lemma CopiedNone(u0: Memory, keys0: set<VAddr>, d: nat, c: nat)
    requires Below(keys0, c, 0)
    ensures CopiedSoFar(u0, keys0, d, c, 0, u0, keys0)
  {
  }

  lemma CopiedMeans(u0: Memory, keys0: set<VAddr>, d: nat, c: nat, i: nat, u: Memory, keys: set<VAddr>)
    requires CopiedSoFar(u0, keys0, d, c, i, u, keys)
    ensures forall j: nat | j < i :: VAddr(d, j) in u0
    ensures u == Copied(u0, d, c, i) && Below(keys, c, i) && OnlyIn(keys0, keys, c)
  {
  }

  lemma MissingBefore(u0: Memory, keys0: set<VAddr>, d: nat, c: nat, i: nat, u: Memory, keys: set<VAddr>)
    requires CopiedSoFar(u0, keys0, d, c, i, u, keys) && d != c && u.Keys <= keys && u0.Keys <= keys0
    ensures VAddr(d, i) !in keys ==> VAddr(d, i) !in u0
    ensures VAddr(c, i) !in keys
  {
  }

  lemma CopiedOneMore(u0: Memory, keys0: set<VAddr>, d: nat, c: nat, i: nat, u: Memory, keys: set<VAddr>)
    requires CopiedSoFar(u0, keys0, d, c, i, u, keys) && d != c && VAddr(d, i) in u
    ensures CopiedSoFar(u0, keys0, d, c, i + 1, u[VAddr(c, i) := u[VAddr(d, i)]], keys + {VAddr(c, i)})
  {
    CopiedAt(u0, d, c, i, VAddr(d, i));
  }

  // ---- The process table ----

  ghost function Sizes(procs: map<nat, Proc>): map<nat, nat> {
    map d | d in procs :: procs[d].sz
  }

  ghost predicate ProcsOk(procs: map<nat, Proc>, kernel: map<nat, Owner>, keys: set<VAddr>) {
    && (forall d | d in procs ::
          && d in kernel && kernel[d] == Dir
          && procs[d].kstack in kernel && kernel[procs[d].kstack] == Stack(d)
          && procs[d].sz <= KERNBASE && Below(keys, d, RoundUp(procs[d].sz)))
    && (forall q | q in kernel ::
          && (kernel[q].Dir? ==> q in procs)
          && (kernel[q].Stack? ==> kernel[q].of in procs && procs[kernel[q].of].kstack == q))
  }

  lemma ProcEntry(procs: map<nat, Proc>, kernel: map<nat, Owner>, keys: set<VAddr>, p: nat)
    requires ProcsOk(procs, kernel, keys) && p in procs
    ensures p in kernel && kernel[p] == Dir
    ensures procs[p].kstack in kernel && kernel[procs[p].kstack] == Stack(p)
    ensures procs[p].sz <= KERNBASE && Below(keys, p, RoundUp(procs[p].sz))
  {
  }

  lemma NotADir(g: Geometry, s: Pages, held: multiset<nat>, q: nat)
    requires Ok(g, s, held) && q in s.kernel && s.kernel[q] != Dir
    ensures forall t | t in s.tables :: t.dir != q
  {
    forall t | t in s.tables ensures t.dir != q {
      assert TableAt(s.kernel, s.tables, t);
    }
  }

  lemma Restack(g: Geometry, s: Pages, held: multiset<nat>, q: nat, c: nat)
    requires Ok(g, s, held) && q in s.kernel && s.kernel[q].Stack?
    ensures Ok(g, s.(kernel := s.kernel[q := Stack(c)]), held)
  {
    var kernel' := s.kernel[q := Stack(c)];
    forall p: nat | p < g.top && g.Managed(p)
      ensures s.count[p] == Refs(s.pte, kernel', held, p)
    {
      assert s.count[p] == Refs(s.pte, s.kernel, held, p);
    }
    forall k | k in s.pte ensures MappedAt(g, s.pte, kernel', k) {
      assert MappedAt(g, s.pte, s.kernel, k);
    }
    forall t | t in s.tables ensures TableAt(kernel', s.tables, t) {
      assert TableAt(s.kernel, s.tables, t);
    }
    forall p | p in kernel' ensures OwnerAt(g, kernel', s.tables, p) {
      assert OwnerAt(g, s.kernel, s.tables, p);
    }
  }

  lemma SizesAdd(procs: map<nat, Proc>, c: nat, proc: Proc)
    ensures Sizes(procs[c := proc]) == Sizes(procs)[c := proc.sz]
  {
  }

  // Kernel pages that are neither d nor a page table are the same before and after.
  lemma Elsewhere(tables0: map<Pde, nat>, kernel0: map<nat, Owner>, tables: map<Pde, nat>, kernel: map<nat, Owner>,
                  d: nat)
    requires OnlyUnder(tables0, kernel0, tables, kernel, d)
    ensures forall q | q in kernel0 && q != d && !kernel0[q].Table? :: q in kernel && kernel[q] == kernel0[q]
    ensures forall q | q in kernel && q != d && !kernel[q].Table? :: q in kernel0 && kernel[q] == kernel0[q]
  {
    var a0, a := KernelApart(kernel0, d), KernelApart(kernel, d);
    forall q | q in kernel0 && q != d && !kernel0[q].Table? ensures q in kernel && kernel[q] == kernel0[q] {
      assert q in a0 && a[q] == a0[q];
    }
    forall q | q in kernel && q != d && !kernel[q].Table? ensures q in kernel0 && kernel[q] == kernel0[q] {
      assert q in a && a[q] == a0[q];
    }
  }

  ghost function PipePages(kernel: map<nat, Owner>): set<nat> {
    set q | q in kernel && kernel[q].Pipe?
  }

  lemma NoProcs(mem: map<nat, Page>)
    ensures ProcsOk(map[], map[], {}) && PipePages(map[]) == {} && User(map[], mem) == map[] && Sizes(map[]) == map[]
  {
  }

  lemma SamePipes(kernel0: map<nat, Owner>, kernel: map<nat, Owner>)
    requires forall q | q in kernel0 && kernel0[q].Pipe? :: q in kernel && kernel[q] == kernel0[q]
    requires forall q | q in kernel && kernel[q].Pipe? :: q in kernel0 && kernel[q] == kernel0[q]
    ensures PipePages(kernel) == PipePages(kernel0)
  {
  }

  lemma NoSuchPipe(kernel: map<nat, Owner>, q: nat)
    requires q !in kernel
    ensures q !in PipePages(kernel)
  {
  }

  // The process table after a page has become, or has been, a pipe.
  lemma PipeProcs(procs: map<nat, Proc>, kernel: map<nat, Owner>, keys: set<VAddr>, q: nat)
    requires ProcsOk(procs, kernel, keys)
    ensures q !in kernel ==>
              && ProcsOk(procs, kernel[q := Owner.Pipe], keys)
              && PipePages(kernel[q := Owner.Pipe]) == PipePages(kernel) + {q}
    ensures q in kernel && kernel[q].Pipe? ==>
              ProcsOk(procs, kernel - {q}, keys) && PipePages(kernel - {q}) == PipePages(kernel) - {q}
  {
  }

  lemma FirstKey(keys0: set<VAddr>, keys: set<VAddr>, d: nat)
    requires keys == keys0 + {VAddr(d, 0)} && forall k | k in keys0 :: k.dir != d
    ensures OnlyIn(keys0, keys, d) && Below(keys, d, RoundUp(PGSIZE))
  {
  }

  // The process table with a new process c of size sz and with stack ks.
  lemma NewProc(procs: map<nat, Proc>, kernel0: map<nat, Owner>, keys0: set<VAddr>, sz: nat, c: nat, ks: nat,
                tables1: map<Pde, nat>, tables: map<Pde, nat>, kernel: map<nat, Owner>, keys: set<VAddr>)
    requires ProcsOk(procs, kernel0, keys0) && sz <= KERNBASE && ks !in kernel0 && c !in kernel0 && c != ks
    requires OnlyUnder(tables1, kernel0[ks := Stack(ks)][c := Dir], tables, kernel, c)
    requires c in kernel && kernel[c] == Dir
    requires OnlyIn(keys0, keys, c) && Below(keys, c, RoundUp(sz))
    ensures ks in kernel && kernel[ks].Stack? && c !in procs
    ensures ProcsOk(procs[c := Proc(sz, ks)], kernel[ks := Stack(c)], keys)
    ensures PipePages(kernel[ks := Stack(c)]) == PipePages(kernel0)
  {
    hide OnlyUnder;
    Elsewhere(tables1, kernel0[ks := Stack(ks)][c := Dir], tables, kernel, c);
    SamePipes(kernel0, kernel[ks := Stack(c)]);
    NewProcOk(procs, kernel0, keys0, sz, c, ks, kernel, keys);
  }

  lemma NewProcOk(procs: map<nat, Proc>, kernel0: map<nat, Owner>, keys0: set<VAddr>, sz: nat, c: nat, ks: nat,
                  kernel: map<nat, Owner>, keys: set<VAddr>)
    requires ProcsOk(procs, kernel0, keys0) && sz <= KERNBASE && ks !in kernel0 && c !in kernel0 && c != ks
    requires forall q | q in kernel0 && !kernel0[q].Table? :: q in kernel && kernel[q] == kernel0[q]
    requires forall q | q in kernel && q != c && q != ks && !kernel[q].Table? :: q in kernel0 && kernel[q] == kernel0[q]
    requires c in kernel && kernel[c] == Dir && ks in kernel && kernel[ks] == Stack(ks)
    requires OnlyIn(keys0, keys, c) && Below(keys, c, RoundUp(sz))
    ensures ProcsOk(procs[c := Proc(sz, ks)], kernel[ks := Stack(c)], keys)
  {
    var procs', kernel' := procs[c := Proc(sz, ks)], kernel[ks := Stack(c)];
    forall d | d in procs && d != c
      ensures d in kernel' && kernel'[d] == Dir && procs[d].kstack in kernel' && kernel'[procs[d].kstack] == Stack(d)
      ensures Below(keys, d, RoundUp(procs[d].sz))
    {
      ProcEntry(procs, kernel0, keys0, d);
    }
    forall q | q in kernel'
      ensures kernel'[q].Dir? ==> q in procs'
      ensures kernel'[q].Stack? ==> kernel'[q].of in procs' && procs'[kernel'[q].of].kstack == q
    {
    }
  }

  // The process table after process p got another size.
  lemma ResizedProc(procs: map<nat, Proc>, kernel0: map<nat, Owner>, keys0: set<VAddr>, p: nat, sz: nat,
                    tables0: map<Pde, nat>, tables: map<Pde, nat>, kernel: map<nat, Owner>, keys: set<VAddr>)
    requires ProcsOk(procs, kernel0, keys0) && p in procs && sz <= KERNBASE
    requires OnlyUnder(tables0, kernel0, tables, kernel, p) && p in kernel && kernel[p] == Dir
    requires KeysApart(keys, p) == KeysApart(keys0, p) && Below(keys, p, RoundUp(sz))
    ensures ProcsOk(procs[p := procs[p].(sz := sz)], kernel, keys)
    ensures Sizes(procs[p := procs[p].(sz := sz)]) == Sizes(procs)[p := sz]
    ensures sz == procs[p].sz ==> procs[p := procs[p].(sz := sz)] == procs
    ensures PipePages(kernel) == PipePages(kernel0)
  {
    hide OnlyUnder;
    Elsewhere(tables0, kernel0, tables, kernel, p);
    SamePipes(kernel0, kernel);
    forall d | d in procs && d != p ensures Below(keys, d, RoundUp(procs[d].sz)) {
      forall k | k in keys && k.dir == d ensures k.page < RoundUp(procs[d].sz) {
        assert k in KeysApart(keys0, p);
      }
    }
  }

  // allocuvm when it has come to page a.
  ghost predicate GrownSoFar(u0: Memory, keys0: set<VAddr>, d: nat, lo: nat, a: nat, u: Memory, keys: set<VAddr>) {
    u == Grown(u0, d, lo, a) && Below(keys, d, a) && KeysApart(keys, d) == KeysApart(keys0, d)
  }

  lemma GrownNone(u0: Memory, keys0: set<VAddr>, d: nat, lo: nat)
    requires Below(keys0, d, lo)
    ensures GrownSoFar(u0, keys0, d, lo, lo, u0, keys0)
  {
  }

  lemma GrownMeans(u0: Memory, keys0: set<VAddr>, d: nat, lo: nat, a: nat, u: Memory, keys: set<VAddr>)
    requires GrownSoFar(u0, keys0, d, lo, a, u, keys)
    ensures u == Grown(u0, d, lo, a) && Below(keys, d, a) && KeysApart(keys, d) == KeysApart(keys0, d)
    ensures VAddr(d, a) !in keys
  {
  }

  lemma GrownOneMore(u0: Memory, keys0: set<VAddr>, d: nat, lo: nat, a: nat, u: Memory, keys: set<VAddr>)
    requires GrownSoFar(u0, keys0, d, lo, a, u, keys) && lo <= a
    ensures GrownSoFar(u0, keys0, d, lo, a + 1, u[VAddr(d, a) := Cell(ZeroPage(), true)], keys + {VAddr(d, a)})
  {
    assert KeysApart(keys + {VAddr(d, a)}, d) == KeysApart(keys, d);
  }

  lemma CutKeys(pte0: map<VAddr, Pte>, pte: map<VAddr, Pte>, d: nat, lo: nat, hi: nat)
    requires pte == CutPte(pte0, d, lo, hi)
    ensures KeysApart(pte.Keys, d) == KeysApart(pte0.Keys, d)
    ensures Below(pte0.Keys, d, hi) ==> Below(pte.Keys, d, lo)
  {
  }

  // What deallocuvm leaves of a process of size `size`.
  lemma CutMeans(pte0: map<VAddr, Pte>, u0: Memory, d: nat, size: nat, goal: nat, pte: map<VAddr, Pte>, u: Memory)
    requires Cut(pte0, u0, d, RoundUp(goal), if goal >= size then RoundUp(goal) else RoundUp(size), pte, u)
    requires Below(pte0.Keys, d, RoundUp(size))
    ensures goal >= size ==> u == u0
    ensures goal < size ==> u == Shrunk(u0, d, RoundUp(goal), RoundUp(size))
    ensures KeysApart(pte.Keys, d) == KeysApart(pte0.Keys, d)
    ensures Below(pte.Keys, d, RoundUp(size)) && (goal < size ==> Below(pte.Keys, d, RoundUp(goal)))
  {
    CutNothing(pte0, u0, d, RoundUp(goal));
    CutKeys(pte0, pte, d, RoundUp(goal), if goal >= size then RoundUp(goal) else RoundUp(size));
  }

  // The process table after process p is gone.
  lemma GonePages(kernel: map<nat, Owner>, ks: nat, d: nat)
    ensures var kernel' := KernelApart(kernel - {ks}, d);
            && (forall q | q in kernel' :: q in kernel && q != ks && q != d && kernel'[q] == kernel[q])
            && (forall q | q in kernel && q != ks && q != d && !kernel[q].Table? :: q in kernel')
  {
  }

  lemma GoneProc(procs: map<nat, Proc>, kernel: map<nat, Owner>, keys: set<VAddr>, p: nat)
    requires ProcsOk(procs, kernel, keys) && p in procs
    ensures ProcsOk(procs - {p}, KernelApart(kernel - {procs[p].kstack}, p), KeysApart(keys, p))
    ensures Sizes(procs - {p}) == Sizes(procs) - {p}
  {
    hide KernelApart;
    var kernel' := KernelApart(kernel - {procs[p].kstack}, p);
    GonePages(kernel, procs[p].kstack, p);
    forall d | d in procs && d != p
      ensures d in kernel' && procs[d].kstack in kernel' && Below(KeysApart(keys, p), d, RoundUp(procs[d].sz))
    {
      ProcEntry(procs, kernel, keys, d);
      ProcEntry(procs, kernel, keys, p);
    }
  }

  lemma GonePipes(kernel: map<nat, Owner>, ks: nat, d: nat)
    requires ks in kernel && kernel[ks].Stack? && d in kernel && kernel[d] == Dir
    ensures PipePages(KernelApart(kernel - {ks}, d)) == PipePages(kernel)
  {
    SamePipes(kernel, KernelApart(kernel - {ks}, d));
  }

  lemma SeenIff(g: Geometry, s: Pages, held: multiset<nat>, k: VAddr)
    requires Ok(g, s, held)
    ensures k in User(s.pte, s.mem) <==> k in s.pte
    ensures k in s.pte ==> s.pte[k].ppn in s.mem && User(s.pte, s.mem)[k] == Cell(s.mem[s.pte[k].ppn], s.pte[k].u)
  {
    if k in s.pte {
      assert MappedAt(g, s.pte, s.kernel, k);
    }
  }

  lemma UserStore(pte: map<VAddr, Pte>, mem: map<nat, Page>, k: VAddr, data: Page)
    requires k in pte && pte[k].ppn in mem && Maps(pte, pte[k].ppn) == {k}
    ensures User(pte, mem[pte[k].ppn := data]) == User(pte, mem)[k := Cell(data, pte[k].u)]
  {
    forall j | j in pte && pte[j].ppn == pte[k].ppn ensures j == k {
      assert j in Maps(pte, pte[k].ppn);
    }
  }

  // A store through a writable entry is seen at that address alone.
  lemma StoreOk(g: Geometry, s: Pages, held: multiset<nat>, k: VAddr, data: Page)
    requires Ok(g, s, held) && k in s.pte && s.pte[k].w && s.pte[k].ppn in s.mem
    ensures Ok(g, s.(mem := s.mem[s.pte[k].ppn := data]), held)
    ensures User(s.pte, s.mem[s.pte[k].ppn := data]) == User(s.pte, s.mem)[k := Cell(data, s.pte[k].u)]
  {
    hide User;
    assert MappedAt(g, s.pte, s.kernel, k);
    UserStore(s.pte, s.mem, k, data);
  }
}
