/**
 Physical pages of the xv6 kernel with copy-on-write fork: who holds a
 reference to which page, and what the reference counts and the free list
 (os/memory-assignment/kalloc.c) have to do with it. Everything here is about
 values; CowKernel holds the code.
 */
module PageState {

  const PGSIZE: nat := 4096
  const KERNBASE: nat := 0x80000000
  const NPDENTRIES: nat := 1024
  const NPTENTRIES: nat := 1024

  type Page = p: seq<int> | |p| == PGSIZE witness seq(PGSIZE, i => 0)

  // Physical memory by page number. Pages in range are those from the end of the kernel to
  // PHYSTOP, which kfree and incrementRefCount accept. The reserved ones are those that were
  // handed out at boot, before pages were counted; the others are managed by their counts.
  datatype Geometry = Geometry(first: nat, top: nat, reserved: set<nat>) {
    predicate InRange(p: int) {
      0 < first <= p < top
    }

    predicate Managed(p: int) {
      InRange(p) && p !in reserved
    }
  }

  // A present user page-table entry: PTE_ADDR, PTE_W, PTE_U and PTE_COW_W.
  datatype Pte = Pte(ppn: nat, w: bool, u: bool, cow: bool)

  // A user address: the page directory it is looked up in, and the virtual page.
  datatype VAddr = VAddr(dir: nat, page: nat)

  // A page directory entry.
  datatype Pde = Pde(dir: nat, index: nat)

  // What the kernel itself uses a page for.
  datatype Owner = Dir | Table(at: Pde) | Stack(of: nat) | Pipe

  // What a process sees of a page.
  datatype Cell = Cell(data: Page, u: bool)

  datatype Pages = Pages(
    free: seq<nat>, // kmem.freelist
    count: seq<int>, // refcount.count
    mem: map<nat, Page>, // the contents of physical pages
    pte: map<VAddr, Pte>, // the user part of every page table
    tables: map<Pde, nat>, // the present page directory entries of user page directories
    kernel: map<nat, Owner>) // kernel pages, by use

  // The page-table entries that map page `p`.
  ghost function Maps(pte: map<VAddr, Pte>, p: nat): set<VAddr> {
    set k | k in pte && pte[k].ppn == p
  }

  ghost function Owned(kernel: map<nat, Owner>, p: nat): nat {
    if p in kernel then 1 else 0
  }

  // The reference count of page `p`: user mappings, kernel use, and the references
  // (`held`) that running kernel code has in its hands.
  ghost function Refs(pte: map<VAddr, Pte>, kernel: map<nat, Owner>, held: multiset<nat>, p: nat): nat {
    |Maps(pte, p)| + Owned(kernel, p) + held[p]
  }

  ghost predicate CountsExact(g: Geometry, count: seq<int>, pte: map<VAddr, Pte>, kernel: map<nat, Owner>,
                              held: multiset<nat>) {
    && |count| == g.top
    && (forall p: nat | p < g.top && g.Managed(p) :: count[p] == Refs(pte, kernel, held, p))
    && forall p: nat | p < g.top && p in g.reserved :: count[p] == 0
  }

  // The free list holds the managed pages with count zero, each once.
  ghost predicate FreeExact(g: Geometry, free: seq<nat>, count: seq<int>) {
    && |count| == g.top
    && forall p: nat :: multiset(free)[p] == if g.Managed(p) && count[p] == 0 then 1 else 0
  }

  ghost predicate MappedAt(g: Geometry, pte: map<VAddr, Pte>, kernel: map<nat, Owner>, k: VAddr)
    requires k in pte
  {
    var e := pte[k];
    && g.Managed(e.ppn) && e.ppn !in kernel && k.page * PGSIZE < KERNBASE
    && (e.w ==> Maps(pte, e.ppn) == {k})
    && (e.w || e.cow)
  }

  // Mapped pages are user pages; a writable one is mapped once; every entry is or can be made writable.
  ghost predicate MappedOk(g: Geometry, pte: map<VAddr, Pte>, kernel: map<nat, Owner>) {
    forall k | k in pte :: MappedAt(g, pte, kernel, k)
  }

  // Entries live in page tables that their directory has.
  ghost predicate Hung(pte: map<VAddr, Pte>, tables: map<Pde, nat>) {
    forall k | k in pte :: Pde(k.dir, k.page / NPTENTRIES) in tables
  }

  ghost predicate TableAt(kernel: map<nat, Owner>, tables: map<Pde, nat>, t: Pde)
    requires t in tables
  {
    && tables[t] in kernel && kernel[tables[t]] == Table(t)
    && t.dir in kernel && kernel[t.dir] == Dir && t.index < NPDENTRIES
  }

  ghost predicate OwnerAt(g: Geometry, kernel: map<nat, Owner>, tables: map<Pde, nat>, q: nat)
    requires q in kernel
  {
    && g.Managed(q)
    && (kernel[q].Table? ==> kernel[q].at in tables && tables[kernel[q].at] == q)
  }

  // Page tables hang off directories, and the record of kernel pages is right.
  ghost predicate TablesOk(g: Geometry, kernel: map<nat, Owner>, tables: map<Pde, nat>) {
    && (forall t | t in tables :: TableAt(kernel, tables, t))
    && (forall q | q in kernel :: OwnerAt(g, kernel, tables, q))
  }

  ghost predicate MemOk(g: Geometry, mem: map<nat, Page>) {
    forall p: nat | g.Managed(p) :: p in mem
  }

  ghost predicate Ok(g: Geometry, s: Pages, held: multiset<nat>) {
    && CountsExact(g, s.count, s.pte, s.kernel, held)
    && FreeExact(g, s.free, s.count)
    && MappedOk(g, s.pte, s.kernel)
    && Hung(s.pte, s.tables)
    && TablesOk(g, s.kernel, s.tables)
    && MemOk(g, s.mem)
  }

  // The memory that user programs see, by address.
  ghost function User(pte: map<VAddr, Pte>, mem: map<nat, Page>): map<VAddr, Cell> {
    map k | k in pte && pte[k].ppn in mem :: Cell(mem[pte[k].ppn], pte[k].u)
  }

  // ---- kalloc.c on these values ----

  function Junk(): Page {
    seq(PGSIZE, i => 1)
  }

  function Kalloc(s: Pages): Pages
    requires s.free != [] && s.free[0] < |s.count|
  {
    s.(free := s.free[1..], count := s.count[s.free[0] := 1])
  }

  function Kfree(s: Pages, p: nat): Pages
    requires p < |s.count|
  {
    var s' := s.(count := s.count[p := s.count[p] - 1]);
    if s'.count[p] != 0 then s' else s'.(mem := s.mem[p := Junk()], free := [p] + s.free)
  }

  function Incref(s: Pages, p: nat): Pages
    requires p < |s.count|
  {
    s.(count := s.count[p := s.count[p] + 1])
  }

  lemma FreeHead(free: seq<nat>)
    requires free != []
    ensures multiset(free) == multiset{free[0]} + multiset(free[1..])
  {
    assert free == [free[0]] + free[1..];
  }

  // The head of the free list is a managed page that nothing refers to.
  lemma KallocPage(g: Geometry, s: Pages, held: multiset<nat>)
    requires CountsExact(g, s.count, s.pte, s.kernel, held) && FreeExact(g, s.free, s.count) && s.free != []
    ensures var p := s.free[0];
            && g.Managed(p) && p < |s.count| && s.count[p] == 0
            && Maps(s.pte, p) == {} && p !in s.kernel && held[p] == 0
  {
    var p := s.free[0];
    assert multiset(s.free)[p] > 0;
    assert s.count[p] == Refs(s.pte, s.kernel, held, p);
  }

  lemma KallocFree(g: Geometry, free: seq<nat>, count: seq<int>)
    requires FreeExact(g, free, count) && free != [] && free[0] < |count|
    ensures FreeExact(g, free[1..], count[free[0] := 1])
  {
    FreeHead(free);
    assert multiset(free)[free[0]] == 1;
  }

  // kalloc: the caller holds the only reference to the page.
  lemma KallocOk(g: Geometry, s: Pages, held: multiset<nat>)
    requires Ok(g, s, held) && s.free != [] && s.free[0] < |s.count|
    ensures Ok(g, Kalloc(s), held + multiset{s.free[0]})
  {
    KallocPage(g, s, held);
    KallocFree(g, s.free, s.count);
  }

  lemma NotMapped(pte: map<VAddr, Pte>, p: nat)
    requires Maps(pte, p) == {}
    ensures forall k | k in pte :: pte[k].ppn != p
  {
    forall k | k in pte ensures pte[k].ppn != p {
      assert pte[k].ppn == p ==> k in Maps(pte, p);
    }
  }

  // A page that nobody maps may hold anything.
  lemma UserFill(pte: map<VAddr, Pte>, mem: map<nat, Page>, p: nat, data: Page)
    requires Maps(pte, p) == {} && p in mem
    ensures User(pte, mem[p := data]) == User(pte, mem)
  {
    NotMapped(pte, p);
  }

  lemma KfreeFree(g: Geometry, free: seq<nat>, count: seq<int>, p: nat)
    requires FreeExact(g, free, count) && g.Managed(p) && count[p] > 0
    ensures FreeExact(g, if count[p] == 1 then [p] + free else free, count[p := count[p] - 1])
  {
    assert multiset([p] + free) == multiset{p} + multiset(free);
  }

  lemma KfreeCounts(g: Geometry, count: seq<int>, pte: map<VAddr, Pte>, kernel: map<nat, Owner>, held: multiset<nat>,
                    p: nat)
    requires CountsExact(g, count, pte, kernel, held) && g.Managed(p) && held[p] > 0
    ensures count[p] > 0
    ensures CountsExact(g, count[p := count[p] - 1], pte, kernel, held - multiset{p})
    ensures count[p] == 1 ==> Maps(pte, p) == {}
  {
    assert count[p] == Refs(pte, kernel, held, p);
  }

  // kfree of a reference held in hand.
  lemma KfreeHeld(g: Geometry, s: Pages, held: multiset<nat>, p: nat)
    requires Ok(g, s, held) && held[p] > 0 && g.Managed(p)
    ensures p < |s.count| == g.top && s.count[p] > 0
    ensures Ok(g, Kfree(s, p), held - multiset{p})
    ensures User(s.pte, Kfree(s, p).mem) == User(s.pte, s.mem)
  {
    KfreeCounts(g, s.count, s.pte, s.kernel, held, p);
    KfreeFree(g, s.free, s.count, p);
    if s.count[p] == 1 {
      UserFill(s.pte, s.mem, p, Junk());
    }
  }

  // ---- Mapping, sharing and unmapping a page ----

  lemma MapsAdd(pte: map<VAddr, Pte>, k: VAddr, e: Pte, p: nat)
    requires k !in pte
    ensures Maps(pte[k := e], p) == if e.ppn == p then Maps(pte, p) + {k} else Maps(pte, p)
    ensures |Maps(pte[k := e], p)| == |Maps(pte, p)| + if e.ppn == p then 1 else 0
  {
    assert Maps(pte[k := e], p) == if e.ppn == p then Maps(pte, p) + {k} else Maps(pte, p);
  }

  lemma MapsRemove(pte: map<VAddr, Pte>, k: VAddr, p: nat)
    requires k in pte
    ensures Maps(pte - {k}, p) == Maps(pte, p) - {k}
    ensures |Maps(pte - {k}, p)| == |Maps(pte, p)| - if pte[k].ppn == p then 1 else 0
  {
    assert Maps(pte - {k}, p) == Maps(pte, p) - {k};
  }

  lemma MapsSame(pte: map<VAddr, Pte>, k: VAddr, e: Pte, p: nat)
    requires k in pte && e.ppn == pte[k].ppn
    ensures Maps(pte[k := e], p) == Maps(pte, p)
  {
  }

  lemma MapCounts(g: Geometry, count: seq<int>, pte: map<VAddr, Pte>, kernel: map<nat, Owner>, held: multiset<nat>,
                  k: VAddr, e: Pte)
    requires CountsExact(g, count, pte, kernel, held) && k !in pte && held[e.ppn] > 0
    ensures CountsExact(g, count, pte[k := e], kernel, held - multiset{e.ppn})
  {
    forall p: nat | p < g.top && g.Managed(p)
      ensures count[p] == Refs(pte[k := e], kernel, held - multiset{e.ppn}, p)
    {
      MapsAdd(pte, k, e, p);
    }
  }

  // No writable entry maps page `p`.
  ghost predicate Protected(pte: map<VAddr, Pte>, p: nat) {
    forall k | k in pte :: pte[k].ppn == p ==> !pte[k].w
  }

  lemma MapMapped(g: Geometry, pte: map<VAddr, Pte>, kernel: map<nat, Owner>, k: VAddr, e: Pte)
    requires MappedOk(g, pte, kernel) && k !in pte
    requires g.Managed(e.ppn) && e.ppn !in kernel && k.page * PGSIZE < KERNBASE && (e.w || e.cow)
    requires Protected(pte, e.ppn) && (e.w ==> Maps(pte, e.ppn) == {})
    ensures MappedOk(g, pte[k := e], kernel)
  {
    var pte' := pte[k := e];
    forall j | j in pte' ensures MappedAt(g, pte', kernel, j) {
      MapsAdd(pte, k, e, pte'[j].ppn);
      if j != k {
        assert MappedAt(g, pte, kernel, j);
      }
    }
  }

  lemma UserAdd(pte: map<VAddr, Pte>, mem: map<nat, Page>, k: VAddr, e: Pte)
    requires e.ppn in mem
    ensures User(pte[k := e], mem) == User(pte, mem)[k := Cell(mem[e.ppn], e.u)]
  {
  }

  // A page held in hand is put into a page table.
  lemma MapPage(g: Geometry, s: Pages, held: multiset<nat>, k: VAddr, e: Pte)
    requires Ok(g, s, held) && k !in s.pte && held[e.ppn] > 0
    requires g.Managed(e.ppn) && e.ppn !in s.kernel && k.page * PGSIZE < KERNBASE && (e.w || e.cow)
    requires Pde(k.dir, k.page / NPTENTRIES) in s.tables
    requires Protected(s.pte, e.ppn) && (e.w ==> Maps(s.pte, e.ppn) == {})
    ensures Ok(g, s.(pte := s.pte[k := e]), held - multiset{e.ppn})
    ensures User(s.pte[k := e], s.mem) == User(s.pte, s.mem)[k := Cell(s.mem[e.ppn], e.u)]
  {
    MapCounts(g, s.count, s.pte, s.kernel, held, k, e);
    MapMapped(g, s.pte, s.kernel, k, e);
    UserAdd(s.pte, s.mem, k, e);
  }

  lemma UnmapCounts(g: Geometry, count: seq<int>, pte: map<VAddr, Pte>, kernel: map<nat, Owner>, held: multiset<nat>,
                    k: VAddr)
    requires CountsExact(g, count, pte, kernel, held) && k in pte && g.Managed(pte[k].ppn)
    ensures var p := pte[k].ppn;
            && count[p] > 0
            && CountsExact(g, count[p := count[p] - 1], pte - {k}, kernel, held)
            && (count[p] == 1 ==> Maps(pte - {k}, p) == {})
  {
    var p := pte[k].ppn;
    assert k in Maps(pte, p);
    assert count[p] == Refs(pte, kernel, held, p);
    MapsRemove(pte, k, p);
    forall q: nat | q < g.top && g.Managed(q)
      ensures count[p := count[p] - 1][q] == Refs(pte - {k}, kernel, held, q)
    {
      MapsRemove(pte, k, q);
      assert count[q] == Refs(pte, kernel, held, q);
    }
  }

  lemma UnmapMapped(g: Geometry, pte: map<VAddr, Pte>, kernel: map<nat, Owner>, k: VAddr)
    requires MappedOk(g, pte, kernel) && k in pte
    ensures MappedOk(g, pte - {k}, kernel)
  {
    forall j | j in pte - {k} ensures MappedAt(g, pte - {k}, kernel, j) {
      MapsRemove(pte, k, pte[j].ppn);
      assert MappedAt(g, pte, kernel, j);
    }
  }

  lemma UserRemove(pte: map<VAddr, Pte>, mem: map<nat, Page>, k: VAddr)
    ensures User(pte - {k}, mem) == User(pte, mem) - {k}
  {
  }

  // kfree of a mapped page followed by clearing its entry.
  lemma UnmapPage(g: Geometry, s: Pages, held: multiset<nat>, k: VAddr)
    requires Ok(g, s, held) && k in s.pte
    ensures s.pte[k].ppn < |s.count| == g.top && s.count[s.pte[k].ppn] > 0 && g.Managed(s.pte[k].ppn)
    ensures var s' := Kfree(s, s.pte[k].ppn).(pte := s.pte - {k});
            Ok(g, s', held) && User(s'.pte, s'.mem) == User(s.pte, s.mem) - {k}
  {
    var p := s.pte[k].ppn;
    assert MappedAt(g, s.pte, s.kernel, k);
    UnmapCounts(g, s.count, s.pte, s.kernel, held, k);
    UnmapMapped(g, s.pte, s.kernel, k);
    KfreeFree(g, s.free, s.count, p);
    UserRemove(s.pte, s.mem, k);
    if s.count[p] == 1 {
      UserFill(s.pte - {k}, s.mem, p, Junk());
    }
  }

  lemma ProtectMapped(g: Geometry, pte: map<VAddr, Pte>, kernel: map<nat, Owner>, k: VAddr)
    requires MappedOk(g, pte, kernel) && k in pte
    ensures var pte' := pte[k := pte[k].(w := false, cow := true)];
            MappedOk(g, pte', kernel) && Protected(pte', pte[k].ppn)
  {
    var e := pte[k].(w := false, cow := true);
    var pte' := pte[k := e];
    forall j | j in pte'
      ensures MappedAt(g, pte', kernel, j) && (pte'[j].ppn == e.ppn ==> !pte'[j].w)
    {
      assert MappedAt(g, pte, kernel, j);
      MapsSame(pte, k, e, pte'[j].ppn);
      assert k in Maps(pte, e.ppn);
    }
  }

  lemma ProtectCounts(g: Geometry, count: seq<int>, pte: map<VAddr, Pte>, kernel: map<nat, Owner>,
                      held: multiset<nat>, k: VAddr)
    requires CountsExact(g, count, pte, kernel, held) && k in pte
    ensures CountsExact(g, count, pte[k := pte[k].(w := false, cow := true)], kernel, held)
  {
    var e := pte[k].(w := false, cow := true);
    forall p: nat | p < g.top && g.Managed(p)
      ensures count[p] == Refs(pte[k := e], kernel, held, p)
    {
      MapsSame(pte, k, e, p);
      assert count[p] == Refs(pte, kernel, held, p);
    }
  }

  lemma UserProtect(pte: map<VAddr, Pte>, mem: map<nat, Page>, k: VAddr)
    requires k in pte
    ensures User(pte[k := pte[k].(w := false, cow := true)], mem) == User(pte, mem)
  {
  }

  // copyuvm takes the write permission off an entry; whoever shares the page, nobody can write it now.
  lemma ProtectEntry(g: Geometry, s: Pages, held: multiset<nat>, k: VAddr)
    requires Ok(g, s, held) && k in s.pte
    ensures var pte' := s.pte[k := s.pte[k].(w := false, cow := true)];
            && Ok(g, s.(pte := pte'), held)
            && User(pte', s.mem) == User(s.pte, s.mem)
            && Protected(pte', s.pte[k].ppn)
  {
    ProtectMapped(g, s.pte, s.kernel, k);
    ProtectCounts(g, s.count, s.pte, s.kernel, held, k);
    UserProtect(s.pte, s.mem, k);
  }

  // incrementRefCount of a page in use.
  lemma IncrefOk(g: Geometry, s: Pages, held: multiset<nat>, p: nat)
    requires Ok(g, s, held) && g.Managed(p) && p < |s.count| && s.count[p] > 0
    ensures Ok(g, Incref(s, p), held + multiset{p})
  {
    assert s.count[p] == Refs(s.pte, s.kernel, held, p);
    forall q: nat | q < g.top && g.Managed(q)
      ensures Incref(s, p).count[q] == Refs(s.pte, s.kernel, held + multiset{p}, q)
    {
      assert s.count[q] == Refs(s.pte, s.kernel, held, q);
    }
  }

  // ---- Kernel pages ----

  // A page held in hand goes into the kernel's use.
  lemma OwnPage(g: Geometry, s: Pages, held: multiset<nat>, p: nat, o: Owner)
    requires Ok(g, s, held) && held[p] > 0 && g.Managed(p) && Maps(s.pte, p) == {} && p !in s.kernel && !o.Table?
    ensures Ok(g, s.(kernel := s.kernel[p := o]), held - multiset{p})
  {
    OwnCounts(g, s, held, p, o);
    OwnMapped(g, s.pte, s.kernel, p, o);
    OwnTables(g, s.kernel, s.tables, p, o);
  }

  lemma OwnCounts(g: Geometry, s: Pages, held: multiset<nat>, p: nat, o: Owner)
    requires CountsExact(g, s.count, s.pte, s.kernel, held) && held[p] > 0 && p !in s.kernel
    ensures CountsExact(g, s.count, s.pte, s.kernel[p := o], held - multiset{p})
  {
    forall q: nat | q < g.top && g.Managed(q)
      ensures s.count[q] == Refs(s.pte, s.kernel[p := o], held - multiset{p}, q)
    {
      assert s.count[q] == Refs(s.pte, s.kernel, held, q);
    }
  }

  lemma OwnMapped(g: Geometry, pte: map<VAddr, Pte>, kernel: map<nat, Owner>, p: nat, o: Owner)
    requires MappedOk(g, pte, kernel) && Maps(pte, p) == {}
    ensures MappedOk(g, pte, kernel[p := o])
  {
    NotMapped(pte, p);
    forall k | k in pte ensures MappedAt(g, pte, kernel[p := o], k) {
      assert MappedAt(g, pte, kernel, k);
    }
  }

  lemma OwnTables(g: Geometry, kernel: map<nat, Owner>, tables: map<Pde, nat>, p: nat, o: Owner)
    requires TablesOk(g, kernel, tables) && p !in kernel && g.Managed(p) && !o.Table?
    ensures TablesOk(g, kernel[p := o], tables)
  {
    var kernel' := kernel[p := o];
    forall t | t in tables ensures TableAt(kernel', tables, t) {
      assert TableAt(kernel, tables, t);
    }
    forall q | q in kernel' ensures OwnerAt(g, kernel', tables, q) {
      assert q != p ==> OwnerAt(g, kernel, tables, q);
    }
  }

  // walkpgdir hangs a new page table under a directory.
  lemma AddTable(g: Geometry, s: Pages, held: multiset<nat>, p: nat, t: Pde)
    requires Ok(g, s, held) && held[p] > 0 && g.Managed(p) && Maps(s.pte, p) == {} && p !in s.kernel
    requires t !in s.tables && t.index < NPDENTRIES && t.dir in s.kernel && s.kernel[t.dir] == Dir
    ensures Ok(g, s.(kernel := s.kernel[p := Table(t)], tables := s.tables[t := p]), held - multiset{p})
  {
    var kernel', tables' := s.kernel[p := Table(t)], s.tables[t := p];
    OwnCounts(g, s, held, p, Table(t));
    OwnMapped(g, s.pte, s.kernel, p, Table(t));
    forall u | u in tables' ensures TableAt(kernel', tables', u) {
      assert u != t ==> TableAt(s.kernel, s.tables, u);
    }
    forall q | q in kernel' ensures OwnerAt(g, kernel', tables', q) {
      assert q != p ==> OwnerAt(g, s.kernel, s.tables, q);
    }
  }

  lemma DisownCounts(g: Geometry, count: seq<int>, pte: map<VAddr, Pte>, kernel: map<nat, Owner>, held: multiset<nat>,
                     p: nat)
    requires CountsExact(g, count, pte, kernel, held) && p in kernel && g.Managed(p)
    ensures count[p] > 0 && CountsExact(g, count[p := count[p] - 1], pte, kernel - {p}, held)
  {
    assert count[p] == Refs(pte, kernel, held, p);
    forall q: nat | q < g.top && g.Managed(q)
      ensures count[p := count[p] - 1][q] == Refs(pte, kernel - {p}, held, q)
    {
      assert count[q] == Refs(pte, kernel, held, q);
    }
  }

  lemma KernelNotMapped(g: Geometry, pte: map<VAddr, Pte>, kernel: map<nat, Owner>, p: nat)
    requires MappedOk(g, pte, kernel) && p in kernel
    ensures Maps(pte, p) == {}
  {
    forall k | k in pte ensures pte[k].ppn != p {
      assert MappedAt(g, pte, kernel, k);
    }
  }

  lemma DisownMapped(g: Geometry, pte: map<VAddr, Pte>, kernel: map<nat, Owner>, p: nat)
    requires MappedOk(g, pte, kernel)
    ensures MappedOk(g, pte, kernel - {p})
  {
    forall k | k in pte ensures MappedAt(g, pte, kernel - {p}, k) {
      assert MappedAt(g, pte, kernel, k);
    }
  }

  // kfree of a kernel page, as far as counts, the free list and user memory go.
  lemma DisownCore(g: Geometry, s: Pages, held: multiset<nat>, p: nat)
    requires Ok(g, s, held) && p in s.kernel
    ensures p < |s.count| == g.top && s.count[p] > 0 && g.Managed(p)
    ensures var s' := Kfree(s, p).(kernel := s.kernel - {p});
            && CountsExact(g, s'.count, s'.pte, s'.kernel, held)
            && FreeExact(g, s'.free, s'.count)
            && MappedOk(g, s'.pte, s'.kernel) && Hung(s'.pte, s'.tables) && MemOk(g, s'.mem)
            && User(s'.pte, s'.mem) == User(s.pte, s.mem)
  {
    assert OwnerAt(g, s.kernel, s.tables, p);
    KernelNotMapped(g, s.pte, s.kernel, p);
    DisownCounts(g, s.count, s.pte, s.kernel, held, p);
    DisownMapped(g, s.pte, s.kernel, p);
    KfreeFree(g, s.free, s.count, p);
    UserFill(s.pte, s.mem, p, Junk());
  }

  // kfree of a kernel page that is no page table and under which no page table hangs.
  lemma DisownPage(g: Geometry, s: Pages, held: multiset<nat>, p: nat)
    requires Ok(g, s, held) && p in s.kernel && !s.kernel[p].Table?
    requires forall t | t in s.tables :: t.dir != p
    ensures p < |s.count| == g.top && s.count[p] > 0 && g.Managed(p)
    ensures var s' := Kfree(s, p).(kernel := s.kernel - {p});
            Ok(g, s', held) && User(s'.pte, s'.mem) == User(s.pte, s.mem)
  {
    DisownCore(g, s, held, p);
    DisownTables(g, s.kernel, s.tables, p);
  }

  lemma DisownTables(g: Geometry, kernel: map<nat, Owner>, tables: map<Pde, nat>, p: nat)
    requires TablesOk(g, kernel, tables) && p in kernel && !kernel[p].Table?
    requires forall t | t in tables :: t.dir != p
    ensures TablesOk(g, kernel - {p}, tables)
  {
    forall t | t in tables ensures TableAt(kernel - {p}, tables, t) {
      assert TableAt(kernel, tables, t);
    }
    forall q | q in kernel - {p} ensures OwnerAt(g, kernel - {p}, tables, q) {
      assert OwnerAt(g, kernel, tables, q);
    }
  }

  // freevm's kfree of a page table that maps nothing any more.
  lemma RemoveTable(g: Geometry, s: Pages, held: multiset<nat>, t: Pde)
    requires Ok(g, s, held) && t in s.tables
    requires MapsNothing(s.pte, t)
    ensures var p := s.tables[t];
            p < |s.count| == g.top && s.count[p] > 0 && g.Managed(p) && p in s.kernel && s.kernel[p] == Table(t)
    ensures var p := s.tables[t];
            var s' := Kfree(s, p).(kernel := s.kernel - {p}, tables := s.tables - {t});
            Ok(g, s', held) && User(s'.pte, s'.mem) == User(s.pte, s.mem)
  {
    assert TableAt(s.kernel, s.tables, t);
    DisownCore(g, s, held, s.tables[t]);
    RemoveTables(g, s.kernel, s.tables, t);
    StillHung(s.pte, s.tables, t);
  }

  // No entry lives in page table `t`.
  ghost predicate MapsNothing(pte: map<VAddr, Pte>, t: Pde) {
    forall k | k in pte :: Pde(k.dir, k.page / NPTENTRIES) != t
  }

  lemma StillHung(pte: map<VAddr, Pte>, tables: map<Pde, nat>, t: Pde)
    requires Hung(pte, tables) && MapsNothing(pte, t)
    ensures Hung(pte, tables - {t})
  {
  }

  lemma RemoveTables(g: Geometry, kernel: map<nat, Owner>, tables: map<Pde, nat>, t: Pde)
    requires TablesOk(g, kernel, tables) && t in tables
    ensures TablesOk(g, kernel - {tables[t]}, tables - {t})
  {
    var p := tables[t];
    assert TableAt(kernel, tables, t);
    forall u | u in tables - {t} ensures TableAt(kernel - {p}, tables - {t}, u) {
      assert TableAt(kernel, tables, u);
    }
    forall q | q in kernel - {p} ensures OwnerAt(g, kernel - {p}, tables - {t}, q) {
      assert OwnerAt(g, kernel, tables, q);
    }
  }

  // ---- What the invariant says between system calls ----

  // The free list holds each page that nobody uses once, and no other page.
  lemma FreeListExact(g: Geometry, s: Pages)
    requires Ok(g, s, multiset{})
    ensures forall i, j | 0 <= i < j < |s.free| :: s.free[i] != s.free[j]
    ensures forall p: nat :: p in s.free <==> g.Managed(p) && Maps(s.pte, p) == {} && p !in s.kernel
  {
    forall i, j | 0 <= i < j < |s.free| ensures s.free[i] != s.free[j] {
      if s.free[i] == s.free[j] {
        TwiceIn(s.free, i, j);
      }
    }
    forall p: nat ensures p in s.free <==> g.Managed(p) && Maps(s.pte, p) == {} && p !in s.kernel {
      assert p in s.free <==> multiset(s.free)[p] > 0;
      if g.Managed(p) {
        assert s.count[p] == Refs(s.pte, s.kernel, multiset{}, p);
        assert |Maps(s.pte, p)| == 0 <==> Maps(s.pte, p) == {};
      }
    }
  }

  // So "the free list holds exactly the pages with count zero" is right for a page in range
  // if and only if the page was not handed out at boot.
  lemma FreeIsCountZero(g: Geometry, s: Pages, p: nat)
    requires Ok(g, s, multiset{}) && g.InRange(p)
    ensures p < |s.count|
    ensures (p in s.free <==> s.count[p] == 0) <==> p !in g.reserved
    ensures p in g.reserved ==> s.count[p] == 0
  {
    assert p in s.free <==> multiset(s.free)[p] > 0;
  }

  lemma TwiceIn(free: seq<nat>, i: nat, j: nat)
    requires i < j < |free| && free[i] == free[j]
    ensures multiset(free)[free[i]] >= 2
  {
    assert free == free[..j] + [free[j]] + free[j + 1..];
    assert free[i] in free[..j];
  }

  // A page that a program can write has reference count 1.
  lemma WritableCountOne(g: Geometry, s: Pages, k: VAddr)
    requires Ok(g, s, multiset{}) && k in s.pte && s.pte[k].w
    ensures s.pte[k].ppn < |s.count| && s.count[s.pte[k].ppn] == 1
  {
    assert MappedAt(g, s.pte, s.kernel, k);
    assert s.count[s.pte[k].ppn] == Refs(s.pte, s.kernel, multiset{}, s.pte[k].ppn);
    assert |Maps(s.pte, s.pte[k].ppn)| == |{k}| == 1;
  }
}
