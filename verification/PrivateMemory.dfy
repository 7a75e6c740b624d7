/**
 What copy-on-write fork has to look like: processes that each own their pages,
 with fork copying them eagerly. Addresses name the process and the page.
 */
module PrivateMemory {
  import opened PageState

  type Memory = map<VAddr, Cell>

  // Pages that `sz` bytes need: PGROUNDUP(sz) / PGSIZE.
  function RoundUp(sz: nat): nat {
    (sz + PGSIZE - 1) / PGSIZE
  }

  // Exactly the pages that start below sz.
  lemma RoundUpIs(sz: nat, i: nat)
    ensures i < RoundUp(sz) <==> i * PGSIZE < sz
  {
  }

  function ZeroPage(): Page {
    seq(PGSIZE, i => 0)
  }

  // The first n pages of process p copied to process c.
  ghost function Copied(u: Memory, p: nat, c: nat, n: nat): Memory
    requires forall i: nat | i < n :: VAddr(p, i) in u
  {
    if n == 0 then u else Copied(u, p, c, n - 1)[VAddr(c, n - 1) := u[VAddr(p, n - 1)]]
  }

  // Process p with zeroed pages lo..hi.
  ghost function Grown(u: Memory, p: nat, lo: nat, hi: nat): Memory
    decreases hi
  {
    if hi <= lo then u else Grown(u, p, lo, hi - 1)[VAddr(p, hi - 1) := Cell(ZeroPage(), true)]
  }

  // Process p without pages lo..hi.
  ghost function Shrunk(u: Memory, p: nat, lo: nat, hi: nat): Memory {
    map k | k in u && !(k.dir == p && lo <= k.page < hi) :: u[k]
  }

  ghost function Without(u: Memory, p: nat): Memory {
    map k | k in u && k.dir != p :: u[k]
  }

  // Pointwise: the child has the parent's cells, and nobody else notices.
  lemma {:induction false} CopiedAt(u: Memory, p: nat, c: nat, n: nat, k: VAddr)
    requires p != c && forall i: nat | i < n :: VAddr(p, i) in u
    ensures k in Copied(u, p, c, n) <==> (k.dir == c && k.page < n) || k in u
    ensures k in Copied(u, p, c, n) ==>
              Copied(u, p, c, n)[k] == if k.dir == c && k.page < n then u[VAddr(p, k.page)] else u[k]
  {
    if n > 0 {
      CopiedAt(u, p, c, n - 1, k);
    }
  }

  lemma {:induction false} GrownAt(u: Memory, p: nat, lo: nat, hi: nat, k: VAddr)
    ensures k in Grown(u, p, lo, hi) <==> (k.dir == p && lo <= k.page < hi) || k in u
    ensures k in Grown(u, p, lo, hi) ==>
              Grown(u, p, lo, hi)[k] == if k.dir == p && lo <= k.page < hi then Cell(ZeroPage(), true) else u[k]
    decreases hi
  {
    if lo < hi {
      GrownAt(u, p, lo, hi - 1, k);
    }
  }

  // ---- The machine with private memories ----

  datatype Request =
    | Fork(p: nat)
    | Write(p: nat, va: nat, b: int)
    | Read(p: nat, va: nat)
    | Sbrk(p: nat, n: int)
    | Reap(p: nat) // the process exited and its parent waits for it
    | OpenPipe(p: nat)
    | ClosePipe(p: nat, q: nat) // the last end of pipe q is closed

  datatype Reply =
    | Child(c: nat)
    | Byte(b: int)
    | Done
    | Failed // out of memory, or sbrk's -1
    | Panicked // an access that is not allowed, or a fork that finds a page missing
    | NoProcess
    | Opened(q: nat)
    | NoPipe

  // sz + n in 32-bit unsigned arithmetic.
  function NewSize(sz: nat, n: int): nat {
    (sz + n) % 0x1_0000_0000
  }

  ghost predicate Full(u: Memory, p: nat, sz: nat) {
    forall i: nat | i < RoundUp(sz) :: VAddr(p, i) in u
  }

  ghost predicate Accessible(u: Memory, p: nat, va: nat) {
    VAddr(p, va / PGSIZE) in u && u[VAddr(p, va / PGSIZE)].u
  }

  ghost function Stored(u: Memory, p: nat, va: nat, b: int): Memory
    requires Accessible(u, p, va)
  {
    var k := VAddr(p, va / PGSIZE);
    u[k := Cell(u[k].data[va % PGSIZE := b], true)]
  }

  // Every process's memory and size, and the pipes that are open.
  datatype World = World(u: Memory, sz: map<nat, nat>, pipes: set<nat>)

  // growproc on private memory. Shrinking to nothing takes the pages away but
  // returns -1 and leaves the size, as growproc does.
  ghost predicate Resized(w: World, p: nat, n: int, rp: Reply, w': World)
    requires p in w.sz
  {
    var size, goal := w.sz[p], NewSize(w.sz[p], n);
    if n > 0 then
      || (rp.Done? && goal < KERNBASE && w' == World(Grown(w.u, p, RoundUp(size), RoundUp(goal)), w.sz[p := goal],
          w.pipes))
      || (rp.Failed? && w' == w)
    else if n == 0 then rp.Done? && w' == w
    else if goal >= size then (if size == 0 then rp.Failed? else rp.Done?) && w' == w
    else if goal == 0 then rp.Failed? && w' == w.(u := Shrunk(w.u, p, 0, RoundUp(size)))
    else rp.Done? && w' == World(Shrunk(w.u, p, RoundUp(goal), RoundUp(size)), w.sz[p := goal], w.pipes)
  }

  // One request of the machine in which every process owns its pages and fork copies them.
  ghost predicate Step(w: World, rq: Request, rp: Reply, w': World) {
    if rq.p !in w.sz then rp.NoProcess? && w' == w
    else
      match rq
      case Fork(p) =>
        if rp.Child? then
          && rp.c !in w.sz && Full(w.u, p, w.sz[p])
          && w' == World(Copied(w.u, p, rp.c, RoundUp(w.sz[p])), w.sz[rp.c := w.sz[p]], w.pipes)
        else if rp.Panicked? then !Full(w.u, p, w.sz[p])
        else rp.Failed? && w' == w
      case Write(p, va, b) =>
        if !Accessible(w.u, p, va) then rp.Panicked?
        else (rp.Failed? && w' == w) || (rp.Done? && w' == w.(u := Stored(w.u, p, va, b)))
      case Read(p, va) =>
        if !Accessible(w.u, p, va) then rp.Panicked?
        else rp == Byte(w.u[VAddr(p, va / PGSIZE)].data[va % PGSIZE]) && w' == w
      case Sbrk(p, n) => Resized(w, p, n, rp, w')
      case Reap(p) => rp.Done? && w' == World(Without(w.u, p), w.sz - {p}, w.pipes)
      case OpenPipe(p) =>
        if rp.Opened? then rp.q !in w.pipes && w' == w.(pipes := w.pipes + {rp.q}) else rp.Failed? && w' == w
      case ClosePipe(p, q) =>
        if q in w.pipes then rp.Done? && w' == w.(pipes := w.pipes - {q}) else rp.NoPipe? && w' == w
  }

  // A run of it, up to the first panic.
  ghost predicate Run(ws: seq<World>, rqs: seq<Request>, rps: seq<Reply>) {
    && |ws| == |rps| + 1 && |rps| <= |rqs|
    && (forall i | 0 <= i < |rps| :: Step(ws[i], rqs[i], rps[i], ws[i + 1]))
    && (forall i | 0 <= i < |rps| - 1 :: !rps[i].Panicked?)
    && (|rps| < |rqs| ==> rps != [] && rps[|rps| - 1].Panicked?)
  }

  // ---- What such a run means ----

  ghost predicate SameMemory(u: Memory, u': Memory, p: nat) {
    forall k: VAddr | k.dir == p :: (k in u <==> k in u') && (k in u ==> u[k] == u'[k])
  }

  lemma StepIsolates(w: World, rq: Request, rp: Reply, w': World, p: nat)
    requires Step(w, rq, rp, w') && !rp.Panicked? && p in w.sz && rq.p != p
    ensures p in w'.sz && w'.sz[p] == w.sz[p] && SameMemory(w.u, w'.u, p)
  {
    if rq.p in w.sz {
      match rq
      case Fork(q) =>
        if rp.Child? {
          forall k: VAddr | k.dir == p
            ensures (k in w.u <==> k in w'.u) && (k in w.u ==> w.u[k] == w'.u[k])
          {
            CopiedAt(w.u, q, rp.c, RoundUp(w.sz[q]), k);
          }
        }
      case Sbrk(q, n) =>
        if n > 0 && rp.Done? {
          forall k: VAddr | k.dir == p
            ensures (k in w.u <==> k in w'.u) && (k in w.u ==> w.u[k] == w'.u[k])
          {
            GrownAt(w.u, q, RoundUp(w.sz[q]), RoundUp(NewSize(w.sz[q], n)), k);
          }
        }
      case _ =>
    }
  }

  // A process that makes no request sees its memory unchanged by whatever the
  // others do: a parent's writes after fork, a child's, anybody's exit.
  lemma {:induction false} Isolation(ws: seq<World>, rqs: seq<Request>, rps: seq<Reply>, p: nat, i: nat)
    requires Run(ws, rqs, rps) && i < |ws| && (i == |rps| > 0 ==> !rps[i - 1].Panicked?)
    requires p in ws[0].sz && forall j | 0 <= j < i :: rqs[j].p != p
    ensures p in ws[i].sz && ws[i].sz[p] == ws[0].sz[p] && SameMemory(ws[0].u, ws[i].u, p)
  {
    if i > 0 {
      Isolation(ws, rqs, rps, p, i - 1);
      StepIsolates(ws[i - 1], rqs[i - 1], rps[i - 1], ws[i], p);
    }
  }

  // Every process has all the pages its size says.
  ghost predicate AllFull(w: World) {
    forall p | p in w.sz :: Full(w.u, p, w.sz[p])
  }

  // The request that breaks this: sbrk(-sz).
  ghost predicate ShrinksToNothing(w: World, rq: Request) {
    rq.Sbrk? && rq.p in w.sz && 0 < w.sz[rq.p] && rq.n < 0 && NewSize(w.sz[rq.p], rq.n) == 0
  }

  // Pages stay complete through every step but that one, and that one does break them.
  lemma StaysFullIff(w: World, rq: Request, rp: Reply, w': World)
    requires AllFull(w) && Step(w, rq, rp, w') && !rp.Panicked?
    ensures AllFull(w') <==> !ShrinksToNothing(w, rq)
  {
    if rq.p in w.sz {
      match rq
      case Fork(p) =>
        if rp.Child? {
          CopyFull(w, p, rp.c, w');
        }
      case Sbrk(p, n) =>
        ResizeFull(w, p, n, rp, w');
      case Write(p, va, b) =>
      case Read(p, va) =>
      case Reap(p) =>
        forall q | q in w'.sz ensures Full(w'.u, q, w'.sz[q]) {
          assert Full(w.u, q, w.sz[q]);
        }
      case OpenPipe(p) =>
      case ClosePipe(p, q) =>
    }
  }

  // In a run without such a request no fork finds a page missing.
  lemma {:induction false} NoForkPanics(ws: seq<World>, rqs: seq<Request>, rps: seq<Reply>, i: nat)
    requires Run(ws, rqs, rps) && AllFull(ws[0]) && i < |rps|
    requires forall j | 0 <= j < i :: !ShrinksToNothing(ws[j], rqs[j])
    ensures AllFull(ws[i])
    ensures rqs[i].Fork? ==> !rps[i].Panicked?
  {
    if i > 0 {
      NoForkPanics(ws, rqs, rps, i - 1);
      StaysFullIff(ws[i - 1], rqs[i - 1], rps[i - 1], ws[i]);
    }
    assert Step(ws[i], rqs[i], rps[i], ws[i + 1]);
  }

  lemma CopyFull(w: World, p: nat, c: nat, w': World)
    requires AllFull(w) && p in w.sz && c !in w.sz
    requires w' == World(Copied(w.u, p, c, RoundUp(w.sz[p])), w.sz[c := w.sz[p]], w.pipes)
    ensures AllFull(w')
  {
    forall q, i: nat | q in w'.sz && i < RoundUp(w'.sz[q]) ensures VAddr(q, i) in w'.u {
      CopiedAt(w.u, p, c, RoundUp(w.sz[p]), VAddr(q, i));
      if q != c {
        assert Full(w.u, q, w.sz[q]);
      }
    }
  }

  lemma ResizeFull(w: World, p: nat, n: int, rp: Reply, w': World)
    requires AllFull(w) && p in w.sz && Resized(w, p, n, rp, w')
    ensures AllFull(w') <==> !ShrinksToNothing(w, Sbrk(p, n))
  {
    var goal := NewSize(w.sz[p], n);
    if ShrinksToNothing(w, Sbrk(p, n)) {
      assert VAddr(p, 0) !in w'.u;
      assert !Full(w'.u, p, w'.sz[p]);
    } else if n > 0 && rp.Done? {
      forall q, i: nat | q in w'.sz && i < RoundUp(w'.sz[q]) ensures VAddr(q, i) in w'.u {
        GrownAt(w.u, p, RoundUp(w.sz[p]), RoundUp(goal), VAddr(q, i));
        assert Full(w.u, q, w.sz[q]);
      }
    } else {
      forall q | q in w'.sz ensures Full(w'.u, q, w'.sz[q]) {
        assert Full(w.u, q, w.sz[q]);
      }
    }
  }

  // ---- What a process reads ----

  ghost function ByteAt(u: Memory, p: nat, va: nat): int
    requires VAddr(p, va / PGSIZE) in u
  {
    u[VAddr(p, va / PGSIZE)].data[va % PGSIZE]
  }

  // A C int.
  predicate IntSized(rq: Request) {
    rq.Sbrk? ==> -0x8000_0000 <= rq.n < 0x8000_0000
  }

  // Every page is a process's and within its size.
  ghost predicate Tidy(w: World) {
    && (forall p | p in w.sz :: w.sz[p] <= KERNBASE)
    && forall k | k in w.u :: k.dir in w.sz && k.page < RoundUp(w.sz[k.dir])
  }

  // sbrk moves the size by n, unless that would leave the range, take all memory away, or memory is short.
  lemma NewSizeIs(sz: nat, n: int)
    requires sz <= KERNBASE && -0x8000_0000 <= n < 0x8000_0000
    ensures 0 <= sz + n ==> NewSize(sz, n) == sz + n
    ensures sz + n < 0 ==> NewSize(sz, n) == sz + n + 0x1_0000_0000 >= sz
  {
  }

  lemma SbrkIs(w: World, p: nat, n: int, rp: Reply, w': World)
    requires Step(w, Sbrk(p, n), rp, w') && p in w.sz && w.sz[p] <= KERNBASE && -0x8000_0000 <= n < 0x8000_0000
    ensures var goal := w.sz[p] + n;
      && (w' == w || w'.pipes == w.pipes)
      && (n > 0 && goal >= KERNBASE ==> rp.Failed? && w' == w)
      && (n > 0 && rp.Failed? ==> w' == w)
      && (n > 0 && !rp.Failed? ==> rp.Done? && w'.sz == w.sz[p := goal])
      && (n == 0 || (n < 0 && goal < 0) ==> w' == w && (rp.Done? || (rp.Failed? && n < 0 && w.sz[p] == 0)))
      && (n < 0 && goal == 0 ==> rp.Failed? && w'.sz == w.sz && forall i: nat :: VAddr(p, i) in w'.u ==> i >= RoundUp(w.sz[p]))
      && (n < 0 < goal ==> rp.Done? && w'.sz == w.sz[p := goal])
    ensures forall k: VAddr :: k in w'.u <==>
      || (k in w.u && !(k.dir == p && n < 0 && w.sz[p] + n >= 0 && RoundUp(w.sz[p] + n) <= k.page < RoundUp(w.sz[p])))
      || (k.dir == p && n > 0 && rp.Done? && RoundUp(w.sz[p]) <= k.page < RoundUp(w.sz[p] + n))
  {
    NewSizeIs(w.sz[p], n);
    forall k: VAddr ensures k in w'.u <==>
      || (k in w.u && !(k.dir == p && n < 0 && w.sz[p] + n >= 0 && RoundUp(w.sz[p] + n) <= k.page < RoundUp(w.sz[p])))
      || (k.dir == p && n > 0 && rp.Done? && RoundUp(w.sz[p]) <= k.page < RoundUp(w.sz[p] + n))
    {
      if n > 0 && rp.Done? { GrownAt(w.u, p, RoundUp(w.sz[p]), RoundUp(w.sz[p] + n), k); }
    }
  }

  lemma TidyStep(w: World, rq: Request, rp: Reply, w': World)
    requires Tidy(w) && Step(w, rq, rp, w') && !rp.Panicked? && IntSized(rq)
    ensures Tidy(w')
  {
    if rq.p in w.sz {
      if rq.Sbrk? { SbrkIs(w, rq.p, rq.n, rp, w'); }
      forall k | k in w'.u ensures k.dir in w'.sz && k.page < RoundUp(w'.sz[k.dir]) {
        if rq.Fork? && rp.Child? { CopiedAt(w.u, rq.p, rp.c, RoundUp(w.sz[rq.p]), k); }
      }
    }
  }

  // One step, byte by byte: a store puts its byte at its address, the child of a fork has the
  // parent's bytes, a page that is new is zero, and nothing else changes.
  lemma StepByte(w: World, rq: Request, rp: Reply, w': World, p: nat, va: nat)
    requires Tidy(w) && Step(w, rq, rp, w') && !rp.Panicked? && IntSized(rq) && VAddr(p, va / PGSIZE) in w'.u
    ensures rp == Child(p) && rq.Fork? ==> VAddr(rq.p, va / PGSIZE) in w.u
    ensures ByteAt(w'.u, p, va) ==
      if rq.Write? && rq.p == p && rq.va == va && rp.Done? then rq.b
      else if rq.Fork? && rp == Child(p) then ByteAt(w.u, rq.p, va)
      else if VAddr(p, va / PGSIZE) !in w.u then 0
      else ByteAt(w.u, p, va)
  {
    var k := VAddr(p, va / PGSIZE);
    if rq.p in w.sz {
      match rq
      case Fork(q) =>
        if rp.Child? { CopiedAt(w.u, q, rp.c, RoundUp(w.sz[q]), k); }
      case Sbrk(q, n) =>
        if n > 0 && rp.Done? { GrownAt(w.u, q, RoundUp(w.sz[q]), RoundUp(NewSize(w.sz[q], n)), k); }
      case Write(q, a, b) =>
        if q == p && a != va && a / PGSIZE == va / PGSIZE {
          assert a == a / PGSIZE * PGSIZE + a % PGSIZE && va == va / PGSIZE * PGSIZE + va % PGSIZE;
        }
      case _ =>
    }
  }

  // Reading back what was just written, and everything else as before.
  lemma ReadAfterWrite(w: World, p: nat, va: nat, b: int, w1: World, q: nat, v: nat, x: int, w2: World)
    requires Tidy(w) && Step(w, Write(p, va, b), Done, w1) && Step(w1, Read(q, v), Byte(x), w2) && p in w.sz && q in w.sz
    ensures q == p && v == va ==> x == b
    ensures !(q == p && v == va) ==> Step(w, Read(q, v), Byte(x), w)
  {
    StepByte(w, Write(p, va, b), Done, w1, q, v);
  }

  // The byte that process p has at address va after i requests, found by going back: to the last
  // store to it, through the forks that brought it, to the sbrk that did, or to the start.
  ghost function Held(ws: seq<World>, rqs: seq<Request>, rps: seq<Reply>, i: nat, p: nat, va: nat): int
    requires i < |ws| && i <= |rqs| && i <= |rps|
  {
    if i == 0 then
      if VAddr(p, va / PGSIZE) in ws[0].u then ByteAt(ws[0].u, p, va) else 0
    else if rqs[i - 1].Write? && rqs[i - 1].p == p && rqs[i - 1].va == va && rps[i - 1].Done? then rqs[i - 1].b
    else if rqs[i - 1].Fork? && rps[i - 1] == Child(p) then Held(ws, rqs, rps, i - 1, rqs[i - 1].p, va)
    else if VAddr(p, va / PGSIZE) !in ws[i - 1].u then 0
    else Held(ws, rqs, rps, i - 1, p, va)
  }

  lemma {:induction false} HeldIs(ws: seq<World>, rqs: seq<Request>, rps: seq<Reply>, i: nat, p: nat, va: nat)
    requires Run(ws, rqs, rps) && Tidy(ws[0]) && (forall j | 0 <= j < |rqs| :: IntSized(rqs[j]))
    requires i < |ws| && (i == |rps| > 0 ==> !rps[i - 1].Panicked?)
    ensures Tidy(ws[i])
    ensures VAddr(p, va / PGSIZE) in ws[i].u ==> ByteAt(ws[i].u, p, va) == Held(ws, rqs, rps, i, p, va)
  {
    hide Tidy, Step, ByteAt;
    if i > 0 {
      var rq, rp := rqs[i - 1], rps[i - 1];
      HeldIs(ws, rqs, rps, i - 1, p, va);
      HeldIs(ws, rqs, rps, i - 1, rq.p, va);
      TidyStep(ws[i - 1], rq, rp, ws[i]);
      if VAddr(p, va / PGSIZE) in ws[i].u { StepByte(ws[i - 1], rq, rp, ws[i], p, va); }
    }
  }

  // In every run a load gives the byte that was stored last, there or where it was copied from.
  lemma ReadsHeld(ws: seq<World>, rqs: seq<Request>, rps: seq<Reply>, i: nat)
    requires Run(ws, rqs, rps) && Tidy(ws[0]) && (forall j | 0 <= j < |rqs| :: IntSized(rqs[j])) && i < |rps|
    ensures rqs[i].Read? && rps[i].Byte? ==> rps[i].b == Held(ws, rqs, rps, i, rqs[i].p, rqs[i].va)
  {
    if rqs[i].Read? && rps[i].Byte? {
      HeldIs(ws, rqs, rps, i, rqs[i].p, rqs[i].va);
      assert Step(ws[i], rqs[i], rps[i], ws[i + 1]);
    }
  }
}
