/**
 The back end of ChampSim/src/ooo_cpu.cc: schedule, execute, complete, retire, and the load
 and store queues. The cache is outside: whether it takes a request, and what it returns,
 may be anything.
 */
module OutOfOrder {
  import opened Dataflow
  import opened LoadStore
  import opened Options
  import opened Stages

  const BlockSize: nat := 64

  ghost predicate Below(rob: seq<Instr>, sq: seq<Store>, bound: nat) {
    (forall k :: 0 <= k < |rob| ==> rob[k].id < bound) && (forall i :: 0 <= i < |sq| ==> sq[i].id < bound)
  }

  // An issued load to the line of address va.
  predicate OnLine(e: Option<Load>, va: nat) {
    e.Some? && e.value.issued && e.value.va / BlockSize == va / BlockSize
  }

  ghost predicate OnLines(e: Option<Load>, lines: seq<nat>) {
    exists j :: 0 <= j < |lines| && OnLine(e, lines[j])
  }

  lemma OneMoreLine(e: Option<Load>, returned: seq<nat>, n: nat)
    requires n < |returned|
    ensures OnLines(e, returned[..n + 1]) <==> OnLines(e, returned[..n]) || OnLine(e, returned[n])
    ensures !OnLine(None, returned[n])
  {
    if OnLines(e, returned[..n]) {
      var j :| 0 <= j < n && OnLine(e, returned[..n][j]);
      assert returned[..n + 1][j] == returned[j];
    }
    if OnLine(e, returned[n]) { assert returned[..n + 1][n] == returned[n]; }
    if OnLines(e, returned[..n + 1]) {
      var j :| 0 <= j < n + 1 && OnLine(e, returned[..n + 1][j]);
      assert j < n ==> returned[..n][j] == returned[j];
    }
  }

  lemma StoreFound(sq: seq<Store>, va: nat, b: nat)
    requires b < |sq| && sq[b].va == va
    ensures !NoStore(sq, va)
  {
  }

  // Where a load of the youngest instruction goes: slot s unless its value is there already.
  ghost predicate LoadPlaced(rob: seq<Instr>, lq: seq<Option<Load>>, sq: seq<Store>,
                             rob': seq<Instr>, lq': seq<Option<Load>>, sq': seq<Store>, va: nat, s: nat, b: nat)
  {
    && rob != []
    && var id := rob[|rob| - 1].id;
      if NoStore(sq, va) then
        s < |lq| && lq[s].None? && rob' == rob && sq' == sq && lq' == lq[s := Some(Load(id, va, 0, false, None))]
      else
        && Youngest(sq, va, b)
        && if sq[b].issued then rob' == Counted(rob, |rob| - 1) && lq' == lq && sq' == sq
           else
             s < |lq| && lq[s].None? && rob' == rob
             && lq' == lq[s := Some(Load(id, va, 0, false, Some(sq[b].id)))]
             && sq' == sq[b := sq[b].(waiting := sq[b].waiting + [s])]
  }

  // Only the count of the youngest instruction's memory operations has changed.
  ghost predicate OnlyLast(rob: seq<Instr>, to: seq<Instr>) {
    && rob != [] && |to| == |rob| && to[..|rob| - 1] == rob[..|rob| - 1]
    && to[|rob| - 1] == rob[|rob| - 1].(done := to[|rob| - 1].done)
  }

  // The next load of instruction x has found its place.
  lemma OneMoreLoad(x: Instr, i: nat, lq: seq<Option<Load>>, sq: seq<Store>, rob0: seq<Instr>, lq0: seq<Option<Load>>,
                    sq0: seq<Store>, rob: seq<Instr>, lq': seq<Option<Load>>, sq': seq<Store>, s: nat, b: nat)
    requires i < |x.loads| && LoadsEntered(x.id, x.loads[..i], lq, sq, lq0, sq0)
    requires LoadPlaced(rob0, lq0, sq0, rob, lq', sq', x.loads[i], s, b) && rob0[|rob0| - 1].id == x.id
    ensures LoadsEntered(x.id, x.loads[..i + 1], lq, sq, lq', sq') && OnlyLast(rob0, rob)
  {
    hide LoadsEntered, NoStore;
    var va := x.loads[i];
    assert x.loads[..i + 1] == x.loads[..i] + [va];
    if !NoStore(sq0, va) && sq0[b].issued {
      ForwardedEntered(x.id, x.loads[..i], lq, sq, lq0, sq0, va, b);
    } else {
      SlotEntered(x.id, x.loads[..i], lq, sq, lq0, sq0, va, s, b);
    }
  }

  function FreeSlots(lq: seq<Option<Load>>, n: nat): nat
    requires n <= |lq|
  {
    if n == 0 then 0 else FreeSlots(lq, n - 1) + if lq[n - 1].None? then 1 else 0
  }

  lemma {:induction false} SlotExists(lq: seq<Option<Load>>, n: nat)
    requires n <= |lq| && FreeSlots(lq, n) > 0
    ensures exists s :: 0 <= s < n && lq[s].None?
  {
    if lq[n - 1].Some? { SlotExists(lq, n - 1); }
  }

  lemma {:induction false} AllFree(lq: seq<Option<Load>>, n: nat)
    requires n <= |lq| && forall s :: 0 <= s < n ==> lq[s].None?
    ensures FreeSlots(lq, n) == n
  {
    if n > 0 { AllFree(lq, n - 1); }
  }

  lemma {:induction false} SlotTaken(lq: seq<Option<Load>>, n: nat, s: nat, e: Load)
    requires n <= |lq| && s < |lq| && lq[s].None?
    ensures FreeSlots(lq[s := Some(e)], n) == FreeSlots(lq, n) - if s < n then 1 else 0
  {
    if n > 0 { SlotTaken(lq, n - 1, s, e); }
  }

  // The state between any two steps.
  ghost predicate Ok(rob: seq<Instr>, lq: seq<Option<Load>>, sq: seq<Store>, producers: seq<seq<nat>>, n: nat,
                     bound: nat) {
    RegInv(rob, n, producers) && MemInv(rob, lq, sq) && Below(rob, sq, bound)
  }

  // The next load of a finishing store's list waits for it.
  lemma RestWaits(rob: seq<Instr>, lq: seq<Option<Load>>, sq: seq<Store>, rest: seq<nat>, pid: nat)
    requires MemState(rob, lq, sq, rest, pid, 0) && rest != []
    ensures WaitsFor(lq, rest[0], pid)
  {
  }

  lemma RestDone(rob: seq<Instr>, lq: seq<Option<Load>>, sq: seq<Store>, pid: nat)
    requires MemState(rob, lq, sq, [], pid, 0)
    ensures MemInv(rob, lq, sq)
  {
  }

  // An issued load waits for nobody, so it may finish.
  lemma IssuedFinishes(rob: seq<Instr>, lq: seq<Option<Load>>, sq: seq<Store>, producers: seq<seq<nat>>, n: nat,
                       bound: nat, s: nat)
    requires Ok(rob, lq, sq, producers, n, bound) && s < |lq| && lq[s].Some? && lq[s].value.issued
    ensures var k := Position(rob, lq[s].value.id);
      && k < |rob| && rob[k].id == lq[s].value.id && rob[k].done < NumMem(rob[k])
      && Ok(Counted(rob, k), lq[s := None], sq, producers, n, bound)
  {
    hide RegInv;
    LoadFinished(rob, lq, sq, [], 0, s);
    RegFrame(rob, n, producers, Counted(rob, Position(rob, lq[s].value.id)));
    hide MemState;
  }

  // ---- Scheduling ----

  // Instruction n is being scheduled, and its first i sources are marked.
  ghost predicate Marking(rob: seq<Instr>, n: nat, producers: seq<seq<nat>>, i: nat) {
    n < |rob| && Window(rob, n, n + 1) && Sourced(rob, n) && SourcesOk(rob, n, i) && Produced(rob, n, producers)
  }

  lemma MarkingStarts(rob: seq<Instr>, n: nat, producers: seq<seq<nat>>)
    requires RegInv(rob, n, producers) && n < |rob|
    ensures Marking(rob, n, producers, 0)
  {
    Opened(rob, n);
  }

  // The last of register r's producers, and whether instruction n already depends on it.
  lemma PriorFound(rob: seq<Instr>, n: nat, producers: seq<seq<nat>>, i: nat)
    requires Marking(rob, n, producers, i) && i < |rob[n].src|
    ensures rob[n].src[i] < |producers|
    ensures var w := producers[rob[n].src[i]];
      w != [] ==>
        var p := Position(rob, w[|w| - 1]);
        && p < n && rob[p].id == w[|w| - 1] && rob[p].executed != Completed && rob[n].src[i] in rob[p].dst
        && (rob[n].id in rob[p].dependents <==> rob[p].dependents != [] && rob[p].dependents[|rob[p].dependents| - 1] == rob[n].id)
  {
    var r := rob[n].src[i];
    var w := producers[r];
    LastWriter(rob, n, r);
    if w != [] {
      var p :| 0 <= p < n && rob[p].id == w[|w| - 1] && rob[p].executed != Completed && r in rob[p].dst;
      Found(rob, p);
      NewDependent(rob, n, p);
    }
  }

  // Nothing to add: no producer is left, or the dependency is there already.
  lemma MarkedAlready(rob: seq<Instr>, n: nat, producers: seq<seq<nat>>, i: nat)
    requires Marking(rob, n, producers, i) && i < |rob[n].src| && rob[n].src[i] < |producers|
    requires var w := producers[rob[n].src[i]];
      w != [] ==> var p := Position(rob, w[|w| - 1]); p < |rob| && rob[n].id in rob[p].dependents
    ensures Marking(rob, n, producers, i + 1)
  {
    LatestMarked(rob, n, producers, i);
  }

  lemma LatestMarked(rob: seq<Instr>, n: nat, producers: seq<seq<nat>>, i: nat)
    requires n < |rob| && InOrder(rob) && Produced(rob, n, producers) && i < |rob[n].src| && rob[n].src[i] < |producers|
    requires var w := producers[rob[n].src[i]];
      w != [] ==> var p := Position(rob, w[|w| - 1]); p < |rob| && rob[n].id in rob[p].dependents
    ensures SourceOk(rob, n, rob[n].src[i])
  {
    var r := rob[n].src[i];
    LastWriter(rob, n, r);
    var j := Latest(rob, n, r);
    if j >= 0 && rob[j].executed != Completed { Found(rob, j); }
  }

  lemma MarkedNow(rob: seq<Instr>, n: nat, producers: seq<seq<nat>>, i: nat, p: nat)
    requires Marking(rob, n, producers, i) && i < |rob[n].src| && rob[n].src[i] < |producers|
    requires var w := producers[rob[n].src[i]]; w != [] && p == Position(rob, w[|w| - 1])
    requires p < n && rob[p].executed != Completed && rob[n].id !in rob[p].dependents
    ensures Marking(Depending(rob, p, n), n, producers, i + 1)
  {
    hide Window, Produced, SourcesOk, SourceOk;
    var to := Depending(rob, p, n);
    var w := producers[rob[n].src[i]];
    Depended(rob, n, p);
    ProducedFrame(rob, to, n, producers);
    SamePosition(rob, to, w[|w| - 1]);
    DependingSources(rob, n, i, p);
    assert InOrder(to) && |producers| == Registers by { InOrderOf(rob, n, p, producers); }
    LatestMarked(to, n, producers, i);
    OneMoreSource(to, n, i);
  }

  lemma InOrderOf(rob: seq<Instr>, n: nat, p: nat, producers: seq<seq<nat>>)
    requires Window(rob, n, n + 1) && p < |rob| && n < |rob| && Produced(rob, n, producers)
    ensures InOrder(Depending(rob, p, n)) && |producers| == Registers
  {
  }

  lemma OneMoreSource(rob: seq<Instr>, n: nat, i: nat)
    requires n < |rob| && i < |rob[n].src| && SourcesOk(rob, n, i) && SourceOk(rob, n, rob[n].src[i])
    ensures SourcesOk(rob, n, i + 1)
  {
  }

  lemma DependingSources(rob: seq<Instr>, n: nat, i: nat, p: nat)
    requires p < n < |rob| && Sourced(rob, n) && SourcesOk(rob, n, i)
    ensures Sourced(Depending(rob, p, n), n) && SourcesOk(Depending(rob, p, n), n, i)
  {
    var to := Depending(rob, p, n);
    hide SourcesOk;
    forall k | 0 <= k < n ensures SourcesOk(to, k, |to[k].src|) { SourcesKept(rob, to, k, |rob[k].src|); }
    SourcesKept(rob, to, n, i);
  }

  lemma SamePosition(rob: seq<Instr>, to: seq<Instr>, id: nat)
    requires SameShape(rob, to)
    ensures Position(rob, id) == Position(to, id)
  {
    if rob != [] { SamePosition(rob[..|rob| - 1], to[..|rob| - 1], id); }
  }

  lemma DependingMem(rob: seq<Instr>, p: nat, n: nat, lq: seq<Option<Load>>, sq: seq<Store>)
    requires MemInv(rob, lq, sq) && p < n < |rob|
    ensures MemInv(Depending(rob, p, n), lq, sq)
  {
    var to := Depending(rob, p, n);
    assert SameMem(rob, to) && CompletedDone(to);
    MemFrame(rob, to, lq, sq);
  }

  lemma ListingStarts(rob: seq<Instr>, n: nat, producers: seq<seq<nat>>)
    requires n < |rob| && Produced(rob, n, producers)
    ensures ProducedWith(rob, n + 1, n, [], producers)
  {
    forall r | 0 <= r < Registers ensures producers[r] == WritersWith(rob, n + 1, r, n, 0) {
      WithNone(rob, n, r);
    }
  }

  lemma {:induction false} WithNone(rob: seq<Instr>, n: nat, r: nat)
    requires n < |rob|
    ensures WritersWith(rob, n + 1, r, n, 0) == Writers(rob, n, r)
  {
    WithNoneBelow(rob, n, n, r);
  }

  lemma {:induction false} WithNoneBelow(rob: seq<Instr>, n: nat, m: nat, r: nat)
    requires m <= n <= |rob|
    ensures WritersWith(rob, m, r, n, 0) == Writers(rob, m, r)
  {
    if m > 0 { WithNoneBelow(rob, n, m - 1, r); }
  }

  // Destination register d of instruction n is listed.
  lemma ListingStep(rob: seq<Instr>, n: nat, dst: seq<nat>, d: nat, producers: seq<seq<nat>>)
    requires n < |rob| && InOrder(rob) && ProducedWith(rob, n + 1, n, dst, producers) && d < Registers
    ensures ProducedWith(rob, n + 1, n, dst + [d], producers[d := Added(producers[d], rob[n].id)])
  {
    var to := producers[d := Added(producers[d], rob[n].id)];
    forall r | 0 <= r < Registers ensures to[r] == WritersWith(rob, n + 1, r, n, Count(dst + [d], r)) {
      CountOne(dst, d, r);
      WriterAdded(rob, n, r, Count(dst, r));
    }
  }

  // Destination registers still to be erased when instruction k completes.
  ghost predicate Erasing(rob: seq<Instr>, n: nat, k: nat, m: nat, producers: seq<seq<nat>>) {
    && k < n <= |rob| && m <= |rob[k].dst| && |producers| == Registers
    && forall r :: 0 <= r < Registers ==> producers[r] == WritersWith(rob, n, r, k, Count(rob[k].dst[m..], r))
  }

  lemma ErasingStarts(rob: seq<Instr>, n: nat, k: nat, producers: seq<seq<nat>>)
    requires Produced(rob, n, producers) && k < n && rob[k].executed != Completed
    ensures Erasing(rob, n, k, 0, producers)
  {
    assert rob[k].dst[0..] == rob[k].dst;
    forall r | 0 <= r < Registers ensures producers[r] == WritersWith(rob, n, r, k, Count(rob[k].dst, r)) {
      WithIsWriters(rob, rob, n, r, k, Count(rob[k].dst, r));
    }
  }

  // The assertion of do_complete_execution: the instruction is in the register's list.
  lemma ErasingStep(rob: seq<Instr>, n: nat, k: nat, m: nat, producers: seq<seq<nat>>)
    requires Erasing(rob, n, k, m, producers) && m < |rob[k].dst| && InOrder(rob) && Uses(rob[k].dst)
    ensures var d := rob[k].dst[m];
      && d < |producers| && FirstOf(producers[d], rob[k].id) < |producers[d]|
      && Erasing(rob, n, k, m + 1, producers[d := Removed(producers[d], rob[k].id)])
  {
    var d := rob[k].dst[m];
    var rest := rob[k].dst[m..];
    assert rest[1..] == rob[k].dst[m + 1..];
    CountTail(rest, d);
    WriterRemoved(rob, n, d, k, Count(rest, d));
    assert rob[k].id in producers[d];
    hide WritersWith, Removed;
    var to := producers[d := Removed(producers[d], rob[k].id)];
    forall r | 0 <= r < Registers ensures to[r] == WritersWith(rob, n, r, k, Count(rob[k].dst[m + 1..], r)) {
      CountTail(rest, r);
    }
  }

  // Instruction k has completed, and the dependents in `owed` are still to be told.
  ghost predicate Telling(rob: seq<Instr>, lq: seq<Option<Load>>, sq: seq<Store>, producers: seq<seq<nat>>, n: nat,
                          bound: nat, owed: seq<nat>) {
    && Owing(rob, n, n, owed) && Rising(owed) && Produced(rob, n, producers) && Sourced(rob, n)
    && MemInv(rob, lq, sq) && Below(rob, sq, bound) && forall i :: 0 <= i < |owed| ==> owed[i] in Idle(rob, n)
  }

  lemma TellingStarts(rob: seq<Instr>, lq: seq<Option<Load>>, sq: seq<Store>, producers: seq<seq<nat>>, n: nat,
                      bound: nat, k: nat, after: seq<seq<nat>>)
    requires Ok(rob, lq, sq, producers, n, bound) && k < n && rob[k].executed == Inflight
    requires rob[k].done == NumMem(rob[k])
    requires Erasing(rob, n, k, |rob[k].dst|, after)
    ensures Telling(Dataflow.Finished(rob, k), lq, sq, after, n, bound, rob[k].dependents)
  {
    var to := Dataflow.Finished(rob, k);
    assert DependentsOk(rob[k], Idle(rob, n));
    FinishedIdle(rob, k, n);
    FinishedOwing(rob, n, k);
    FinishedSources(rob, n, k);
    assert rob[k].dst[|rob[k].dst|..] == [];
    FinishedProduced(rob, n, k, after);
    assert SameMem(rob, to) && CompletedDone(to);
    MemFrame(rob, to, lq, sq);
    hide Owing, Sourced, Produced, MemInv;
  }

  // The assertion that no count goes below zero.
  lemma TellingStep(rob: seq<Instr>, lq: seq<Option<Load>>, sq: seq<Store>, producers: seq<seq<nat>>, n: nat,
                    bound: nat, owed: seq<nat>)
    requires Telling(rob, lq, sq, producers, n, bound, owed) && owed != []
    ensures var q := Position(rob, owed[0]);
      && q < n <= |rob| && rob[q].blocked >= 1 && rob[q].scheduled
      && Telling(Told(rob, q), lq, sq, producers, n, bound, owed[1..])
  {
    assert owed[0] in Idle(rob, n);
    IdleFound(rob, n, owed[0]);
    var q := Position(rob, owed[0]);
    var to := Told(rob, q);
    ToldOne(rob, n, owed, q);
    hide Owing, Produced, Idle, MemInv, Below, Rising, SourcesOk, Position;
    ShapeIdle(rob, to, n);
    ProducedFrame(rob, to, n, producers);
    ToldMem(rob, lq, sq, q);
    ToldSources(rob, n, q);
    assert Rising(owed[1..]) && Below(to, sq, bound) by { ToldRest(rob, sq, bound, owed, q); }
  }

  lemma ToldRest(rob: seq<Instr>, sq: seq<Store>, bound: nat, owed: seq<nat>, q: nat)
    requires q < |rob| && Rising(owed) && owed != [] && Below(rob, sq, bound)
    ensures Rising(owed[1..]) && Below(Told(rob, q), sq, bound)
  {
  }

  lemma ToldMem(rob: seq<Instr>, lq: seq<Option<Load>>, sq: seq<Store>, q: nat)
    requires MemInv(rob, lq, sq) && q < |rob|
    ensures MemInv(Told(rob, q), lq, sq)
  {
    var to := Told(rob, q);
    assert SameMem(rob, to) && CompletedDone(to);
    MemFrame(rob, to, lq, sq);
  }

  lemma ToldSources(rob: seq<Instr>, n: nat, q: nat)
    requires Sourced(rob, n) && q < |rob|
    ensures Sourced(Told(rob, q), n)
  {
    var to := Told(rob, q);
    forall k | 0 <= k < n ensures SourcesOk(to, k, |to[k].src|) { SourcesKept(rob, to, k, |rob[k].src|); }
  }

  lemma TellingEnds(rob: seq<Instr>, lq: seq<Option<Load>>, sq: seq<Store>, producers: seq<seq<nat>>, n: nat,
                    bound: nat)
    requires Telling(rob, lq, sq, producers, n, bound, [])
    ensures Ok(rob, lq, sq, producers, n, bound)
  {
  }

  lemma OkStarted(rob: seq<Instr>, lq: seq<Option<Load>>, sq: seq<Store>, producers: seq<seq<nat>>, n: nat,
                  bound: nat, k: nat, event: nat)
    requires Ok(rob, lq, sq, producers, n, bound) && k < n && rob[k].executed == Waiting && rob[k].blocked == 0
    ensures Ok(rob[k := rob[k].(executed := Inflight, event := event)], lq, sq, producers, n, bound)
  {
    var to := rob[k := rob[k].(executed := Inflight, event := event)];
    Started(rob, n, producers, k, event);
    assert SameMem(rob, to) && CompletedDone(to);
    MemFrame(rob, to, lq, sq);
    hide RegInv, MemInv;
  }

  lemma OkScheduled(rob: seq<Instr>, lq: seq<Option<Load>>, sq: seq<Store>, producers: seq<seq<nat>>, n: nat,
                    bound: nat, event: nat)
    requires n < |rob| && Window(rob, n, n + 1) && Sourced(rob, n) && SourcesOk(rob, n, |rob[n].src|)
    requires ProducedWith(rob, n + 1, n, rob[n].dst, producers) && MemInv(rob, lq, sq) && Below(rob, sq, bound)
    ensures Ok(rob[n := rob[n].(scheduled := true, event := event)], lq, sq, producers, n + 1, bound)
  {
    var to := rob[n := rob[n].(scheduled := true, event := event)];
    Scheduled(rob, n, producers, event);
    assert SameMem(rob, to) && CompletedDone(to);
    MemFrame(rob, to, lq, sq);
    hide RegInv, MemInv;
  }

  lemma OkFacts(rob: seq<Instr>, lq: seq<Option<Load>>, sq: seq<Store>, producers: seq<seq<nat>>, n: nat, bound: nat)
    requires Ok(rob, lq, sq, producers, n, bound)
    ensures RegInv(rob, n, producers) && MemInv(rob, lq, sq) && Below(rob, sq, bound)
    ensures n <= |rob| && InOrder(rob) && |producers| == Registers && Produced(rob, n, producers)
    ensures forall k :: 0 <= k < |rob| ==> Uses(rob[k].dst) && Uses(rob[k].src) && (rob[k].scheduled <==> k < n)
    ensures forall k :: n <= k < |rob| ==> rob[k].executed == Waiting
  {
  }

  lemma MarkingBounds(rob: seq<Instr>, n: nat, producers: seq<seq<nat>>, i: nat)
    requires Marking(rob, n, producers, i)
    ensures n < |rob| && |producers| == Registers
  {
  }

  lemma MarkingEnds(rob: seq<Instr>, n: nat, producers: seq<seq<nat>>)
    requires n < |rob| && Marking(rob, n, producers, |rob[n].src|)
    ensures Window(rob, n, n + 1) && Sourced(rob, n) && SourcesOk(rob, n, |rob[n].src|) && Produced(rob, n, producers)
    ensures InOrder(rob) && Uses(rob[n].dst)
  {
  }

  // How many of the first k instructions have not started.
  ghost function NotStarted(rob: seq<Instr>, k: nat): nat
    requires k <= |rob|
  {
    if k == 0 then 0 else NotStarted(rob, k - 1) + if rob[k - 1].executed == Waiting then 1 else 0
  }

  lemma {:induction false} SameNotStarted(rob: seq<Instr>, to: seq<Instr>, k: nat)
    requires k <= |rob| == |to| && forall i :: 0 <= i < |rob| ==> rob[i].executed == to[i].executed
    ensures NotStarted(rob, k) == NotStarted(to, k)
  {
    if k > 0 { SameNotStarted(rob, to, k - 1); }
  }

  lemma {:induction false} NotStartedGrows(rob: seq<Instr>, j: nat, k: nat)
    requires j <= k <= |rob|
    ensures NotStarted(rob, j) <= NotStarted(rob, k)
  {
    if j < k { NotStartedGrows(rob, j, k - 1); }
  }

  // The first n instructions are scheduled, and no others.
  ghost predicate UpTo(rob: seq<Instr>, n: nat) {
    forall m :: 0 <= m < |rob| ==> (rob[m].scheduled <==> m < n)
  }

  lemma ScheduledUpTo(rob: seq<Instr>, lq: seq<Option<Load>>, sq: seq<Store>, producers: seq<seq<nat>>, n: nat,
                      bound: nat)
    requires Ok(rob, lq, sq, producers, n, bound)
    ensures n <= |rob| && UpTo(rob, n)
  {
  }

  lemma ScheduledBound(rob: seq<Instr>, lq: seq<Option<Load>>, sq: seq<Store>, producers: seq<seq<nat>>, n: nat,
                       bound: nat)
    requires Ok(rob, lq, sq, producers, n, bound)
    ensures n <= |rob|
  {
  }

  // The search has come to instruction k and stops there.
  lemma SearchEnds(rob: seq<Instr>, to: seq<Instr>, n: nat, n': nat, k: nat, size: int)
    requires |rob| == |to| && k <= |to| && n' == (if k > n then k else n)
    requires UpTo(rob, n) && UpTo(to, n')
    requires (k > 0 ==> NotStarted(to, k - 1) < size) && (k < |to| ==> NotStarted(to, k) >= size)
    ensures forall m :: 0 <= m < |to| ==> (to[m].scheduled <==> rob[m].scheduled || NotStarted(to, m) < size)
  {
    forall m | 0 <= m < |to| ensures to[m].scheduled <==> rob[m].scheduled || NotStarted(to, m) < size {
      if m < k { NotStartedGrows(to, m, k - 1); } else { NotStartedGrows(to, k, m); }
    }
  }

  ghost predicate AllCompleted(rob: seq<Instr>) {
    forall i :: 0 <= i < |rob| ==> rob[i].executed == Completed
  }

  // Each source's latest older producer in the buffer has completed.
  ghost predicate SourcesDone(rob: seq<Instr>, k: nat)
    requires k < |rob|
  {
    forall s :: 0 <= s < |rob[k].src| ==>
      var j := Latest(rob, k, rob[k].src[s]);
      j >= 0 ==> rob[j].executed == Completed
  }

  lemma Unblocked(rob: seq<Instr>, lq: seq<Option<Load>>, sq: seq<Store>, producers: seq<seq<nat>>, n: nat,
                  bound: nat, k: nat)
    requires Ok(rob, lq, sq, producers, n, bound) && k < |rob| && rob[k].scheduled && rob[k].blocked == 0
    ensures SourcesDone(rob, k)
  {
    forall s | 0 <= s < |rob[k].src|
      ensures var j := Latest(rob, k, rob[k].src[s]); j >= 0 ==> rob[j].executed == Completed
    {
      StartsAfterProducers(rob, n, producers, k, s);
    }
  }

  lemma DoneKept(rob: seq<Instr>, to: seq<Instr>, k: nat)
    requires |rob| == |to| && k < |rob| && SourcesDone(rob, k)
    requires forall i :: 0 <= i < |rob| ==> rob[i].dst == to[i].dst && rob[i].src == to[i].src
    requires forall i :: 0 <= i < |rob| && rob[i].executed == Completed ==> to[i].executed == Completed
    ensures SourcesDone(to, k)
  {
    forall s | 0 <= s < |to[k].src|
      ensures var j := Latest(to, k, to[k].src[s]); j >= 0 ==> to[j].executed == Completed
    {
      ShapeLatest(rob, to, k, rob[k].src[s]);
    }
  }

  lemma OkQueues(rob: seq<Instr>, lq: seq<Option<Load>>, sq: seq<Store>, producers: seq<seq<nat>>, n: nat, bound: nat,
                 lq': seq<Option<Load>>, sq': seq<Store>)
    requires Ok(rob, lq, sq, producers, n, bound) && SameLoads(lq, lq') && SameStores(sq, sq')
    ensures Ok(rob, lq', sq', producers, n, bound)
  {
    QueueFrame(rob, lq, sq, lq', sq');
    hide RegInv, MemInv;
  }

  // operate_lsq: from the first unfinished store on, due stores finish, up to the width, and the
  // loads waiting for them leave; then finished stores of retired instructions leave, as long as
  // there is width and the cache takes them; then loads are issued.
  ghost predicate LsqOperated(rob: seq<Instr>, lq: seq<Option<Load>>, sq: seq<Store>, lq': seq<Option<Load>>,
                              sq': seq<Store>, begin: nat, finished: nat, written: nat, issued: int, cycle: nat,
                              sqWidth: nat, lqWidth: int) {
    exists freed, mid ::
      Midway(rob, lq, sq, freed, mid, lq', sq', begin, finished, written, issued, cycle, sqWidth, lqWidth)
  }

  ghost predicate Midway(rob: seq<Instr>, lq: seq<Option<Load>>, sq: seq<Store>, freed: seq<Option<Load>>,
                         mid: seq<Store>, lq': seq<Option<Load>>, sq': seq<Store>, begin: nat, finished: nat,
                         written: nat, issued: int, cycle: nat, sqWidth: nat, lqWidth: int) {
    && finished + written <= sqWidth && begin + finished <= |sq| && written <= |sq|
    && (forall i :: 0 <= i < begin ==> sq[i].issued) && (begin < |sq| ==> !sq[begin].issued)
    && (forall i :: begin <= i < begin + finished ==> !sq[i].issued && sq[i].event <= cycle)
    && (finished == sqWidth || begin + finished == |sq| || sq[begin + finished].issued || sq[begin + finished].event > cycle)
    && SpanFinished(sq, mid, begin, begin + finished, cycle) && SlotsFreed(sq, begin, begin + finished, lq, freed)
    && sq' == mid[written..]
    && (forall i :: 0 <= i < written ==> mid[i].issued && mid[i].event <= cycle && (rob == [] || mid[i].id < rob[0].id))
    && LoadsIssued(freed, lq', cycle, lqWidth, issued)
  }

  datatype Core = Core(rob: seq<Instr>, lq: seq<Option<Load>>, sq: seq<Store>, buffer: seq<Instr>)

  // The core before a cycle and after each of its stages.
  datatype Passage = Passage(start: Core, retired: Core, completed: Core, started: Core, scheduled: Core, returned: Core,
                             queued: Core, end: Core)

  // What each stage of a cycle has got done.
  datatype Counts = Counts(retired: nat, completed: int, started: int, scheduled: nat, begin: nat, finished: nat,
                           written: nat, issued: int, dispatched: int)

  // The completed instructions at the head leave, as many as the width allows.
  ghost predicate Retires(rob: seq<Instr>, to: seq<Instr>, width: nat, count: nat) {
    && count <= width && count <= |rob| && to == rob[count..] && AllCompleted(rob[..count])
    && (count < width && to != [] ==> to[0].executed != Completed)
  }

  // As many lines as the bandwidth allows are handled, and exactly the issued loads to them leave.
  ghost predicate LinesReturned(lq: seq<Option<Load>>, to: seq<Option<Load>>, returned: seq<nat>, bandwidth: int) {
    && |lq| == |to| && bandwidth >= 0
    && var handled := if bandwidth < |returned| then bandwidth else |returned|;
      forall s :: 0 <= s < |lq| ==> to[s] == if OnLines(lq[s], returned[..handled]) then None else lq[s]
  }

  // The queues through the instructions of a dispatch, one after the other.
  ghost predicate QueueChain(c: Core, to: Core, dispatched: int, qs: seq<Queues>) {
    && QueuesFilled(c.buffer, dispatched, qs)
    && qs[0] == Queues(c.lq, c.sq) && qs[dispatched] == Queues(to.lq, to.sq)
  }

  lemma CompletesText(rob: seq<Instr>, to: seq<Instr>, cycle: nat, width: int, completed: int)
    requires Completes(rob, to, cycle, width, completed)
    ensures SameTexts(rob, to)
  {
  }

  lemma StartsText(rob: seq<Instr>, to: seq<Instr>, cycle: nat, event: nat, width: int, started: int)
    requires Starts(rob, to, cycle, event, width, started)
    ensures SameTexts(rob, to)
  {
  }

  lemma DoneText(rob: seq<Instr>, to: seq<Instr>)
    requires OnlyDone(rob, to)
    ensures SameTexts(rob, to)
  {
  }

  lemma RetiresIs(rob: seq<Instr>, to: seq<Instr>, width: nat, count: nat)
    requires Retires(rob, to, width, count)
    ensures count <= |rob| && to == rob[count..]
  {
  }

  lemma SameThrough(rob: seq<Instr>, mid: seq<Instr>, to: seq<Instr>)
    requires SameTexts(rob, mid) && SameTexts(mid, to)
    ensures SameTexts(rob, to)
  {
  }

  lemma TextThrough(rob: seq<Instr>, mid: seq<Instr>, buffer: seq<Instr>, d: int, to: seq<Instr>, left: seq<Instr>)
    requires SameTexts(rob, mid) && Enters(mid, buffer, d, to, left)
    ensures 0 <= d <= |buffer| && left == buffer[d..] && SameTexts(rob + buffer[..d], to)
  {
    var whole := rob + buffer[..d];
    forall k | 0 <= k < |whole| ensures SameText(whole[k], to[k]) {
      if k >= |mid| { assert to[|mid| + (k - |mid|)] == to[k]; }
    }
  }

  // execute_instruction: the due instructions start, and their queue entries are ready.
  ghost predicate Executed(c: Core, to: Core, cycle: nat, event: nat, width: int, started: int) {
    && Starts(c.rob, to.rob, cycle, event, width, started) && to.buffer == c.buffer
    && LoadsReady(c.rob, to.rob, c.lq, to.lq, event) && StoresReady(c.rob, to.rob, c.sq, to.sq, event)
    && forall k :: 0 <= k < |c.rob| && to.rob[k].executed != c.rob[k].executed ==> SourcesDone(to.rob, k)
  }

  // schedule_instruction: scheduled are those that were and those with fewer than `size` older
  // ones not started, and they depend only on instructions that write one of their sources.
  ghost predicate Searched(rob: seq<Instr>, to: seq<Instr>, size: int) {
    && NewLinksFeed(rob, to)
    && forall k :: 0 <= k < |to| ==> (to[k].scheduled <==> rob[k].scheduled || NotStarted(to, k) < size)
  }

  // execute_instruction when it has come to instruction k.
  ghost predicate StartsUpTo(rob: seq<Instr>, to: seq<Instr>, k: nat, cycle: nat, event: nat) {
    && k <= |rob| == |to|
    && (forall i :: 0 <= i < k && Due(rob[i], cycle) ==> to[i] == rob[i].(executed := Inflight, event := event))
    && forall i :: 0 <= i < |rob| && (i >= k || !Due(rob[i], cycle)) ==> to[i] == rob[i]
  }

  ghost predicate CompletesUpTo(rob: seq<Instr>, to: seq<Instr>, k: nat, cycle: nat) {
    && k <= |rob| == |to|
    && (forall i :: 0 <= i < |rob| ==> to[i] == rob[i].(blocked := to[i].blocked, executed := to[i].executed))
    && (forall i :: 0 <= i < k && Ripe(rob[i], cycle) ==> to[i].executed == Completed)
    && forall i :: 0 <= i < |rob| && (i >= k || !Ripe(rob[i], cycle)) ==> to[i].executed == rob[i].executed
  }

  lemma StartsNone(rob: seq<Instr>, cycle: nat, event: nat)
    ensures StartsUpTo(rob, rob, 0, cycle, event)
  {
  }

  // Instruction k is next: as it was before, it starts if it is due.
  lemma StartsNext(rob: seq<Instr>, to: seq<Instr>, k: nat, cycle: nat, event: nat)
    requires StartsUpTo(rob, to, k, cycle, event) && k < |rob|
    ensures to[k] == rob[k] && Moved(rob, to, k + 1) == Moved(rob, to, k)
    ensures !Due(rob[k], cycle) ==> StartsUpTo(rob, to, k + 1, cycle, event)
    ensures Due(rob[k], cycle) ==>
      var next := to[k := to[k].(executed := Inflight, event := event)];
      StartsUpTo(rob, next, k + 1, cycle, event) && Moved(rob, next, k + 1) == Moved(rob, to, k) + 1
  {
    MovedSame(rob, to, to[k := to[k].(executed := Inflight, event := event)], k);
  }

  lemma StartsAll(rob: seq<Instr>, to: seq<Instr>, k: nat, cycle: nat, event: nat, width: int, started: int)
    requires StartsUpTo(rob, to, k, cycle, event) && started == Moved(rob, to, k) && started <= width
    requires k == |rob| || started == width
    ensures Starts(rob, to, cycle, event, width, started)
    ensures forall i :: k <= i < |rob| ==> to[i].executed == rob[i].executed
  {
    MovedNone(rob, to, k, |rob|);
  }

  lemma CompletesNone(rob: seq<Instr>, cycle: nat)
    ensures CompletesUpTo(rob, rob, 0, cycle)
  {
  }

  lemma CompletesNext(rob: seq<Instr>, to: seq<Instr>, k: nat, cycle: nat)
    requires CompletesUpTo(rob, to, k, cycle) && k < |rob|
    ensures Ripe(rob[k], cycle) <==> Ripe(to[k], cycle)
    ensures !Ripe(rob[k], cycle) ==> CompletesUpTo(rob, to, k + 1, cycle) && Moved(rob, to, k + 1) == Moved(rob, to, k)
  {
  }

  lemma CompletesOne(rob: seq<Instr>, mid: seq<Instr>, to: seq<Instr>, k: nat, cycle: nat)
    requires CompletesUpTo(rob, mid, k, cycle) && k < |rob| == |to| && Ripe(mid[k], cycle)
    requires to[k] == mid[k].(executed := Completed, blocked := to[k].blocked)
    requires forall i :: 0 <= i < |mid| && i != k ==> to[i] == mid[i].(blocked := to[i].blocked)
    ensures CompletesUpTo(rob, to, k + 1, cycle) && Moved(rob, to, k + 1) == Moved(rob, mid, k) + 1
  {
    MovedSame(rob, mid, to, k);
  }

  lemma CompletesAll(rob: seq<Instr>, to: seq<Instr>, k: nat, cycle: nat, width: int, completed: int)
    requires CompletesUpTo(rob, to, k, cycle) && completed == Moved(rob, to, k) && completed <= width
    requires k == |rob| || completed == width
    ensures Completes(rob, to, cycle, width, completed)
  {
    MovedNone(rob, to, k, |rob|);
  }

  lemma NoneReady(rob: seq<Instr>, lq: seq<Option<Load>>, sq: seq<Store>, event: nat)
    ensures LoadsReady(rob, rob, lq, lq, event) && StoresReady(rob, rob, sq, sq, event)
  {
  }

  // Instruction k has started, and its entries are ready.
  lemma OneReady(rob: seq<Instr>, mid: seq<Instr>, to: seq<Instr>, k: nat, lq: seq<Option<Load>>, lq0: seq<Option<Load>>,
                 lq': seq<Option<Load>>, sq: seq<Store>, sq0: seq<Store>, sq': seq<Store>, event: nat)
    requires |rob| == |mid| && k < |rob| && mid[k] == rob[k] && rob[k].executed == Waiting
    requires to == mid[k := mid[k].(executed := Inflight, event := event)]
    requires LoadsReady(rob, mid, lq, lq0, event) && StoresReady(rob, mid, sq, sq0, event)
    requires EntriesReady(lq0, lq', sq0, sq', rob[k].id, event)
    ensures LoadsReady(rob, to, lq, lq', event) && StoresReady(rob, to, sq, sq', event)
  {
    forall id: nat ensures StartedId(rob, to, id) <==> StartedId(rob, mid, id) || id == rob[k].id {
      if StartedId(rob, mid, id) {
        var i :| 0 <= i < |rob| && rob[i].id == id && rob[i].executed != mid[i].executed;
        assert rob[i].executed != to[i].executed;
      }
      if id == rob[k].id { assert rob[k].executed != to[k].executed; }
    }
  }

  // The queue entries of instruction `id` are ready from `event` on.
  ghost function LoadReady(e: Option<Load>, id: nat, event: nat): Option<Load> {
    if e.Some? && e.value.id == id then Some(e.value.(event := event)) else e
  }

  ghost function StoreReady(e: Store, id: nat, event: nat): Store {
    if e.id == id then e.(event := event) else e
  }

  ghost predicate EntriesReady(lq: seq<Option<Load>>, lq': seq<Option<Load>>, sq: seq<Store>, sq': seq<Store>, id: nat,
                               event: nat) {
    && |lq| == |lq'| && |sq| == |sq'|
    && (forall s :: 0 <= s < |lq| ==> lq'[s] == LoadReady(lq[s], id, event))
    && forall i :: 0 <= i < |sq| ==> sq'[i] == StoreReady(sq[i], id, event)
  }

  // What a call of do_scheduling for instruction k may record: that k depends on an older
  // uncompleted instruction which writes one of its sources.
  ghost predicate LinksNeeded(rob: seq<Instr>, to: seq<Instr>, k: nat) {
    && |rob| == |to| && k < |rob|
    && forall p :: 0 <= p < |rob| ==> to[p].dependents == rob[p].dependents || LinkAdded(rob, to, p, k)
  }

  ghost predicate LinkAdded(rob: seq<Instr>, to: seq<Instr>, p: nat, k: nat)
    requires p < |rob| == |to| && k < |rob|
  {
    to[p].dependents == rob[p].dependents + [rob[k].id] && rob[k].id !in rob[p].dependents && Feeds(rob, p, k)
  }

  lemma LinksMore(rob: seq<Instr>, mid: seq<Instr>, to: seq<Instr>, k: nat)
    requires OnlyLinks(rob, mid) && OnlyLinks(mid, to) && LinksNeeded(rob, mid, k) && LinksNeeded(mid, to, k)
    ensures OnlyLinks(rob, to) && LinksNeeded(rob, to, k)
  {
    forall p | 0 <= p < |rob| && to[p].dependents != rob[p].dependents ensures LinkAdded(rob, to, p, k) {
      assert mid[p].dst == rob[p].dst && mid[k].src == rob[k].src && mid[p].executed == rob[p].executed;
    }
  }

  // Every dependency recorded between rob and to is one of those.
  ghost predicate NewLinksFeed(rob: seq<Instr>, to: seq<Instr>) {
    |rob| == |to| && forall p, id :: 0 <= p < |rob| && id in to[p].dependents ==> id in rob[p].dependents || FedBy(rob, p, id)
  }

  ghost predicate FedBy(rob: seq<Instr>, p: nat, id: nat)
    requires p < |rob|
  {
    exists k :: 0 <= k < |rob| && rob[k].id == id && Feeds(rob, p, k)
  }

  lemma NoNewLinks(rob: seq<Instr>)
    ensures NewLinksFeed(rob, rob)
  {
  }

  lemma ScheduledTexts(rob: seq<Instr>, to: seq<Instr>, m: int, n: int, event: nat)
    requires OnlyScheduled(rob, to, m, n, event)
    ensures SameTexts(rob, to) && forall i :: 0 <= i < |rob| ==> to[i].executed == rob[i].executed
  {
  }

  lemma NewLinksMore(rob: seq<Instr>, mid: seq<Instr>, to: seq<Instr>, k: nat)
    requires NewLinksFeed(rob, mid) && LinksNeeded(mid, to, k) && SameTexts(rob, mid)
    requires forall i :: 0 <= i < |rob| ==> mid[i].executed == rob[i].executed
    ensures NewLinksFeed(rob, to)
  {
    forall p, id | 0 <= p < |rob| && id in to[p].dependents ensures id in rob[p].dependents || FedBy(rob, p, id) {
      if id !in mid[p].dependents {
        assert LinkAdded(mid, to, p, k);
        assert rob[k].id == id && Feeds(rob, p, k);
      }
    }
  }

  lemma NoLinks(rob: seq<Instr>, k: nat)
    requires k < |rob|
    ensures OnlyLinks(rob, rob) && LinksNeeded(rob, rob, k)
  {
  }

  // A source that instruction p feeds.
  lemma LinkOne(rob: seq<Instr>, p: nat, k: nat, s: nat)
    requires p < k < |rob| && s < |rob[k].src| && rob[k].src[s] in rob[p].dst && rob[p].executed != Completed
    requires rob[k].id !in rob[p].dependents
    ensures OnlyLinks(rob, Depending(rob, p, k)) && LinksNeeded(rob, Depending(rob, p, k), k)
  {
    assert LinkAdded(rob, Depending(rob, p, k), p, k);
  }

  lemma LinksShape(rob: seq<Instr>, to: seq<Instr>)
    requires OnlyLinks(rob, to)
    ensures SameShape(rob, to)
  {
  }

  lemma ScheduledSame(rob: seq<Instr>, to: seq<Instr>, m: int, n: int, event: nat)
    requires OnlyScheduled(rob, to, m, n, event)
    ensures |rob| == |to| && SameTexts(rob, to)
    ensures forall k :: 0 <= k <= |rob| ==> NotStarted(rob, k) == NotStarted(to, k)
    ensures 0 <= m < n ==> m < |to| && to[m].executed == rob[m].executed
  {
    forall k | 0 <= k <= |rob| ensures NotStarted(rob, k) == NotStarted(to, k) { SameNotStarted(rob, to, k); }
  }

  lemma ScheduleMore(rob: seq<Instr>, mid: seq<Instr>, to: seq<Instr>, m: int, n: int, event: nat)
    requires OnlyScheduled(rob, mid, m, n, event) && OnlyScheduled(mid, to, n, n + 1, event)
    ensures OnlyScheduled(rob, to, m, n + 1, event)
  {
  }

  lemma NoneScheduled(rob: seq<Instr>, n: nat, event: nat)
    requires n <= |rob|
    ensures OnlyScheduled(rob, rob, n, n, event)
  {
  }

  ghost predicate Feeds(rob: seq<Instr>, p: nat, k: nat)
    requires p < |rob| && k < |rob|
  {
    p < k && rob[p].executed != Completed && exists s :: 0 <= s < |rob[k].src| && rob[k].src[s] in rob[p].dst
  }

  // Instructions from m to n have been scheduled; besides, dependencies may have been recorded.
  ghost predicate OnlyScheduled(rob: seq<Instr>, to: seq<Instr>, m: int, n: int, event: nat) {
    && |rob| == |to| && 0 <= m <= n <= |rob|
    && forall k :: 0 <= k < |rob| ==>
      var x := rob[k].(dependents := to[k].dependents, blocked := to[k].blocked);
      to[k] == if m <= k < n then x.(scheduled := true, event := event) else x
  }

  // Decoded instructions that may be dispatched in this cycle.
  ghost predicate Ready(buffer: seq<Instr>, cycle: nat) {
    forall k :: 0 <= k < |buffer| ==> buffer[k].event < cycle
  }

  // Whether dispatch_instruction goes on.
  ghost predicate HasRoom(buffer: seq<Instr>, rob: seq<Instr>, lq: seq<Option<Load>>, sq: seq<Store>, cycle: nat,
                          robSize: nat, sqSize: nat) {
    && buffer != [] && buffer[0].event < cycle && |rob| != robSize
    && FreeSlots(lq, |lq|) >= |buffer[0].loads| && |buffer[0].stores| + |sq| <= sqSize
  }

  ghost predicate SameIds(rob: seq<Instr>, to: seq<Instr>) {
    |rob| == |to| && forall k :: 0 <= k < |rob| ==> rob[k].id == to[k].id
  }

  // What the front end hands over: new instructions in program order.
  ghost predicate Incoming(buffer: seq<Instr>, bound: nat) {
    && (forall i :: 0 <= i < |buffer| ==> Fresh(buffer[i]) && bound <= buffer[i].id)
    && (forall i, j :: 0 <= i < j < |buffer| ==> buffer[i].id < buffer[j].id)
  }

  lemma NextIncoming(buffer: seq<Instr>, bound: nat)
    requires Incoming(buffer, bound) && buffer != []
    ensures Fresh(buffer[0]) && bound <= buffer[0].id && Incoming(buffer[1..], buffer[0].id + 1)
  {
  }

  lemma ScheduledIs(rob: seq<Instr>, lq: seq<Option<Load>>, sq: seq<Store>, producers: seq<seq<nat>>, n: nat,
                    bound: nat, k: nat)
    requires Ok(rob, lq, sq, producers, n, bound) && k < |rob|
    ensures n <= |rob| && (rob[k].scheduled <==> k < n)
  {
  }

  lemma OkRetired(rob: seq<Instr>, lq: seq<Option<Load>>, sq: seq<Store>, producers: seq<seq<nat>>, n: nat, bound: nat)
    requires Ok(rob, lq, sq, producers, n, bound) && rob != [] && rob[0].executed == Completed
    ensures n > 0 && Ok(rob[1..], lq, sq, producers, n - 1, bound)
  {
    Retired(rob, n, producers);
    InstrRetired(rob, lq, sq);
    hide RegInv, MemInv;
  }

  lemma OkEntered(rob: seq<Instr>, lq: seq<Option<Load>>, sq: seq<Store>, producers: seq<seq<nat>>, n: nat,
                  bound: nat, x: Instr)
    requires Ok(rob, lq, sq, producers, n, bound) && Fresh(x) && bound <= x.id
    ensures RegInv(rob + [x], n, producers) && MemState(rob + [x], lq, sq, [], 0, NumMem(x))
    ensures Below(rob + [x], sq, x.id + 1)
    ensures forall i :: 0 <= i < |sq| ==> sq[i].id < x.id
  {
    Dispatched(rob, n, producers, x);
    Entered(rob, lq, sq, x);
    hide RegInv, MemState;
  }

  lemma OkWritten(rob: seq<Instr>, lq: seq<Option<Load>>, sq: seq<Store>, producers: seq<seq<nat>>, n: nat, bound: nat)
    requires Ok(rob, lq, sq, producers, n, bound) && sq != [] && (rob != [] ==> sq[0].id < rob[0].id)
    ensures sq[0].issued && Ok(rob, lq, sq[1..], producers, n, bound)
  {
    OldStoreFinished(rob, lq, sq, 0);
    StoreLeft(rob, lq, sq);
    hide RegInv, MemInv;
  }

  class O3Cpu {
    var rob: seq<Instr>
    var lq: seq<Option<Load>>
    var sq: seq<Store>
    var producers: seq<seq<nat>>
    var dispatchBuffer: seq<Instr>
    var cycle: nat
    var warmup: bool

    const robSize: nat
    const sqSize: nat
    const dispatchWidth: int
    const schedulerSize: int
    const execWidth: int
    const lqWidth: int
    const sqWidth: nat
    const retireWidth: nat
    const l1dBandwidth: int
    const schedulingLatency: nat
    const execLatency: nat

    // The number of scheduled instructions, and a bound on the ids dispatched so far.
    ghost var n: nat
    ghost var bound: nat

    ghost predicate Valid()
      reads this
    {
      Ok(rob, lq, sq, producers, n, bound)
    }

    constructor (lqSize: nat, robSize': nat, sqSize': nat, dispatchWidth': int, schedulerSize': int, execWidth': int,
        lqWidth': int,
                 sqWidth': nat, retireWidth': nat, l1dBandwidth': int, schedulingLatency': nat, execLatency': nat)
      ensures Valid() && rob == [] && sq == [] && |lq| == lqSize && FreeSlots(lq, |lq|) == lqSize
      ensures dispatchBuffer == [] && bound == 0
      ensures schedulerSize == schedulerSize' && robSize == robSize' && sqSize == sqSize'
    {
      rob, sq, dispatchBuffer, cycle, warmup := [], [], [], 0, true;
      lq := seq(lqSize, _ => None);
      producers := seq(Registers, _ => []);
      robSize, sqSize, dispatchWidth, schedulerSize, execWidth := robSize', sqSize', dispatchWidth', schedulerSize', execWidth';
      lqWidth, sqWidth, retireWidth, l1dBandwidth := lqWidth', sqWidth', retireWidth', l1dBandwidth';
      schedulingLatency, execLatency := schedulingLatency', execLatency';
      n, bound := 0, 0;
      new;
      AllFree(lq, lqSize);
    }

    // ---- Memory ----

    // LSQ_ENTRY::finish
    method Finish(id: nat)
      requires var k := Position(rob, id); k < |rob| && rob[k].id == id && rob[k].done < NumMem(rob[k])
      modifies this`rob
      ensures rob == Counted(old(rob), Position(old(rob), id))
    {
      var k := Position(rob, id);
      assert k != |rob|;
      assert rob[k].id == id;
      rob := rob[k := rob[k].(done := rob[k].done + 1)];
      assert rob[k].done <= NumMem(rob[k]);
    }

    // std::max_element with the comparison of do_memory_scheduling.
    method MaxElement(va: nat) returns (b: nat)
      requires sq != []
      ensures b < |sq| && if sq[b].va == va then Youngest(sq, va, b) else NoStore(sq, va)
    {
      b := 0;
      var i := 1;
      while i < |sq|
        invariant b < i <= |sq|
        invariant if sq[b].va == va then Youngest(sq[..i], va, b) else NoStore(sq[..i], va)
      {
        if sq[b].va != va || (sq[i].va == va && sq[b].id < sq[i].id) { b := i; }
        i := i + 1;
      }
      assert sq[..i] == sq;
    }

    // The first free slot of the load queue.
    method FirstFree() returns (s: nat)
      requires FreeSlots(lq, |lq|) > 0
      ensures s < |lq| && lq[s].None? && forall t :: 0 <= t < s ==> lq[t].Some?
    {
      SlotExists(lq, |lq|);
      s := 0;
      while lq[s].Some?
        invariant s < |lq| && (exists t :: s <= t < |lq| && lq[t].None?) && forall t :: 0 <= t < s ==> lq[t].Some?
        decreases |lq| - s
      {
        s := s + 1;
      }
    }

    // One load of the youngest instruction enters: it waits for the youngest store to its
    // address, or has its value from that store if the store has finished.
    method EnterLoad(va: nat, ghost pending: nat) returns (s: nat, b: nat)
      requires RegInv(rob, n, producers) && MemState(rob, lq, sq, [], 0, pending) && Below(rob, sq, bound)
      requires pending > 0
      requires rob != [] && FreeSlots(lq, |lq|) > 0
      requires forall i :: 0 <= i < |sq| ==> sq[i].id < rob[|rob| - 1].id
      modifies this`rob, this`lq, this`sq
      ensures RegInv(rob, n, producers) && MemState(rob, lq, sq, [], 0, pending - 1) && Below(rob, sq, bound)
      ensures |sq| == |old(sq)| && forall i :: 0 <= i < |sq| ==> sq[i].id == old(sq)[i].id
      ensures SameIds(old(rob), rob)
      ensures FreeSlots(lq, |lq|) >= FreeSlots(old(lq), |old(lq)|) - 1
      ensures LoadPlaced(old(rob), old(lq), old(sq), rob, lq, sq, va, s, b)
    {
      hide RegInv, MemState, Youngest;
      var id := rob[|rob| - 1].id;
      s := FirstFree();
      b := 0;
      ghost var lq0 := lq;
      lq := lq[s := Some(Load(id, va, 0, false, None))];
      SlotTaken(lq0, |lq0|, s, Load(id, va, 0, false, None));
      if sq != [] {
        b := MaxElement(va);
      }
      if sq != [] && sq[b].va == va {
        assert !NoStore(sq, va) by { StoreFound(sq, va, b); }
        if sq[b].issued {
          lq := lq[s := None];
          assert lq == lq0;
          LoadForwarded(rob, lq, sq, pending);
          RegFrame(rob, n, producers, Counted(rob, |rob| - 1));
          rob := rob[|rob| - 1 := rob[|rob| - 1].(done := rob[|rob| - 1].done + 1)];
        } else {
          assert sq[b].id < id;
          ghost var e := Load(id, va, 0, false, Some(sq[b].id));
          LoadEntered(rob, lq0, sq, pending, s, e, sq[b := sq[b].(waiting := sq[b].waiting + [s])], b);
          SlotTaken(lq0, |lq0|, s, e);
          sq := sq[b := sq[b].(waiting := sq[b].waiting + [s])];
          lq := lq[s := Some(lq[s].value.(producer := Some(sq[b].id)))];
          assert lq == lq0[s := Some(e)];
        }
      } else {
        assert NoStore(sq, va);
        LoadEntered(rob, lq0, sq, pending, s, Load(id, va, 0, false, None), sq, 0);
      }
    }
  
    // do_memory_scheduling, for the instruction that has just entered the buffer.
    method DoMemoryScheduling()
      requires RegInv(rob, n, producers) && Below(rob, sq, bound) && rob != []
      requires MemState(rob, lq, sq, [], 0, NumMem(rob[|rob| - 1]))
      requires FreeSlots(lq, |lq|) >= |rob[|rob| - 1].loads|
      requires forall i :: 0 <= i < |sq| ==> sq[i].id < rob[|rob| - 1].id
      modifies this`rob, this`lq, this`sq
      ensures Valid() && |rob| == |old(rob)| && rob[..|rob| - 1] == old(rob)[..|rob| - 1]
      ensures var x := old(rob)[|rob| - 1];
        rob[|rob| - 1] == x.(done := rob[|rob| - 1].done) && MemoryEntered(x, old(lq), old(sq), lq, sq)
    {
      hide RegInv, MemState, LoadPlaced, LoadsEntered;
      ghost var last := |rob| - 1;
      var instr := rob[|rob| - 1];
      NoneEntered(instr.id, lq, sq);
      assert instr.loads[..0] == [];
      var i := 0;
      while i < |instr.loads|
        invariant 0 <= i <= |instr.loads| && OnlyLast(old(rob), rob)
        invariant LoadsEntered(instr.id, instr.loads[..i], old(lq), old(sq), lq, sq)
        invariant RegInv(rob, n, producers) && Below(rob, sq, bound)
        invariant MemState(rob, lq, sq, [], 0, NumMem(instr) - i)
        invariant FreeSlots(lq, |lq|) >= |instr.loads| - i && |sq| == |old(sq)|
        invariant forall j :: 0 <= j < |sq| ==> sq[j].id < instr.id
      {
        ghost var rob0, lq0, sq0 := rob, lq, sq;
        var s, b := EnterLoad(instr.loads[i], NumMem(instr) - i);
        OneMoreLoad(instr, i, old(lq), old(sq), rob0, lq0, sq0, rob, lq, sq, s, b);
        i := i + 1;
      }
      assert instr.loads[..i] == instr.loads;
      ghost var entered := sq;
      i := 0;
      while i < |instr.stores|
        invariant 0 <= i <= |instr.stores| && OnlyLast(old(rob), rob)
        invariant sq == entered + StoresOfInstr(instr, i)
        modifies this`sq
        invariant RegInv(rob, n, producers) && Below(rob, sq, bound)
        invariant MemState(rob, lq, sq, [], 0, |instr.stores| - i)
        invariant |sq| == |old(sq)| + i && forall j :: 0 <= j < |sq| ==> sq[j].id <= instr.id
      {
        StoreEntered(rob, lq, sq, |instr.stores| - i, instr.stores[i]);
        assert StoresOfInstr(instr, i + 1) == StoresOfInstr(instr, i) + [Store(instr.id, instr.stores[i], 0, false, [])];
        sq := sq + [Store(instr.id, instr.stores[i], 0, false, [])];
        i := i + 1;
      }
      assert MemInv(rob, lq, sq);
      assert sq[..|old(sq)|] == entered && sq[|old(sq)|..] == StoresOfInstr(instr, |instr.stores|);
    }

    // The next load of a finishing store's list finishes and leaves its slot.
    method ReleaseLoad(s: nat, pid: nat, ghost sq1: seq<Store>, ghost rest: seq<nat>)
      requires RegInv(rob, n, producers) && Below(rob, sq, bound) && MemState(rob, lq, sq1, rest, pid, 0)
      requires rest != [] && rest[0] == s
      modifies this`rob, this`lq
      ensures RegInv(rob, n, producers) && Below(rob, sq, bound) && MemState(rob, lq, sq1, rest[1..], pid, 0)
      ensures s < |old(lq)| && lq == old(lq)[s := None] && OnlyDone(old(rob), rob)
    {
      hide RegInv, MemState;
      RestWaits(rob, lq, sq1, rest, pid);
      assert lq[s].Some?;
      assert lq[s].value.producer == Some(pid);
      LoadFinished(rob, lq, sq1, rest, pid, s);
      RegFrame(rob, n, producers, Counted(rob, Position(rob, lq[s].value.id)));
      Finish(lq[s].value.id);
      lq := lq[s := None];
    }

    // do_finish_store for the first unfinished store, and the marking that follows it.
    method DoFinishStore(i: nat)
      requires Valid() && i < |sq| && !sq[i].issued && forall j :: 0 <= j < i ==> sq[j].issued
      modifies this`rob, this`lq, this`sq
      ensures Valid() && sq == LoadStore.Finished(old(sq), i, cycle) && |lq| == |old(lq)| && OnlyDone(old(rob), rob)
      ensures forall s :: 0 <= s < |lq| ==> lq[s] == if s in old(sq)[i].waiting then None else old(lq)[s]
    {
      hide RegInv, MemState;
      ghost var pid := sq[i].id;
      ghost var sq1 := LoadStore.Finished(sq, i, cycle);
      StoreFinished(rob, lq, sq, i, cycle);
      RegFrame(rob, n, producers, Counted(rob, Position(rob, pid)));
      Finish(sq[i].id);
      var waiting := sq[i].waiting;
      var w := 0;
      while w < |waiting|
        invariant 0 <= w <= |waiting| && sq == old(sq) && RegInv(rob, n, producers) && Below(rob, sq, bound)
        invariant |lq| == |old(lq)| && OnlyDone(old(rob), rob)
        invariant MemState(rob, lq, sq1, waiting[w..], pid, 0)
        invariant forall s :: 0 <= s < |lq| ==> lq[s] == if s in waiting[..w] then None else old(lq)[s]
      {
        var s := waiting[w];
        ReleaseLoad(s, sq[i].id, sq1, waiting[w..]);
        assert waiting[w..][1..] == waiting[w + 1..];
        assert waiting[..w + 1] == waiting[..w] + [s];
        w := w + 1;
      }
      assert waiting[w..] == [] && waiting[..w] == waiting;
      sq := sq[i := sq[i].(issued := true, event := cycle)];
      RestDone(rob, lq, sq, pid);
    }

    // handle_memory_return, for the lines that the cache has returned.
    method HandleMemoryReturn(returned: seq<nat>) returns (handled: nat)
      requires Valid() && l1dBandwidth >= 0
      modifies this`rob, this`lq
      ensures Valid() && handled == (if l1dBandwidth < |returned| then l1dBandwidth else |returned|)
      ensures OnlyDone(old(rob), rob) && LinesReturned(old(lq), lq, returned, l1dBandwidth)
    {
      hide Ok, OnLine;
      handled := 0;
      while handled < l1dBandwidth && handled < |returned|
        invariant handled <= |returned| && handled <= l1dBandwidth && Valid() && |lq| == |old(lq)|
        invariant OnlyDone(old(rob), rob)
        invariant forall s :: 0 <= s < |lq| ==>
          lq[s] == if OnLines(old(lq)[s], returned[..handled]) then None else old(lq)[s]
      {
        ghost var before := lq;
        LineReturned(returned[handled]);
        forall s | 0 <= s < |lq|
          ensures lq[s] == if OnLines(old(lq)[s], returned[..handled + 1]) then None else old(lq)[s] {
          OneMoreLine(old(lq)[s], returned, handled);
        }
        handled := handled + 1;
      }
    }

    // Every issued load to the line finishes and leaves its slot.
    method LineReturned(va: nat)
      requires Valid()
      modifies this`rob, this`lq
      ensures Valid() && |lq| == |old(lq)| && OnlyDone(old(rob), rob)
      ensures forall s :: 0 <= s < |lq| ==> lq[s] == if OnLine(old(lq)[s], va) then None else old(lq)[s]
    {
      hide Ok;
      var s := 0;
      while s < |lq|
        invariant 0 <= s <= |lq| == |old(lq)| && Valid() && OnlyDone(old(rob), rob)
        invariant forall t :: 0 <= t < s ==> lq[t] == if OnLine(old(lq)[t], va) then None else old(lq)[t]
        invariant forall t :: s <= t < |lq| ==> lq[t] == old(lq)[t]
      {
        if OnLine(lq[s], va) {
          IssuedFinishes(rob, lq, sq, producers, n, bound, s);
          Finish(lq[s].value.id);
          lq := lq[s := None];
        }
        s := s + 1;
      }
    }
  
    // ---- Scheduling ----

    // One source register of instruction n.
    method MarkSource(k: nat, i: nat)
      requires k == n && Marking(rob, n, producers, i) && i < |rob[n].src| && MemInv(rob, lq, sq)
      requires Below(rob, sq, bound)
      modifies this`rob
      ensures Marking(rob, n, producers, i + 1) && MemInv(rob, lq, sq) && Below(rob, sq, bound)
      ensures OnlyLinks(old(rob), rob) && LinksNeeded(old(rob), rob, k)
    {
      hide Marking, MemInv;
      MarkingBounds(rob, n, producers, i);
      PriorFound(rob, n, producers, i);
      NoLinks(rob, k);
      var r := rob[k].src[i];
      if producers[r] == [] {
        MarkedAlready(rob, n, producers, i);
      } else {
        var p := Position(rob, producers[r][|producers[r]| - 1]);
        var prior := rob[p];
        if prior.dependents == [] || prior.dependents[|prior.dependents| - 1] != rob[k].id {
          LinkOne(rob, p, k, i);
          MarkedNow(rob, n, producers, i, p);
          DependingMem(rob, p, n, lq, sq);
          rob := rob[p := prior.(dependents := prior.dependents + [rob[k].id])];
          rob := rob[k := rob[k].(blocked := rob[k].blocked + 1)];
        } else {
          MarkedAlready(rob, n, producers, i);
        }
      }
    }

    // do_scheduling, for the first unscheduled instruction.
    method DoScheduling(k: nat)
      requires Valid() && k == n < |rob|
      modifies this`rob, this`producers, this`n
      ensures Valid() && n == k + 1 && |rob| == |old(rob)| && LinksNeeded(old(rob), rob, k)
      ensures OnlyScheduled(old(rob), rob, k, k + 1, cycle + if warmup then 0 else schedulingLatency)
    {
      hide Marking, MemInv, Window, Produced, Sourced, SourcesOk, ProducedWith;
      OkFacts(rob, lq, sq, producers, n, bound);
      MarkingStarts(rob, n, producers);
      NoLinks(rob, k);
      var i := 0;
      while i < |rob[k].src|
        invariant k == n < |rob| && 0 <= i <= |rob[k].src| && OnlyLinks(old(rob), rob) && LinksNeeded(old(rob), rob, k)
        invariant Marking(rob, n, producers, i) && MemInv(rob, lq, sq) && Below(rob, sq, bound)
        decreases |old(rob)[k].src| - i
      {
        ghost var before := rob;
        MarkSource(k, i);
        LinksMore(old(rob), before, rob, k);
        i := i + 1;
      }
      LinksShape(old(rob), rob);
      MarkingEnds(rob, n, producers);
      ListingStarts(rob, n, producers);
      i := 0;
      while i < |rob[k].dst|
        invariant 0 <= i <= |rob[k].dst| && ProducedWith(rob, n + 1, n, rob[k].dst[..i], producers)
        invariant |producers| == Registers
        modifies this`producers
      {
        ListingStep(rob, n, rob[k].dst[..i], rob[k].dst[i], producers);
        assert rob[k].dst[..i] + [rob[k].dst[i]] == rob[k].dst[..i + 1];
        var d := rob[k].dst[i];
        var at := LowerBound(producers[d], rob[k].id);
        producers := producers[d := producers[d][..at] + [rob[k].id] + producers[d][at..]];
        i := i + 1;
      }
      assert rob[k].dst[..i] == rob[k].dst;
      var event := cycle + if warmup then 0 else schedulingLatency;
      OkScheduled(rob, lq, sq, producers, n, bound, event);
      rob := rob[k := rob[k].(scheduled := true, event := event)];
      n := n + 1;
    }

    // schedule_instruction: in program order, up to `schedulerSize` instructions that have not started.
    method ScheduleInstruction() returns (progress: nat)
      requires Valid()
      modifies this`rob, this`producers, this`n
      ensures Valid() && n == old(n) + progress
      ensures OnlyScheduled(old(rob), rob, old(n), n, cycle + if warmup then 0 else schedulingLatency)
      ensures Searched(old(rob), rob, schedulerSize)
    {
      hide Ok, OnlyScheduled, LinksNeeded, UpTo, NewLinksFeed;
      NoNewLinks(rob);
      ghost var event := cycle + if warmup then 0 else schedulingLatency;
      ScheduledUpTo(rob, lq, sq, producers, n, bound);
      ScheduledBound(rob, lq, sq, producers, n, bound);
      NoneScheduled(rob, n, event);
      progress := 0;
      var searchBw := schedulerSize;
      var k := 0;
      while k < |rob| && searchBw > 0
        invariant 0 <= k <= |rob| == |old(rob)| && Valid() && (k <= n == old(n) + progress)
        invariant n == (if k > old(n) then k else old(n))
        invariant OnlyScheduled(old(rob), rob, old(n), n, event) && NewLinksFeed(old(rob), rob)
        invariant searchBw == schedulerSize - NotStarted(rob, k) && (k > 0 ==> NotStarted(rob, k - 1) < schedulerSize)
      {
        ScheduledIs(rob, lq, sq, producers, n, bound, k);
        if !rob[k].scheduled {
          ghost var before := rob;
          ScheduledTexts(old(rob), before, old(n), k, event);
          DoScheduling(k);
          NewLinksMore(old(rob), before, rob, k);
          ScheduleMore(old(rob), before, rob, old(n), k, event);
          ScheduledSame(before, rob, k, k + 1, event);
          progress := progress + 1;
        }
        if rob[k].executed == Waiting { searchBw := searchBw - 1; }
        k := k + 1;
      }
      ScheduledUpTo(rob, lq, sq, producers, n, bound);
      SearchEnds(old(rob), rob, old(n), n, k, schedulerSize);
    }

    // do_execution
    method DoExecution(k: nat)
      requires Valid() && k < |rob| && rob[k].scheduled && rob[k].executed == Waiting && rob[k].blocked == 0
      modifies this`rob, this`lq, this`sq
      ensures var event := cycle + if warmup then 0 else execLatency;
        Valid() && rob == old(rob)[k := old(rob)[k].(executed := Inflight, event := event)]
        && EntriesReady(old(lq), lq, old(sq), sq, rob[k].id, event)
    {
      hide Ok;
      var event := cycle + if warmup then 0 else execLatency;
      OkFacts(rob, lq, sq, producers, n, bound);
      OkStarted(rob, lq, sq, producers, n, bound, k, event);
      rob := rob[k := rob[k].(executed := Inflight, event := event)];
      MarkEntries(rob[k].id, event);
      OkQueues(rob, old(lq), old(sq), producers, n, bound, lq, sq);
    }

    // The two loops of do_execution over the queues.
    method MarkEntries(id: nat, event: nat)
      modifies this`lq, this`sq
      ensures EntriesReady(old(lq), lq, old(sq), sq, id, event) && SameLoads(old(lq), lq) && SameStores(old(sq), sq)
    {
      ghost var lq0, sq0 := lq, sq;
      var s := 0;
      while s < |lq|
        invariant 0 <= s <= |lq| == |lq0|
        invariant forall t :: 0 <= t < s ==> lq[t] == LoadReady(lq0[t], id, event)
        invariant forall t :: s <= t < |lq| ==> lq[t] == lq0[t]
        modifies this`lq
      {
        if lq[s].Some? && lq[s].value.id == id {
          lq := lq[s := Some(lq[s].value.(event := event))];
        }
        s := s + 1;
      }
      s := 0;
      while s < |sq|
        invariant 0 <= s <= |sq| == |sq0|
        invariant forall t :: 0 <= t < s ==> sq[t] == StoreReady(sq0[t], id, event)
        invariant forall t :: s <= t < |sq| ==> sq[t] == sq0[t]
        modifies this`sq
      {
        if sq[s].id == id {
          sq := sq[s := sq[s].(event := event)];
        }
        s := s + 1;
      }
    }

    // execute_instruction: an instruction starts only when, for each of its sources, the
    // latest older instruction that writes the register has completed.
    method ExecuteInstruction() returns (started: int)
      requires Valid() && execWidth >= 0
      modifies this`rob, this`lq, this`sq
      ensures Valid() && Starts(old(rob), rob, cycle, cycle + if warmup then 0 else execLatency, execWidth, started)
      ensures LoadsReady(old(rob), rob, old(lq), lq, cycle + if warmup then 0 else execLatency)
      ensures StoresReady(old(rob), rob, old(sq), sq, cycle + if warmup then 0 else execLatency)
      ensures forall k :: 0 <= k < |rob| && rob[k].executed != old(rob)[k].executed ==> SourcesDone(rob, k)
    {
      hide Ok, SourcesDone, LoadsReady, StoresReady, StartsUpTo, Starts;
      ghost var event := cycle + if warmup then 0 else execLatency;
      StartsNone(rob, cycle, event);
      NoneReady(rob, lq, sq, event);
      var execBw := execWidth;
      var k := 0;
      while k < |rob| && execBw > 0
        invariant 0 <= k <= |rob| == |old(rob)| && 0 <= execBw <= execWidth && Valid()
        invariant StartsUpTo(old(rob), rob, k, cycle, event) && execWidth - execBw == Moved(old(rob), rob, k)
        invariant LoadsReady(old(rob), rob, old(lq), lq, event) && StoresReady(old(rob), rob, old(sq), sq, event)
        invariant forall i :: 0 <= i < k && rob[i].executed != old(rob)[i].executed ==> SourcesDone(rob, i)
      {
        StartsNext(old(rob), rob, k, cycle, event);
        if rob[k].scheduled && rob[k].executed == Waiting && rob[k].blocked == 0 && rob[k].event <= cycle {
          ghost var before, lq0, sq0 := rob, lq, sq;
          Unblocked(rob, lq, sq, producers, n, bound, k);
          DoExecution(k);
          forall i | 0 <= i <= k && SourcesDone(before, i) ensures SourcesDone(rob, i) { DoneKept(before, rob, i); }
          OneReady(old(rob), before, rob, k, old(lq), lq0, lq, old(sq), sq0, sq, event);
          execBw := execBw - 1;
        }
        k := k + 1;
      }
      StartsAll(old(rob), rob, k, cycle, event, execWidth, execWidth - execBw);
      started := execWidth - execBw;
    }

    // One dependent of a completed instruction has a producer less to wait for.
    method TellDependent(dependent: nat, ghost owed: seq<nat>)
      requires Telling(rob, lq, sq, producers, n, bound, owed) && owed != [] && owed[0] == dependent
      modifies this`rob
      ensures Telling(rob, lq, sq, producers, n, bound, owed[1..]) && |rob| == |old(rob)|
      ensures forall j :: 0 <= j < |rob| ==> rob[j] == old(rob)[j].(blocked := rob[j].blocked)
    {
      hide Telling;
      TellingStep(rob, lq, sq, producers, n, bound, owed);
      var q := Position(rob, dependent);
      rob := rob[q := rob[q].(blocked := rob[q].blocked - 1)];
      assert rob[q].blocked >= 0;
      if rob[q].blocked == 0 {
        rob := rob[q := rob[q].(scheduled := true)];
      }
      assert rob == Told(old(rob), q);
    }

    // do_complete_execution
    method DoCompleteExecution(k: nat)
      requires Valid() && k < |rob| && rob[k].executed == Inflight && rob[k].done == NumMem(rob[k])
      modifies this`rob, this`producers
      ensures Valid() && |rob| == |old(rob)| && rob[k] == old(rob)[k].(executed := Completed, blocked := rob[k].blocked)
      ensures forall i :: 0 <= i < |rob| && i != k ==>
        rob[i] == old(rob)[i].(blocked := rob[i].blocked)
    {
      hide Ok, Erasing, Telling;
      OkFacts(rob, lq, sq, producers, n, bound);
      hide Position, Uses, InOrder, Produced;
      ghost var producers0 := producers;
      ErasingStarts(rob, n, k, producers);
      var i := 0;
      while i < |rob[k].dst|
        invariant 0 <= i <= |rob[k].dst| && Erasing(rob, n, k, i, producers)
        modifies this`producers
      {
        ErasingStep(rob, n, k, i, producers);
        var d := rob[k].dst[i];
        var at := FirstOf(producers[d], rob[k].id);
        assert at != |producers[d]|;
        producers := producers[d := producers[d][..at] + producers[d][at + 1..]];
        i := i + 1;
      }
      TellingStarts(rob, lq, sq, producers0, n, bound, k, producers);
      rob := rob[k := rob[k].(executed := Completed)];
      var dependents := rob[k].dependents;
      i := 0;
      while i < |dependents|
        invariant 0 <= i <= |dependents| && |rob| == |old(rob)|
        invariant Telling(rob, lq, sq, producers, n, bound, dependents[i..])
        invariant rob[k] == old(rob)[k].(executed := Completed, blocked := rob[k].blocked)
        invariant forall j :: 0 <= j < |rob| && j != k ==> rob[j] == old(rob)[j].(blocked := rob[j].blocked)
      {
        TellDependent(dependents[i], dependents[i..]);
        assert dependents[i..][1..] == dependents[i + 1..];
        i := i + 1;
      }
      assert dependents[i..] == [];
      TellingEnds(rob, lq, sq, producers, n, bound);
    }
  
    // complete_inflight_instruction
    method CompleteInflight() returns (completed: int)
      requires Valid() && execWidth >= 0
      modifies this`rob, this`producers
      ensures Valid() && Completes(old(rob), rob, cycle, execWidth, completed)
    {
      hide Ok, CompletesUpTo, Completes;
      CompletesNone(rob, cycle);
      var completeBw := execWidth;
      var k := 0;
      while k < |rob| && completeBw > 0
        invariant 0 <= k <= |rob| == |old(rob)| && 0 <= completeBw <= execWidth && Valid()
        invariant CompletesUpTo(old(rob), rob, k, cycle) && execWidth - completeBw == Moved(old(rob), rob, k)
      {
        ghost var before := rob;
        CompletesNext(old(rob), rob, k, cycle);
        if rob[k].executed == Inflight && rob[k].event <= cycle && rob[k].done == NumMem(rob[k]) {
          DoCompleteExecution(k);
          CompletesOne(old(rob), before, rob, k, cycle);
          completeBw := completeBw - 1;
        }
        k := k + 1;
      }
      CompletesAll(old(rob), rob, k, cycle, execWidth, execWidth - completeBw);
      completed := execWidth - completeBw;
    }

    // retire_rob: the completed instructions at the head leave, in order.
    method RetireRob() returns (count: nat)
      requires Valid()
      modifies this`rob, this`n
      ensures Valid() && Retires(old(rob), rob, retireWidth, count) && n == old(n) - count
    {
      hide Ok;
      count := 0;
      while count < retireWidth && rob != [] && rob[0].executed == Completed
        invariant count <= retireWidth && count <= |old(rob)| && rob == old(rob)[count..] && Valid()
        invariant AllCompleted(old(rob)[..count]) && n == old(n) - count
        decreases retireWidth - count
      {
        OkRetired(rob, lq, sq, producers, n, bound);
        assert old(rob)[..count + 1] == old(rob)[..count] + [rob[0]];
        rob := rob[1..];
        n := n - 1;
        count := count + 1;
      }
    }

    // The next instruction enters the buffer, and its memory operations the queues.
    method DispatchOne()
      requires Valid() && dispatchBuffer != [] && Incoming(dispatchBuffer, bound)
      requires FreeSlots(lq, |lq|) >= |dispatchBuffer[0].loads|
      modifies this`rob, this`lq, this`sq, this`dispatchBuffer, this`bound
      ensures Valid() && Incoming(dispatchBuffer, bound) && dispatchBuffer == old(dispatchBuffer)[1..]
      ensures Enters(old(rob), old(dispatchBuffer), 1, rob, dispatchBuffer)
      ensures MemoryEntered(old(dispatchBuffer)[0], old(lq), old(sq), lq, sq)
      ensures |sq| == |old(sq)| + |old(dispatchBuffer)[0].stores|
    {
      hide Ok, RegInv, MemState, MemoryEntered;
      var x := dispatchBuffer[0];
      OkEntered(rob, lq, sq, producers, n, bound, x);
      NextIncoming(dispatchBuffer, bound);
      hide Incoming, Fresh;
      rob := rob + [x];
      dispatchBuffer := dispatchBuffer[1..];
      bound := x.id + 1;
      DoMemoryScheduling();
      EnteredLength(x, old(lq), old(sq), lq, sq);
    }

    // dispatch_instruction
    method DispatchInstruction() returns (dispatched: int, ghost qs: seq<Queues>)
      requires Valid() && dispatchWidth >= 0 && Incoming(dispatchBuffer, bound)
      modifies this`rob, this`lq, this`sq, this`dispatchBuffer, this`bound
      ensures Valid() && Incoming(dispatchBuffer, bound) && 0 <= dispatched <= dispatchWidth
      ensures Enters(old(rob), old(dispatchBuffer), dispatched, rob, dispatchBuffer)
      ensures QueuesFilled(old(dispatchBuffer), dispatched, qs)
      ensures qs[0] == Queues(old(lq), old(sq)) && qs[dispatched] == Queues(lq, sq)
      ensures Ready(old(dispatchBuffer)[..dispatched], cycle)
      ensures |old(rob)| <= robSize ==> |rob| <= robSize
      ensures |old(sq)| <= sqSize ==> |sq| <= sqSize
      ensures dispatched == dispatchWidth || !HasRoom(dispatchBuffer, rob, lq, sq, cycle, robSize, sqSize)
    {
      hide Ok, Incoming, FreeSlots, MemoryEntered;
      var bw := dispatchWidth;
      ghost var d: nat := 0;
      ghost var buffer := dispatchBuffer;
      qs := [Queues(lq, sq)];
      while bw > 0 && dispatchBuffer != [] && dispatchBuffer[0].event < cycle && |rob| != robSize
        && FreeSlots(lq, |lq|) >= |dispatchBuffer[0].loads| && |dispatchBuffer[0].stores| + |sq| <= sqSize
        invariant 0 <= bw && d == dispatchWidth - bw && Enters(old(rob), buffer, d, rob, dispatchBuffer)
        invariant QueuesFilled(buffer, d, qs) && qs[0] == Queues(old(lq), old(sq)) && qs[d] == Queues(lq, sq)
        invariant Valid() && Incoming(dispatchBuffer, bound) && Ready(buffer[..d], cycle)
        invariant |old(rob)| <= robSize ==> |rob| <= robSize
        invariant |old(sq)| <= sqSize ==> |sq| <= sqSize
        decreases bw
      {
        assert buffer[d..][1..] == buffer[d + 1..] && buffer[..d + 1] == buffer[..d] + [buffer[d]];
        label before:
        DispatchOne();
        OneMoreEnters(old(rob), buffer, d, old@before(rob), old@before(dispatchBuffer), rob, dispatchBuffer);
        OneMoreFilled(buffer, d, qs, Queues(lq, sq));
        qs := qs + [Queues(lq, sq)];
        bw := bw - 1;
        d := d + 1;
      }
      dispatched := dispatchWidth - bw;
    }

    // operate_lsq: stores finish, finished stores of retired instructions are written, loads are issued.
    method OperateLsq() returns (begin: nat, finished: nat, written: nat, issued: int)
      requires Valid() && lqWidth >= 0
      modifies this`rob, this`lq, this`sq
      ensures Valid() && OnlyDone(old(rob), rob)
      ensures LsqOperated(old(rob), old(lq), old(sq), lq, sq, begin, finished, written, issued, cycle, sqWidth, lqWidth)
    {
      hide Ok;
      begin := 0;
      while begin < |sq| && sq[begin].issued
        invariant 0 <= begin <= |sq| && forall j :: 0 <= j < begin ==> sq[j].issued
      {
        begin := begin + 1;
      }
      finished := FinishStores(begin);
      ghost var mid, freed := sq, lq;
      written := WriteStores(sqWidth - finished);
      issued := IssueLoads();
      assert Midway(old(rob), old(lq), old(sq), freed, mid, lq, sq, begin, finished, written, issued, cycle, sqWidth, lqWidth);
    }

    // The stores from `begin` on that are due finish, up to the width.
    method FinishStores(begin: nat) returns (finished: nat)
      requires Valid() && begin <= |sq| && (forall j :: 0 <= j < begin ==> sq[j].issued)
      requires (begin < |sq| ==> !sq[begin].issued)
      modifies this`rob, this`lq, this`sq
      ensures Valid() && finished <= sqWidth && begin + finished <= |sq| && OnlyDone(old(rob), rob)
      ensures SpanFinished(old(sq), sq, begin, begin + finished, cycle)
      ensures SlotsFreed(old(sq), begin, begin + finished, old(lq), lq)
      ensures forall i :: begin <= i < begin + finished ==> !old(sq)[i].issued && old(sq)[i].event <= cycle
      ensures finished == sqWidth || begin + finished == |sq| || old(sq)[begin + finished].issued || old(sq)[begin + finished].event > cycle
    {
      hide Ok;
      var end := begin;
      while end < |sq| && end - begin < sqWidth && !sq[end].issued && sq[end].event <= cycle
        invariant begin <= end <= |sq| && end - begin <= sqWidth
        invariant forall j :: begin <= j < end ==> !sq[j].issued && sq[j].event <= cycle
      {
        end := end + 1;
      }
      var i := begin;
      while i < end
        invariant begin <= i <= end <= |sq| && Valid() && OnlyDone(old(rob), rob)
        invariant SpanFinished(old(sq), sq, begin, i, cycle) && SlotsFreed(old(sq), begin, i, old(lq), lq)
      {
        forall s: nat ensures Freed(old(sq), begin, i + 1, s) <==> Freed(old(sq), begin, i, s) || s in old(sq)[i].waiting {
          FreedOneMore(old(sq), begin, i, s);
        }
        DoFinishStore(i);
        i := i + 1;
      }
      finished := end - begin;
    }

    // Stores older than the whole buffer go to the cache, as long as it takes them, and leave
    // the queue: they have all finished.
    method WriteStores(width: nat) returns (written: nat)
      requires Valid()
      modifies this`sq
      ensures Valid() && written <= width && written <= |old(sq)| && sq == old(sq)[written..]
      ensures forall i :: 0 <= i < written ==>
        old(sq)[i].issued && (rob == [] || old(sq)[i].id < rob[0].id) && old(sq)[i].event <= cycle
    {
      hide Ok;
      written := 0;
      var taken := true;
      while written < width && sq != [] && (rob == [] || sq[0].id < rob[0].id) && sq[0].event <= cycle && taken
        invariant written <= width && written <= |old(sq)| && sq == old(sq)[written..] && Valid()
        invariant forall i :: 0 <= i < written ==>
          old(sq)[i].issued && (rob == [] || old(sq)[i].id < rob[0].id) && old(sq)[i].event <= cycle
        decreases |sq|, taken
      {
        taken := *;
        if taken {
          OkWritten(rob, lq, sq, producers, n, bound);
          sq := sq[1..];
          written := written + 1;
        }
      }
    }

    // Loads that wait for nobody are issued, as long as the cache takes them.
    method IssueLoads() returns (issued: int)
      requires Valid() && lqWidth >= 0
      modifies this`lq
      ensures Valid() && LoadsIssued(old(lq), lq, cycle, lqWidth, issued)
    {
      hide Ok;
      var loadBw := lqWidth;
      var s := 0;
      while s < |lq|
        invariant 0 <= s <= |lq| == |old(lq)| && 0 <= loadBw <= lqWidth && SameLoads(old(lq), lq)
        invariant lqWidth - loadBw == Changed(old(lq), lq, s)
        invariant forall t :: 0 <= t < s ==> MayIssue(old(lq)[t], lq[t], cycle)
        invariant forall t :: s <= t < |lq| ==> lq[t] == old(lq)[t]
      {
        ghost var lq0 := lq;
        if loadBw > 0 && lq[s].Some? && lq[s].value.producer.None? && !lq[s].value.issued && lq[s].value.event < cycle {
          var success := *;
          if success {
            loadBw := loadBw - 1;
            lq := lq[s := Some(lq[s].value.(issued := true))];
          }
        }
        ChangedUpTo(old(lq), lq0, lq, s);
        s := s + 1;
      }
      OkQueues(rob, old(lq), sq, producers, n, bound, lq, sq);
      issued := lqWidth - loadBw;
    }

    // The buffer and the queues as they are.
    ghost function Now(): (c: Core)
      reads this
    {
      Core(rob, lq, sq, dispatchBuffer)
    }

    // The first half of a cycle, stage by stage: retire, complete, execute, schedule.
    ghost predicate ExecutionStaged(cs: Passage, cycle: nat, warmup: bool, n: int, counts: Counts) {
      && Retires(cs.start.rob, cs.retired.rob, retireWidth, counts.retired)
      && cs.retired == cs.start.(rob := cs.retired.rob)
      && Completes(cs.retired.rob, cs.completed.rob, cycle, execWidth, counts.completed)
      && cs.completed == cs.retired.(rob := cs.completed.rob)
      && Executed(cs.completed, cs.started, cycle, cycle + if warmup then 0 else execLatency, execWidth, counts.started)
      && OnlyScheduled(cs.started.rob, cs.scheduled.rob, n, n + counts.scheduled,
                       cycle + if warmup then 0 else schedulingLatency)
      && Searched(cs.started.rob, cs.scheduled.rob, schedulerSize)
      && cs.scheduled == cs.started.(rob := cs.scheduled.rob)
    }

    // The second half: memory returns, the queues, dispatch.
    ghost predicate MemoryStaged(cs: Passage, cycle: nat, returned: seq<nat>, counts: Counts) {
      && OnlyDone(cs.scheduled.rob, cs.returned.rob)
      && cs.returned == cs.scheduled.(rob := cs.returned.rob, lq := cs.returned.lq)
      && LinesReturned(cs.scheduled.lq, cs.returned.lq, returned, l1dBandwidth)
      && OnlyDone(cs.returned.rob, cs.queued.rob) && cs.queued.buffer == cs.returned.buffer
      && LsqOperated(cs.returned.rob, cs.returned.lq, cs.returned.sq, cs.queued.lq, cs.queued.sq, counts.begin,
                     counts.finished, counts.written, counts.issued, cycle, sqWidth, lqWidth)
      && Enters(cs.queued.rob, cs.queued.buffer, counts.dispatched, cs.end.rob, cs.end.buffer)
      && 0 <= counts.dispatched <= |cs.queued.buffer|
      && Ready(cs.queued.buffer[..counts.dispatched], cycle) && counts.dispatched <= dispatchWidth
      && (counts.dispatched == dispatchWidth
          || !HasRoom(cs.end.buffer, cs.end.rob, cs.end.lq, cs.end.sq, cycle, robSize, sqSize))
      && exists qs :: QueueChain(cs.queued, cs.end, counts.dispatched, qs)
    }

    // The first four stages.
    method ExecutionStages() returns (counts: Counts, ghost cs: Passage)
      requires Valid() && Incoming(dispatchBuffer, bound) && execWidth >= 0
      modifies this`rob, this`lq, this`sq, this`producers, this`n
      ensures Valid() && cs.start == old(Now()) && cs.scheduled == Now()
      ensures ExecutionStaged(cs, cycle, warmup, old(n) - counts.retired, counts)
      ensures counts.retired <= |old(rob)| && SameTexts(old(rob)[counts.retired..], rob)
    {
      hide Ok, Retires, Completes, Starts, LoadsReady, StoresReady, OnlyScheduled, NotStarted, SourcesDone, SameTexts;
      hide Incoming;
      ghost var c0 := Now();
      var retired := RetireRob();
      ghost var c1 := Now();
      var completed := CompleteInflight();
      ghost var c2 := Now();
      var started := ExecuteInstruction();
      ghost var c3 := Now();
      var scheduled := ScheduleInstruction();
      counts := Counts(retired, completed, started, scheduled, 0, 0, 0, 0, 0);
      cs := Passage(c0, c1, c2, c3, Now(), Now(), Now(), Now());
      RetiresIs(c0.rob, c1.rob, retireWidth, retired);
      CompletesText(c1.rob, c2.rob, cycle, execWidth, completed);
      StartsText(c2.rob, c3.rob, cycle, cycle + if warmup then 0 else execLatency, execWidth, started);
      ScheduledSame(c3.rob, rob, old(n) - retired, old(n) - retired + scheduled,
          cycle + if warmup then 0 else schedulingLatency);
      SameThrough(c1.rob, c2.rob, c3.rob);
      SameThrough(c1.rob, c3.rob, rob);
    }

    // operate: one cycle of the back end. The program's text goes through it unchanged: the
    // buffer holds what has not retired, followed by what was dispatched.
    method Operate(returned: seq<nat>) returns (counts: Counts, ghost cs: Passage)
      requires Valid() && Incoming(dispatchBuffer, bound)
      requires dispatchWidth >= 0 && execWidth >= 0 && lqWidth >= 0 && l1dBandwidth >= 0
      modifies this
      ensures Valid() && Incoming(dispatchBuffer, bound) && cycle == old(cycle) + 1 && warmup == old(warmup)
      ensures cs.start == old(Now()) && cs.end == Now()
      ensures ExecutionStaged(cs, old(cycle), old(warmup), old(n) - counts.retired, counts)
      ensures MemoryStaged(cs, old(cycle), returned, counts)
      ensures counts.retired <= |old(rob)| && 0 <= counts.dispatched <= |old(dispatchBuffer)|
      ensures SameTexts(old(rob)[counts.retired..] + old(dispatchBuffer)[..counts.dispatched], rob)
      ensures dispatchBuffer == old(dispatchBuffer)[counts.dispatched..]
    {
      hide Ok, OnlyDone, LinesReturned, LsqOperated, Enters, QueuesFilled, Incoming, SameTexts;
      hide Retires, Completes, Executed, OnlyScheduled, Searched;
      ghost var c: Passage;
      counts, c := ExecutionStages();
      var handled := HandleMemoryReturn(returned);
      ghost var c5 := Now();
      var begin, finished, written, issued := OperateLsq();
      ghost var c6 := Now();
      var dispatched, qs := DispatchInstruction();
      cycle := cycle + 1;
      counts := Counts(counts.retired, counts.completed, counts.started, counts.scheduled, begin, finished, written,
          issued, dispatched);
      cs := Passage(c.start, c.retired, c.completed, c.started, c.scheduled, c5, c6, Now());
      DoneText(c.scheduled.rob, c5.rob);
      DoneText(c5.rob, c6.rob);
      assert QueueChain(c6, cs.end, dispatched, qs);
      SameThrough(old(rob)[counts.retired..], c.scheduled.rob, c5.rob);
      SameThrough(old(rob)[counts.retired..], c5.rob, c6.rob);
      TextThrough(old(rob)[counts.retired..], c6.rob, c6.buffer, dispatched, rob, dispatchBuffer);
    }
  }
}
