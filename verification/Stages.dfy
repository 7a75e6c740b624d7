/**
 What the stages of the back end of ChampSim/src/ooo_cpu.cc do to the reorder buffer and to
 the two queues, entry by entry.
 */
module Stages {
  import opened Dataflow
  import opened LoadStore
  import opened Options

  // What the program says of an instruction.
  ghost predicate SameText(x: Instr, y: Instr) {
    x.id == y.id && x.dst == y.dst && x.src == y.src && x.stores == y.stores && x.loads == y.loads
  }

  ghost predicate SameTexts(rob: seq<Instr>, to: seq<Instr>) {
    |rob| == |to| && forall k :: 0 <= k < |rob| ==> SameText(rob[k], to[k])
  }

  // Memory operations may have completed, and that is all.
  ghost predicate OnlyDone(rob: seq<Instr>, to: seq<Instr>) {
    |rob| == |to| && forall k :: 0 <= k < |rob| ==> to[k] == rob[k].(done := to[k].done)
  }

  // Dependencies may have been recorded, and that is all.
  ghost predicate OnlyLinks(rob: seq<Instr>, to: seq<Instr>) {
    && |rob| == |to|
    && forall k :: 0 <= k < |rob| ==> to[k] == rob[k].(dependents := to[k].dependents, blocked := to[k].blocked)
  }

  // How many of the first n instructions are not in the same state of execution any more.
  ghost function Moved(rob: seq<Instr>, to: seq<Instr>, n: nat): nat
    requires n <= |rob| == |to|
  {
    if n == 0 then 0 else Moved(rob, to, n - 1) + if rob[n - 1].executed != to[n - 1].executed then 1 else 0
  }

  lemma {:induction false} MovedSame(rob: seq<Instr>, to: seq<Instr>, to': seq<Instr>, n: nat)
    requires n <= |rob| == |to| == |to'| && forall k :: 0 <= k < n ==> to[k].executed == to'[k].executed
    ensures Moved(rob, to, n) == Moved(rob, to', n)
  {
    if n > 0 { MovedSame(rob, to, to', n - 1); }
  }

  lemma {:induction false} MovedNone(rob: seq<Instr>, to: seq<Instr>, m: nat, n: nat)
    requires m <= n <= |rob| == |to| && forall k :: m <= k < n ==> to[k].executed == rob[k].executed
    ensures Moved(rob, to, n) == Moved(rob, to, m)
  {
    if m < n { MovedNone(rob, to, m, n - 1); }
  }

  // ---- Execution ----

  ghost predicate Due(x: Instr, cycle: nat) {
    x.scheduled && x.executed == Waiting && x.blocked == 0 && x.event <= cycle
  }

  ghost predicate Ripe(x: Instr, cycle: nat) {
    x.executed == Inflight && x.event <= cycle && x.done == NumMem(x)
  }

  // The first `width` due instructions start and take until `event`; nothing else happens in the buffer.
  ghost predicate Starts(rob: seq<Instr>, to: seq<Instr>, cycle: nat, event: nat, width: int, started: int) {
    && |rob| == |to| && started == Moved(rob, to, |rob|) && 0 <= started <= width
    && (forall k :: 0 <= k < |rob| && to[k].executed != rob[k].executed ==>
          Due(rob[k], cycle) && to[k] == rob[k].(executed := Inflight, event := event))
    && (forall k :: 0 <= k < |rob| && to[k].executed == rob[k].executed ==> to[k] == rob[k])
    && (forall j, k :: 0 <= j < k < |rob| && Due(rob[j], cycle) && to[k].executed != rob[k].executed ==>
          to[j].executed != rob[j].executed)
    && (started < width ==> forall k :: 0 <= k < |rob| && Due(rob[k], cycle) ==> to[k].executed != rob[k].executed)
  }

  // Whether instruction `id` has started.
  ghost predicate StartedId(rob: seq<Instr>, to: seq<Instr>, id: nat)
    requires |rob| == |to|
  {
    exists k :: 0 <= k < |rob| && rob[k].id == id && rob[k].executed != to[k].executed
  }

  // The queue entries of the instructions that started are ready from `event` on, the others as before.
  ghost predicate LoadsReady(rob: seq<Instr>, to: seq<Instr>, lq: seq<Option<Load>>, lq': seq<Option<Load>>, event: nat)
    requires |rob| == |to|
  {
    && |lq| == |lq'|
    && forall s :: 0 <= s < |lq| ==>
      lq'[s] == if lq[s].Some? && StartedId(rob, to, lq[s].value.id) then Some(lq[s].value.(event := event)) else lq[s]
  }

  ghost predicate StoresReady(rob: seq<Instr>, to: seq<Instr>, sq: seq<Store>, sq': seq<Store>, event: nat)
    requires |rob| == |to|
  {
    && |sq| == |sq'|
    && forall i :: 0 <= i < |sq| ==> sq'[i] == if StartedId(rob, to, sq[i].id) then sq[i].(event := event) else sq[i]
  }

  // The first `width` ripe instructions complete; besides, only dependencies are counted down.
  ghost predicate Completes(rob: seq<Instr>, to: seq<Instr>, cycle: nat, width: int, completed: int) {
    && |rob| == |to| && completed == Moved(rob, to, |rob|) && 0 <= completed <= width
    && (forall k :: 0 <= k < |rob| ==> to[k] == rob[k].(blocked := to[k].blocked, executed := to[k].executed))
    && (forall k :: 0 <= k < |rob| && to[k].executed != rob[k].executed ==>
          Ripe(rob[k], cycle) && to[k].executed == Completed)
    && (forall j, k :: 0 <= j < k < |rob| && Ripe(rob[j], cycle) && to[k].executed != rob[k].executed ==>
          to[j].executed != rob[j].executed)
    && (completed < width ==> forall k :: 0 <= k < |rob| && Ripe(rob[k], cycle) ==> to[k].executed != rob[k].executed)
  }

  // ---- The queues ----

  // Some store from begin to end names slot s.
  ghost predicate Freed(sq: seq<Store>, begin: nat, end: nat, s: nat) {
    exists i :: begin <= i < end && i < |sq| && s in sq[i].waiting
  }

  lemma FreedOneMore(sq: seq<Store>, begin: nat, end: nat, s: nat)
    requires begin <= end < |sq|
    ensures Freed(sq, begin, end + 1, s) <==> Freed(sq, begin, end, s) || s in sq[end].waiting
    ensures !Freed(sq, begin, begin, s)
  {
    if s in sq[end].waiting { assert begin <= end < end + 1; }
  }

  // The stores from begin to end finish now.
  ghost predicate SpanFinished(sq: seq<Store>, to: seq<Store>, begin: nat, end: nat, cycle: nat) {
    && |to| == |sq| && begin <= end <= |sq|
    && (forall i :: begin <= i < end ==> to[i] == sq[i].(issued := true, event := cycle))
    && forall i :: (0 <= i < begin || end <= i < |sq|) ==> to[i] == sq[i]
  }

  ghost predicate SlotsFreed(sq: seq<Store>, begin: nat, end: nat, lq: seq<Option<Load>>, to: seq<Option<Load>>) {
    |lq| == |to| && forall s :: 0 <= s < |lq| ==> to[s] == if Freed(sq, begin, end, s) then None else lq[s]
  }

  // A load that may be issued: it waits for nobody.
  ghost predicate Issuable(e: Option<Load>, cycle: nat) {
    e.Some? && e.value.producer.None? && !e.value.issued && e.value.event < cycle
  }

  ghost predicate MayIssue(e: Option<Load>, to: Option<Load>, cycle: nat) {
    to == e || (Issuable(e, cycle) && to == Some(e.value.(issued := true)))
  }

  ghost function Changed(lq: seq<Option<Load>>, to: seq<Option<Load>>, n: nat): nat
    requires n <= |lq| == |to|
  {
    if n == 0 then 0 else Changed(lq, to, n - 1) + if lq[n - 1] != to[n - 1] then 1 else 0
  }

  lemma {:induction false} ChangedUpTo(lq: seq<Option<Load>>, to: seq<Option<Load>>, to': seq<Option<Load>>, n: nat)
    requires n <= |lq| == |to| == |to'| && forall k :: 0 <= k < n ==> to[k] == to'[k]
    ensures Changed(lq, to, n) == Changed(lq, to', n)
  {
    if n > 0 { ChangedUpTo(lq, to, to', n - 1); }
  }

  // At most `width` loads are issued.
  ghost predicate LoadsIssued(lq: seq<Option<Load>>, to: seq<Option<Load>>, cycle: nat, width: int, issued: int) {
    && |lq| == |to| && issued == Changed(lq, to, |lq|) && 0 <= issued <= width
    && forall s :: 0 <= s < |lq| ==> MayIssue(lq[s], to[s], cycle)
  }

  // ---- Dispatch ----

  // Store b is the youngest one to address va, the first of them if its instruction has several.
  ghost predicate Youngest(sq: seq<Store>, va: nat, b: nat) {
    && b < |sq| && sq[b].va == va
    && forall j :: 0 <= j < |sq| && sq[j].va == va ==> sq[j].id <= sq[b].id && (sq[j].id == sq[b].id ==> b <= j)
  }

  ghost predicate NoStore(sq: seq<Store>, va: nat) {
    forall j :: 0 <= j < |sq| ==> sq[j].va != va
  }

  // The youngest store to the address has finished, so that a load has its value at once.
  ghost predicate Forwards(sq: seq<Store>, va: nat) {
    exists b: nat :: Youngest(sq, va, b) && sq[b].issued
  }

  // A load as it enters the queue.
  ghost predicate NewLoad(e: Load, id: nat, sq: seq<Store>) {
    && e.id == id && e.event == 0 && !e.issued
    && if NoStore(sq, e.va) then e.producer.None?
       else exists b: nat :: Youngest(sq, e.va, b) && !sq[b].issued && e.producer == Some(sq[b].id)
  }

  // The slots among the first n that have been filled with a load of address va.
  ghost function Filled(lq: seq<Option<Load>>, to: seq<Option<Load>>, n: nat, va: nat): nat
    requires n <= |lq| == |to|
  {
    if n == 0 then 0
    else Filled(lq, to, n - 1, va) + if lq[n - 1].None? && to[n - 1].Some? && to[n - 1].value.va == va then 1 else 0
  }

  // The loads `loads` of instruction `id` have entered: one entry for each that has no value yet.
  ghost predicate LoadsEntered(id: nat, loads: seq<nat>, lq: seq<Option<Load>>, sq: seq<Store>,
                               lq': seq<Option<Load>>, sq': seq<Store>) {
    && |lq| == |lq'| && |sq| == |sq'|
    && (forall s :: 0 <= s < |lq| && lq[s].Some? ==> lq'[s] == lq[s])
    && (forall s :: 0 <= s < |lq| && lq[s].None? && lq'[s].Some? ==> NewLoad(lq'[s].value, id, sq))
    && (forall va: nat :: Filled(lq, lq', |lq|, va) == if Forwards(sq, va) then 0 else Count(loads, va))
    && (forall i :: 0 <= i < |sq| ==> sq'[i] == sq[i].(waiting := sq'[i].waiting) && sq[i].waiting <= sq'[i].waiting)
  }

  function StoresOfInstr(x: Instr, n: nat): seq<Store>
    requires n <= |x.stores|
  {
    seq(n, i requires 0 <= i < |x.stores| => Store(x.id, x.stores[i], 0, false, []))
  }

  // Instruction x has entered the queues: its loads where there is room, its stores at the end.
  ghost predicate MemoryEntered(x: Instr, lq: seq<Option<Load>>, sq: seq<Store>, lq': seq<Option<Load>>, sq': seq<Store>) {
    && |sq'| == |sq| + |x.stores|
    && LoadsEntered(x.id, x.loads, lq, sq, lq', sq'[..|sq|])
    && sq'[|sq|..] == StoresOfInstr(x, |x.stores|)
  }

  lemma EnteredLength(x: Instr, lq: seq<Option<Load>>, sq: seq<Store>, lq': seq<Option<Load>>, sq': seq<Store>)
    requires MemoryEntered(x, lq, sq, lq', sq')
    ensures |sq'| == |sq| + |x.stores|
  {
  }

  // What dispatch_instruction leaves of the queues after each instruction.
  datatype Queues = Queues(lq: seq<Option<Load>>, sq: seq<Store>)

  ghost predicate Enters(rob: seq<Instr>, buffer: seq<Instr>, d: int, to: seq<Instr>, buffer': seq<Instr>) {
    && 0 <= d <= |buffer| && |to| == |rob| + d && buffer' == buffer[d..]
    && (forall k :: 0 <= k < |rob| ==> to[k] == rob[k])
    && forall k :: 0 <= k < d ==> to[|rob| + k] == buffer[k].(done := to[|rob| + k].done)
  }

  ghost predicate QueuesFilled(buffer: seq<Instr>, d: int, qs: seq<Queues>) {
    && 0 <= d <= |buffer| && |qs| == d + 1
    && forall k :: 0 <= k < d ==> MemoryEntered(buffer[k], qs[k].lq, qs[k].sq, qs[k + 1].lq, qs[k + 1].sq)
  }

  lemma OneMoreEnters(rob: seq<Instr>, buffer: seq<Instr>, d: nat, mid: seq<Instr>, rest: seq<Instr>, to: seq<Instr>,
                      left: seq<Instr>)
    requires Enters(rob, buffer, d, mid, rest) && rest != [] && Enters(mid, rest, 1, to, left)
    ensures d < |buffer| && Enters(rob, buffer, d + 1, to, left)
  {
    forall k | 0 <= k < d + 1 ensures to[|rob| + k] == buffer[k].(done := to[|rob| + k].done) {
      if k < d { assert mid[|rob| + k] == buffer[k].(done := mid[|rob| + k].done); }
    }
  }

  lemma OneMoreFilled(buffer: seq<Instr>, d: nat, qs: seq<Queues>, q: Queues)
    requires QueuesFilled(buffer, d, qs) && d < |buffer| && MemoryEntered(buffer[d], qs[d].lq, qs[d].sq, q.lq, q.sq)
    ensures QueuesFilled(buffer, d + 1, qs + [q])
  {
    hide MemoryEntered;
    var to := qs + [q];
    forall k | 0 <= k < d + 1 ensures MemoryEntered(buffer[k], to[k].lq, to[k].sq, to[k + 1].lq, to[k + 1].sq) {
      assert to[k] == qs[k];
    }
  }

  lemma SameYoungest(sq: seq<Store>, to: seq<Store>, va: nat, b: nat)
    requires |sq| == |to| && forall i :: 0 <= i < |sq| ==> to[i] == sq[i].(waiting := to[i].waiting)
    ensures Youngest(sq, va, b) <==> Youngest(to, va, b)
    ensures NoStore(sq, va) <==> NoStore(to, va)
  {
  }

  lemma YoungestOne(sq: seq<Store>, va: nat, b: nat, c: nat)
    requires Youngest(sq, va, b) && Youngest(sq, va, c)
    ensures b == c && !NoStore(sq, va)
  {
  }

  lemma {:induction false} FilledNone(lq: seq<Option<Load>>, n: nat, va: nat)
    requires n <= |lq|
    ensures Filled(lq, lq, n, va) == 0
  {
    if n > 0 { FilledNone(lq, n - 1, va); }
  }

  lemma {:induction false} FilledOne(lq: seq<Option<Load>>, to: seq<Option<Load>>, s: nat, e: Load, n: nat, va: nat)
    requires n <= |lq| == |to| && s < |lq| && lq[s].None? && to[s].None?
    ensures Filled(lq, to[s := Some(e)], n, va) == Filled(lq, to, n, va) + if s < n && e.va == va then 1 else 0
  {
    if n > 0 { FilledOne(lq, to, s, e, n - 1, va); }
  }

  lemma NoneEntered(id: nat, lq: seq<Option<Load>>, sq: seq<Store>)
    ensures LoadsEntered(id, [], lq, sq, lq, sq)
  {
    forall va: nat ensures Filled(lq, lq, |lq|, va) == 0 { FilledNone(lq, |lq|, va); }
  }

  // A load that finds its value ready takes no slot.
  lemma ForwardedEntered(id: nat, loads: seq<nat>, lq: seq<Option<Load>>, sq: seq<Store>, lq': seq<Option<Load>>,
                         sq': seq<Store>, va: nat, b: nat)
    requires LoadsEntered(id, loads, lq, sq, lq', sq') && Youngest(sq', va, b) && sq'[b].issued
    ensures LoadsEntered(id, loads + [va], lq, sq, lq', sq')
  {
    SameYoungest(sq, sq', va, b);
    forall a: nat ensures Filled(lq, lq', |lq|, a) == if Forwards(sq, a) then 0 else Count(loads + [va], a) {
      assert (loads + [va])[..|loads|] == loads;
    }
  }

  // Any other load takes a free slot, and waits for the youngest store if there is one.
  lemma SlotEntered(id: nat, loads: seq<nat>, lq: seq<Option<Load>>, sq: seq<Store>, lq': seq<Option<Load>>,
                    sq': seq<Store>, va: nat, s: nat, b: nat)
    requires LoadsEntered(id, loads, lq, sq, lq', sq') && s < |lq'| && lq'[s].None?
    requires NoStore(sq', va) || (Youngest(sq', va, b) && !sq'[b].issued)
    ensures NoStore(sq', va) ==>
      LoadsEntered(id, loads + [va], lq, sq, lq'[s := Some(Load(id, va, 0, false, None))], sq')
    ensures !NoStore(sq', va) ==>
      LoadsEntered(id, loads + [va], lq, sq, lq'[s := Some(Load(id, va, 0, false, Some(sq'[b].id)))],
        sq'[b := sq'[b].(waiting := sq'[b].waiting + [s])])
  {
    SameYoungest(sq, sq', va, b);
    var e := Load(id, va, 0, false, if NoStore(sq', va) then None else Some(sq'[b].id));
    var to := lq'[s := Some(e)];
    NotForwarded(sq, sq', va, b);
    forall a: nat ensures Filled(lq, to, |lq|, a) == if Forwards(sq, a) then 0 else Count(loads + [va], a) {
      assert (loads + [va])[..|loads|] == loads;
      FilledOne(lq, lq', s, e, |lq|, a);
    }
    assert NewLoad(e, id, sq);
  }

  lemma NotForwarded(sq: seq<Store>, to: seq<Store>, va: nat, b: nat)
    requires |sq| == |to| && forall i :: 0 <= i < |sq| ==> to[i] == sq[i].(waiting := to[i].waiting)
    requires NoStore(to, va) || (Youngest(to, va, b) && !to[b].issued)
    ensures !Forwards(sq, va)
  {
    SameYoungest(sq, to, va, b);
    forall c: nat | Youngest(sq, va, c) ensures !sq[c].issued {
      if !NoStore(to, va) { YoungestOne(sq, va, b, c); }
    }
  }
}
