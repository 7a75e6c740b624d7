/**
 The load queue and the store queue of ChampSim/src/ooo_cpu.cc. A load that must wait for
 an older store is named in that store's list by its slot of the load queue.
 */
module LoadStore {
  import opened Dataflow
  import opened Options

  // Entries of the two queues (LSQ_ENTRY). A load without a producer has producer_id at its maximum.
  datatype Load = Load(id: nat, va: nat, event: nat, issued: bool, producer: Option<nat>)
  datatype Store = Store(id: nat, va: nat, event: nat, issued: bool, waiting: seq<nat>)

  function NumMem(x: Instr): nat {
    |x.stores| + |x.loads|
  }

  // The live loads of instruction `id` in the first n slots.
  ghost function LoadsOf(lq: seq<Option<Load>>, n: nat, id: nat): nat
    requires n <= |lq|
  {
    if n == 0 then 0 else LoadsOf(lq, n - 1, id) + if lq[n - 1].Some? && lq[n - 1].value.id == id then 1 else 0
  }

  // The stores of instruction `id` among the first n that are still to finish.
  ghost function StoresOf(sq: seq<Store>, n: nat, id: nat): nat
    requires n <= |sq|
  {
    if n == 0 then 0 else StoresOf(sq, n - 1, id) + if !sq[n - 1].issued && sq[n - 1].id == id then 1 else 0
  }

  // How often the unfinished stores among the first n name slot s.
  ghost function Mentions(sq: seq<Store>, n: nat, s: nat): nat
    requires n <= |sq|
  {
    if n == 0 then 0 else Mentions(sq, n - 1, s) + if sq[n - 1].issued then 0 else Count(sq[n - 1].waiting, s)
  }

  ghost predicate Has(rob: seq<Instr>, id: nat) {
    exists k :: 0 <= k < |rob| && rob[k].id == id
  }

  // Every memory operation of every instruction is in one place: completed, in the load
  // queue, in the store queue - or, for the youngest, among the last `pending` to be entered.
  ghost predicate Conserved(rob: seq<Instr>, lq: seq<Option<Load>>, sq: seq<Store>, pending: nat) {
    forall k :: 0 <= k < |rob| ==>
      rob[k].done + LoadsOf(lq, |lq|, rob[k].id) + StoresOf(sq, |sq|, rob[k].id) + (if k == |rob| - 1 then pending else 0)
      == NumMem(rob[k])
  }

  ghost predicate Owned(rob: seq<Instr>, lq: seq<Option<Load>>, sq: seq<Store>) {
    && (forall s :: 0 <= s < |lq| && lq[s].Some? ==> Has(rob, lq[s].value.id))
    && (forall i :: 0 <= i < |sq| && !sq[i].issued ==> Has(rob, sq[i].id))
  }

  // Stores are in program order, and the finished ones come first.
  ghost predicate StoreOrder(sq: seq<Store>) {
    forall i, j :: 0 <= i < j < |sq| ==> sq[i].id <= sq[j].id && (sq[j].issued ==> sq[i].issued)
  }

  ghost predicate WaitsFor(lq: seq<Option<Load>>, s: nat, id: nat) {
    s < |lq| && lq[s].Some? && lq[s].value.producer == Some(id) && !lq[s].value.issued
  }

  ghost function Waits(e: Option<Load>): nat {
    if e.Some? && e.value.producer.Some? then 1 else 0
  }

  // A waiting load is named by exactly one unfinished store, its producer - or, while store
  // `pid` finishes, in the rest of that store's list. Only loads that do not wait are issued.
  ghost predicate Linked(lq: seq<Option<Load>>, sq: seq<Store>, rest: seq<nat>, pid: nat) {
    && (forall s: nat :: s < |lq| ==> Mentions(sq, |sq|, s) + Count(rest, s) == Waits(lq[s]))
    && (forall i :: 0 <= i < |sq| && !sq[i].issued ==> forall j :: 0 <= j < |sq[i].waiting| ==>
        WaitsFor(lq, sq[i].waiting[j], sq[i].id))
    && (forall j :: 0 <= j < |rest| ==> WaitsFor(lq, rest[j], pid))
    && (forall s :: 0 <= s < |lq| && lq[s].Some? && lq[s].value.issued ==> lq[s].value.producer.None?)
  }

  // An instruction is completed only when its memory operations are.
  ghost predicate CompletedDone(rob: seq<Instr>) {
    forall k :: 0 <= k < |rob| && rob[k].executed == Completed ==> rob[k].done == NumMem(rob[k])
  }

  ghost predicate MemState(rob: seq<Instr>, lq: seq<Option<Load>>, sq: seq<Store>, rest: seq<nat>, pid: nat,
                           pending: nat) {
    && InOrder(rob) && CompletedDone(rob) && StoreOrder(sq)
    && Conserved(rob, lq, sq, pending) && Owned(rob, lq, sq) && Linked(lq, sq, rest, pid)
  }

  ghost predicate MemInv(rob: seq<Instr>, lq: seq<Option<Load>>, sq: seq<Store>) {
    MemState(rob, lq, sq, [], 0, 0)
  }

  // ---- Counting ----

  lemma {:induction false} LoadsUpdate(lq: seq<Option<Load>>, n: nat, s: nat, e: Option<Load>, id: nat)
    requires n <= |lq| && s < |lq|
    ensures LoadsOf(lq[s := e], n, id) + (if s < n && lq[s].Some? && lq[s].value.id == id then 1 else 0)
      == LoadsOf(lq, n, id) + if s < n && e.Some? && e.value.id == id then 1 else 0
  {
    if n > 0 { LoadsUpdate(lq, n - 1, s, e, id); }
  }

  lemma {:induction false} StoresUpdate(sq: seq<Store>, n: nat, i: nat, e: Store, id: nat)
    requires n <= |sq| && i < |sq|
    ensures StoresOf(sq[i := e], n, id) + (if i < n && !sq[i].issued && sq[i].id == id then 1 else 0)
      == StoresOf(sq, n, id) + if i < n && !e.issued && e.id == id then 1 else 0
  {
    if n > 0 { StoresUpdate(sq, n - 1, i, e, id); }
  }

  lemma {:induction false} MentionsUpdate(sq: seq<Store>, n: nat, i: nat, e: Store, s: nat)
    requires n <= |sq| && i < |sq|
    ensures Mentions(sq[i := e], n, s) + (if i < n && !sq[i].issued then Count(sq[i].waiting, s) else 0)
      == Mentions(sq, n, s) + if i < n && !e.issued then Count(e.waiting, s) else 0
  {
    if n > 0 { MentionsUpdate(sq, n - 1, i, e, s); }
  }

  lemma {:induction false} LoadsNone(lq: seq<Option<Load>>, n: nat, id: nat)
    requires n <= |lq|
    ensures LoadsOf(lq, n, id) == 0 <==> forall s :: 0 <= s < n ==> lq[s].Some? ==> lq[s].value.id != id
  {
    if n > 0 { LoadsNone(lq, n - 1, id); }
  }

  lemma {:induction false} StoresNone(sq: seq<Store>, n: nat, id: nat)
    requires n <= |sq|
    ensures StoresOf(sq, n, id) == 0 <==> forall i :: 0 <= i < n ==> !sq[i].issued ==> sq[i].id != id
  {
    if n > 0 { StoresNone(sq, n - 1, id); }
  }

  lemma {:induction false} CountOne(s: seq<nat>, x: nat, r: nat)
    ensures Count(s + [x], r) == Count(s, r) + if x == r then 1 else 0
  {
    assert (s + [x])[..|s|] == s;
  }

  lemma {:induction false} CountTail(s: seq<nat>, r: nat)
    requires s != []
    ensures Count(s, r) == Count(s[1..], r) + if s[0] == r then 1 else 0
  {
    if |s| > 1 {
      CountTail(s[..|s| - 1], r);
      assert s[..|s| - 1][1..] == s[1..][..|s| - 2];
    }
  }

  // ---- Frames ----

  ghost predicate SameMem(rob: seq<Instr>, to: seq<Instr>) {
    && |rob| == |to|
    && forall k :: 0 <= k < |rob| ==>
      rob[k].id == to[k].id && rob[k].done == to[k].done && rob[k].loads == to[k].loads && rob[k].stores == to[k].stores
  }

  lemma SameHas(rob: seq<Instr>, to: seq<Instr>, id: nat)
    requires |rob| == |to| && forall k :: 0 <= k < |rob| ==> rob[k].id == to[k].id
    ensures Has(rob, id) ==> Has(to, id)
  {
    if Has(rob, id) {
      var k :| 0 <= k < |rob| && rob[k].id == id;
      assert to[k].id == id;
    }
  }

  // The memory side does not read the rest of the instructions.
  lemma MemFrame(rob: seq<Instr>, to: seq<Instr>, lq: seq<Option<Load>>, sq: seq<Store>)
    requires MemInv(rob, lq, sq) && SameMem(rob, to) && CompletedDone(to)
    ensures MemInv(to, lq, sq)
  {
    hide LoadsOf, StoresOf, Linked, Has;
    forall s | 0 <= s < |lq| && lq[s].Some? ensures Has(to, lq[s].value.id) { SameHas(rob, to, lq[s].value.id); }
    forall i | 0 <= i < |sq| && !sq[i].issued ensures Has(to, sq[i].id) { SameHas(rob, to, sq[i].id); }
  }

  // ---- LSQ_ENTRY::finish ----

  ghost function Counted(rob: seq<Instr>, k: nat): seq<Instr>
    requires k < |rob|
  {
    rob[k := rob[k].(done := rob[k].done + 1)]
  }

  lemma ConservedAt(rob: seq<Instr>, lq: seq<Option<Load>>, sq: seq<Store>, pending: nat, k: nat)
    requires Conserved(rob, lq, sq, pending) && k < |rob|
    ensures rob[k].done + LoadsOf(lq, |lq|, rob[k].id) + StoresOf(sq, |sq|, rob[k].id) + (if k == |rob| - 1 then pending else 0)
      == NumMem(rob[k])
  {
  }

  // The instruction is found, and its count stays in bounds.
  lemma FinishFinds(rob: seq<Instr>, lq: seq<Option<Load>>, sq: seq<Store>, id: nat, pending: nat)
    requires InOrder(rob) && Conserved(rob, lq, sq, pending) && Has(rob, id)
    requires LoadsOf(lq, |lq|, id) + StoresOf(sq, |sq|, id) > 0
    ensures var k := Position(rob, id); k < |rob| && rob[k].id == id && rob[k].done < NumMem(rob[k])
  {
    hide LoadsOf, StoresOf, Conserved, InOrder;
    var k :| 0 <= k < |rob| && rob[k].id == id;
    Found(rob, k);
    ConservedAt(rob, lq, sq, pending, k);
  }

  lemma CountedKeeps(rob: seq<Instr>, k: nat)
    requires k < |rob| && InOrder(rob) && CompletedDone(rob) && rob[k].done < NumMem(rob[k])
    ensures InOrder(Counted(rob, k)) && CompletedDone(Counted(rob, k))
    ensures forall id :: Has(rob, id) ==> Has(Counted(rob, k), id)
  {
    forall id | Has(rob, id) ensures Has(Counted(rob, k), id) { SameHas(rob, Counted(rob, k), id); }
  }

  // One operation of instruction k moves from a queue to the completed ones.
  lemma CountedConserved(rob: seq<Instr>, lq: seq<Option<Load>>, sq: seq<Store>, pending: nat, k: nat,
                         lq': seq<Option<Load>>, sq': seq<Store>, pending': nat)
    requires InOrder(rob) && Conserved(rob, lq, sq, pending) && k < |rob|
    requires forall i :: 0 <= i < |rob| ==>
      LoadsOf(lq, |lq|, rob[i].id) + StoresOf(sq, |sq|, rob[i].id) + (if i == |rob| - 1 then pending else 0)
      == LoadsOf(lq', |lq'|, rob[i].id) + StoresOf(sq', |sq'|, rob[i].id) + (if i == |rob| - 1 then pending' else 0) + if i == k then 1 else 0
    ensures Conserved(Counted(rob, k), lq', sq', pending')
  {
    hide LoadsOf, StoresOf, InOrder;
  }

  lemma OwnedKeeps(rob: seq<Instr>, to: seq<Instr>, lq: seq<Option<Load>>, sq: seq<Store>)
    requires Owned(rob, lq, sq) && forall id :: Has(rob, id) ==> Has(to, id)
    ensures Owned(to, lq, sq)
  {
  }

  // A live load finishes and leaves its slot: one that nobody makes wait, or the next of the rest.
  lemma LoadFinished(rob: seq<Instr>, lq: seq<Option<Load>>, sq: seq<Store>, rest: seq<nat>, pid: nat, s: nat)
    requires MemState(rob, lq, sq, rest, pid, 0) && s < |lq| && lq[s].Some?
    requires lq[s].value.producer.None? || (rest != [] && rest[0] == s)
    ensures var k := Position(rob, lq[s].value.id);
      && k < |rob| && rob[k].id == lq[s].value.id && rob[k].done < NumMem(rob[k])
      && MemState(Counted(rob, k), lq[s := None], sq, if lq[s].value.producer.None? then rest else rest[1..], pid, 0)
  {
    var id := lq[s].value.id;
    var k := Position(rob, id);
    LoadsNone(lq, |lq|, id);
    FinishFinds(rob, lq, sq, id, 0);
    hide LoadsOf, StoresOf, Linked, Has, StoreOrder, Owned, NumMem, CompletedDone, Conserved;
    CountedKeeps(rob, k);
    var lq' := lq[s := None];
    forall i | 0 <= i < |rob|
      ensures LoadsOf(lq, |lq|, rob[i].id) == LoadsOf(lq', |lq'|, rob[i].id) + if i == k then 1 else 0
    {
      LoadsUpdate(lq, |lq|, s, None, rob[i].id);
      if i != k { SameId(rob, i, k); }
    }
    CountedConserved(rob, lq, sq, 0, k, lq', sq, 0);
    assert Owned(rob, lq', sq) by { OwnedLess(rob, lq, sq, s); }
    OwnedKeeps(rob, Counted(rob, k), lq', sq);
    LinkedFinished(lq, sq, rest, pid, s);
  }

  lemma OwnedLess(rob: seq<Instr>, lq: seq<Option<Load>>, sq: seq<Store>, s: nat)
    requires Owned(rob, lq, sq) && s < |lq|
    ensures Owned(rob, lq[s := None], sq)
  {
  }

  lemma {:induction false} Unmentioned(sq: seq<Store>, n: nat, s: nat, i: nat, j: nat)
    requires n <= |sq| && i < n && !sq[i].issued && j < |sq[i].waiting| && sq[i].waiting[j] == s
    ensures Mentions(sq, n, s) > 0
  {
    if i == n - 1 {
      CountIn(sq[i].waiting, s);
      assert s in sq[i].waiting;
    } else {
      Unmentioned(sq, n - 1, s, i, j);
    }
  }

  lemma LinkedFinished(lq: seq<Option<Load>>, sq: seq<Store>, rest: seq<nat>, pid: nat, s: nat)
    requires Linked(lq, sq, rest, pid) && s < |lq| && lq[s].Some?
    requires lq[s].value.producer.None? || (rest != [] && rest[0] == s)
    ensures Linked(lq[s := None], sq, if lq[s].value.producer.None? then rest else rest[1..], pid)
  {
    var lq' := lq[s := None];
    var rest' := if lq[s].value.producer.None? then rest else rest[1..];
    if lq[s].value.producer.Some? { CountTail(rest, s); }
    assert Mentions(sq, |sq|, s) + Count(rest', s) == 0;
    CountIn(rest', s);
    forall t: nat | t < |lq| ensures Mentions(sq, |sq|, t) + Count(rest', t) == Waits(lq'[t]) {
      if lq[s].value.producer.Some? { CountTail(rest, t); }
    }
    forall j | 0 <= j < |rest'| ensures WaitsFor(lq', rest'[j], pid) {
      assert rest'[j] in rest';
      assert WaitsFor(lq, rest'[j], pid);
    }
    forall i, j | 0 <= i < |sq| && !sq[i].issued && 0 <= j < |sq[i].waiting|
      ensures WaitsFor(lq', sq[i].waiting[j], sq[i].id) {
      assert WaitsFor(lq, sq[i].waiting[j], sq[i].id);
      Unmentioned(sq, |sq|, sq[i].waiting[j], i, j);
    }
  }

  // ---- do_finish_store ----

  ghost function Finished(sq: seq<Store>, i: nat, event: nat): seq<Store>
    requires i < |sq|
  {
    sq[i := sq[i].(issued := true, event := event)]
  }

  // The first unfinished store finishes; its loads are still to follow.
  lemma StoreFinished(rob: seq<Instr>, lq: seq<Option<Load>>, sq: seq<Store>, i: nat, event: nat)
    requires MemInv(rob, lq, sq) && i < |sq| && !sq[i].issued && forall j :: 0 <= j < i ==> sq[j].issued
    ensures var k := Position(rob, sq[i].id);
      && k < |rob| && rob[k].id == sq[i].id && rob[k].done < NumMem(rob[k])
      && MemState(Counted(rob, k), lq, Finished(sq, i, event), sq[i].waiting, sq[i].id, 0)
  {
    var id := sq[i].id;
    var k := Position(rob, id);
    StoresNone(sq, |sq|, id);
    FinishFinds(rob, lq, sq, id, 0);
    var sq' := Finished(sq, i, event);
    LinkedStarted(lq, sq, i, event);
    OwnedFinished(rob, lq, sq, i, event);
    OrderFinished(sq, i, event);
    hide LoadsOf, StoresOf, Linked, Has, Owned, NumMem, CompletedDone, Conserved, StoreOrder;
    CountedKeeps(rob, k);
    forall j | 0 <= j < |rob|
      ensures StoresOf(sq, |sq|, rob[j].id) == StoresOf(sq', |sq'|, rob[j].id) + if j == k then 1 else 0
    {
      StoresUpdate(sq, |sq|, i, sq'[i], rob[j].id);
      if j != k { SameId(rob, j, k); }
    }
    CountedConserved(rob, lq, sq, 0, k, lq, sq', 0);
    OwnedKeeps(rob, Counted(rob, k), lq, sq');
  }

  lemma OrderFinished(sq: seq<Store>, i: nat, event: nat)
    requires StoreOrder(sq) && i < |sq| && forall j :: 0 <= j < i ==> sq[j].issued
    ensures StoreOrder(Finished(sq, i, event))
  {
  }

  lemma OwnedFinished(rob: seq<Instr>, lq: seq<Option<Load>>, sq: seq<Store>, i: nat, event: nat)
    requires Owned(rob, lq, sq) && i < |sq|
    ensures Owned(rob, lq, Finished(sq, i, event))
  {
  }

  lemma LinkedStarted(lq: seq<Option<Load>>, sq: seq<Store>, i: nat, event: nat)
    requires Linked(lq, sq, [], 0) && i < |sq| && !sq[i].issued
    ensures Linked(lq, Finished(sq, i, event), sq[i].waiting, sq[i].id)
  {
    var sq' := Finished(sq, i, event);
    forall s: nat | s < |lq| ensures Mentions(sq', |sq'|, s) + Count(sq[i].waiting, s) == Waits(lq[s]) {
      MentionsUpdate(sq, |sq|, i, sq'[i], s);
    }
  }

  // ---- do_memory_scheduling ----

  // The new instruction is in the buffer, none of its operations are in the queues.
  lemma Entered(rob: seq<Instr>, lq: seq<Option<Load>>, sq: seq<Store>, x: Instr)
    requires MemInv(rob, lq, sq) && Fresh(x) && forall k :: 0 <= k < |rob| ==> rob[k].id < x.id
    ensures MemState(rob + [x], lq, sq, [], 0, NumMem(x))
  {
    var to := rob + [x];
    assert LoadsOf(lq, |lq|, x.id) == 0 by {
      LoadsNone(lq, |lq|, x.id);
    }
    assert StoresOf(sq, |sq|, x.id) == 0 by {
      StoresNone(sq, |sq|, x.id);
    }
    hide LoadsOf, StoresOf, Linked, Has, StoreOrder;
    forall k | 0 <= k < |to|
      ensures to[k].done + LoadsOf(lq, |lq|, to[k].id) + StoresOf(sq, |sq|, to[k].id) + (if k == |to| - 1 then NumMem(x) else 0)
        == NumMem(to[k])
    {
      if k < |rob| { ConservedAt(rob, lq, sq, 0, k); }
    }
    forall id | Has(rob, id) ensures Has(to, id) { HasMore(rob, x, id); }
    OwnedKeeps(rob, to, lq, sq);
  }

  lemma HasMore(rob: seq<Instr>, x: Instr, id: nat)
    requires Has(rob, id)
    ensures Has(rob + [x], id)
  {
    var k :| 0 <= k < |rob| && rob[k].id == id;
    assert (rob + [x])[k].id == id;
  }

  // A load of the youngest instruction takes free slot s, and waits for store i if asked to.
  lemma LoadEntered(rob: seq<Instr>, lq: seq<Option<Load>>, sq: seq<Store>, pending: nat, s: nat, e: Load,
                    sq': seq<Store>, i: nat)
    requires MemState(rob, lq, sq, [], 0, pending) && pending > 0 && rob != [] && s < |lq| && lq[s].None?
    requires e.id == rob[|rob| - 1].id && !e.issued
    requires if e.producer.None? then sq' == sq
             else i < |sq| && !sq[i].issued && e.producer == Some(sq[i].id) && sq' == sq[i := sq[i].(waiting := sq[i].waiting + [s])]
    ensures MemState(rob, lq[s := Some(e)], sq', [], 0, pending - 1)
  {
    var lq' := lq[s := Some(e)];
    LinkedEntered(lq, sq, s, e, sq', i);
    OwnedEntered(rob, lq, sq, s, e, sq', i);
    assert StoreOrder(sq');
    hide Linked, Has, Owned, StoreOrder;
    forall k | 0 <= k < |rob|
      ensures rob[k].done + LoadsOf(lq', |lq'|, rob[k].id) + StoresOf(sq', |sq'|, rob[k].id)
        + (if k == |rob| - 1 then pending - 1 else 0)
        == NumMem(rob[k])
    {
      ConservedAt(rob, lq, sq, pending, k);
      LoadsUpdate(lq, |lq|, s, Some(e), rob[k].id);
      if e.producer.Some? { StoresUpdate(sq, |sq|, i, sq'[i], rob[k].id); }
      if k < |rob| - 1 { SameId(rob, k, |rob| - 1); }
    }
  }

  lemma OwnedEntered(rob: seq<Instr>, lq: seq<Option<Load>>, sq: seq<Store>, s: nat, e: Load, sq': seq<Store>, i: nat)
    requires Owned(rob, lq, sq) && rob != [] && s < |lq| && e.id == rob[|rob| - 1].id
    requires e.producer.None? ==> sq' == sq
    requires e.producer.Some? ==> i < |sq| && sq' == sq[i := sq[i].(waiting := sq[i].waiting + [s])]
    ensures Owned(rob, lq[s := Some(e)], sq')
  {
    assert Has(rob, e.id);
  }

  lemma LinkedEntered(lq: seq<Option<Load>>, sq: seq<Store>, s: nat, e: Load, sq': seq<Store>, i: nat)
    requires Linked(lq, sq, [], 0) && s < |lq| && lq[s].None? && !e.issued
    requires if e.producer.None? then sq' == sq
             else i < |sq| && !sq[i].issued && e.producer == Some(sq[i].id) && sq' == sq[i := sq[i].(waiting := sq[i].waiting + [s])]
    ensures Linked(lq[s := Some(e)], sq', [], 0)
  {
    var lq' := lq[s := Some(e)];
    forall t: nat | t < |lq| ensures Mentions(sq', |sq'|, t) == Waits(lq'[t]) {
      assert Mentions(sq, |sq|, t) + Count([], t) == Waits(lq[t]);
      if e.producer.Some? {
        MentionsUpdate(sq, |sq|, i, sq'[i], t);
        CountOne(sq[i].waiting, s, t);
      }
    }
    hide Mentions;
    forall k, j | 0 <= k < |sq'| && !sq'[k].issued && 0 <= j < |sq'[k].waiting|
      ensures WaitsFor(lq', sq'[k].waiting[j], sq'[k].id) {
      if j < |sq[k].waiting| { assert WaitsFor(lq, sq[k].waiting[j], sq[k].id); }
    }
  }

  // The load takes its value from a finished store at once.
  lemma LoadForwarded(rob: seq<Instr>, lq: seq<Option<Load>>, sq: seq<Store>, pending: nat)
    requires MemState(rob, lq, sq, [], 0, pending) && pending > 0 && rob != []
    ensures rob[|rob| - 1].done < NumMem(rob[|rob| - 1])
    ensures MemState(Counted(rob, |rob| - 1), lq, sq, [], 0, pending - 1)
  {
    var k := |rob| - 1;
    ConservedAt(rob, lq, sq, pending, k);
    hide LoadsOf, StoresOf, Linked, Has, Owned, StoreOrder;
    CountedKeeps(rob, k);
    CountedConserved(rob, lq, sq, pending, k, lq, sq, pending - 1);
    OwnedKeeps(rob, Counted(rob, k), lq, sq);
  }

  // A store of the youngest instruction is queued.
  lemma StoreEntered(rob: seq<Instr>, lq: seq<Option<Load>>, sq: seq<Store>, pending: nat, va: nat)
    requires MemState(rob, lq, sq, [], 0, pending) && pending > 0 && rob != []
    requires forall i :: 0 <= i < |sq| ==> sq[i].id <= rob[|rob| - 1].id
    ensures MemState(rob, lq, sq + [Store(rob[|rob| - 1].id, va, 0, false, [])], [], 0, pending - 1)
  {
    var e := Store(rob[|rob| - 1].id, va, 0, false, []);
    var sq' := sq + [e];
    forall k | 0 <= k < |rob|
      ensures rob[k].done + LoadsOf(lq, |lq|, rob[k].id) + StoresOf(sq', |sq'|, rob[k].id) + (if k == |rob| - 1 then pending - 1 else 0)
        == NumMem(rob[k])
    {
      ConservedAt(rob, lq, sq, pending, k);
      StoresPrefix(sq, e, |sq|, rob[k].id);
      if k < |rob| - 1 { SameId(rob, k, |rob| - 1); }
    }
    assert Has(rob, e.id);
    assert Owned(rob, lq, sq');
    assert StoreOrder(sq');
    assert Linked(lq, sq', [], 0) by {
      forall s: nat | s < |lq|
        ensures Mentions(sq', |sq'|, s) + Count([], s) == Waits(lq[s])
      {
        MentionsPrefix(sq, e, |sq|, s);
      }
    }
  }

  lemma {:induction false} StoresPrefix(sq: seq<Store>, e: Store, n: nat, id: nat)
    requires n <= |sq|
    ensures StoresOf(sq + [e], n, id) == StoresOf(sq, n, id)
  {
    if n > 0 { StoresPrefix(sq, e, n - 1, id); }
  }

  lemma {:induction false} MentionsPrefix(sq: seq<Store>, e: Store, n: nat, s: nat)
    requires n <= |sq|
    ensures Mentions(sq + [e], n, s) == Mentions(sq, n, s)
  {
    if n > 0 { MentionsPrefix(sq, e, n - 1, s); }
  }

  // ---- Leaving the queues and the buffer ----

  // A finished store at the head leaves the queue.
  lemma StoreLeft(rob: seq<Instr>, lq: seq<Option<Load>>, sq: seq<Store>)
    requires MemInv(rob, lq, sq) && sq != [] && sq[0].issued
    ensures MemInv(rob, lq, sq[1..])
  {
    var sq' := sq[1..];
    forall k | 0 <= k < |rob|
      ensures rob[k].done + LoadsOf(lq, |lq|, rob[k].id) + StoresOf(sq', |sq'|, rob[k].id) + (if k == |rob| - 1 then 0 else 0)
        == NumMem(rob[k])
    {
      ConservedAt(rob, lq, sq, 0, k);
      StoresDrop(sq, |sq|, rob[k].id);
    }
    assert Linked(lq, sq', [], 0) by {
      forall s: nat | s < |lq|
        ensures Mentions(sq', |sq'|, s) + Count([], s) == Waits(lq[s])
      {
        MentionsDrop(sq, |sq|, s);
      }
    }
  }

  lemma {:induction false} StoresDrop(sq: seq<Store>, n: nat, id: nat)
    requires 0 < n <= |sq| && sq[0].issued
    ensures StoresOf(sq[1..], n - 1, id) == StoresOf(sq, n, id)
  {
    if n > 1 { StoresDrop(sq, n - 1, id); }
  }

  lemma {:induction false} MentionsDrop(sq: seq<Store>, n: nat, s: nat)
    requires 0 < n <= |sq| && sq[0].issued
    ensures Mentions(sq[1..], n - 1, s) == Mentions(sq, n, s)
  {
    if n > 1 { MentionsDrop(sq, n - 1, s); }
  }

  // A store older than the whole buffer has finished.
  lemma OldStoreFinished(rob: seq<Instr>, lq: seq<Option<Load>>, sq: seq<Store>, i: nat)
    requires MemInv(rob, lq, sq) && i < |sq| && (rob != [] ==> sq[i].id < rob[0].id)
    ensures sq[i].issued
  {
    assert forall k :: 0 < k < |rob| ==> rob[0].id < rob[k].id;
  }

  // A completed instruction has nothing left in the queues, so it may retire.
  lemma InstrRetired(rob: seq<Instr>, lq: seq<Option<Load>>, sq: seq<Store>)
    requires MemInv(rob, lq, sq) && rob != [] && rob[0].executed == Completed
    ensures MemInv(rob[1..], lq, sq)
  {
    var to := rob[1..];
    ConservedAt(rob, lq, sq, 0, 0);
    LoadsNone(lq, |lq|, rob[0].id);
    StoresNone(sq, |sq|, rob[0].id);
    hide Linked, StoreOrder;
    forall k | 0 <= k < |to|
      ensures to[k].done + LoadsOf(lq, |lq|, to[k].id) + StoresOf(sq, |sq|, to[k].id) + (if k == |to| - 1 then 0 else 0) == NumMem(to[k])
    {
      ConservedAt(rob, lq, sq, 0, k + 1);
    }
    forall s | 0 <= s < |lq| && lq[s].Some? ensures Has(to, lq[s].value.id) { HasLess(rob, lq[s].value.id); }
    forall i | 0 <= i < |sq| && !sq[i].issued ensures Has(to, sq[i].id) { HasLess(rob, sq[i].id); }
  }

  lemma HasLess(rob: seq<Instr>, id: nat)
    requires rob != [] && Has(rob, id) && id != rob[0].id
    ensures Has(rob[1..], id)
  {
    var k :| 0 <= k < |rob| && rob[k].id == id;
    assert rob[1..][k - 1].id == id;
  }

  // ---- Timing and issue ----

  ghost predicate SameLoads(lq: seq<Option<Load>>, to: seq<Option<Load>>) {
    && |lq| == |to|
    && forall s :: 0 <= s < |lq| ==> SameLoad(lq[s], to[s])
  }

  ghost predicate SameLoad(e: Option<Load>, to: Option<Load>) {
    && (e.Some? <==> to.Some?)
    && (e.Some? ==>
      && e.value.id == to.value.id && e.value.producer == to.value.producer
      && (if e.value.producer.Some? then e.value.issued == to.value.issued else true))
  }

  ghost predicate SameStores(sq: seq<Store>, to: seq<Store>) {
    |sq| == |to| && forall i :: 0 <= i < |sq| ==> sq[i].id == to[i].id && sq[i].issued == to[i].issued && sq[i].waiting == to[i].waiting
  }

  lemma {:induction false} SameCounts(lq: seq<Option<Load>>, to: seq<Option<Load>>, n: nat, id: nat)
    requires SameLoads(lq, to) && n <= |lq|
    ensures LoadsOf(lq, n, id) == LoadsOf(to, n, id)
  {
    if n > 0 { SameCounts(lq, to, n - 1, id); }
  }

  lemma {:induction false} SameStoreCounts(sq: seq<Store>, to: seq<Store>, n: nat, x: nat)
    requires SameStores(sq, to) && n <= |sq|
    ensures StoresOf(sq, n, x) == StoresOf(to, n, x) && Mentions(sq, n, x) == Mentions(to, n, x)
  {
    if n > 0 { SameStoreCounts(sq, to, n - 1, x); }
  }

  // Times may change, and loads that wait for nobody may be issued.
  lemma QueueFrame(rob: seq<Instr>, lq: seq<Option<Load>>, sq: seq<Store>, lq': seq<Option<Load>>, sq': seq<Store>)
    requires MemInv(rob, lq, sq) && SameLoads(lq, lq') && SameStores(sq, sq')
    ensures MemInv(rob, lq', sq')
  {
    forall k | 0 <= k < |rob|
      ensures rob[k].done + LoadsOf(lq', |lq'|, rob[k].id) + StoresOf(sq', |sq'|, rob[k].id)
        + (if k == |rob| - 1 then 0 else 0)
        == NumMem(rob[k])
    {
      ConservedAt(rob, lq, sq, 0, k);
      SameCounts(lq, lq', |lq|, rob[k].id);
      SameStoreCounts(sq, sq', |sq|, rob[k].id);
    }
    hide LoadsOf, StoresOf, Conserved;
    assert Linked(lq', sq', [], 0) by {
      forall s: nat | s < |lq|
        ensures Mentions(sq', |sq'|, s) + Count([], s) == Waits(lq'[s])
      {
        SameStoreCounts(sq, sq', |sq|, s);
      }
      forall i, j | 0 <= i < |sq'| && !sq'[i].issued && 0 <= j < |sq'[i].waiting|
        ensures WaitsFor(lq', sq'[i].waiting[j], sq'[i].id) {
        assert WaitsFor(lq, sq[i].waiting[j], sq[i].id);
      }
    }
  }
}
