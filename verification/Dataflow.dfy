/**
 The reorder buffer of ChampSim/src/ooo_cpu.cc and the register dependencies kept in it.
 Instructions refer to each other by instr_id. `producers` holds, for each register, the
 scheduled instructions that are still to write it.
 */
module Dataflow {

  // The field `executed`: 0, INFLIGHT or COMPLETED.
  datatype Status = Waiting | Inflight | Completed

  datatype Instr = Instr(
    id: nat,
    event: nat,              // event_cycle
    scheduled: bool,
    executed: Status,
    done: nat,               // completed_mem_ops
    blocked: int,            // num_reg_dependent
    dst: seq<nat>,
    src: seq<nat>,
    stores: seq<nat>,        // destination_memory
    loads: seq<nat>,         // source_memory
    dependents: seq<nat>     // registers_instrs_depend_on_me
  )

  const Registers: nat := 256

  ghost predicate InOrder(rob: seq<Instr>) {
    forall i, j :: 0 <= i < j < |rob| ==> rob[i].id < rob[j].id
  }

  ghost predicate Rising(s: seq<nat>) {
    forall i, j :: 0 <= i < j < |s| ==> s[i] < s[j]
  }

  ghost predicate Uses(s: seq<nat>) {
    forall i :: 0 <= i < |s| ==> s[i] < Registers
  }

  function Count(s: seq<nat>, r: nat): nat {
    if s == [] then 0 else Count(s[..|s| - 1], r) + if s[|s| - 1] == r then 1 else 0
  }

  ghost function Copies(id: nat, n: nat): seq<nat> {
    if n == 0 then [] else Copies(id, n - 1) + [id]
  }

  // Who of the first n instructions is still to write register r, once for every mention of r.
  ghost function Writers(rob: seq<Instr>, n: nat, r: nat): seq<nat>
    requires n <= |rob|
  {
    if n == 0 then [] else
      Writers(rob, n - 1, r)
      + if rob[n - 1].executed == Completed then [] else Copies(rob[n - 1].id, Count(rob[n - 1].dst, r))
  }

  // How many of the first n instructions are uncompleted and list `id` as a dependent.
  ghost function Listing(rob: seq<Instr>, n: nat, id: nat): nat
    requires n <= |rob|
  {
    if n == 0 then 0 else
      Listing(rob, n - 1, id) + if rob[n - 1].executed != Completed && id in rob[n - 1].dependents then 1 else 0
  }

  // Of the first n instructions, those that have not started.
  ghost function Idle(rob: seq<Instr>, n: nat): set<nat>
    requires n <= |rob|
  {
    if n == 0 then {} else Idle(rob, n - 1) + if rob[n - 1].executed == Waiting then {rob[n - 1].id} else {}
  }

  // The latest instruction before place k that writes register r, or -1.
  ghost function Latest(rob: seq<Instr>, k: nat, r: nat): (j: int)
    requires k <= |rob|
    ensures -1 <= j < k
  {
    if k == 0 then -1 else if r in rob[k - 1].dst then k - 1 else Latest(rob, k - 1, r)
  }

  // Instruction k waits for its latest older producer of r, unless that has completed.
  ghost predicate SourceOk(rob: seq<Instr>, k: nat, r: nat)
    requires k < |rob|
  {
    var j := Latest(rob, k, r);
    j >= 0 ==> rob[j].executed == Completed || rob[k].id in rob[j].dependents
  }

  ghost predicate SourcesOk(rob: seq<Instr>, k: nat, i: nat)
    requires k < |rob|
  {
    i <= |rob[k].src| && forall s :: 0 <= s < i ==> SourceOk(rob, k, rob[k].src[s])
  }

  // Dependents are listed once each, in order, and have not started.
  ghost predicate DependentsOk(x: Instr, idle: set<nat>) {
    && Rising(x.dependents)
    && forall i :: 0 <= i < |x.dependents| ==> x.id < x.dependents[i] && x.dependents[i] in idle
  }

  // The buffer while n instructions are scheduled, the dependents are among the first `lim`,
  // and the instructions in `owed` are still to be told that a producer has completed.
  ghost predicate Owing(rob: seq<Instr>, n: nat, lim: nat, owed: seq<nat>) {
    && n <= lim <= |rob| && InOrder(rob)
    && (forall k :: 0 <= k < |rob| ==> Uses(rob[k].dst) && Uses(rob[k].src) && (rob[k].scheduled <==> k < n))
    && (forall k :: n <= k < |rob| ==> rob[k].executed == Waiting && rob[k].dependents == [])
    && AllDependents(rob, lim) && AllBlocked(rob, owed)
  }

  ghost predicate AllDependents(rob: seq<Instr>, lim: nat)
    requires lim <= |rob|
  {
    forall k :: 0 <= k < |rob| && rob[k].executed != Completed ==> DependentsOk(rob[k], Idle(rob, lim))
  }

  ghost predicate AllBlocked(rob: seq<Instr>, owed: seq<nat>) {
    forall k :: 0 <= k < |rob| ==> rob[k].blocked == Listing(rob, |rob|, rob[k].id) + if rob[k].id in owed then 1 else 0
  }

  ghost predicate Window(rob: seq<Instr>, n: nat, lim: nat) {
    Owing(rob, n, lim, [])
  }

  ghost predicate Produced(rob: seq<Instr>, n: nat, producers: seq<seq<nat>>) {
    n <= |rob| && |producers| == Registers && forall r :: 0 <= r < Registers ==> producers[r] == Writers(rob, n, r)
  }

  ghost predicate Sourced(rob: seq<Instr>, n: nat) {
    n <= |rob| && forall k :: 0 <= k < n ==> SourcesOk(rob, k, |rob[k].src|)
  }

  // The invariant between steps: n instructions are scheduled.
  ghost predicate RegInv(rob: seq<Instr>, n: nat, producers: seq<seq<nat>>) {
    Window(rob, n, n) && Produced(rob, n, producers) && Sourced(rob, n)
  }

  // ---- What the invariant is for ----

  lemma {:induction false} NotListed(rob: seq<Instr>, n: nat, id: nat)
    requires n <= |rob|
    ensures Listing(rob, n, id) == 0 <==> forall p :: 0 <= p < n && rob[p].executed != Completed ==>
      id !in rob[p].dependents
  {
    if n > 0 { NotListed(rob, n - 1, id); }
  }

  // An instruction that is not blocked has every source's latest older producer completed.
  lemma StartsAfterProducers(rob: seq<Instr>, n: nat, producers: seq<seq<nat>>, k: nat, s: nat)
    requires RegInv(rob, n, producers) && k < n && rob[k].blocked == 0 && s < |rob[k].src|
    ensures var j := Latest(rob, k, rob[k].src[s]); j >= 0 ==> rob[j].executed == Completed
  {
    NotListed(rob, |rob|, rob[k].id);
    assert SourcesOk(rob, k, |rob[k].src|);
    assert SourceOk(rob, k, rob[k].src[s]);
  }

  // The oldest uncompleted instruction is never blocked on a register.
  lemma OldestNotBlocked(rob: seq<Instr>, n: nat, producers: seq<seq<nat>>, k: nat)
    requires RegInv(rob, n, producers) && k < |rob| && forall i :: 0 <= i < k ==> rob[i].executed == Completed
    ensures rob[k].blocked == 0
  {
    forall p | 0 <= p < |rob| && rob[p].executed != Completed ensures rob[k].id !in rob[p].dependents {
      assert DependentsOk(rob[p], Idle(rob, n));
      if p > k { assert rob[k].id < rob[p].id; }
    }
    NotListed(rob, |rob|, rob[k].id);
  }

  // ---- Frames ----

  // The same instructions, with the same progress.
  ghost predicate SameShape(rob: seq<Instr>, to: seq<Instr>) {
    && |rob| == |to|
    && forall k :: 0 <= k < |rob| ==>
      rob[k].id == to[k].id && rob[k].dst == to[k].dst && rob[k].src == to[k].src && rob[k].executed == to[k].executed
  }

  ghost predicate SameDependents(rob: seq<Instr>, to: seq<Instr>) {
    |rob| == |to| && forall k :: 0 <= k < |rob| ==> rob[k].dependents == to[k].dependents && rob[k].blocked == to[k].blocked
  }

  lemma {:induction false} ShapeIdle(rob: seq<Instr>, to: seq<Instr>, n: nat)
    requires SameShape(rob, to) && n <= |rob|
    ensures Idle(rob, n) == Idle(to, n)
  {
    if n > 0 { ShapeIdle(rob, to, n - 1); }
  }

  lemma {:induction false} ShapeWriters(rob: seq<Instr>, to: seq<Instr>, n: nat, r: nat)
    requires SameShape(rob, to) && n <= |rob|
    ensures Writers(rob, n, r) == Writers(to, n, r)
  {
    if n > 0 { ShapeWriters(rob, to, n - 1, r); }
  }

  lemma {:induction false} ShapeLatest(rob: seq<Instr>, to: seq<Instr>, k: nat, r: nat)
    requires k <= |rob| && k <= |to| && forall i :: 0 <= i < k ==> rob[i].dst == to[i].dst
    ensures Latest(rob, k, r) == Latest(to, k, r)
  {
    if k > 0 { ShapeLatest(rob, to, k - 1, r); }
  }

  lemma {:induction false} SameListing(rob: seq<Instr>, to: seq<Instr>, n: nat, id: nat)
    requires n <= |rob| && n <= |to|
    requires forall k :: 0 <= k < n ==> rob[k].executed == to[k].executed && rob[k].dependents == to[k].dependents
    ensures Listing(rob, n, id) == Listing(to, n, id)
  {
    if n > 0 { SameListing(rob, to, n - 1, id); }
  }

  lemma {:induction false} IdleIds(rob: seq<Instr>, n: nat)
    requires n <= |rob| && InOrder(rob)
    ensures forall k :: 0 <= k < n && rob[k].executed == Waiting ==> rob[k].id in Idle(rob, n)
    ensures forall c <- Idle(rob, n) :: n > 0 && c <= rob[n - 1].id
    ensures forall k :: 0 <= k < |rob| && rob[k].id in Idle(rob, n) ==> k < n && rob[k].executed == Waiting
  {
    if n > 0 { IdleIds(rob, n - 1); }
  }

  lemma SourcesKept(rob: seq<Instr>, to: seq<Instr>, k: nat, i: nat)
    requires SameShape(rob, to) && k < |rob| && SourcesOk(rob, k, i)
    requires forall j :: 0 <= j < k ==> forall c <- rob[j].dependents :: c in to[j].dependents
    ensures SourcesOk(to, k, i)
  {
    forall s | 0 <= s < i ensures SourceOk(to, k, to[k].src[s]) {
      assert SourceOk(rob, k, rob[k].src[s]);
      ShapeLatest(rob, to, k, rob[k].src[s]);
    }
  }

  // What the register side does not read may change.
  lemma RegFrame(rob: seq<Instr>, n: nat, producers: seq<seq<nat>>, to: seq<Instr>)
    requires RegInv(rob, n, producers) && SameShape(rob, to) && SameDependents(rob, to)
    requires forall k :: 0 <= k < |rob| ==> rob[k].scheduled == to[k].scheduled
    ensures RegInv(to, n, producers)
  {
    WindowFrame(rob, n, n, to);
    forall r | 0 <= r < Registers ensures producers[r] == Writers(to, n, r) { ShapeWriters(rob, to, n, r); }
    forall k | 0 <= k < n ensures SourcesOk(to, k, |to[k].src|) { SourcesKept(rob, to, k, |rob[k].src|); }
  }

  lemma WindowFrame(rob: seq<Instr>, n: nat, lim: nat, to: seq<Instr>)
    requires Window(rob, n, lim) && SameShape(rob, to) && SameDependents(rob, to)
    requires forall k :: 0 <= k < |rob| ==> rob[k].scheduled == to[k].scheduled
    ensures Window(to, n, lim)
  {
    ShapeIdle(rob, to, lim);
    forall k | 0 <= k < |rob| ensures to[k].blocked == Listing(to, |to|, to[k].id) {
      SameListing(rob, to, |rob|, rob[k].id);
    }
    forall k | 0 <= k < |rob| && to[k].executed != Completed ensures DependentsOk(to[k], Idle(to, lim)) {
      assert DependentsOk(rob[k], Idle(rob, lim));
    }
  }

  // ---- do_scheduling ----

  // Instruction n is next: it may be listed.
  lemma Opened(rob: seq<Instr>, n: nat)
    requires Window(rob, n, n) && n < |rob|
    ensures Window(rob, n, n + 1) && rob[n].blocked == 0
  {
    forall p | 0 <= p < |rob| && rob[p].executed != Completed ensures rob[n].id !in rob[p].dependents {
      assert DependentsOk(rob[p], Idle(rob, n));
      IdleIds(rob, n);
    }
    NotListed(rob, |rob|, rob[n].id);
    forall k | 0 <= k < |rob| && rob[k].executed != Completed ensures DependentsOk(rob[k], Idle(rob, n + 1)) {
      assert DependentsOk(rob[k], Idle(rob, n));
    }
  }

  // Instruction n becomes a dependent of instruction p.
  ghost function Depending(rob: seq<Instr>, p: nat, n: nat): seq<Instr>
    requires p < |rob| && n < |rob|
  {
    rob[p := rob[p].(dependents := rob[p].dependents + [rob[n].id])][n := rob[n].(blocked := rob[n].blocked + 1)]
  }

  lemma {:induction false} ListingDepending(rob: seq<Instr>, p: nat, n: nat, m: nat, id: nat)
    requires p < n < |rob| && m <= |rob| && rob[p].executed != Completed && rob[n].id !in rob[p].dependents
    ensures Listing(Depending(rob, p, n), m, id) == Listing(rob, m, id) + if p < m && id == rob[n].id then 1 else 0
  {
    if m > 0 {
      ListingDepending(rob, p, n, m - 1, id);
      var to := Depending(rob, p, n);
      if m - 1 != p { assert to[m - 1].dependents == rob[m - 1].dependents; }
    }
  }

  // The last dependent is the largest, so comparing with it tells whether n is listed.
  lemma NewDependent(rob: seq<Instr>, n: nat, p: nat)
    requires Window(rob, n, n + 1) && p < n < |rob| && rob[p].executed != Completed
    ensures rob[n].id in rob[p].dependents <==>
      rob[p].dependents != [] && rob[p].dependents[|rob[p].dependents| - 1] == rob[n].id
    ensures rob[n].id !in rob[p].dependents ==>
      DependentsOk(rob[p].(dependents := rob[p].dependents + [rob[n].id]), Idle(rob, n + 1))
  {
    var d := rob[p].dependents;
    assert DependentsOk(rob[p], Idle(rob, n + 1));
    IdleIds(rob, n + 1);
    if rob[n].id in d {
      var i :| 0 <= i < |d| && d[i] == rob[n].id;
      assert d[|d| - 1] in Idle(rob, n + 1);
      assert d[i] <= d[|d| - 1];
    } else {
      forall i | 0 <= i < |d| ensures d[i] < rob[n].id { assert d[i] in Idle(rob, n + 1); }
    }
  }

  lemma Depended(rob: seq<Instr>, n: nat, p: nat)
    requires Window(rob, n, n + 1) && p < n < |rob| && rob[p].executed != Completed && rob[n].id !in rob[p].dependents
    ensures Window(Depending(rob, p, n), n, n + 1) && SameShape(rob, Depending(rob, p, n))
  {
    var to := Depending(rob, p, n);
    DependedBlocked(rob, n, p);
    DependedLists(rob, n, p);
    SameOrder(rob, to);
    hide AllDependents, AllBlocked, InOrder, Uses;
  }

  lemma DependedBlocked(rob: seq<Instr>, n: nat, p: nat)
    requires AllBlocked(rob, []) && InOrder(rob) && p < n < |rob| && rob[p].executed != Completed
    requires rob[n].id !in rob[p].dependents
    ensures AllBlocked(Depending(rob, p, n), [])
  {
    var to := Depending(rob, p, n);
    hide Listing, InOrder;
    forall k | 0 <= k < |rob| ensures to[k].blocked == Listing(to, |to|, to[k].id) {
      ListingDepending(rob, p, n, |rob|, rob[k].id);
      if k != n { SameId(rob, k, n); }
    }
  }

  lemma DependedLists(rob: seq<Instr>, n: nat, p: nat)
    requires Window(rob, n, n + 1) && p < n < |rob| && rob[p].executed != Completed && rob[n].id !in rob[p].dependents
    ensures AllDependents(Depending(rob, p, n), n + 1)
  {
    var to := Depending(rob, p, n);
    NewDependent(rob, n, p);
    ShapeIdle(rob, to, n + 1);
    hide Idle, Rising, Uses, InOrder, AllBlocked;
    forall k | 0 <= k < |rob| && to[k].executed != Completed ensures DependentsOk(to[k], Idle(to, n + 1)) {
      assert DependentsOk(rob[k], Idle(rob, n + 1));
    }
  }

  lemma SameOrder(rob: seq<Instr>, to: seq<Instr>)
    requires InOrder(rob) && SameShape(rob, to)
    ensures InOrder(to)
  {
  }

  lemma SameId(rob: seq<Instr>, i: nat, j: nat)
    requires InOrder(rob) && i < |rob| && j < |rob| && i != j
    ensures rob[i].id != rob[j].id
  {
  }

  // The last of a register's producers is its latest, if that has not completed.
  lemma {:induction false} LastWriter(rob: seq<Instr>, n: nat, r: nat)
    requires n <= |rob|
    ensures var w := Writers(rob, n, r); var j := Latest(rob, n, r);
      && (j >= 0 && rob[j].executed != Completed ==> w != [] && w[|w| - 1] == rob[j].id)
      && (w != [] ==> exists p :: 0 <= p < n && rob[p].id == w[|w| - 1] && rob[p].executed != Completed && r in rob[p].dst)
  {
    if n > 0 {
      LastWriter(rob, n - 1, r);
      CountIn(rob[n - 1].dst, r);
      LastCopy(rob[n - 1].id, Count(rob[n - 1].dst, r));
    }
  }

  lemma {:induction false} CountIn(s: seq<nat>, r: nat)
    ensures Count(s, r) == 0 <==> r !in s
  {
    if s != [] {
      CountIn(s[..|s| - 1], r);
      assert s == s[..|s| - 1] + [s[|s| - 1]];
    }
  }

  lemma LastCopy(id: nat, n: nat)
    ensures |Copies(id, n)| == n
    ensures n > 0 ==> Copies(id, n)[|Copies(id, n)| - 1] == id
  {
  }

  // ---- reg_producers ----

  // std::partition_point and std::lower_bound over a range in order.
  function Position(rob: seq<Instr>, id: nat): (k: nat)
    ensures k <= |rob| && (forall i :: 0 <= i < k ==> rob[i].id < id) && (k < |rob| ==> rob[k].id >= id)
  {
    if rob == [] then 0 else
      var k := Position(rob[..|rob| - 1], id);
      if k < |rob| - 1 || rob[k].id >= id then k else |rob|
  }

  function LowerBound(s: seq<nat>, id: nat): (k: nat)
    ensures k <= |s| && (k > 0 ==> s[k - 1] < id) && forall i :: k <= i < |s| ==> s[i] >= id
  {
    if s == [] || s[|s| - 1] < id then |s| else LowerBound(s[..|s| - 1], id)
  }

  function FirstOf(s: seq<nat>, id: nat): (k: nat)
    ensures k <= |s| && (k < |s| ==> s[k] == id) && forall i :: 0 <= i < k ==> s[i] != id
  {
    if s == [] || s[0] == id then 0 else 1 + FirstOf(s[1..], id)
  }

  function Added(s: seq<nat>, id: nat): seq<nat> {
    var k := LowerBound(s, id);
    s[..k] + [id] + s[k..]
  }

  function Removed(s: seq<nat>, id: nat): seq<nat> {
    var k := FirstOf(s, id);
    if k < |s| then s[..k] + s[k + 1..] else s
  }

  // As Writers, but instruction k is mentioned c times.
  ghost function WritersWith(rob: seq<Instr>, n: nat, r: nat, k: nat, c: nat): seq<nat>
    requires n <= |rob|
  {
    if n == 0 then [] else
      WritersWith(rob, n - 1, r, k, c)
      + if n - 1 == k then Copies(rob[k].id, c)
        else if rob[n - 1].executed == Completed then []
        else Copies(rob[n - 1].id, Count(rob[n - 1].dst, r))
  }

  lemma {:induction false} WithIsWriters(rob: seq<Instr>, to: seq<Instr>, n: nat, r: nat, k: nat, c: nat)
    requires n <= |rob| && n <= |to| && k < |rob| && k < |to|
    requires forall i :: 0 <= i < n ==>
      rob[i].id == to[i].id && rob[i].dst == to[i].dst && (i != k ==> rob[i].executed == to[i].executed)
    requires c == if rob[k].executed == Completed then 0 else Count(rob[k].dst, r)
    ensures WritersWith(to, n, r, k, c) == Writers(rob, n, r)
  {
    if n > 0 { WithIsWriters(rob, to, n - 1, r, k, c); }
  }

  lemma {:induction false} CopiesAre(id: nat, c: nat)
    ensures |Copies(id, c)| == c && forall i :: 0 <= i < c ==> Copies(id, c)[i] == id
  {
    if c > 0 { CopiesAre(id, c - 1); }
  }

  ghost predicate AtMost(s: seq<nat>, id: nat) {
    forall i :: 0 <= i < |s| ==> s[i] <= id
  }

  lemma AtMostConcat(s: seq<nat>, t: seq<nat>, id: nat)
    requires AtMost(s, id) && AtMost(t, id)
    ensures AtMost(s + t, id)
  {
  }

  lemma {:induction false} WithIds(rob: seq<Instr>, n: nat, r: nat, k: nat, c: nat)
    requires n <= |rob| && InOrder(rob)
    ensures n > 0 ==> AtMost(WritersWith(rob, n, r, k, c), rob[n - 1].id)
  {
    if n > 0 {
      WithIds(rob, n - 1, r, k, c);
      CopiesAre(rob[n - 1].id, Count(rob[n - 1].dst, r));
      CopiesAre(rob[n - 1].id, c);
      var s := WritersWith(rob, n - 1, r, k, c);
      assert AtMost(s, rob[n - 1].id) by {
        if n > 1 { assert rob[n - 2].id < rob[n - 1].id; }
      }
      AtMostConcat(s, WritersWith(rob, n, r, k, c)[|s|..], rob[n - 1].id);
    }
  }

  // The first n instructions do not mention instruction n.
  lemma WithBelow(rob: seq<Instr>, n: nat, r: nat, k: nat, c: nat)
    requires n < |rob| && InOrder(rob)
    ensures forall i :: 0 <= i < |WritersWith(rob, n, r, k, c)| ==> WritersWith(rob, n, r, k, c)[i] < rob[n].id
  {
    WithIds(rob, n, r, k, c);
    if n > 0 { assert rob[n - 1].id < rob[n].id; }
  }

  lemma AddedLast(w: seq<nat>, id: nat, c: nat)
    requires forall i :: 0 <= i < |w| ==> w[i] < id
    ensures Added(w + Copies(id, c), id) == w + Copies(id, c + 1)
  {
    CopiesAre(id, c);
    CopiesAre(id, c + 1);
    var s := w + Copies(id, c);
    var k := LowerBound(s, id);
    assert forall i :: 0 <= i < |w| ==> s[i] < id;
    assert forall i :: |w| <= i < |s| ==> s[i] == id;
    assert k < |s| ==> s[k] >= id;
    assert k == |w|;
  }

  // The youngest instruction enters a register's list.
  lemma WriterAdded(rob: seq<Instr>, n: nat, r: nat, c: nat)
    requires n < |rob| && InOrder(rob)
    ensures Added(WritersWith(rob, n + 1, r, n, c), rob[n].id) == WritersWith(rob, n + 1, r, n, c + 1)
  {
    var w := WritersWith(rob, n, r, n, c);
    WithBelow(rob, n, r, n, c);
    WithOther(rob, n, r, n, c, c + 1);
    AddedLast(w, rob[n].id, c);
  }

  lemma {:induction false} WithOther(rob: seq<Instr>, n: nat, r: nat, k: nat, c: nat, d: nat)
    requires n <= |rob| && n <= k
    ensures WritersWith(rob, n, r, k, c) == WritersWith(rob, n, r, k, d)
  {
    if n > 0 { WithOther(rob, n - 1, r, k, c, d); }
  }

  lemma FirstIs(s: seq<nat>, id: nat, k: nat)
    requires k < |s| && s[k] == id && forall i :: 0 <= i < k ==> s[i] != id
    ensures FirstOf(s, id) == k
  {
  }

  lemma CutConcat(p: seq<nat>, q: seq<nat>, k: nat)
    requires k < |p|
    ensures (p + q)[..k] + (p + q)[k + 1..] == p[..k] + p[k + 1..] + q
  {
    assert (p + q)[..k] == p[..k];
    assert (p + q)[k + 1..] == p[k + 1..] + q;
  }

  lemma FirstConcat(p: seq<nat>, q: seq<nat>, id: nat)
    requires id in p
    ensures FirstOf(p, id) < |p| && FirstOf(p + q, id) == FirstOf(p, id) && id in p + q
  {
    var i :| 0 <= i < |p| && p[i] == id;
    FirstIs(p + q, id, FirstOf(p, id));
  }

  lemma RemovedLeft(p: seq<nat>, q: seq<nat>, id: nat)
    requires id in p
    ensures id in p + q && Removed(p + q, id) == Removed(p, id) + q
  {
    hide FirstOf;
    FirstConcat(p, q, id);
    var k := FirstOf(p, id);
    CutConcat(p, q, k);
    assert Removed(p, id) == p[..k] + p[k + 1..];
    assert Removed(p + q, id) == (p + q)[..k] + (p + q)[k + 1..];
  }

  lemma RemovedRight(p: seq<nat>, id: nat, c: nat)
    requires id !in p && c > 0
    ensures id in p + Copies(id, c) && Removed(p + Copies(id, c), id) == p + Copies(id, c - 1)
  {
    CopiesAre(id, c);
    CopiesAre(id, c - 1);
    var s := p + Copies(id, c);
    FirstIs(s, id, |p|);
  }

  // One mention of instruction k leaves a register's list.
  lemma {:induction false} WriterRemoved(rob: seq<Instr>, n: nat, r: nat, k: nat, c: nat)
    requires k < n <= |rob| && InOrder(rob) && c > 0
    ensures rob[k].id in WritersWith(rob, n, r, k, c)
    ensures Removed(WritersWith(rob, n, r, k, c), rob[k].id) == WritersWith(rob, n, r, k, c - 1)
  {
    hide Removed, InOrder, Copies, Count;
    var w := WritersWith(rob, n - 1, r, k, c);
    if n - 1 == k {
      WithBelow(rob, k, r, k, c);
      WithOther(rob, k, r, k, c, c - 1);
      RemovedRight(w, rob[k].id, c);
    } else {
      WriterRemoved(rob, n - 1, r, k, c);
      RemovedLeft(w, if rob[n - 1].executed == Completed then [] else Copies(rob[n - 1].id, Count(rob[n - 1].dst, r)),
          rob[k].id);
    }
  }

  // ---- The steps ----

  ghost predicate ProducedWith(rob: seq<Instr>, n: nat, k: nat, dst: seq<nat>, producers: seq<seq<nat>>) {
    n <= |rob| && |producers| == Registers
    && forall r :: 0 <= r < Registers ==> producers[r] == WritersWith(rob, n, r, k, Count(dst, r))
  }

  lemma ProducedFrame(rob: seq<Instr>, to: seq<Instr>, n: nat, producers: seq<seq<nat>>)
    requires Produced(rob, n, producers) && SameShape(rob, to)
    ensures Produced(to, n, producers)
  {
    forall r | 0 <= r < Registers ensures producers[r] == Writers(to, n, r) { ShapeWriters(rob, to, n, r); }
  }

  // Instruction n is scheduled once its sources are marked and its destinations listed.
  lemma Scheduled(rob: seq<Instr>, n: nat, producers: seq<seq<nat>>, event: nat)
    requires n < |rob| && Window(rob, n, n + 1) && Sourced(rob, n) && SourcesOk(rob, n, |rob[n].src|)
    requires ProducedWith(rob, n + 1, n, rob[n].dst, producers)
    ensures RegInv(rob[n := rob[n].(scheduled := true, event := event)], n + 1, producers)
  {
    var to := rob[n := rob[n].(scheduled := true, event := event)];
    ShapeIdle(rob, to, n + 1);
    forall k | 0 <= k < |rob| ensures to[k].blocked == Listing(to, |to|, to[k].id) {
      SameListing(rob, to, |rob|, rob[k].id);
    }
    forall k | 0 <= k < |rob| && to[k].executed != Completed ensures DependentsOk(to[k], Idle(to, n + 1)) {
      assert DependentsOk(rob[k], Idle(rob, n + 1));
    }
    forall r | 0 <= r < Registers ensures producers[r] == Writers(to, n + 1, r) {
      WithIsWriters(to, rob, n + 1, r, n, Count(rob[n].dst, r));
    }
    forall k | 0 <= k < n + 1 ensures SourcesOk(to, k, |to[k].src|) {
      SourcesKept(rob, to, k, |rob[k].src|);
    }
  }

  lemma StartedWindow(rob: seq<Instr>, n: nat, k: nat, event: nat)
    requires Window(rob, n, n) && k < n && rob[k].executed == Waiting && rob[k].blocked == 0
    ensures Window(rob[k := rob[k].(executed := Inflight, event := event)], n, n)
  {
    var to := rob[k := rob[k].(executed := Inflight, event := event)];
    NotListed(rob, |rob|, rob[k].id);
    IdleStarted(rob, to, k, n);
    hide Idle, Listing;
    forall i | 0 <= i < |rob| ensures to[i].blocked == Listing(to, |to|, to[i].id) {
      StartedListing(rob, to, |rob|, rob[i].id);
    }
    forall i | 0 <= i < |rob| && to[i].executed != Completed ensures DependentsOk(to[i], Idle(to, n)) {
      assert DependentsOk(rob[i], Idle(rob, n));
    }
  }

  // Instruction k starts.
  lemma Started(rob: seq<Instr>, n: nat, producers: seq<seq<nat>>, k: nat, event: nat)
    requires RegInv(rob, n, producers) && k < n && rob[k].executed == Waiting && rob[k].blocked == 0
    ensures RegInv(rob[k := rob[k].(executed := Inflight, event := event)], n, producers)
  {
    var to := rob[k := rob[k].(executed := Inflight, event := event)];
    StartedWindow(rob, n, k, event);
    hide Window;
    forall r | 0 <= r < Registers ensures producers[r] == Writers(to, n, r) {
      StartedWriters(rob, to, n, r);
    }
    forall i | 0 <= i < n ensures SourcesOk(to, i, |to[i].src|) {
      assert SourcesOk(rob, i, |rob[i].src|);
      forall s | 0 <= s < |rob[i].src| ensures SourceOk(to, i, to[i].src[s]) {
        assert SourceOk(rob, i, rob[i].src[s]);
        ShapeLatest(rob, to, i, rob[i].src[s]);
      }
    }
  }

  ghost predicate SameCompletion(rob: seq<Instr>, to: seq<Instr>) {
    && |rob| == |to|
    && forall k :: 0 <= k < |rob| ==>
      rob[k].id == to[k].id && rob[k].dst == to[k].dst && rob[k].dependents == to[k].dependents
      && (rob[k].executed == Completed <==> to[k].executed == Completed)
  }

  lemma {:induction false} StartedListing(rob: seq<Instr>, to: seq<Instr>, n: nat, id: nat)
    requires SameCompletion(rob, to) && n <= |rob|
    ensures Listing(to, n, id) == Listing(rob, n, id)
  {
    if n > 0 { StartedListing(rob, to, n - 1, id); }
  }

  lemma {:induction false} StartedWriters(rob: seq<Instr>, to: seq<Instr>, n: nat, r: nat)
    requires SameCompletion(rob, to) && n <= |rob|
    ensures Writers(to, n, r) == Writers(rob, n, r)
  {
    if n > 0 { StartedWriters(rob, to, n - 1, r); }
  }

  lemma {:induction false} IdleStarted(rob: seq<Instr>, to: seq<Instr>, k: nat, n: nat)
    requires |rob| == |to| && k < |rob| && n <= |rob| && InOrder(rob)
    requires to == rob[k := rob[k].(executed := Inflight, event := to[k].event)]
    ensures Idle(to, n) == Idle(rob, n) - {rob[k].id}
  {
    if n > 0 {
      IdleStarted(rob, to, k, n - 1);
      if n - 1 < k { assert rob[n - 1].id < rob[k].id; } else if k < n - 1 { assert rob[k].id < rob[n - 1].id; }
    }
  }

  // ---- do_complete_execution ----

  ghost function Finished(rob: seq<Instr>, k: nat): seq<Instr>
    requires k < |rob|
  {
    rob[k := rob[k].(executed := Completed)]
  }

  lemma {:induction false} FinishedListing(rob: seq<Instr>, k: nat, n: nat, id: nat)
    requires k < |rob| && n <= |rob| && rob[k].executed != Completed
    ensures Listing(rob, n, id) == Listing(Finished(rob, k), n, id) + if k < n && id in rob[k].dependents then 1 else 0
  {
    if n > 0 { FinishedListing(rob, k, n - 1, id); }
  }

  lemma {:induction false} FinishedIdle(rob: seq<Instr>, k: nat, n: nat)
    requires k < |rob| && n <= |rob| && rob[k].executed == Inflight
    ensures Idle(Finished(rob, k), n) == Idle(rob, n)
  {
    if n > 0 { FinishedIdle(rob, k, n - 1); }
  }

  lemma FinishedOwing(rob: seq<Instr>, n: nat, k: nat)
    requires Window(rob, n, n) && k < n && rob[k].executed == Inflight
    ensures Owing(Finished(rob, k), n, n, rob[k].dependents)
  {
    var to := Finished(rob, k);
    FinishedIdle(rob, k, n);
    hide Idle, Listing;
    forall i | 0 <= i < |rob|
      ensures to[i].blocked == Listing(to, |to|, to[i].id) + if to[i].id in rob[k].dependents then 1 else 0
    {
      FinishedListing(rob, k, |rob|, rob[i].id);
    }
    forall i | 0 <= i < |rob| && to[i].executed != Completed ensures DependentsOk(to[i], Idle(to, n)) {
      assert DependentsOk(rob[i], Idle(rob, n));
    }
  }

  lemma FinishedSources(rob: seq<Instr>, n: nat, k: nat)
    requires Sourced(rob, n) && k < |rob|
    ensures Sourced(Finished(rob, k), n)
  {
    var to := Finished(rob, k);
    forall i | 0 <= i < n ensures SourcesOk(to, i, |to[i].src|) {
      assert SourcesOk(rob, i, |rob[i].src|);
      forall s | 0 <= s < |rob[i].src| ensures SourceOk(to, i, to[i].src[s]) {
        assert SourceOk(rob, i, rob[i].src[s]);
        ShapeLatest(rob, to, i, rob[i].src[s]);
      }
    }
  }

  // All mentions of instruction k have been erased from the lists.
  lemma FinishedProduced(rob: seq<Instr>, n: nat, k: nat, producers: seq<seq<nat>>)
    requires k < n <= |rob| && |producers| == Registers
    requires forall r :: 0 <= r < Registers ==> producers[r] == WritersWith(rob, n, r, k, 0)
    ensures Produced(Finished(rob, k), n, producers)
  {
    var to := Finished(rob, k);
    forall r | 0 <= r < Registers ensures producers[r] == Writers(to, n, r) {
      WithIsWriters(to, rob, n, r, k, 0);
    }
  }

  ghost function Told(rob: seq<Instr>, q: nat): seq<Instr>
    requires q < |rob|
  {
    rob[q := rob[q].(blocked := rob[q].blocked - 1, scheduled := if rob[q].blocked == 1 then true else rob[q].scheduled)]
  }

  lemma ToldBlocked(rob: seq<Instr>, owed: seq<nat>, q: nat, i: nat)
    requires InOrder(rob) && q < |rob| && i < |rob| && owed != [] && Rising(owed) && rob[q].id == owed[0]
    requires rob[i].blocked == Listing(rob, |rob|, rob[i].id) + if rob[i].id in owed then 1 else 0
    ensures Told(rob, q)[i].blocked == Listing(Told(rob, q), |rob|, rob[i].id) + if rob[i].id in owed[1..] then 1 else 0
  {
    SameListing(rob, Told(rob, q), |rob|, rob[i].id);
    hide Listing;
    assert owed[0] in owed && owed == [owed[0]] + owed[1..];
    if i != q { SameId(rob, i, q); }
  }

  // One dependent is told.
  lemma ToldOne(rob: seq<Instr>, n: nat, owed: seq<nat>, q: nat)
    requires Owing(rob, n, n, owed) && owed != [] && Rising(owed) && q < n && rob[q].id == owed[0]
    ensures rob[q].blocked >= 1 && Owing(Told(rob, q), n, n, owed[1..]) && SameShape(rob, Told(rob, q))
  {
    var to := Told(rob, q);
    assert owed[0] in owed;
    ShapeIdle(rob, to, n);
    SameOrder(rob, to);
    assert AllDependents(to, n) by {
      hide Idle, AllBlocked, InOrder;
      forall i | 0 <= i < |rob| && to[i].executed != Completed ensures DependentsOk(to[i], Idle(to, n)) {
        assert DependentsOk(rob[i], Idle(rob, n));
      }
    }
    hide Idle, Uses, Rising, AllDependents, InOrder;
    forall i | 0 <= i < |rob|
      ensures to[i].blocked == Listing(to, |to|, to[i].id) + if to[i].id in owed[1..] then 1 else 0
    {
      ToldBlocked(rob, owed, q, i);
    }
  }

  // Every id in Idle is found in the buffer.
  lemma {:induction false} IdleFound(rob: seq<Instr>, n: nat, c: nat)
    requires n <= |rob| && InOrder(rob) && c in Idle(rob, n)
    ensures Position(rob, c) < n && rob[Position(rob, c)].id == c && rob[Position(rob, c)].executed == Waiting
  {
    if rob[n - 1].executed == Waiting && c == rob[n - 1].id {
      Found(rob, n - 1);
    } else {
      IdleFound(rob, n - 1, c);
    }
  }

  lemma Found(rob: seq<Instr>, k: nat)
    requires InOrder(rob) && k < |rob|
    ensures Position(rob, rob[k].id) == k
  {
    var p := Position(rob, rob[k].id);
    assert p <= k;
    assert forall i :: 0 <= i < k ==> rob[i].id < rob[k].id;
  }

  // ---- retire and dispatch ----

  lemma {:induction false} RetiredListing(rob: seq<Instr>, n: nat, id: nat)
    requires 0 < n <= |rob| && rob[0].executed == Completed
    ensures Listing(rob[1..], n - 1, id) == Listing(rob, n, id)
  {
    if n > 1 { RetiredListing(rob, n - 1, id); }
  }

  lemma {:induction false} RetiredIdle(rob: seq<Instr>, n: nat)
    requires 0 < n <= |rob| && rob[0].executed == Completed
    ensures Idle(rob[1..], n - 1) == Idle(rob, n)
  {
    if n > 1 { RetiredIdle(rob, n - 1); }
  }

  lemma {:induction false} RetiredWriters(rob: seq<Instr>, n: nat, r: nat)
    requires 0 < n <= |rob| && rob[0].executed == Completed
    ensures Writers(rob[1..], n - 1, r) == Writers(rob, n, r)
  {
    if n > 1 { RetiredWriters(rob, n - 1, r); }
  }

  lemma {:induction false} RetiredLatest(rob: seq<Instr>, k: nat, r: nat)
    requires 0 < k <= |rob|
    ensures Latest(rob[1..], k - 1, r) == if Latest(rob, k, r) <= 0 then -1 else Latest(rob, k, r) - 1
  {
    if k > 1 { RetiredLatest(rob, k - 1, r); }
  }

  // The oldest instruction leaves the buffer.
  lemma Retired(rob: seq<Instr>, n: nat, producers: seq<seq<nat>>)
    requires RegInv(rob, n, producers) && rob != [] && rob[0].executed == Completed
    ensures n > 0 && RegInv(rob[1..], n - 1, producers)
  {
    assert n > 0;
    var to := rob[1..];
    RetiredWindow(rob, n);
    RetiredSources(rob, n);
    hide Window, Sourced;
    forall r | 0 <= r < Registers ensures producers[r] == Writers(to, n - 1, r) { RetiredWriters(rob, n, r); }
  }

  lemma RetiredSources(rob: seq<Instr>, n: nat)
    requires Sourced(rob, n) && n > 0
    ensures rob[0].executed == Completed ==> Sourced(rob[1..], n - 1)
  {
    var to := rob[1..];
    if rob[0].executed == Completed {
      forall k | 0 <= k < n - 1 ensures SourcesOk(to, k, |to[k].src|) {
        assert SourcesOk(rob, k + 1, |rob[k + 1].src|);
        forall s | 0 <= s < |to[k].src| ensures SourceOk(to, k, to[k].src[s]) {
          assert SourceOk(rob, k + 1, rob[k + 1].src[s]);
          RetiredLatest(rob, k + 1, rob[k + 1].src[s]);
        }
      }
    }
  }

  lemma RetiredWindow(rob: seq<Instr>, n: nat)
    requires Window(rob, n, n) && n > 0 && rob[0].executed == Completed
    ensures Window(rob[1..], n - 1, n - 1)
  {
    var to := rob[1..];
    RetiredIdle(rob, n);
    hide Idle, Listing;
    forall k | 0 <= k < |to| ensures to[k].blocked == Listing(to, |to|, to[k].id) {
      RetiredListing(rob, |rob|, rob[k + 1].id);
    }
    forall k | 0 <= k < |to| && to[k].executed != Completed ensures DependentsOk(to[k], Idle(to, n - 1)) {
      assert DependentsOk(rob[k + 1], Idle(rob, n));
    }
  }

  // A new instruction, as dispatch receives it.
  ghost predicate Fresh(x: Instr) {
    !x.scheduled && x.executed == Waiting && x.done == 0 && x.blocked == 0 && x.dependents == [] && Uses(x.dst) && Uses(x.src)
  }

  lemma {:induction false} PrefixSame(rob: seq<Instr>, x: Instr, n: nat)
    requires n <= |rob|
    ensures Idle(rob + [x], n) == Idle(rob, n)
    ensures forall r :: Writers(rob + [x], n, r) == Writers(rob, n, r)
    ensures forall id :: Listing(rob + [x], n, id) == Listing(rob, n, id)
  {
    if n > 0 { PrefixSame(rob, x, n - 1); }
  }

  lemma Dispatched(rob: seq<Instr>, n: nat, producers: seq<seq<nat>>, x: Instr)
    requires RegInv(rob, n, producers) && Fresh(x) && forall k :: 0 <= k < |rob| ==> rob[k].id < x.id
    ensures RegInv(rob + [x], n, producers)
  {
    var to := rob + [x];
    PrefixSame(rob, x, n);
    PrefixSame(rob, x, |rob|);
    IdleIds(rob, n);
    forall p | 0 <= p < |rob| && rob[p].executed != Completed ensures x.id !in rob[p].dependents {
      assert DependentsOk(rob[p], Idle(rob, n));
      if n > 0 { assert rob[n - 1].id < x.id; }
    }
    NotListed(rob, |rob|, x.id);
    hide Idle;
    forall k | 0 <= k < |to| ensures to[k].blocked == Listing(to, |to|, to[k].id) {}
    forall k | 0 <= k < |to| && to[k].executed != Completed ensures DependentsOk(to[k], Idle(to, n)) {
      if k < |rob| { assert DependentsOk(rob[k], Idle(rob, n)); }
    }
    forall k | 0 <= k < n ensures SourcesOk(to, k, |to[k].src|) {
      assert SourcesOk(rob, k, |rob[k].src|);
      forall s | 0 <= s < |to[k].src| ensures SourceOk(to, k, to[k].src[s]) {
        assert SourceOk(rob, k, rob[k].src[s]);
        ShapeLatest(rob, to, k, rob[k].src[s]);
      }
    }
  }
}
