/**
 The code of LogCode takes the steps of LogRuns: whatever calls are made, every point between
 two of its block writes is a state of a run. So the disk that a crash leaves behind stands
 for a prefix of the transactions that the code has committed.
 */
module LogSimulation {
  import opened LogCalls
  import opened LogDisk
  import opened LogCode
  import opened LogRuns

  // What has happened since the machine was switched on: the state now, and the one after each block write.
  datatype Trace = Trace(s: State, at: seq<State>)

  ghost predicate Reach(l: Layout, s: State, t: State) {
    exists acts :: Runs(l, s, acts, t)
  }

  lemma {:induction false} RunsSnoc(l: Layout, s: State, acts: seq<Action>, t: State, a: Action)
    requires Runs(l, s, acts, t) && Wf(l, t) && Enabled(l, t, a)
    ensures Runs(l, s, acts + [a], Do(l, t, a))
    decreases |acts|
  {
    if acts == [] {
      assert ([] + [a])[1..] == [];
    } else {
      RunsSnoc(l, Do(l, s, acts[0]), acts[1..], t, a);
      assert (acts + [a])[1..] == acts[1..] + [a];
    }
  }

  lemma ReachSelf(l: Layout, s: State)
    ensures Reach(l, s, s)
  {
    assert Runs(l, s, [], s);
  }

  lemma ReachStep(l: Layout, s: State, t: State, a: Action)
    requires Reach(l, s, t) && Wf(l, t) && Enabled(l, t, a)
    ensures Reach(l, s, Do(l, t, a))
  {
    var acts :| Runs(l, s, acts, t);
    RunsSnoc(l, s, acts, t, a);
  }

  // The first k writes of the commit or the recovery that s starts with.
  ghost predicate Written(l: Layout, s: State, k: nat, t: State)
    requires Wf(l, s) && !s.phase.Up? && k <= |Plan(l, s)|
  {
    && Issued(s.disk, Plan(l, s)[..k], t.disk)
    && t == s.(disk := t.disk, phase := s.phase.(done := k), durable := t.durable)
  }

  lemma NextWrite(l: Layout, home: map<int, Block>, s: State, k: nat, u: State)
    requires Inv(l, home, s) && !s.phase.Up? && s.phase.done == 0 && k < |Plan(l, s)|
    requires Inv(l, home, u) && Written(l, s, k, u)
    ensures Enabled(l, u, DiskWrite) && Written(l, s, k + 1, Do(l, u, DiskWrite))
  {
    hide Reservation, WfHistory, Durability, WfRegions, CommitWrites, RecoverWrites, Issued;
    NeverStuck(l, home, u);
    SamePlan(l, s, k, u);
    SameLength(s.disk, Plan(l, s)[..k], u.disk);
    IssuedStep(s.disk, Plan(l, s), k, u.disk);
    hide Plan;
  }

  lemma SamePlan(l: Layout, s: State, k: nat, u: State)
    requires Wf(l, s) && Wf(l, u) && !s.phase.Up? && k <= |Plan(l, s)| && Written(l, s, k, u)
    ensures Plan(l, u) == Plan(l, s)
  {
    hide CommitWrites, RecoverWrites, WfRegions;
  }

  lemma SameLength(d: Disk, ws: seq<Write>, d': Disk)
    requires Issued(d, ws, d')
    ensures |d'| == |d|
  {
  }

  lemma WrittenNone(l: Layout, s: State)
    requires Wf(l, s) && !s.phase.Up? && s.phase.done == 0
    ensures Written(l, s, 0, s)
  {
    assert Plan(l, s)[..0] == [];
  }

  lemma {:induction false} WritesRun(l: Layout, d: Disk, s: State, k: nat) returns (t: State)
    requires WfDisk(l, d) && Inv(l, Recovered(l, d), s) && Reach(l, Boot(d), s)
    requires !s.phase.Up? && s.phase.done == 0 && k <= |Plan(l, s)|
    ensures Inv(l, Recovered(l, d), t) && Reach(l, Boot(d), t) && Written(l, s, k, t)
  {
    hide Reservation, WfHistory, Durability, WfRegions, Reach, Written, Plan, Do, Enabled;
    if k == 0 {
      t := s;
      WrittenNone(l, s);
    } else {
      var u := WritesRun(l, d, s, k - 1);
      NextWrite(l, Recovered(l, d), s, k - 1, u);
      StepInv(l, Recovered(l, d), u, DiskWrite);
      ReachStep(l, Boot(d), u, DiskWrite);
      t := Do(l, u, DiskWrite);
    }
  }

  // All states on the way through those writes.
  lemma {:induction false} PlanPoints(l: Layout, d: Disk, s: State, k: nat) returns (ts: seq<State>)
    requires WfDisk(l, d) && Inv(l, Recovered(l, d), s) && Reach(l, Boot(d), s)
    requires !s.phase.Up? && s.phase.done == 0 && k <= |Plan(l, s)|
    ensures |ts| == k
    ensures forall i | 0 <= i < k ::
      Inv(l, Recovered(l, d), ts[i]) && Reach(l, Boot(d), ts[i]) && Written(l, s, i + 1, ts[i])
  {
    hide Inv, Reach, Written, Plan, WfRegions;
    if k == 0 {
      ts := [];
    } else {
      var front := PlanPoints(l, d, s, k - 1);
      var t := WritesRun(l, d, s, k);
      ts := front + [t];
    }
  }

  ghost predicate Extends(log: seq<Txn>, log': seq<Txn>) {
    |log| <= |log'| && log'[..|log|] == log
  }

  // After the first m block writes the disk is that of a state of the run, and what was
  // durable then is still part of the history.
  ghost predicate Point(l: Layout, d: Disk, journal: seq<Write>, t: State, m: nat, s: State)
    requires m <= |journal|
  {
    && Reach(l, Boot(d), t) && Issued(d, journal[..m], t.disk)
    && t.durable <= |t.log| && Extends(t.log[..t.durable], s.log)
  }

  ghost predicate Traced(l: Layout, d: Disk, journal: seq<Write>, x: Trace) {
    && WfDisk(l, d) && Inv(l, Recovered(l, d), x.s) && Reach(l, Boot(d), x.s)
    && |x.at| == |journal| + 1
    && forall m | 0 <= m < |x.at| :: Point(l, d, journal, x.at[m], m, x.s)
  }

  lemma TraceStart(l: Layout, d: Disk)
    requires WfDisk(l, d)
    ensures Traced(l, d, [], Trace(Boot(d), [Boot(d)]))
  {
    BootInv(l, d);
    ReachSelf(l, Boot(d));
    assert Apply(d, []) == d;
  }

  // A step without a block write.
  lemma TraceStep(l: Layout, d: Disk, journal: seq<Write>, x: Trace, a: Action)
    requires Traced(l, d, journal, x) && Wf(l, x.s) && Enabled(l, x.s, a) && Extends(x.s.log, Do(l, x.s, a).log)
    ensures Wf(l, Do(l, x.s, a)) && (LOGSIZE < l.size ==> !x.s.panicked ==> !Do(l, x.s, a).panicked)
    ensures Traced(l, d, journal, x.(s := Do(l, x.s, a)))
  {
    hide Inv, Reach, Issued, Do, Enabled, WfRegions;
    InvMeans(l, Recovered(l, d), x.s);
    StepInv(l, Recovered(l, d), x.s, a);
    InvMeans(l, Recovered(l, d), Do(l, x.s, a));
    ReachStep(l, Boot(d), x.s, a);
    var y := x.(s := Do(l, x.s, a));
    forall m | 0 <= m < |y.at| ensures Point(l, d, journal, y.at[m], m, y.s) {
      assert Point(l, d, journal, x.at[m], m, x.s);
    }
  }

  // All the writes of a commit or a recovery, and its return.
  lemma TraceWrites(l: Layout, d: Disk, journal: seq<Write>, x: Trace) returns (y: Trace)
    requires Traced(l, d, journal, x) && Issued(d, journal, x.s.disk) && !x.s.phase.Up? && x.s.phase.done == 0
    ensures Traced(l, d, journal + Plan(l, x.s), y) && Wf(l, y.s) && Issued(x.s.disk, Plan(l, x.s), y.s.disk)
    ensures y.s == x.s.(disk := y.s.disk, phase := Up, pending := Txn([], []), durable := y.s.durable,
        returned := |x.s.log|)
    ensures |journal| < |y.at| && y.at[..|journal| + 1] == x.at
    ensures forall m | |journal| < m < |y.at| :: y.at[m].durable == DurableAt(x.s, m - |journal|)
  {
    hide DurableAt;
    hide WfRegions, Inv, Reach, Written, Plan, Issued, Do, Enabled;
    InvMeans(l, Recovered(l, d), x.s);
    var plan := Plan(l, x.s);
    var n := |plan|;
    var ts := PlanPoints(l, d, x.s, n);
    var last := WritesRun(l, d, x.s, n);
    FinishRun(l, d, x.s, last);
    InvMeans(l, Recovered(l, d), last);
    StepInv(l, Recovered(l, d), last, Finish);
    ReachStep(l, Boot(d), last, Finish);
    y := Trace(Do(l, last, Finish), x.at + ts);
    InvMeans(l, Recovered(l, d), y.s);
    forall m | |journal| < m < |y.at| ensures y.at[m].durable == DurableAt(x.s, m - |journal|) {
      DurableIs(l, Recovered(l, d), x.s, m - |journal|, ts[m - |journal| - 1]);
    }
    forall m | 0 <= m < |y.at| ensures Point(l, d, journal + plan, y.at[m], m, y.s) {
      if m <= |journal| {
        assert (journal + plan)[..m] == journal[..m];
        assert Point(l, d, journal, x.at[m], m, x.s);
      } else {
        InvMeans(l, Recovered(l, d), ts[m - |journal| - 1]);
        PointAfter(l, d, journal, x.s, m - |journal|, ts[m - |journal| - 1], y.s);
      }
    }
  }

  lemma InvMeans(l: Layout, home: map<int, Block>, s: State)
    requires Inv(l, home, s)
    ensures Wf(l, s) && s.durable <= |s.log|
  {
    hide WfRegions, Reservation, Durability;
  }

  // How many transactions are durable after k writes of a commit or a recovery.
  ghost function DurableAt(s: State, k: nat): int {
    if s.phase.Committing? && k <= |s.pending.addrs| then |s.log| - 1 else |s.log|
  }

  lemma DurableIs(l: Layout, home: map<int, Block>, s: State, k: nat, t: State)
    requires Inv(l, home, s) && !s.phase.Up? && 0 < k <= |Plan(l, s)| && Inv(l, home, t) && Written(l, s, k, t)
    ensures t.durable == DurableAt(s, k)
  {
    hide Reservation, WfRegions, CommitAt, RecoverAt, Recovered, Replayed, EraseWrites, Issued, Empty, RecoverWrites;
  }

  // How many block writes a commit makes.
  ghost function CommitLength(t: Txn): nat {
    if t.addrs == [] then 0 else 2 * |t.addrs| + 2
  }

  lemma CommitLengthIs(l: Layout, head: Block, t: Txn)
    requires WfTxn(l, t)
    ensures |CommitWrites(l, head, t)| == CommitLength(t)
  {
    if t.addrs != [] { CommitCount(l, head, t); }
  }

  lemma FinishRun(l: Layout, d: Disk, s: State, last: State)
    requires WfDisk(l, d) && Inv(l, Recovered(l, d), s) && Inv(l, Recovered(l, d), last)
    requires !s.phase.Up? && s.phase.done == 0 && Written(l, s, |Plan(l, s)|, last)
    ensures Enabled(l, last, Finish) && Issued(s.disk, Plan(l, s), Do(l, last, Finish).disk)
    ensures var t := Do(l, last, Finish);
            t == s.(disk := t.disk, phase := Up, pending := Txn([], []), durable := t.durable, returned := |s.log|)
  {
    hide Reservation, WfHistory, Durability, WfRegions, CommitWrites, RecoverWrites, Issued;
    SamePlan(l, s, |Plan(l, s)|, last);
    assert Plan(l, s)[..|Plan(l, s)|] == Plan(l, s);
    hide Plan;
  }

  lemma PointAfter(l: Layout, d: Disk, journal: seq<Write>, s: State, k: nat, t: State, s': State)
    requires Wf(l, s) && Wf(l, t) && Issued(d, journal, s.disk) && !s.phase.Up? && k <= |Plan(l, s)|
    requires Reach(l, Boot(d), t) && Written(l, s, k, t) && t.durable <= |t.log| && s'.log == s.log
    ensures Point(l, d, journal + Plan(l, s), t, |journal| + k, s')
  {
    hide WfRegions, Plan, Issued, Reach;
    assert (journal + Plan(l, s))[..|journal| + k] == journal + Plan(l, s)[..k];
    IssuedConcat(d, journal, s.disk, Plan(l, s)[..k], t.disk);
  }

  // Wherever the machine crashes, the disk stands for a prefix of what has been committed.
  lemma CrashPoints(l: Layout, d: Disk, journal: seq<Write>, x: Trace, m: nat)
    requires Traced(l, d, journal, x) && m <= |journal|
    ensures Issued(d, journal[..m], x.at[m].disk) && WfDisk(l, x.at[m].disk) && WfHistory(x.s)
    ensures x.at[m].durable <= |x.s.log|
    ensures Recovered(l, x.at[m].disk) == Replayed(Recovered(l, d), x.s.log[..x.at[m].durable])
  {
    var t := x.at[m];
    assert Point(l, d, journal, t, m, x.s);
    var acts :| Runs(l, Boot(d), acts, t);
    CrashAtomicity(l, d, acts, t);
  }

  // The code between two calls, and the state of the run that it has come to.
  ghost predicate Follows(k: FsLog, d: Disk, x: Trace)
    reads k, k.block
  {
    && k.Valid() && k.Pinned() && Wf(k.l, x.s) && Traced(k.l, d, k.journal, x) && Issued(d, k.journal, k.disk)
    && x.s.phase.Up? && !x.s.panicked && x.s.disk == k.disk && x.s.pending == k.Pending()
    && |x.s.ops| == k.outstanding && !k.committing
  }

  // Switching on: initlog recovers.
  method Start(l: Layout, d: Disk) returns (k: FsLog, ghost x: Trace)
    requires WfDisk(l, d)
    ensures fresh(k) && fresh(k.block) && k.l == l && Follows(k, d, x) && x.s.log == [] && x.s.ops == []
    ensures x.s.pending == Txn([], []) && |k.journal| == |RecoverWrites(l, d)|
  {
    k := new FsLog(l, d);
    k.RecoverFromLog();
    TraceStart(l, d);
    assert Apply(d, []) == d;
    x := TraceWrites(l, d, [], Trace(Boot(d), [Boot(d)]));
    assert [] + Plan(l, Boot(d)) == Plan(l, Boot(d));
    assert k.block[..0] == [];
  }

  lemma WroteMeans(d: Disk, j: seq<Write>, ws: seq<Write>, d': Disk, j': seq<Write>)
    requires Wrote(d, j, ws, d', j')
    ensures j' == j + ws && Issued(d, ws, d')
  {
  }

  lemma SameDisk(d: Disk, ws: seq<Write>, e: Disk, e': Disk)
    requires Issued(d, ws, e) && Issued(d, ws, e')
    ensures e == e'
  {
  }

  method TryBegin(k: FsLog, ghost d: Disk, ghost x: Trace) returns (started: bool, ghost y: Trace)
    requires Follows(k, d, x)
    modifies k`outstanding
    ensures Follows(k, d, y) && (started <==> Enabled(k.l, x.s, BeginOp))
    ensures y.at == x.at && y.s == if started then Do(k.l, x.s, BeginOp) else x.s
  {
    started := k.TryBeginOp();
    y := x;
    if started {
      TraceStep(k.l, d, k.journal, x, BeginOp);
      y := x.(s := Do(k.l, x.s, BeginOp));
    }
  }

  lemma LogStep(l: Layout, s: State, op: nat, b: int, data: Block)
    requires Wf(l, s) && Enabled(l, s, LogWrite(op, b, data)) && !s.panicked
    ensures var t, n := Do(l, s, LogWrite(op, b, data)), |s.pending.addrs|;
      if n < LOGSIZE && n < l.size - 1 then
        t == s.(ops := t.ops, pending := Absorb(s.pending, b, data)) && |t.ops| == |s.ops|
      else t == s.(panicked := true)
  {
  }

  lemma EndStep(l: Layout, s: State, op: nat)
    requires Wf(l, s) && s.phase.Up? && op < |s.ops|
    ensures Enabled(l, s, EndOp(op))
    ensures var t, ops := Do(l, s, EndOp(op)), s.ops[..op] + s.ops[op + 1..];
      if |s.ops| > 1 then t == s.(ops := ops)
      else
        && t == s.(ops := ops, phase := Committing(s.disk, 0), log := s.log + [s.pending], durable := t.durable)
        && Extends(s.log, t.log)
        && (Wf(l, t) ==> Plan(l, t) == CommitWrites(l, s.disk[l.start], s.pending))
  {
  }

  lemma ReadyToCommit(l: Layout, d: Disk, journal: seq<Write>, x: Trace)
    requires Traced(l, d, journal, x) && Wf(l, x.s) && x.s.phase.Up?
    ensures Empty(l, x.s.disk)
  {
  }

  // log_write by operation op, one of at most MAXOPBLOCKS. It cannot panic if the log region is
  // larger than LOGSIZE.
  method Log(k: FsLog, op: nat, b: int, data: Block, ghost d: Disk, ghost x: Trace) returns (ok: bool, ghost y: Trace)
    requires Follows(k, d, x) && Enabled(k.l, x.s, LogWrite(op, b, data))
    modifies k`n, k`cache, k.block
    ensures Follows(k, d, y) && y.at == x.at && y.s == if ok then Do(k.l, x.s, LogWrite(op, b, data)) else x.s
    ensures ok <==> !Do(k.l, x.s, LogWrite(op, b, data)).panicked
    ensures LOGSIZE < k.l.size ==> ok
  {
    hide Traced, Issued, WfRegions;
    ok := k.LogWrite(b, data);
    LogStep(k.l, x.s, op, b, data);
    TraceStep(k.l, d, k.journal, x, LogWrite(op, b, data));
    hide Do, Enabled;
    y := x;
    if ok {
      y := x.(s := Do(k.l, x.s, LogWrite(op, b, data)));
    }
  }

  // end_op by operation op. The last one out commits, and the history grows by what was pending.
  method End(k: FsLog, op: nat, ghost d: Disk, ghost x: Trace) returns (ghost y: Trace)
    requires Follows(k, d, x) && op < |x.s.ops|
    modifies k`outstanding, k`committing, k`n, k`cache, k`disk, k`journal
    ensures Follows(k, d, y) && y.s.ops == x.s.ops[..op] + x.s.ops[op + 1..]
    ensures y.s.log == if |x.s.ops| == 1 then x.s.log + [x.s.pending] else x.s.log
    ensures |x.s.ops| == 1 ==> y.s.returned == |y.s.log|
    ensures y.s.pending == if |x.s.ops| == 1 then Txn([], []) else x.s.pending
    ensures |k.journal| == |old(k.journal)| + if |x.s.ops| == 1 then CommitLength(x.s.pending) else 0
    ensures y.at[..|x.at|] == x.at
    ensures forall m | |x.at| <= m < |y.at| ::
              y.at[m].durable == if m <= |old(k.journal)| + |x.s.pending.addrs| then |x.s.log| else |x.s.log| + 1
  {
    hide Traced, Issued, Wrote, WfRegions, Plan;
    ReadyToCommit(k.l, d, k.journal, x);
    EndStep(k.l, x.s, op);
    var ok := k.EndOp();
    hide Do, Enabled;
    TraceStep(k.l, d, old(k.journal), x, EndOp(op));
    y := x.(s := Do(k.l, x.s, EndOp(op)));
    if k.outstanding == 0 {
      y := TraceWrites(k.l, d, old(k.journal), y);
      ghost var ws := CommitWrites(k.l, x.s.disk[k.l.start], x.s.pending);
      CommitLengthIs(k.l, x.s.disk[k.l.start], x.s.pending);
      WroteMeans(x.s.disk, old(k.journal), ws, k.disk, k.journal);
      SameDisk(x.s.disk, ws, k.disk, y.s.disk);
      IssuedConcat(d, old(k.journal), x.s.disk, ws, k.disk);
      assert k.block[..0] == [];
    }
  }

  // The ledger of the calls, and the state that the code has come to.
  ghost predicate Agrees(home: map<int, Block>, s: State, x: Ledger) {
    && WfHistory(s) && |s.pending.addrs| == |s.pending.data| && Distinct(s.pending.addrs)
    && s.ops == x.ops && Elements(s.pending.addrs) == x.blocks
    && x.home == Replayed(home, s.log) && x.latest == Updated(x.home, s.pending)
  }

  lemma {:induction false} DistinctCount(addrs: seq<int>)
    requires Distinct(addrs)
    ensures |Elements(addrs)| == |addrs|
  {
    if addrs == [] {
      assert Elements(addrs) == {};
    } else {
      var n := |addrs| - 1;
      DistinctCount(addrs[..n]);
      ElementsSnoc(addrs, n);
      assert addrs[..n + 1] == addrs;
    }
  }

  // The log gives each of its blocks what was logged to it last.
  lemma {:induction false} ReplayIs(t: Txn, b: int)
    requires |t.addrs| == |t.data| && Distinct(t.addrs)
    ensures b in Replay(t) <==> b in t.addrs
    ensures forall i | 0 <= i < |t.addrs| && t.addrs[i] == b :: b in Replay(t) && Replay(t)[b] == t.data[i]
    decreases |t.addrs|
  {
    if t.addrs != [] {
      var n := |t.addrs| - 1;
      ReplayIs(Take(t, n), b);
      assert t.addrs == t.addrs[..n] + [t.addrs[n]];
    }
  }

  lemma AbsorbLatest(home: map<int, Block>, t: Txn, b: int, data: Block)
    requires |t.addrs| == |t.data| && Distinct(t.addrs)
    ensures Updated(home, Absorb(t, b, data)) == Updated(home, t)[b := data]
    ensures Distinct(Absorb(t, b, data).addrs) && Elements(Absorb(t, b, data).addrs) == Elements(t.addrs) + {b}
  {
    var u := Absorb(t, b, data);
    assert Distinct(u.addrs);
    assert Elements(u.addrs) == Elements(t.addrs) + {b};
    forall a ensures (a in Replay(u) <==> a in Replay(t)[b := data])
      && (a in Replay(u) ==> Replay(u)[a] == Replay(t)[b := data][a])
    {
      AbsorbAt(t, b, data, a);
    }
    assert Replay(u) == Replay(t)[b := data];
    PlusUpdate(home, Replay(t), b, data);
  }

  lemma AbsorbAt(t: Txn, b: int, data: Block, a: int)
    requires |t.addrs| == |t.data| && Distinct(t.addrs) && Distinct(Absorb(t, b, data).addrs)
    ensures var u := Absorb(t, b, data);
      (a in Replay(u) <==> a in Replay(t)[b := data]) && (a in Replay(u) ==> Replay(u)[a] == Replay(t)[b := data][a])
  {
    var u := Absorb(t, b, data);
    ReplayIs(t, a);
    ReplayIs(u, a);
    if a in t.addrs {
      var i :| 0 <= i < |t.addrs| && t.addrs[i] == a;
      assert u.addrs[i] == a;
    } else if a == b {
      assert u.addrs[|t.addrs|] == a;
    }
  }

  lemma AgreesOps(home: map<int, Block>, s: State, x: Ledger)
    requires Agrees(home, s, x)
    ensures s.ops == x.ops
  {
  }

  lemma AgreesHome(home: map<int, Block>, s: State, x: Ledger)
    requires Agrees(home, s, x)
    ensures WfHistory(s) && x.home == Replayed(home, s.log) && |s.pending.addrs| == |s.pending.data|
    ensures x.latest == Updated(x.home, s.pending)
  {
  }

  // What bread returns is what was logged last, and for other blocks what is on disk.
  lemma ViewIs(l: Layout, disk: Disk, cache: map<int, Buf>, addrs: seq<int>, b: int)
    requires WfMem(l, disk, cache, addrs) && Dirty(cache) == Elements(addrs) && Distinct(addrs) && l.Home(b)
    requires WfDisk(l, disk)
    ensures var u := Updated(Home(l, disk), Txn(addrs, Contents(disk, cache, addrs)));
      b in u && u[b] == Lookup(disk, cache, b)
  {
    ReplayIs(Txn(addrs, Contents(disk, cache, addrs)), b);
    if b in addrs {
      var i :| 0 <= i < |addrs| && addrs[i] == b;
    } else {
      assert b !in Elements(addrs);
      assert b in cache ==> !cache[b].dirty;
    }
  }

  lemma ServedIs(k: FsLog, d: Disk, x: Trace, n0: nat, calls: seq<Call>)
    requires Follows(k, d, x) && WfDisk(k.l, d) && Leaves(k.l, d, x.at, n0, calls)
    requires Agrees(Recovered(k.l, d), x.s, After(k.l, Recovered(k.l, d), calls))
    ensures var z := After(k.l, Recovered(k.l, d), calls);
      && k.outstanding == |z.ops| && WfDisk(k.l, k.disk) && Home(k.l, k.disk) == z.home
      && forall b | k.l.Home(b) :: b in z.latest && k.View(b) == z.latest[b]
    ensures |k.journal| == n0 + Writes(k.l, Recovered(k.l, d), calls) && Issued(d, k.journal, k.disk)
    ensures EveryCrash(k.l, d, k.journal, n0, calls)
  {
    hide Recovered, WfHistory, Replayed, After, Writes, RecoverWrites, CrashHome, Inv, Reach, WfDisk, Agrees, Updated;
    var z := After(k.l, Recovered(k.l, d), calls);
    AgreesOps(Recovered(k.l, d), x.s, z);
    AgreesHome(Recovered(k.l, d), x.s, z);
    HomeNow(k.l, d, k.journal, x);
    forall b | k.l.Home(b) ensures b in z.latest && k.View(b) == z.latest[b] {
      ViewIs(k.l, k.disk, k.cache, k.block[..k.n], b);
    }
    forall m | 0 <= m <= |k.journal| ensures CrashAt(k.l, d, k.journal[..m], m, n0, calls) {
      assert Point(k.l, d, k.journal, x.at[m], m, x.s);
      assert LeavesAt(k.l, d, x.at[m].disk, m, n0, calls);
    }
  }

  lemma AgreesAtStart(home: map<int, Block>, s: State)
    requires WfHistory(s) && s.log == [] && s.ops == [] && s.pending == Txn([], [])
    ensures Agrees(home, s, Ledger([], {}, home, home, false))
  {
    assert home + map[] == home;
    assert Elements([]) == {};
  }

  lemma AgreesBegin(l: Layout, home: map<int, Block>, s: State, x: Ledger)
    requires Wf(l, s) && Agrees(home, s, x) && s.phase.Up? && !x.panicked
    ensures Enabled(l, s, BeginOp) <==> |x.blocks| + (|x.ops| + 1) * MAXOPBLOCKS <= LOGSIZE
    ensures Agrees(home, if Enabled(l, s, BeginOp) then Do(l, s, BeginOp) else s, Called(l, x, Begin))
  {
    DistinctCount(s.pending.addrs);
  }

  lemma AgreesLog(l: Layout, home: map<int, Block>, s: State, x: Ledger, op: nat, b: int, data: Block)
    requires Wf(l, s) && Agrees(home, s, x) && s.phase.Up? && !x.panicked && !s.panicked
    requires Allowed(l, x.ops, LogCalls.Log(op, b, data))
    ensures Enabled(l, s, LogWrite(op, b, data))
    ensures var t, y := Do(l, s, LogWrite(op, b, data)), Called(l, x, LogCalls.Log(op, b, data));
      && t.panicked == y.panicked
      && Agrees(home, if t.panicked then s else t, y)
  {
    DistinctCount(s.pending.addrs);
    AbsorbLatest(x.home, s.pending, b, data);
  }

  lemma AgreesEnd(l: Layout, home: map<int, Block>, s: State, x: Ledger, op: nat, t: State)
    requires Agrees(home, s, x) && !x.panicked && op < |s.ops| && WfHistory(t)
    requires t.ops == s.ops[..op] + s.ops[op + 1..]
    requires t.log == if |s.ops| == 1 then s.log + [s.pending] else s.log
    requires t.pending == if |s.ops| == 1 then Txn([], []) else s.pending
    ensures Agrees(home, t, Called(l, x, LogCalls.End(op)))
    ensures Caused(x, LogCalls.End(op)) == if |s.ops| == 1 then CommitLength(s.pending) else 0
    ensures |x.blocks| == |s.pending.addrs|
    ensures |s.ops| == 1 ==> Called(l, x, LogCalls.End(op)).home == Replayed(home, t.log)
  {
    DistinctCount(s.pending.addrs);
    assert Elements([]) == {};
    if |s.ops| == 1 {
      assert t.log[..|t.log| - 1] == s.log;
      assert x.latest + map[] == x.latest;
    }
  }

  // What each state on the way recovers to, after n0 writes of the recovery and those the calls caused.
  ghost predicate Leaves(l: Layout, d: Disk, at: seq<State>, n0: nat, calls: seq<Call>) {
    && WfDisk(l, d) && |at| == n0 + Writes(l, Recovered(l, d), calls) + 1
    && forall m | 0 <= m < |at| :: LeavesAt(l, d, at[m].disk, m, n0, calls)
  }

  ghost predicate LeavesAt(l: Layout, d: Disk, e: Disk, m: nat, n0: nat, calls: seq<Call>) {
    && WfDisk(l, d) && WfDisk(l, e)
    && Recovered(l, e) == CrashHome(l, Recovered(l, d), calls, if m <= n0 then 0 else m - n0)
  }

  // The disk after the writes ws, the first m of a run, and what recovery makes of it.
  ghost predicate CrashAt(l: Layout, d: Disk, ws: seq<Write>, m: nat, n0: nat, calls: seq<Call>) {
    (forall i | 0 <= i < |ws| :: ws[i].addr < |d|) && LeavesAt(l, d, Apply(d, ws), m, n0, calls)
  }

  ghost predicate EveryCrash(l: Layout, d: Disk, journal: seq<Write>, n0: nat, calls: seq<Call>) {
    forall m | 0 <= m <= |journal| :: CrashAt(l, d, journal[..m], m, n0, calls)
  }

  lemma CallSnoc(l: Layout, home: map<int, Block>, calls: seq<Call>, c: Call)
    ensures After(l, home, calls + [c]) == Called(l, After(l, home, calls), c)
    ensures Writes(l, home, calls + [c]) == Writes(l, home, calls) + Caused(After(l, home, calls), c)
    ensures forall m: nat ::
      var n, z := Writes(l, home, calls), After(l, home, calls);
      && (m <= n ==> CrashHome(l, home, calls + [c], m) == CrashHome(l, home, calls, m))
      && (n < m <= n + |z.blocks| ==> CrashHome(l, home, calls + [c], m) == z.home)
      && (n + |z.blocks| < m ==> CrashHome(l, home, calls + [c], m) == After(l, home, calls + [c]).home)
  {
    assert (calls + [c])[..|calls|] == calls;
  }

  lemma LeavesStart(l: Layout, d: Disk, journal: seq<Write>, x: Trace)
    requires Traced(l, d, journal, x) && x.s.log == []
    ensures Leaves(l, d, x.at, |journal|, [])
  {
    forall m | 0 <= m < |x.at| ensures LeavesAt(l, d, x.at[m].disk, m, |journal|, []) {
      CrashPoints(l, d, journal, x, m);
    }
  }

  // A call that writes nothing.
  lemma LeavesSame(l: Layout, d: Disk, at: seq<State>, n0: nat, calls: seq<Call>, c: Call)
    requires Leaves(l, d, at, n0, calls) && Caused(After(l, Recovered(l, d), calls), c) == 0
    ensures Leaves(l, d, at, n0, calls + [c])
  {
    CallSnoc(l, Recovered(l, d), calls, c);
    hide CrashHome, WfDisk, Recovered, After, Writes, Caused;
    forall m | 0 <= m < |at| ensures LeavesAt(l, d, at[m].disk, m, n0, calls + [c]) {
      assert LeavesAt(l, d, at[m].disk, m, n0, calls);
    }
  }

  // A call that commits.
  lemma LeavesEnd(l: Layout, d: Disk, journal: seq<Write>, x: Trace, y: Trace, n0: nat, calls: seq<Call>, c: Call,
                  pending: Txn)
    requires Leaves(l, d, x.at, n0, calls) && Traced(l, d, journal, y) && |x.at| <= |y.at| && y.at[..|x.at|] == x.at
    requires |y.at| == |x.at| + Caused(After(l, Recovered(l, d), calls), c) && WfHistory(x.s)
    requires WfHistory(y.s) && y.s.log == x.s.log + [pending]
    requires After(l, Recovered(l, d), calls).home == Replayed(Recovered(l, d), x.s.log)
    requires After(l, Recovered(l, d), calls + [c]).home == Replayed(Recovered(l, d), y.s.log)
    requires forall m | |x.at| <= m < |y.at| ::
      var n := |x.at| - 1 + |After(l, Recovered(l, d), calls).blocks|;
      y.at[m].durable == if m <= n then |x.s.log| else |x.s.log| + 1
    ensures Leaves(l, d, y.at, n0, calls + [c])
  {
    hide CrashHome, WfDisk, Recovered, After, Writes, Caused, Replayed, WfHistory, Inv, Reach, Point;
    CallSnoc(l, Recovered(l, d), calls, c);
    assert y.s.log[..|x.s.log|] == x.s.log && y.s.log[..|y.s.log|] == y.s.log;
    forall m | 0 <= m < |y.at| ensures LeavesAt(l, d, y.at[m].disk, m, n0, calls + [c]) {
      if m < |x.at| {
        assert y.at[m] == x.at[m];
        assert LeavesAt(l, d, x.at[m].disk, m, n0, calls);
      } else {
        CrashPoints(l, d, journal, y, m);
      }
    }
  }

  // The machine is switched on with disk d and does what it is asked, up to a panic if there is
  // one. A call that its caller may not make is left out: an operation that is not under way, or
  // a log_write beyond MAXOPBLOCKS or of a block of the log. What it comes to is what LogCalls
  // says of the calls: the panic, the blocks on disk and in the cache, and, if the machine
  // crashes after any of its block writes, what recovery gives.
  method Serve(l: Layout, d: Disk, calls: seq<Call>) returns (k: FsLog, panicked: bool)
    requires WfDisk(l, d)
    ensures fresh(k) && k.Valid() && k.l == l && (LOGSIZE < l.size ==> !panicked)
    ensures var x := After(l, Recovered(l, d), calls);
      && panicked == x.panicked && k.outstanding == |x.ops|
      && WfDisk(l, k.disk) && Home(l, k.disk) == x.home
      && forall b | l.Home(b) :: b in x.latest && k.View(b) == x.latest[b]
    ensures |k.journal| == |RecoverWrites(l, d)| + Writes(l, Recovered(l, d), calls)
    ensures Issued(d, k.journal, k.disk)
    ensures EveryCrash(l, d, k.journal, |RecoverWrites(l, d)|, calls)
  {
    hide Traced, Issued, WfDisk, Recovered, WfHistory, Replayed, Wf, Agrees, Leaves, After, Called, Writes, RecoverWrites;
    ghost var x;
    k, x := Start(l, d);
    ghost var home, n0 := Recovered(l, d), |k.journal|;
    HomeNow(l, d, k.journal, x);
    AgreesAtStart(home, x.s);
    LeavesStart(l, d, k.journal, x);
    AfterNone(l, home);
    panicked := false;
    var made: seq<nat> := []; // log_write calls of the operations under way
    var i := 0;
    while i < |calls|
      invariant i <= |calls| && k.l == l && Follows(k, d, x) && made == x.s.ops && fresh(k) && fresh(k.block)
      invariant Agrees(home, x.s, After(l, home, calls[..i])) && Leaves(l, d, x.at, n0, calls[..i])
      invariant panicked == After(l, home, calls[..i]).panicked && (LOGSIZE < l.size ==> !panicked)
    {
      assert calls[..i + 1] == calls[..i] + [calls[i]];
      if panicked {
        CallSnoc(l, home, calls[..i], calls[i]);
        PanicStays(l, After(l, home, calls[..i]), calls[i]);
        LeavesSame(l, d, x.at, n0, calls[..i], calls[i]);
      } else {
        made, panicked, x := Answer(k, calls[i], made, d, x, n0, calls[..i]);
      }
      i := i + 1;
    }
    assert calls[..i] == calls;
    ServedIs(k, d, x, n0, calls);
  }

  // One call.
  method Answer(k: FsLog, c: Call, made: seq<nat>, ghost d: Disk, ghost x: Trace, ghost n0: nat, ghost calls: seq<Call>)
    returns (made': seq<nat>, panicked: bool, ghost y: Trace)
    requires Follows(k, d, x) && made == x.s.ops && WfDisk(k.l, d) && Leaves(k.l, d, x.at, n0, calls)
    requires var z := After(k.l, Recovered(k.l, d), calls); Agrees(Recovered(k.l, d), x.s, z) && !z.panicked
    modifies k, k.block
    ensures Follows(k, d, y) && made' == y.s.ops && Leaves(k.l, d, y.at, n0, calls + [c])
    ensures var z := After(k.l, Recovered(k.l, d), calls + [c]); Agrees(Recovered(k.l, d), y.s, z) && panicked == z.panicked
    ensures LOGSIZE < k.l.size ==> !panicked
  {
    hide Follows, WfDisk, Recovered, Agrees, Leaves, After, Writes, Called;
    made', panicked, y := made, false, x;
    match c {
      case Begin =>
        made', y := BeginCall(k, made, d, x, n0, calls);
      case Log(op, b, data) =>
        if op < |made| && made[op] < MAXOPBLOCKS && k.l.Home(b) {
          made', panicked, y := LogCall(k, op, b, data, made, d, x, n0, calls);
        } else {
          Refused(k.l, d, x, n0, calls, c);
        }
      case End(op) =>
        if op < |made| {
          made', y := EndCall(k, op, made, d, x, n0, calls);
        } else {
          Refused(k.l, d, x, n0, calls, c);
        }
    }
  }

  // A call that its caller may not make changes nothing.
  lemma Refused(l: Layout, d: Disk, x: Trace, n0: nat, calls: seq<Call>, c: Call)
    requires WfDisk(l, d) && Leaves(l, d, x.at, n0, calls)
    requires Agrees(Recovered(l, d), x.s, After(l, Recovered(l, d), calls)) && !After(l, Recovered(l, d), calls).panicked
    requires c.End? ==> c.op >= |x.s.ops|
    requires !c.Begin? && (c.Log? ==> !Allowed(l, x.s.ops, c))
    ensures After(l, Recovered(l, d), calls + [c]) == After(l, Recovered(l, d), calls) && Leaves(l, d, x.at, n0, calls + [c])
  {
    hide WfDisk, Recovered, WfHistory, Replayed, Agrees, Leaves, After, Writes;
    AgreesOps(Recovered(l, d), x.s, After(l, Recovered(l, d), calls));
    CallSnoc(l, Recovered(l, d), calls, c);
    LeavesSame(l, d, x.at, n0, calls, c);
  }

  method BeginCall(k: FsLog, made: seq<nat>, ghost d: Disk, ghost x: Trace, ghost n0: nat, ghost calls: seq<Call>)
    returns (made': seq<nat>, ghost y: Trace)
    requires Follows(k, d, x) && made == x.s.ops && WfDisk(k.l, d) && Leaves(k.l, d, x.at, n0, calls)
    requires var z := After(k.l, Recovered(k.l, d), calls); Agrees(Recovered(k.l, d), x.s, z) && !z.panicked
    modifies k`outstanding
    ensures Follows(k, d, y) && made' == y.s.ops && Leaves(k.l, d, y.at, n0, calls + [Begin])
    ensures var z := After(k.l, Recovered(k.l, d), calls + [Begin]); Agrees(Recovered(k.l, d), y.s, z) && !z.panicked
  {
    hide Traced, Issued, WfDisk, Recovered, WfHistory, Replayed, Agrees, Leaves, After, Writes, WfRegions;
    ghost var home := Recovered(k.l, d);
    AgreesBegin(k.l, home, x.s, After(k.l, home, calls));
    CallSnoc(k.l, home, calls, Begin);
    var started;
    started, y := TryBegin(k, d, x);
    made' := if started then made + [0] else made;
    LeavesSame(k.l, d, y.at, n0, calls, Begin);
  }

  method LogCall(k: FsLog, op: nat, b: int, data: Block, made: seq<nat>, ghost d: Disk, ghost x: Trace, ghost n0: nat,
                 ghost calls: seq<Call>) returns (made': seq<nat>, panicked: bool, ghost y: Trace)
    requires Follows(k, d, x) && made == x.s.ops && WfDisk(k.l, d) && Leaves(k.l, d, x.at, n0, calls)
    requires op < |made| && made[op] < MAXOPBLOCKS && k.l.Home(b)
    requires var z := After(k.l, Recovered(k.l, d), calls); Agrees(Recovered(k.l, d), x.s, z) && !z.panicked
    modifies k`n, k`cache, k.block
    ensures Follows(k, d, y) && made' == y.s.ops && Leaves(k.l, d, y.at, n0, calls + [LogCalls.Log(op, b, data)])
    ensures var z := After(k.l, Recovered(k.l, d), calls + [LogCalls.Log(op, b, data)]);
      Agrees(Recovered(k.l, d), y.s, z) && panicked == z.panicked
    ensures LOGSIZE < k.l.size ==> !panicked
  {
    hide Traced, Issued, WfDisk, Recovered, WfHistory, Replayed, Agrees, Leaves, After, Writes, WfRegions, Called, Absorb;
    ghost var home, c := Recovered(k.l, d), LogCalls.Log(op, b, data);
    AgreesOps(home, x.s, After(k.l, home, calls));
    AgreesLog(k.l, home, x.s, After(k.l, home, calls), op, b, data);
    LogMade(k.l, x.s, op, b, data);
    CallSnoc(k.l, home, calls, c);
    var ok;
    ok, y := Log(k, op, b, data, d, x);
    hide Do;
    made' := if ok then made[op := made[op] + 1] else made;
    panicked := !ok;
    LeavesSame(k.l, d, y.at, n0, calls, c);
  }

  lemma LogMade(l: Layout, s: State, op: nat, b: int, data: Block)
    requires Wf(l, s) && Enabled(l, s, LogWrite(op, b, data)) && !s.panicked
    ensures var t := Do(l, s, LogWrite(op, b, data)); !t.panicked ==> t.ops == s.ops[op := s.ops[op] + 1]
  {
  }

  method EndCall(k: FsLog, op: nat, made: seq<nat>, ghost d: Disk, ghost x: Trace, ghost n0: nat, ghost calls: seq<Call>)
    returns (made': seq<nat>, ghost y: Trace)
    requires Follows(k, d, x) && made == x.s.ops && WfDisk(k.l, d) && Leaves(k.l, d, x.at, n0, calls) && op < |made|
    requires var z := After(k.l, Recovered(k.l, d), calls); Agrees(Recovered(k.l, d), x.s, z) && !z.panicked
    modifies k, k.block
    ensures Follows(k, d, y) && made' == y.s.ops && Leaves(k.l, d, y.at, n0, calls + [LogCalls.End(op)])
    ensures var z := After(k.l, Recovered(k.l, d), calls + [LogCalls.End(op)]);
      Agrees(Recovered(k.l, d), y.s, z) && !z.panicked
  {
    hide Issued, WfDisk, Recovered, WfHistory, Replayed, Agrees, Leaves, After, Writes, Do, RecoverWrites, CrashHome;
    hide Inv, Reach, Point;
    ghost var home, l, c, j0 := Recovered(k.l, d), k.l, LogCalls.End(op), k.journal;
    ghost var z := After(l, home, calls);
    AgreesOps(home, x.s, z);
    HomeNow(l, d, k.journal, x);
    CallSnoc(l, home, calls, c);
    y := End(k, op, d, x);
    made' := made[..op] + made[op + 1..];
    HomeNow(l, d, k.journal, y);
    AgreesEnd(l, home, x.s, z, op, y.s);
    if |made| == 1 {
      AgreesHome(home, x.s, z);
      LeavesEnd(l, d, k.journal, x, y, n0, calls, c, x.s.pending);
    } else {
      assert |y.at| == |x.at|;
      assert y.at == x.at;
      LeavesSame(l, d, y.at, n0, calls, c);
    }
  }

  lemma AfterNone(l: Layout, home: map<int, Block>)
    ensures After(l, home, []) == Ledger([], {}, home, home, false)
  {
  }

  lemma PanicStays(l: Layout, z: Ledger, c: Call)
    requires z.panicked
    ensures Called(l, z, c) == z && Caused(z, c) == 0
  {
  }

  lemma HomeNow(l: Layout, d: Disk, journal: seq<Write>, x: Trace)
    requires Traced(l, d, journal, x) && x.s.phase.Up?
    ensures WfHistory(x.s) && WfDisk(l, x.s.disk) && Home(l, x.s.disk) == Replayed(Recovered(l, d), x.s.log)
    ensures |x.at| == |journal| + 1
  {
    var acts :| Runs(l, Boot(d), acts, x.s);
    CrashAtomicity(l, d, acts, x.s);
  }
}
