/**
 Whole runs of the log: system calls that interleave their begin_op, log_write
 and end_op, commits that reach the disk one block at a time, crashes between
 any two steps (a recovery's included), and the recoveries that follow.
 */
module LogRuns {
  import opened LogDisk

  datatype Phase =
    | Up
    | Committing(from: Disk, done: nat) // `done` writes of a commit that found the disk as `from`
    | Recovering(from: Disk, done: nat) // `done` writes of a recovery that found the disk as `from`

  datatype State = State(
    disk: Disk,
    phase: Phase,
    ops: seq<nat>, // outstanding operations: how many log_write calls each has made
    pending: Txn, // log.lh and the pinned buffers
    panicked: bool,
    log: seq<Txn>, // history: transactions handed to commit, without those a crash lost
    durable: nat, // history: how many of them are past their commit point
    returned: nat) // history: for how many the commit has returned

  datatype Action =
    | BeginOp
    | LogWrite(op: nat, b: int, data: Block)
    | EndOp(op: nat)
    | DiskWrite
    | Finish // the commit or recovery returns
    | Crash

  // The machine is switched on with some disk; recovery starts.
  ghost function Boot(d: Disk): State {
    State(d, Recovering(d, 0), [], Txn([], []), false, [], 0, 0)
  }

  ghost function Plan(l: Layout, s: State): seq<Write>
    requires s.phase.Up? || WfDisk(l, s.phase.from)
    requires s.phase.Committing? ==> WfTxn(l, s.pending)
  {
    match s.phase
    case Up => []
    case Committing(from, _) => CommitWrites(l, from[l.start], s.pending)
    case Recovering(from, _) => RecoverWrites(l, from)
  }

  ghost predicate Wf(l: Layout, s: State) {
    && l.Valid() && |s.disk| == l.blocks
    && WfTxn(l, s.pending)
    && (s.phase.Up? || WfDisk(l, s.phase.from))
  }

  // begin_op goes ahead when no commit runs and the reservation fits; an
  // operation makes at most MAXOPBLOCKS log_write calls, all on home blocks.
  ghost predicate Enabled(l: Layout, s: State, a: Action)
    requires Wf(l, s)
  {
    match a
    case BeginOp => s.phase.Up? && |s.pending.addrs| + (|s.ops| + 1) * MAXOPBLOCKS <= LOGSIZE
    case LogWrite(op, b, _) => !s.phase.Recovering? && op < |s.ops| && s.ops[op] < MAXOPBLOCKS && l.Home(b)
    case EndOp(op) => !s.phase.Recovering? && op < |s.ops|
    case DiskWrite => !s.phase.Up? && s.phase.done < |Plan(l, s)| && Plan(l, s)[s.phase.done].addr < |s.disk|
    case Finish => !s.phase.Up? && s.phase.done == |Plan(l, s)|
    case Crash => true
  }

  ghost function Do(l: Layout, s: State, a: Action): State
    requires Wf(l, s) && Enabled(l, s, a)
  {
    match a
    case BeginOp => s.(ops := s.ops + [0])
    case LogWrite(op, b, data) => DoLogWrite(l, s, op, b, data)
    case EndOp(op) => DoEndOp(s, op)
    case DiskWrite =>
      var w := Plan(l, s)[s.phase.done];
      var s' := s.(disk := s.disk[w.addr := w.data], phase := s.phase.(done := s.phase.done + 1));
      if s.phase.Committing? && s.phase.done == |s.pending.addrs| then s'.(durable := |s.log|) else s'
    case Finish => s.(phase := Up, pending := Txn([], []), returned := |s.log|)
    case Crash =>
      s.(phase := Recovering(s.disk, 0), ops := [], pending := Txn([], []), log := Prefix(s.log, s.durable))
  }

  ghost function DoLogWrite(l: Layout, s: State, op: nat, b: int, data: Block): State
    requires op < |s.ops| && |s.pending.addrs| == |s.pending.data|
  {
    if |s.pending.addrs| >= LOGSIZE || |s.pending.addrs| >= l.size - 1 then s.(panicked := true)
    else s.(ops := s.ops[op := s.ops[op] + 1], pending := Absorb(s.pending, b, data))
  }

  ghost function DoEndOp(s: State, op: nat): State
    requires op < |s.ops|
  {
    var ops := s.ops[..op] + s.ops[op + 1..];
    if s.phase.Committing? then s.(ops := ops, panicked := true)
    else if ops != [] then s.(ops := ops)
    else
      var log := s.log + [s.pending];
      s.(ops := ops, phase := Committing(s.disk, 0), log := log,
         durable := if s.pending.addrs == [] then |log| else s.durable)
  }

  ghost function Prefix(log: seq<Txn>, k: nat): seq<Txn> {
    if k <= |log| then log[..k] else log
  }

  // Home blocks after a list of transactions, in order.
  ghost function Replayed(home: map<int, Block>, log: seq<Txn>): map<int, Block>
    requires forall i | 0 <= i < |log| :: |log[i].addrs| == |log[i].data|
  {
    if log == [] then home
    else Updated(Replayed(home, log[..|log| - 1]), log[|log| - 1])
  }

  // ---- The invariant ----

  // log_write calls the outstanding operations may still make.
  ghost function Reserved(ops: seq<nat>): int {
    if ops == [] then 0 else MAXOPBLOCKS - ops[0] + Reserved(ops[1..])
  }

  ghost predicate Reservation(s: State) {
    && (forall i | 0 <= i < |s.ops| :: s.ops[i] <= MAXOPBLOCKS)
    && |s.pending.addrs| + Reserved(s.ops) <= LOGSIZE
    && Distinct(s.pending.addrs)
    && (!s.phase.Up? ==> s.ops == [])
  }

  ghost predicate WfHistory(s: State) {
    && s.returned <= s.durable <= |s.log|
    && forall i | 0 <= i < |s.log| :: |s.log[i].addrs| == |s.log[i].data|
  }

  ghost predicate Durability(l: Layout, home: map<int, Block>, s: State)
    requires Wf(l, s) && WfHistory(s)
  {
    var n := |s.log|;
    match s.phase
    case Up => s.durable == n && Empty(l, s.disk) && Home(l, s.disk) == Replayed(home, s.log)
    case Committing(from, done) =>
      && n > 0 && s.log[n - 1] == s.pending
      && Empty(l, from) && Home(l, from) == Replayed(home, s.log[..n - 1])
      && CommitAt(l, from, s.pending, done, s.disk)
      && s.durable == (if done <= |s.pending.addrs| && s.pending.addrs != [] then n - 1 else n)
    case Recovering(from, done) =>
      && s.durable == n && Recovered(l, from) == Replayed(home, s.log)
      && RecoverAt(l, from, done, s.disk)
  }

  ghost predicate Inv(l: Layout, home: map<int, Block>, s: State) {
    Wf(l, s) && Reservation(s) && WfHistory(s) && Durability(l, home, s)
  }

  // What the invariant means for the disk in any phase: the home blocks a
  // recovery would give are those after the durable transactions.
  lemma DurableHome(l: Layout, home: map<int, Block>, s: State)
    requires Inv(l, home, s)
    ensures WfDisk(l, s.disk)
    ensures Recovered(l, s.disk) == Replayed(home, s.log[..s.durable])
  {
    var n := |s.log|;
    assert s.log[..n] == s.log;
    match s.phase
    case Up =>
      assert Home(l, s.disk) + map[] == Home(l, s.disk);
    case Committing(from, done) =>
      if s.pending.addrs == [] {
        CommitNothing(l, from, s.pending, done, s.disk);
        assert Home(l, from) + map[] == Home(l, from);
      } else {
        CommitCrashPoint(l, from, s.pending, done, s.disk);
      }
    case Recovering(from, done) =>
      RecoverCrashPoint(l, from, done, s.disk);
  }

  // ---- Every step keeps it ----

  lemma BootInv(l: Layout, d: Disk)
    requires WfDisk(l, d)
    ensures Inv(l, Recovered(l, d), Boot(d))
  {
    RecoverStart(l, d);
  }

  lemma {:induction false} ReservedUpdate(ops: seq<nat>, i: nat)
    requires i < |ops|
    ensures Reserved(ops[i := ops[i] + 1]) == Reserved(ops) - 1
  {
    if i > 0 {
      assert ops[i := ops[i] + 1][1..] == ops[1..][i - 1 := ops[1..][i - 1] + 1];
      ReservedUpdate(ops[1..], i - 1);
    } else {
      assert ops[i := ops[i] + 1][1..] == ops[1..];
    }
  }

  lemma {:induction false} ReservedRemove(ops: seq<nat>, i: nat)
    requires i < |ops|
    ensures Reserved(ops[..i] + ops[i + 1..]) == Reserved(ops) - (MAXOPBLOCKS - ops[i])
  {
    var r := ops[..i] + ops[i + 1..];
    if i > 0 {
      assert r[1..] == ops[1..][..i - 1] + ops[1..][i..];
      ReservedRemove(ops[1..], i - 1);
    } else {
      assert r == ops[1..];
    }
  }

  lemma {:induction false} ReservedAppend(ops: seq<nat>)
    ensures Reserved(ops + [0]) == Reserved(ops) + MAXOPBLOCKS
  {
    if ops == [] {
      assert ([] + [0])[1..] == [];
    } else {
      assert (ops + [0])[1..] == ops[1..] + [0];
      ReservedAppend(ops[1..]);
    }
  }

  lemma {:induction false} ReservedBounds(ops: seq<nat>)
    requires forall i | 0 <= i < |ops| :: ops[i] <= MAXOPBLOCKS
    ensures 0 <= Reserved(ops) <= |ops| * MAXOPBLOCKS
    ensures forall i | 0 <= i < |ops| :: MAXOPBLOCKS - ops[i] <= Reserved(ops)
  {
    if ops != [] {
      ReservedBounds(ops[1..]);
      forall i | 0 <= i < |ops| ensures MAXOPBLOCKS - ops[i] <= Reserved(ops) {
        if i > 0 {
          assert ops[i] == ops[1..][i - 1];
        }
      }
    }
  }

  lemma BeginOpInv(l: Layout, home: map<int, Block>, s: State)
    requires Inv(l, home, s) && Enabled(l, s, BeginOp)
    ensures Inv(l, home, Do(l, s, BeginOp))
  {
    ReservedAppend(s.ops);
    ReservedBounds(s.ops);
  }

  lemma LogWriteInv(l: Layout, home: map<int, Block>, s: State, op: nat, b: int, data: Block)
    requires Inv(l, home, s) && Enabled(l, s, LogWrite(op, b, data))
    ensures Inv(l, home, Do(l, s, LogWrite(op, b, data)))
    ensures LOGSIZE < l.size ==> !s.panicked ==> !Do(l, s, LogWrite(op, b, data)).panicked
  {
    ReservedUpdate(s.ops, op);
    ReservedBounds(s.ops);
  }

  lemma EndOpInv(l: Layout, home: map<int, Block>, s: State, op: nat)
    requires Inv(l, home, s) && Enabled(l, s, EndOp(op))
    ensures Inv(l, home, Do(l, s, EndOp(op)))
    ensures !s.panicked ==> !Do(l, s, EndOp(op)).panicked
  {
    ReservedRemove(s.ops, op);
    if s.ops[..op] + s.ops[op + 1..] == [] {
      LastOpInv(l, home, s);
    }
  }

  lemma LastOpInv(l: Layout, home: map<int, Block>, s: State)
    requires Inv(l, home, s) && s.phase.Up? && |s.pending.addrs| <= LOGSIZE
    ensures var log := s.log + [s.pending];
            Inv(l, home, s.(ops := [], phase := Committing(s.disk, 0), log := log,
                            durable := if s.pending.addrs == [] then |log| else s.durable))
  {
    assert (s.log + [s.pending])[..|s.log|] == s.log;
    CommitStart(l, s.disk, s.pending);
  }

  lemma CommitWriteShape(l: Layout, home: map<int, Block>, s: State)
    requires Inv(l, home, s) && s.phase.Committing? && Enabled(l, s, DiskWrite)
    ensures var s' := Do(l, s, DiskWrite);
            && s'.phase == Committing(s.phase.from, s.phase.done + 1)
            && s' == s.(disk := s'.disk, phase := s'.phase, durable := s'.durable)
            && s'.durable == (if s.phase.done == |s.pending.addrs| then |s.log| else s.durable)
            && s.pending.addrs != []
            && CommitAt(l, s.phase.from, s.pending, s.phase.done + 1, s'.disk)
  {
    hide CommitAt, Home, Replayed, Reserved, WfRegions, LogWrites, EraseWrites;
    CommitNext(l, s.phase.from, s.pending, s.phase.done, s.disk);
  }

  lemma CommitWriteInv(l: Layout, home: map<int, Block>, s: State)
    requires Inv(l, home, s) && s.phase.Committing? && Enabled(l, s, DiskWrite)
    ensures Inv(l, home, Do(l, s, DiskWrite))
  {
    CommitWriteShape(l, home, s);
  }

  lemma RecoverWriteInv(l: Layout, home: map<int, Block>, s: State)
    requires Inv(l, home, s) && s.phase.Recovering? && Enabled(l, s, DiskWrite)
    ensures Inv(l, home, Do(l, s, DiskWrite))
  {
    RecoverNext(l, s.phase.from, s.phase.done, s.disk);
  }

  lemma FinishRecoverInv(l: Layout, home: map<int, Block>, s: State)
    requires Inv(l, home, s) && Enabled(l, s, Finish) && s.phase.Recovering?
    ensures Inv(l, home, Do(l, s, Finish))
  {
    RecoverCrashPoint(l, s.phase.from, s.phase.done, s.disk);
  }

  lemma FinishCommitInv(l: Layout, home: map<int, Block>, s: State)
    requires Inv(l, home, s) && Enabled(l, s, Finish) && s.phase.Committing?
    ensures Inv(l, home, Do(l, s, Finish))
  {
    if s.pending.addrs == [] {
      CommitNothing(l, s.phase.from, s.pending, s.phase.done, s.disk);
      assert Home(l, s.disk) + map[] == Home(l, s.disk);
    } else {
      CommitCount(l, s.phase.from[l.start], s.pending);
      CommitCrashPoint(l, s.phase.from, s.pending, s.phase.done, s.disk);
    }
  }

  lemma FinishInv(l: Layout, home: map<int, Block>, s: State)
    requires Inv(l, home, s) && Enabled(l, s, Finish)
    ensures Inv(l, home, Do(l, s, Finish))
  {
    if s.phase.Recovering? {
      FinishRecoverInv(l, home, s);
    } else {
      FinishCommitInv(l, home, s);
    }
  }

  lemma RebootInv(l: Layout, home: map<int, Block>, d: Disk, log: seq<Txn>, s: State)
    requires WfDisk(l, d) && (forall i | 0 <= i < |log| :: |log[i].addrs| == |log[i].data|)
    requires Recovered(l, d) == Replayed(home, log) && s.returned <= |log|
    ensures Inv(l, home, State(d, Recovering(d, 0), [], Txn([], []), s.panicked, log, |log|, s.returned))
  {
    RecoverStart(l, d);
  }

  lemma CrashInv(l: Layout, home: map<int, Block>, s: State)
    requires Inv(l, home, s)
    ensures Inv(l, home, Do(l, s, Crash))
  {
    DurableHome(l, home, s);
    RebootInv(l, home, s.disk, s.log[..s.durable], s);
  }

  lemma StepInv(l: Layout, home: map<int, Block>, s: State, a: Action)
    requires Inv(l, home, s) && Enabled(l, s, a)
    ensures Inv(l, home, Do(l, s, a))
    ensures LOGSIZE < l.size ==> !s.panicked ==> !Do(l, s, a).panicked
  {
    match a
    case BeginOp => BeginOpInv(l, home, s);
    case LogWrite(op, b, data) => LogWriteInv(l, home, s, op, b, data);
    case EndOp(op) => EndOpInv(l, home, s, op);
    case DiskWrite =>
      if s.phase.Committing? {
        CommitWriteInv(l, home, s);
      } else {
        RecoverWriteInv(l, home, s);
      }
    case Finish => FinishInv(l, home, s);
    case Crash => CrashInv(l, home, s);
  }

  // A commit or a recovery under way can always go on: its next write is in bounds.
  lemma NeverStuck(l: Layout, home: map<int, Block>, s: State)
    requires Inv(l, home, s) && !s.phase.Up?
    ensures Enabled(l, s, DiskWrite) || Enabled(l, s, Finish)
  {
    if s.phase.Committing? {
      CommitGoesOn(l, s.phase.from, s.pending, s.phase.done, s.disk);
    } else {
      RecoverGoesOn(l, s.phase.from, s.phase.done, s.disk);
    }
  }

  lemma RecoverGoesOn(l: Layout, d: Disk, k: nat, e: Disk)
    requires WfDisk(l, d) && RecoverAt(l, d, k, e)
    ensures k <= |RecoverWrites(l, d)|
    ensures k < |RecoverWrites(l, d)| ==> RecoverWrites(l, d)[k].addr < |e|
  {
    if k < |RecoverWrites(l, d)| {
      RecoverNext(l, d, k, e);
    }
  }

  lemma CommitGoesOn(l: Layout, d: Disk, t: Txn, k: nat, e: Disk)
    requires Empty(l, d) && WfTxn(l, t) && CommitAt(l, d, t, k, e)
    ensures k <= |CommitWrites(l, d[l.start], t)|
    ensures k < |CommitWrites(l, d[l.start], t)| ==> CommitWrites(l, d[l.start], t)[k].addr < |e|
  {
    if t.addrs != [] {
      CommitCount(l, d[l.start], t);
      if k < |CommitWrites(l, d[l.start], t)| {
        CommitNext(l, d, t, k, e);
      }
    }
  }

  // ---- Runs ----

  ghost predicate Runs(l: Layout, s: State, acts: seq<Action>, s': State)
    decreases |acts|
  {
    if acts == [] then s' == s
    else Wf(l, s) && Enabled(l, s, acts[0]) && Runs(l, Do(l, s, acts[0]), acts[1..], s')
  }

  lemma {:induction false} RunInv(l: Layout, home: map<int, Block>, s: State, acts: seq<Action>, s': State)
    requires Inv(l, home, s) && Runs(l, s, acts, s')
    ensures Inv(l, home, s')
    ensures LOGSIZE < l.size ==> !s.panicked ==> !s'.panicked
    decreases |acts|
  {
    if acts != [] {
      StepInv(l, home, s, acts[0]);
      RunInv(l, home, Do(l, s, acts[0]), acts[1..], s');
    }
  }

  // Crash atomicity over every run: at every point the disk stands for the
  // transactions past their commit point, a prefix of those committed that
  // includes every one whose commit returned; and whenever no commit or
  // recovery is under way the home blocks hold exactly those.
  lemma CrashAtomicity(l: Layout, d: Disk, acts: seq<Action>, s: State)
    requires WfDisk(l, d) && Runs(l, Boot(d), acts, s)
    ensures WfDisk(l, s.disk) && WfHistory(s)
    ensures Recovered(l, s.disk) == Replayed(Recovered(l, d), s.log[..s.durable])
    ensures s.phase.Up? ==> s.durable == |s.log| && Home(l, s.disk) == Replayed(Recovered(l, d), s.log)
  {
    BootInv(l, d);
    RunInv(l, Recovered(l, d), Boot(d), acts, s);
    DurableHome(l, Recovered(l, d), s);
  }

  lemma ReturnedKept(l: Layout, home: map<int, Block>, s: State, a: Action)
    requires Inv(l, home, s) && Enabled(l, s, a)
    ensures var m := Do(l, s, a);
            s.returned <= m.returned && s.returned <= |m.log| && m.log[..s.returned] == s.log[..s.returned]
  {
    match a
    case EndOp(op) =>
      assert (s.log + [s.pending])[..s.returned] == s.log[..s.returned];
    case Crash =>
      assert s.log[..s.durable][..s.returned] == s.log[..s.returned];
    case BeginOp =>
    case LogWrite(op, b, data) =>
    case DiskWrite =>
    case Finish =>
  }

  lemma PrefixThrough(a: seq<Txn>, b: seq<Txn>, c: seq<Txn>, i: nat, j: nat)
    requires i <= j && i <= |a| && j <= |b| && j <= |c|
    requires b[..i] == a[..i] && c[..j] == b[..j]
    ensures c[..i] == a[..i]
  {
    assert c[..i] == c[..j][..i];
    assert b[..i] == b[..j][..i];
  }

  // A transaction whose commit returned stays where it is, whatever happens next.
  lemma {:induction false} ReturnedSurvive(l: Layout, home: map<int, Block>, s: State, acts: seq<Action>, s': State)
    requires Inv(l, home, s) && Runs(l, s, acts, s')
    ensures s.returned <= s'.returned <= |s'.log| && s.returned <= |s.log|
    ensures s'.log[..s.returned] == s.log[..s.returned]
    decreases |acts|
  {
    if acts != [] {
      var m := Do(l, s, acts[0]);
      StepInv(l, home, s, acts[0]);
      ReturnedKept(l, home, s, acts[0]);
      ReturnedSurvive(l, home, m, acts[1..], s');
      PrefixThrough(s.log, m.log, s'.log, s.returned, m.returned);
    }
  }

  // Reservation over every run: the log has room for everything the
  // outstanding operations may still log, no block is logged twice, and no
  // operation is outstanding while a commit runs.
  lemma LogReservation(l: Layout, d: Disk, acts: seq<Action>, s: State)
    requires WfDisk(l, d) && Runs(l, Boot(d), acts, s)
    ensures |s.pending.addrs| + Reserved(s.ops) <= LOGSIZE
    ensures Distinct(s.pending.addrs)
    ensures s.phase.Committing? ==> s.ops == []
  {
    BootInv(l, d);
    RunInv(l, Recovered(l, d), Boot(d), acts, s);
  }

  // ---- The size panic ----

  ghost predicate PanicFree(l: Layout) {
    forall d, acts, s :: WfDisk(l, d) && Runs(l, Boot(d), acts, s) ==> !s.panicked
  }

  // No run panics exactly when the log region is larger than LOGSIZE. mkfs
  // makes it LOGSIZE blocks, header included, so there one can.
  lemma PanicFreeIff(l: Layout)
    requires l.Valid() && 2 * l.size <= l.blocks
    ensures PanicFree(l) <==> LOGSIZE < l.size
  {
    if LOGSIZE < l.size {
      forall d, acts, s | WfDisk(l, d) && Runs(l, Boot(d), acts, s) ensures !s.panicked {
        BootInv(l, d);
        RunInv(l, Recovered(l, d), Boot(d), acts, s);
      }
    } else {
      var d, acts, s := PanickingRun(l);
      assert WfDisk(l, d) && Runs(l, Boot(d), acts, s);
    }
  }

  // The j-th home block.
  ghost function HomeBlock(l: Layout, j: nat): int {
    if j < l.start then j else l.size + j
  }

  ghost function Zero(): Block {
    seq(WORDS, i => 0)
  }

  // Operation j / MAXOPBLOCKS logs the j-th home block.
  ghost function Logging(l: Layout, j: nat): Action {
    LogWrite(j / MAXOPBLOCKS, HomeBlock(l, j), Zero())
  }

  // Three operations that have logged the first k home blocks between them.
  ghost predicate Filled(l: Layout, s: State, k: nat) {
    && Wf(l, s) && s.phase.Up? && !s.panicked && k <= LOGSIZE
    && s.pending.addrs == seq(k, (j: nat) => HomeBlock(l, j))
    && |s.ops| == 3
    && s.ops[0] == Used(k, 0) && s.ops[1] == Used(k, 1) && s.ops[2] == Used(k, 2)
  }

  ghost function Used(k: nat, op: nat): nat {
    if k <= op * MAXOPBLOCKS then 0
    else if k < (op + 1) * MAXOPBLOCKS then k - op * MAXOPBLOCKS
    else MAXOPBLOCKS
  }

  lemma HomeBlocks(l: Layout, j: nat)
    requires l.Valid() && j + l.size < l.blocks
    ensures l.Home(HomeBlock(l, j))
    ensures forall i: nat | i < j :: HomeBlock(l, i) != HomeBlock(l, j)
  {
  }

  lemma FillStep(l: Layout, s: State, k: nat)
    requires Filled(l, s, k) && k < LOGSIZE && k + l.size < l.blocks
    ensures Enabled(l, s, Logging(l, k))
    ensures k < l.size - 1 ==> Filled(l, Do(l, s, Logging(l, k)), k + 1)
    ensures k >= l.size - 1 ==> Do(l, s, Logging(l, k)).panicked
  {
    HomeBlocks(l, k);
    var op := k / MAXOPBLOCKS;
    assert op * MAXOPBLOCKS <= k < (op + 1) * MAXOPBLOCKS && op < 3;
    if k < l.size - 1 {
      assert HomeBlock(l, k) !in s.pending.addrs;
      var s' := Do(l, s, Logging(l, k));
      assert s'.pending.addrs == seq(k + 1, (j: nat) => HomeBlock(l, j));
    }
  }

  // Fill the log until log_write panics.
  lemma {:induction false} FillUp(l: Layout, s: State, k: nat) returns (acts: seq<Action>, s': State)
    requires Filled(l, s, k) && k < l.size <= LOGSIZE && 2 * l.size <= l.blocks
    ensures Runs(l, s, acts, s') && s'.panicked
    decreases l.size - k
  {
    FillStep(l, s, k);
    var m := Do(l, s, Logging(l, k));
    if k == l.size - 1 {
      acts, s' := [Logging(l, k)], m;
      assert acts[1..] == [];
    } else {
      var rest;
      rest, s' := FillUp(l, m, k + 1);
      acts := [Logging(l, k)] + rest;
      assert acts[1..] == rest;
    }
  }

  lemma PanickingRun(l: Layout) returns (d: Disk, acts: seq<Action>, s: State)
    requires l.Valid() && 2 * l.size <= l.blocks && l.size <= LOGSIZE
    ensures WfDisk(l, d) && Runs(l, Boot(d), acts, s) && s.panicked
  {
    d := seq(l.blocks, i => Zero());
    BootInv(l, d);
    var s0 := Boot(d);
    var home := Recovered(l, d);
    assert |RecoverWrites(l, d)| == 1;
    NeverStuck(l, home, s0);
    StepInv(l, home, s0, DiskWrite);
    var s1 := Do(l, s0, DiskWrite);
    StepInv(l, home, s1, Finish);
    var s2 := Do(l, s1, Finish);
    var s3 := Do(l, s2, BeginOp);
    var s4 := Do(l, s3, BeginOp);
    var s5 := Do(l, s4, BeginOp);
    var rest;
    rest, s := FillUp(l, s5, 0);
    var a4 := RunOn(l, s4, BeginOp, rest, s);
    var a3 := RunOn(l, s3, BeginOp, a4, s);
    var a2 := RunOn(l, s2, BeginOp, a3, s);
    var a1 := RunOn(l, s1, Finish, a2, s);
    acts := RunOn(l, s0, DiskWrite, a1, s);
  }

  lemma RunOn(l: Layout, s: State, a: Action, rest: seq<Action>, s': State) returns (acts: seq<Action>)
    requires Wf(l, s) && Enabled(l, s, a) && Runs(l, Do(l, s, a), rest, s')
    ensures Runs(l, s, acts, s')
  {
    acts := [a] + rest;
    assert acts[1..] == rest;
  }
}
