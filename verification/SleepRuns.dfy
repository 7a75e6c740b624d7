/**
 Sleeping and waking in os/memory-assignment: processes run the system calls of proc.c and
 the sleep locks of sleeplock.c, interleaved in any way the spin locks allow. What runs with
 ptable.lock held from beginning to end is one step; sleep(lk, &lk->lk) and wakeup(lk), which
 hold two locks in part, are several.
 */
module SleepRuns {
  import opened ProcTable

  // Where a process is.
  datatype Pc =
    | User
    | ForkNew(np: nat)      // np allocated, not yet filled in
    | ForkReady(np: nat)    // np filled in, not yet runnable
    | WaitScan              // in wait, about to look through the table
    | WaitAsleep            // in wait, asleep or woken
    | AcqSpin(l: nat)       // about to take the spin lock of sleep lock l
    | AcqTest(l: nat)       // holding it
    | AcqSleep1(l: nat)     // in sleep, about to take ptable.lock
    | AcqSleep2(l: nat)     // holding both
    | AcqSleep3(l: nat)     // holding ptable.lock only
    | AcqAsleep(l: nat)     // asleep or woken
    | RelSpin(l: nat)       // in releasesleep, about to take the spin lock
    | RelClear(l: nat)      // holding it
    | RelWake(l: nat)       // unlocked, about to wake the sleepers
    | RelEnd(l: nat)        // about to let go of the spin lock

  // A sleep lock: its spin lock's holder, its fields, and who took it last and keeps it.
  datatype Lock = Lock(spin: int, locked: bool, pid: nat, owner: int)

  datatype State = State(ps: seq<Slot>, pc: seq<Pc>, maker: seq<int>, locks: seq<Lock>, ptable: int, init: nat,
      nextpid: nat)

  datatype Action =
    | Resume(p: nat) | Yield(p: nat)
    | Fork(p: nat) | ForkFail(p: nat) | ForkFill(p: nat) | ForkRun(p: nat)
    | Exit(p: nat) | Wait(p: nat) | Scan(p: nat) | Kill(p: nat, pid: nat)
    | Acquire(p: nat, l: nat) | Release(p: nat, l: nat) | Go(p: nat)

  ghost predicate HoldsSpin(pc: Pc, l: nat) {
    pc == AcqTest(l) || pc == AcqSleep1(l) || pc == AcqSleep2(l) || pc == RelClear(l) || pc == RelWake(l) || pc == RelEnd(l)
  }

  ghost predicate HoldsSome(pc: Pc) {
    pc.AcqTest? || pc.AcqSleep1? || pc.AcqSleep2? || pc.AcqSleep3? || pc.RelClear? || pc.RelWake? || pc.RelEnd?
  }

  ghost predicate HoldsTable(pc: Pc) {
    pc.AcqSleep2? || pc.AcqSleep3?
  }

  ghost predicate OwnsNothing(s: State, p: nat) {
    forall l :: 0 <= l < |s.locks| ==> s.locks[l].owner != p
  }

  ghost function SetPc(s: State, p: nat, pc: Pc): State
    requires p < |s.pc|
  {
    s.(pc := s.pc[p := pc])
  }

  ghost predicate Sizes(s: State) {
    |s.ps| == |s.pc| == |s.maker| && s.init < |s.ps|
  }

  // Whether the action can be taken.
  ghost predicate Enabled(s: State, a: Action) {
    && Sizes(s) && a.p < |s.ps|
    && var p := a.p;
      if a.Resume? then s.ps[p].st == Runnable && s.ptable == Nobody
      else
        && s.ps[p].st == Running
        && match a
          case Yield(_) => s.ptable == Nobody && !HoldsSome(s.pc[p])
          case Fork(_) => s.pc[p] == User && s.ptable == Nobody
          case ForkFail(_) => s.pc[p].ForkNew?
          case ForkFill(_) => s.pc[p].ForkNew?
          case ForkRun(_) => s.pc[p].ForkReady? && s.ptable == Nobody
          case Exit(_) => s.pc[p] == User && s.ptable == Nobody && p != s.init && OwnsNothing(s, p)
          case Wait(_) => s.pc[p] == User
          case Scan(_) => s.pc[p] == WaitScan && s.ptable == Nobody
          case Kill(_, _) => s.pc[p] == User && s.ptable == Nobody
          case Acquire(_, l) => s.pc[p] == User && l < |s.locks|
          case Release(_, l) => s.pc[p] == User && l < |s.locks| && s.locks[l].owner == p
          case Go(_) => GoEnabled(s, p)
  }

  // The next instruction of a process inside acquiresleep or releasesleep.
  ghost predicate GoEnabled(s: State, p: nat)
    requires Sizes(s) && p < |s.ps|
  {
    match s.pc[p]
    case AcqSpin(l) => l < |s.locks| && s.locks[l].spin == Nobody
    case AcqTest(l) => l < |s.locks|
    case AcqSleep1(l) => s.ptable == Nobody
    case AcqSleep2(l) => l < |s.locks|
    case AcqSleep3(l) => true
    case RelSpin(l) => l < |s.locks| && s.locks[l].spin == Nobody
    case RelClear(l) => l < |s.locks|
    case RelWake(l) => s.ptable == Nobody
    case RelEnd(l) => l < |s.locks|
    case _ => false
  }

  ghost function GoOn(s: State, p: nat): State
    requires Sizes(s) && p < |s.ps| && GoEnabled(s, p)
  {
    match s.pc[p]
    case AcqSpin(l) => SetPc(s, p, AcqTest(l)).(locks := s.locks[l := s.locks[l].(spin := p)])
    case AcqTest(l) =>
      if s.locks[l].locked then SetPc(s, p, AcqSleep1(l))
      else SetPc(s, p, User).(locks := s.locks[l := Lock(Nobody, true, s.ps[p].pid, p)])
    case AcqSleep1(l) => SetPc(s, p, AcqSleep2(l)).(ptable := p)
    case AcqSleep2(l) => SetPc(s, p, AcqSleep3(l)).(locks := s.locks[l := s.locks[l].(spin := Nobody)])
    case AcqSleep3(l) =>
      SetPc(s, p, AcqAsleep(l)).(ps := s.ps[p := s.ps[p].(chan := LockChan(l), st := Sleeping)], ptable := Nobody)
    case RelSpin(l) => SetPc(s, p, RelClear(l)).(locks := s.locks[l := s.locks[l].(spin := p)])
    case RelClear(l) => SetPc(s, p, RelWake(l)).(locks := s.locks[l := Lock(s.locks[l].spin, false, 0, Nobody)])
    case RelWake(l) => SetPc(s, p, RelEnd(l)).(ps := Woken(s.ps, LockChan(l)))
    case RelEnd(l) => SetPc(s, p, User).(locks := s.locks[l := s.locks[l].(spin := Nobody)])
  }

  // After sleep returns: wait looks again, acquiresleep takes the spin lock again.
  ghost function Awake(pc: Pc): Pc {
    match pc
    case WaitAsleep => WaitScan
    case AcqAsleep(l) => AcqSpin(l)
    case _ => pc
  }

  ghost function Step(s: State, a: Action): State
    requires Enabled(s, a)
  {
    var p := a.p;
    match a
    case Resume(_) => SetPc(s, p, Awake(s.pc[p])).(ps := s.ps[p := s.ps[p].(st := Running, chan := NoChan)])
    case Yield(_) => s.(ps := s.ps[p := s.ps[p].(st := Runnable)])
    case Fork(_) =>
      var np := FreeFrom(s.ps, 0);
      if np == |s.ps| then s
      else SetPc(s, p, ForkNew(np)).(ps := Allocated(s.ps, s.nextpid), maker := s.maker[np := p],
          nextpid := s.nextpid + 1)
    case ForkFail(_) =>
      var np := s.pc[p].np;
      if np < |s.ps| then SetPc(s, p, User).(ps := s.ps[np := s.ps[np].(st := Unused)]) else s
    case ForkFill(_) =>
      var np := s.pc[p].np;
      if np < |s.ps| then SetPc(s, p, ForkReady(np)).(ps := s.ps[np := s.ps[np].(parent := p)]) else s
    case ForkRun(_) =>
      var np := s.pc[p].np;
      if np < |s.ps| then SetPc(s, p, User).(ps := s.ps[np := s.ps[np].(st := Runnable)]) else s
    case Exit(_) => s.(ps := Exited(s.ps, p, s.init))
    case Wait(_) => SetPc(s, p, WaitScan)
    case Scan(_) => SetPc(s, p, if WaitRoundOf(s.ps, p).Sleep? then WaitAsleep else User).(ps := AfterRound(s.ps, p))
    case Kill(_, pid) => s.(ps := Killed(s.ps, pid))
    case Acquire(_, l) => SetPc(s, p, AcqSpin(l))
    case Release(_, l) => SetPc(s, p, RelSpin(l))
    case Go(_) => GoOn(s, p)
  }

  // ---- The invariant ----

  // What a process's place says about its state.
  ghost predicate PlaceOk(s: State, i: nat)
    requires Sizes(s) && i < |s.ps|
  {
    var x, pc := s.ps[i], s.pc[i];
    && (pc != User ==> Alive(x)) && (HoldsSome(pc) || pc.ForkNew? || pc.ForkReady? ==> x.st != Sleeping)
    && (HoldsSome(pc) ==> x.st == Running)
    && (x.st == Sleeping ==> (pc == WaitAsleep && x.chan == ProcChan(i)) || (pc.AcqAsleep? && x.chan == LockChan(pc.l)))
    && (pc.WaitAsleep? || pc.AcqAsleep? ==> x.st != Running)
    && (HoldsTable(pc) <==> s.ptable == i)
  }

  // The family tree.
  ghost predicate TreeOk(s: State, i: nat)
    requires Sizes(s) && i < |s.ps|
  {
    var x := s.ps[i];
    && Nobody <= x.parent < |s.ps| && x.parent != i
    && (x.parent != Nobody ==> Alive(s.ps[x.parent]))
    && (x.st == Unused ==> x.parent == Nobody)
    && (i == s.init ==> Alive(x) && x.parent == Nobody)
    && ((Alive(x) || x.st == Zombie) && i != s.init ==> x.parent != Nobody)
    && (x.st == Zombie ==> x.parent != Nobody && !(s.ps[x.parent].st == Sleeping && s.pc[x.parent] == WaitAsleep))
    && (x.st == Embryo ==>
      && 0 <= s.maker[i] < |s.ps|
      && if x.parent == Nobody then s.pc[s.maker[i]] == ForkNew(i) else s.pc[s.maker[i]] == ForkReady(i) && x.parent == s.maker[i])
    && (s.pc[i].ForkNew? || s.pc[i].ForkReady? ==>
      s.pc[i].np < |s.ps| && s.ps[s.pc[i].np].st == Embryo && s.maker[s.pc[i].np] == i)
  }

  // Somebody has unlocked l and is about to wake its sleepers.
  ghost predicate WakeComing(s: State, l: nat)
    requires l < |s.locks|
  {
    0 <= s.locks[l].spin < |s.pc| && s.pc[s.locks[l].spin] == RelWake(l)
  }

  ghost predicate LockPcOk(s: State, i: nat)
    requires Sizes(s) && i < |s.ps|
  {
    match s.pc[i]
    case AcqSpin(l) => l < |s.locks|
    case AcqTest(l) => l < |s.locks| && s.locks[l].spin == i
    case AcqSleep1(l) => l < |s.locks| && s.locks[l].spin == i && s.locks[l].locked
    case AcqSleep2(l) => l < |s.locks| && s.locks[l].spin == i && s.locks[l].locked
    case AcqSleep3(l) => l < |s.locks| && (s.locks[l].locked || WakeComing(s, l))
    case AcqAsleep(l) => l < |s.locks| && (s.ps[i].st == Sleeping ==> s.locks[l].locked || WakeComing(s, l))
    case RelSpin(l) => l < |s.locks| && s.locks[l].owner == i
    case RelClear(l) => l < |s.locks| && s.locks[l].spin == i && s.locks[l].owner == i
    case RelWake(l) => l < |s.locks| && s.locks[l].spin == i
    case RelEnd(l) => l < |s.locks| && s.locks[l].spin == i
    case _ => true
  }

  ghost predicate LockOk(s: State, l: nat)
    requires Sizes(s) && l < |s.locks|
  {
    var k := s.locks[l];
    && (k.spin == Nobody || (0 <= k.spin < |s.pc| && HoldsSpin(s.pc[k.spin], l)))
    && (k.locked <==> k.owner != Nobody)
    && (k.owner != Nobody ==> 0 <= k.owner < |s.ps| && Alive(s.ps[k.owner]) && k.pid == s.ps[k.owner].pid)
  }

  // Live processes have different pids, all given out already.
  ghost predicate PidOk(s: State, i: nat)
    requires Sizes(s) && i < |s.ps|
  {
    s.ps[i].st != Unused ==>
      && 0 < s.ps[i].pid < s.nextpid
      && forall j :: 0 <= j < |s.ps| && j != i && s.ps[j].st != Unused ==> s.ps[j].pid != s.ps[i].pid
  }

  ghost predicate Places(s: State)
    requires Sizes(s)
  {
    && (s.ptable == Nobody || (0 <= s.ptable < |s.ps| && HoldsTable(s.pc[s.ptable])))
    && forall i :: 0 <= i < |s.ps| ==> PlaceOk(s, i)
  }

  ghost predicate Trees(s: State)
    requires Sizes(s)
  {
    forall i :: 0 <= i < |s.ps| ==> TreeOk(s, i)
  }

  ghost predicate Locks(s: State)
    requires Sizes(s)
  {
    (forall i :: 0 <= i < |s.ps| ==> LockPcOk(s, i)) && (forall l :: 0 <= l < |s.locks| ==> LockOk(s, l))
  }

  ghost predicate Pids(s: State)
    requires Sizes(s)
  {
    s.nextpid > 0 && forall i :: 0 <= i < |s.ps| ==> PidOk(s, i)
  }

  ghost predicate Inv(s: State) {
    Sizes(s) && Places(s) && Trees(s) && Locks(s) && Pids(s)
  }

  // ---- What a step that does not concern a part leaves of it ----

  ghost predicate SameSizes(s: State, t: State) {
    Sizes(s) && Sizes(t) && |s.ps| == |t.ps| && s.init == t.init
  }

  lemma PidsKept(s: State, t: State)
    requires SameSizes(s, t) && Pids(s) && s.nextpid == t.nextpid
    requires forall i :: 0 <= i < |s.ps| && t.ps[i].st != Unused ==> s.ps[i].st != Unused && s.ps[i].pid == t.ps[i].pid
    ensures Pids(t)
  {
    forall i | 0 <= i < |s.ps| ensures PidOk(t, i) { assert PidOk(s, i); }
  }

  // A place outside the sections of the locks.
  ghost predicate Plain(s: State, i: nat)
    requires Sizes(s) && i < |s.ps|
  {
    match s.pc[i]
    case AcqSpin(l) => l < |s.locks|
    case RelSpin(l) => l < |s.locks| && s.locks[l].owner == i
    case AcqAsleep(_) => false
    case _ => !HoldsSome(s.pc[i])
  }

  ghost predicate PcKept(s: State, t: State, i: nat)
    requires SameSizes(s, t) && i < |s.ps|
  {
    if HoldsSome(s.pc[i]) then t.pc[i] == s.pc[i]
    else (t.pc[i] == s.pc[i] && (t.ps[i].st == Sleeping ==> s.ps[i].st == Sleeping)) || Plain(t, i)
  }

  lemma LocksKept(s: State, t: State)
    requires SameSizes(s, t) && Locks(s) && s.locks == t.locks
    requires forall i :: 0 <= i < |s.ps| ==> PcKept(s, t, i)
    requires forall l :: 0 <= l < |s.locks| && s.locks[l].owner != Nobody && LockOk(s, l) ==>
      Alive(t.ps[s.locks[l].owner]) && t.ps[s.locks[l].owner].pid == s.ps[s.locks[l].owner].pid
    ensures Locks(t)
  {
    forall l | 0 <= l < |s.locks| ensures LockOk(t, l) && (WakeComing(s, l) ==> WakeComing(t, l)) {
      assert LockOk(s, l);
      if s.locks[l].spin != Nobody { assert PcKept(s, t, s.locks[l].spin); }
    }
    forall i | 0 <= i < |s.ps| ensures LockPcOk(t, i) {
      assert PcKept(s, t, i);
      assert LockPcOk(s, i);
    }
  }

  ghost predicate FamilyKept(s: State, t: State, i: nat)
    requires SameSizes(s, t) && i < |s.ps|
  {
    var x, y := s.ps[i], t.ps[i];
    && x.parent == y.parent && s.maker[i] == t.maker[i] && (x.st == y.st || (Alive(x) && Alive(y)))
    && (s.pc[i] == t.pc[i] || !(s.pc[i].ForkNew? || s.pc[i].ForkReady? || t.pc[i].ForkNew? || t.pc[i].ForkReady?))
    && (t.ps[i].st == Sleeping && t.pc[i] == WaitAsleep ==> s.ps[i].st == Sleeping && s.pc[i] == WaitAsleep)
  }

  lemma TreesKept(s: State, t: State)
    requires SameSizes(s, t) && Trees(s) && forall i :: 0 <= i < |s.ps| ==> FamilyKept(s, t, i)
    ensures Trees(t)
  {
    forall i | 0 <= i < |s.ps| ensures TreeOk(t, i) {
      assert TreeOk(s, i) && FamilyKept(s, t, i);
      if s.ps[i].parent != Nobody { assert FamilyKept(s, t, s.ps[i].parent); }
      if s.ps[i].st == Embryo { assert FamilyKept(s, t, s.maker[i]); }
      if s.pc[i].ForkNew? || s.pc[i].ForkReady? { assert FamilyKept(s, t, s.pc[i].np); }
    }
  }

  // ---- Every step keeps it ----

  // The steps that only move one process, or wake another.
  ghost predicate Quiet(a: Action) {
    a.Resume? || a.Yield? || a.Wait? || a.Acquire? || a.Release? || a.Kill?
  }

  lemma QuietKeeps(s: State, a: Action)
    requires Inv(s) && Enabled(s, a) && Quiet(a)
    ensures Inv(Step(s, a))
  {
    var t := Step(s, a);
    assert PlaceOk(s, a.p) && LockPcOk(s, a.p);
    assert Places(t) by { forall i | 0 <= i < |t.ps| ensures PlaceOk(t, i) { assert PlaceOk(s, i); } }
    hide Places, PlaceOk;
    PidsKept(s, t);
    hide Pids;
    assert Trees(t) by { forall i | 0 <= i < |t.ps| ensures FamilyKept(s, t, i) {} TreesKept(s, t); }
    hide Trees;
    assert Locks(t) by { forall i | 0 <= i < |t.ps| ensures PcKept(s, t, i) {} LocksKept(s, t); }
  }

  // What the invariant says of a process, its parent and its maker.
  lemma FamilyOf(s: State, i: int)
    requires Sizes(s) && Trees(s)
    ensures 0 <= i < |s.ps| ==> TreeOk(s, i)
    ensures 0 <= i < |s.ps| && s.ps[i].parent >= 0 ==> TreeOk(s, s.ps[i].parent)
    ensures 0 <= i < |s.ps| && s.ps[i].st == Embryo ==> TreeOk(s, s.maker[i])
  {
    if 0 <= i < |s.ps| { assert TreeOk(s, i); }
  }

  lemma ForkFailTrees(s: State, p: nat)
    requires Inv(s) && Enabled(s, Action.ForkFail(p))
    ensures SameSizes(s, Step(s, Action.ForkFail(p))) && Trees(Step(s, Action.ForkFail(p)))
  {
    var t := Step(s, Action.ForkFail(p));
    assert PlaceOk(s, p);
    FamilyOf(s, p);
    FamilyOf(s, s.pc[p].np);
    hide Locks, Pids, Places;
    forall i | 0 <= i < |t.ps| ensures TreeOk(t, i) { FamilyOf(s, i); }
  }

  lemma ForkFillTrees(s: State, p: nat)
    requires Inv(s) && Enabled(s, Action.ForkFill(p))
    ensures SameSizes(s, Step(s, Action.ForkFill(p))) && Trees(Step(s, Action.ForkFill(p)))
  {
    var t := Step(s, Action.ForkFill(p));
    assert PlaceOk(s, p);
    FamilyOf(s, p);
    FamilyOf(s, s.pc[p].np);
    hide Locks, Pids, Places;
    forall i | 0 <= i < |t.ps| ensures TreeOk(t, i) { FamilyOf(s, i); }
  }

  lemma ForkRunTrees(s: State, p: nat)
    requires Inv(s) && Enabled(s, Action.ForkRun(p))
    ensures SameSizes(s, Step(s, Action.ForkRun(p))) && Trees(Step(s, Action.ForkRun(p)))
  {
    var t := Step(s, Action.ForkRun(p));
    assert PlaceOk(s, p);
    FamilyOf(s, p);
    FamilyOf(s, s.pc[p].np);
    hide Locks, Pids, Places;
    forall i | 0 <= i < |t.ps| ensures TreeOk(t, i) { FamilyOf(s, i); }
  }

  lemma ForkFailKeeps(s: State, p: nat)
    requires Inv(s) && Enabled(s, Action.ForkFail(p))
    ensures Inv(Step(s, Action.ForkFail(p)))
  {
    var t := Step(s, Action.ForkFail(p));
    FamilyOf(s, p);
    FamilyOf(s, s.pc[p].np);
    assert PlaceOk(s, p) && LockPcOk(s, p) && PlaceOk(s, s.pc[p].np);
    assert Places(t) by { forall i | 0 <= i < |t.ps| ensures PlaceOk(t, i) { assert PlaceOk(s, i); } }
    PidsKept(s, t);
    ForkFailTrees(s, p);
    hide Places, Pids, Trees, PlaceOk;
    assert Locks(t) by { forall i | 0 <= i < |t.ps| ensures PcKept(s, t, i) {} LocksKept(s, t); }
  }

  lemma ForkFillKeeps(s: State, p: nat)
    requires Inv(s) && Enabled(s, Action.ForkFill(p))
    ensures Inv(Step(s, Action.ForkFill(p)))
  {
    var t := Step(s, Action.ForkFill(p));
    FamilyOf(s, p);
    FamilyOf(s, s.pc[p].np);
    assert PlaceOk(s, p) && LockPcOk(s, p) && PlaceOk(s, s.pc[p].np);
    assert Places(t) by { forall i | 0 <= i < |t.ps| ensures PlaceOk(t, i) { assert PlaceOk(s, i); } }
    PidsKept(s, t);
    ForkFillTrees(s, p);
    hide Places, Pids, Trees, PlaceOk;
    assert Locks(t) by { forall i | 0 <= i < |t.ps| ensures PcKept(s, t, i) {} LocksKept(s, t); }
  }

  lemma ForkRunKeeps(s: State, p: nat)
    requires Inv(s) && Enabled(s, Action.ForkRun(p))
    ensures Inv(Step(s, Action.ForkRun(p)))
  {
    var t := Step(s, Action.ForkRun(p));
    FamilyOf(s, p);
    FamilyOf(s, s.pc[p].np);
    assert PlaceOk(s, p) && LockPcOk(s, p) && PlaceOk(s, s.pc[p].np);
    assert Places(t) by { forall i | 0 <= i < |t.ps| ensures PlaceOk(t, i) { assert PlaceOk(s, i); } }
    PidsKept(s, t);
    ForkRunTrees(s, p);
    hide Places, Pids, Trees, PlaceOk;
    assert Locks(t) by { forall i | 0 <= i < |t.ps| ensures PcKept(s, t, i) {} LocksKept(s, t); }
  }

  lemma ForkPlaces(s: State, p: nat)
    requires Inv(s) && Enabled(s, Action.Fork(p))
    ensures SameSizes(s, Step(s, Action.Fork(p))) && Places(Step(s, Action.Fork(p)))
  {
    hide Trees, Locks, Pids;
    var t := Step(s, Action.Fork(p));
    assert PlaceOk(s, p);
    forall i | 0 <= i < |t.ps| ensures PlaceOk(t, i) { assert PlaceOk(s, i); }
  }

  lemma ForkTrees(s: State, p: nat)
    requires Inv(s) && Enabled(s, Action.Fork(p))
    ensures SameSizes(s, Step(s, Action.Fork(p))) && Trees(Step(s, Action.Fork(p)))
  {
    var t := Step(s, Action.Fork(p));
    assert PlaceOk(s, p);
    FamilyOf(s, p);
    FamilyOf(s, s.init);
    hide Locks, Pids;
    forall i | 0 <= i < |t.ps| ensures TreeOk(t, i) { FamilyOf(s, i); }
  }

  lemma ExitPlaces(s: State, p: nat)
    requires Inv(s) && Enabled(s, Action.Exit(p))
    ensures SameSizes(s, Step(s, Action.Exit(p))) && Places(Step(s, Action.Exit(p)))
  {
    hide Trees, Locks, Pids;
    var t := Step(s, Action.Exit(p));
    assert PlaceOk(s, p);
    forall i | 0 <= i < |t.ps| ensures PlaceOk(t, i) { assert PlaceOk(s, i); }
  }

  // A zombie's parent has been woken: the parent of the exiting process, and init for its children.
  lemma ExitWakes(s: State, p: nat, i: nat)
    requires Inv(s) && Enabled(s, Action.Exit(p)) && i < |s.ps|
    ensures var t := Step(s, Action.Exit(p)); var q := t.ps[i].parent;
      t.ps[i].st == Zombie ==> 0 <= q < |s.ps| && Alive(t.ps[q]) && !(t.ps[q].st == Sleeping && t.pc[q] == WaitAsleep)
  {
    hide Locks, Pids;
    assert PlaceOk(s, p) && PlaceOk(s, s.init);
    FamilyOf(s, p);
    FamilyOf(s, i);
    assert TreeOk(s, s.init);
    assert PlaceOk(s, s.ps[p].parent);
    assert s.ps[i].st == Zombie && s.ps[i].parent == p ==> ZombieChild(s.ps, p, |s.ps|);
    hide ZombieChild, Places, Trees;
  }

  lemma ExitTree(s: State, p: nat, i: nat)
    requires Inv(s) && Enabled(s, Action.Exit(p)) && i < |s.ps|
    ensures TreeOk(Step(s, Action.Exit(p)), i)
  {
    assert PlaceOk(s, p);
    FamilyOf(s, p);
    assert TreeOk(s, s.init);
    FamilyOf(s, i);
    ExitWakes(s, p, i);
    hide ZombieChild, Locks, Pids, Places, Trees, PlaceOk;
  }

  lemma ExitTrees(s: State, p: nat)
    requires Inv(s) && Enabled(s, Action.Exit(p))
    ensures SameSizes(s, Step(s, Action.Exit(p))) && Trees(Step(s, Action.Exit(p)))
  {
    hide TreeOk, ExitedSlot;
    var t := Step(s, Action.Exit(p));
    forall i | 0 <= i < |t.ps| ensures TreeOk(t, i) { ExitTree(s, p, i); }
  }

  lemma ScanPlaces(s: State, p: nat)
    requires Inv(s) && Enabled(s, Action.Scan(p))
    ensures SameSizes(s, Step(s, Action.Scan(p))) && Places(Step(s, Action.Scan(p)))
  {
    hide Trees, Locks, Pids;
    var t := Step(s, Action.Scan(p));
    assert PlaceOk(s, p);
    forall i | 0 <= i < |t.ps| ensures PlaceOk(t, i) { assert PlaceOk(s, i); }
  }

  // A zombie is nobody's parent, so its slot can be freed.
  lemma ReapTrees(s: State, p: nat, c: nat)
    requires Inv(s) && p < |s.ps| && s.pc[p] == WaitScan && s.ps[p].st == Running && c < |s.ps| && s.ps[c].st == Zombie
    ensures Trees(SetPc(s, p, User).(ps := s.ps[c := Reaped(s.ps[c])]))
  {
    var t := SetPc(s, p, User).(ps := s.ps[c := Reaped(s.ps[c])]);
    assert PlaceOk(s, c);
    FamilyOf(s, p);
    FamilyOf(s, c);
    hide Locks, Pids, Places;
    forall i | 0 <= i < |t.ps| ensures TreeOk(t, i) { FamilyOf(s, i); }
  }

  // Who goes to sleep has no zombie child.
  lemma SleepTrees(s: State, p: nat)
    requires Inv(s) && p < |s.ps| && s.pc[p] == WaitScan && s.ps[p].st == Running && ZombieFrom(s.ps, p, 0) == |s.ps|
    ensures Trees(SetPc(s, p, WaitAsleep).(ps := s.ps[p := s.ps[p].(chan := ProcChan(p), st := Sleeping)]))
  {
    var t := SetPc(s, p, WaitAsleep).(ps := s.ps[p := s.ps[p].(chan := ProcChan(p), st := Sleeping)]);
    FamilyOf(s, p);
    hide Locks, Pids, Places;
    forall i | 0 <= i < |t.ps| ensures TreeOk(t, i) { FamilyOf(s, i); }
  }

  lemma ScanTrees(s: State, p: nat)
    requires Inv(s) && Enabled(s, Action.Scan(p))
    ensures SameSizes(s, Step(s, Action.Scan(p))) && Trees(Step(s, Action.Scan(p)))
  {
    var t := Step(s, Action.Scan(p));
    match WaitRoundOf(s.ps, p)
    case Reap(c) => ReapTrees(s, p, c);
    case Sleep => SleepTrees(s, p);
    case Fail =>
      forall i | 0 <= i < |t.ps| ensures FamilyKept(s, t, i) {}
      TreesKept(s, t);
  }

  lemma ForkPids(s: State, p: nat)
    requires Inv(s) && Enabled(s, Action.Fork(p))
    ensures SameSizes(s, Step(s, Action.Fork(p))) && Pids(Step(s, Action.Fork(p)))
  {
    hide Places, Trees, Locks;
    var t := Step(s, Action.Fork(p));
    assert forall j :: 0 <= j < |s.ps| && s.ps[j].st != Unused ==> s.ps[j].pid < s.nextpid by {
      forall j | 0 <= j < |s.ps| && s.ps[j].st != Unused ensures s.ps[j].pid < s.nextpid { assert PidOk(s, j); }
    }
    forall i | 0 <= i < |t.ps| ensures PidOk(t, i) { assert PidOk(s, i); }
  }

  lemma ForkKeeps(s: State, p: nat)
    requires Inv(s) && Enabled(s, Action.Fork(p))
    ensures Inv(Step(s, Action.Fork(p)))
  {
    var t := Step(s, Action.Fork(p));
    assert PlaceOk(s, p) && LockPcOk(s, p);
    ForkPlaces(s, p);
    ForkPids(s, p);
    ForkTrees(s, p);
    hide Places, Pids, Trees, PlaceOk;
    assert Locks(t) by { forall i | 0 <= i < |t.ps| ensures PcKept(s, t, i) {} LocksKept(s, t); }
  }

  lemma ExitKeeps(s: State, p: nat)
    requires Inv(s) && Enabled(s, Action.Exit(p))
    ensures Inv(Step(s, Action.Exit(p)))
  {
    var t := Step(s, Action.Exit(p));
    assert PlaceOk(s, p) && LockPcOk(s, p);
    ExitPlaces(s, p);
    PidsKept(s, t);
    ExitTrees(s, p);
    hide Places, Pids, Trees, PlaceOk;
    assert Locks(t) by { forall i | 0 <= i < |t.ps| ensures PcKept(s, t, i) {} LocksKept(s, t); }
  }

  lemma ScanKeeps(s: State, p: nat)
    requires Inv(s) && Enabled(s, Action.Scan(p))
    ensures Inv(Step(s, Action.Scan(p)))
  {
    var t := Step(s, Action.Scan(p));
    assert PlaceOk(s, p) && LockPcOk(s, p);
    ScanPlaces(s, p);
    PidsKept(s, t);
    ScanTrees(s, p);
    hide Places, Pids, Trees, PlaceOk;
    assert Locks(t) by { forall i | 0 <= i < |t.ps| ensures PcKept(s, t, i) {} LocksKept(s, t); }
  }

  // ---- acquiresleep and releasesleep ----

  lemma GoPlaces(s: State, p: nat)
    requires Inv(s) && Enabled(s, Go(p))
    ensures SameSizes(s, Step(s, Go(p))) && Places(Step(s, Go(p)))
  {
    hide Trees, Locks, Pids;
    var t := Step(s, Go(p));
    assert PlaceOk(s, p);
    forall i | 0 <= i < |t.ps| ensures PlaceOk(t, i) { assert PlaceOk(s, i); }
  }

  lemma GoTrees(s: State, p: nat)
    requires Inv(s) && Enabled(s, Go(p))
    ensures SameSizes(s, Step(s, Go(p))) && Trees(Step(s, Go(p))) && Pids(Step(s, Go(p)))
  {
    hide Locks, Places;
    var t := Step(s, Go(p));
    PidsKept(s, t);
    hide Pids;
    forall i | 0 <= i < |t.ps| ensures FamilyKept(s, t, i) {}
    TreesKept(s, t);
  }

  ghost function LockOf(pc: Pc): nat {
    match pc
    case AcqSpin(l) => l
    case AcqTest(l) => l
    case AcqSleep1(l) => l
    case AcqSleep2(l) => l
    case AcqSleep3(l) => l
    case AcqAsleep(l) => l
    case RelSpin(l) => l
    case RelClear(l) => l
    case RelWake(l) => l
    case RelEnd(l) => l
    case _ => 0
  }

  lemma GoLockPcSelf(s: State, p: nat)
    requires Inv(s) && Enabled(s, Go(p))
    ensures LockPcOk(Step(s, Go(p)), p)
  {
    assert PlaceOk(s, p) && LockPcOk(s, p);
    hide Trees, Pids, Places, Locks;
  }

  ghost predicate Covered(s: State, l: nat)
    requires l < |s.locks|
  {
    s.locks[l].locked || WakeComing(s, l)
  }

  // What process p's step leaves of a lock that process i relies on.
  lemma LockLeft(s: State, p: nat, l: nat, i: nat)
    requires Inv(s) && Enabled(s, Go(p)) && l < |s.locks| && i != p
    ensures var t := Step(s, Go(p));
      && |t.locks| == |s.locks|
      && (s.locks[l].spin == i ==> t.locks[l].spin == i && t.locks[l].locked == s.locks[l].locked)
      && (s.locks[l].owner == i ==> t.locks[l].owner == i)
      && (Covered(s, l) && s.pc[p] != RelWake(l) ==> Covered(t, l))
  {
    assert PlaceOk(s, p) && LockPcOk(s, p) && LockOk(s, l);
    hide Trees, Pids, Places, Locks;
  }

  // The others stay where they are, and only the sleepers of a lock are woken.
  lemma OtherLeft(s: State, p: nat, i: nat)
    requires Inv(s) && Enabled(s, Go(p)) && i < |s.ps| && i != p
    ensures var t := Step(s, Go(p));
      && t.pc[i] == s.pc[i] && |t.locks| == |s.locks|
      && (t.ps[i].st == Sleeping ==> s.ps[i].st == Sleeping)
      && (s.pc[p].RelWake? && s.pc[i].AcqAsleep? && s.pc[p].l == s.pc[i].l ==> t.ps[i].st != Sleeping)
      && (s.pc[p].RelWake? ==> !s.pc[i].AcqSleep3?)
  {
    assert PlaceOk(s, p) && PlaceOk(s, i);
    hide Trees, Pids, Places, Locks;
  }

  // Whoever is on the way to sleep still has a locked lock or a waker.
  lemma GoLockPcOther(s: State, p: nat, i: nat)
    requires Inv(s) && Enabled(s, Go(p)) && i < |s.ps| && i != p
    ensures LockPcOk(Step(s, Go(p)), i)
  {
    assert LockPcOk(s, i);
    OtherLeft(s, p, i);
    var l := LockOf(s.pc[i]);
    if l < |s.locks| { LockLeft(s, p, l, i); }
    hide Trees, Pids, Places, Locks, GoOn, WakeComing;
  }

  lemma GoLocks(s: State, p: nat)
    requires Inv(s) && Enabled(s, Go(p))
    ensures SameSizes(s, Step(s, Go(p))) && Locks(Step(s, Go(p)))
  {
    var t := Step(s, Go(p));
    assert PlaceOk(s, p) && LockPcOk(s, p);
    forall i | 0 <= i < |t.ps| ensures LockPcOk(t, i) {
      if i == p { GoLockPcSelf(s, p); } else { GoLockPcOther(s, p, i); }
    }
    hide Trees, Pids, Places;
    forall l | 0 <= l < |t.locks| ensures LockOk(t, l) { assert LockOk(s, l); }
  }

  lemma GoKeeps(s: State, p: nat)
    requires Inv(s) && Enabled(s, Go(p))
    ensures Inv(Step(s, Go(p)))
  {
    GoPlaces(s, p);
    GoTrees(s, p);
    GoLocks(s, p);
    hide Places, Trees, Locks, Pids;
  }

  lemma StepKeeps(s: State, a: Action)
    requires Inv(s) && Enabled(s, a)
    ensures Inv(Step(s, a))
  {
    hide Inv, Enabled, Step;
    match a
    case Resume(_) => QuietKeeps(s, a);
    case Yield(_) => QuietKeeps(s, a);
    case Fork(p) => ForkKeeps(s, p);
    case ForkFail(p) => ForkFailKeeps(s, p);
    case ForkFill(p) => ForkFillKeeps(s, p);
    case ForkRun(p) => ForkRunKeeps(s, p);
    case Exit(p) => ExitKeeps(s, p);
    case Wait(_) => QuietKeeps(s, a);
    case Scan(p) => ScanKeeps(s, p);
    case Kill(_, _) => QuietKeeps(s, a);
    case Acquire(_, _) => QuietKeeps(s, a);
    case Release(_, _) => QuietKeeps(s, a);
    case Go(p) => GoKeeps(s, p);
  }

  // ---- Runs ----

  // The table after userinit: init in slot 0, runnable, with pid 1; nobody holds a lock.
  ghost function Boot(locks: nat): State {
    var free := Slot(Unused, Nobody, NoChan, false, 0);
    State(seq(NPROC, i => if i == 0 then Slot(Runnable, Nobody, NoChan, false, 1) else free),
          seq(NPROC, _ => User), seq(NPROC, _ => Nobody), seq(locks, _ => Lock(Nobody, false, 0, Nobody)), Nobody, 0, 2)
  }

  lemma BootInv(locks: nat)
    ensures Inv(Boot(locks))
  {
  }

  // Any interleaving: actions that cannot be taken are skipped.
  ghost function Run(s: State, acts: seq<Action>): State {
    if acts == [] then s
    else
      var t := Run(s, acts[..|acts| - 1]);
      var a := acts[|acts| - 1];
      if Enabled(t, a) then Step(t, a) else t
  }

  lemma {:induction false} RunInv(locks: nat, acts: seq<Action>)
    ensures Inv(Run(Boot(locks), acts))
  {
    hide Inv, Enabled, Step, Boot;
    if acts == [] {
      BootInv(locks);
    } else {
      RunInv(locks, acts[..|acts| - 1]);
      var t := Run(Boot(locks), acts[..|acts| - 1]);
      if Enabled(t, acts[|acts| - 1]) { StepKeeps(t, acts[|acts| - 1]); }
    }
  }

  // ---- What kill does ----

  // A slot's mark is set by a kill of its pid alone, and goes only when the slot is freed.
  lemma MarkStep(s: State, a: Action, i: nat)
    requires Inv(s) && Enabled(s, a) && i < |s.ps|
    ensures |Step(s, a).ps| == |s.ps|
    ensures var x, y := s.ps[i], Step(s, a).ps[i];
      && (x.killed && !y.killed ==> a.Scan? && x.st == Zombie && y.st == Unused)
      && (!x.killed && y.killed ==> a.Kill? && FirstWithPid(s.ps, a.pid, i))
      && (a.Kill? && FirstWithPid(s.ps, a.pid, i) ==> y.killed && y.st != Sleeping)
  {
    hide Places, Trees, Locks, Pids;
    match a
    case Exit(p) => ExitedSame(s.ps, p, s.init, i);
    case Scan(p) => RoundIs(s.ps, p);
    case Kill(_, pid) => KilledIs(s.ps, pid);
    case Fork(p) => AllocatedIs(s.ps, s.nextpid);
    case Resume(_) =>
    case Yield(_) =>
    case ForkFail(_) =>
    case ForkFill(_) =>
    case ForkRun(_) =>
    case Wait(_) =>
    case Acquire(_, _) =>
    case Release(_, _) =>
    case Go(_) =>
  }

  lemma ExitedSame(ps: seq<Slot>, me: nat, init: nat, i: nat)
    requires me < |ps| && i < |ps|
    ensures Exited(ps, me, init)[i].killed == ps[i].killed && Exited(ps, me, init)[i].pid == ps[i].pid
    ensures Exited(ps, me, init)[i].st == Sleeping ==> ps[i].st == Sleeping
    ensures Exited(ps, me, init)[i].st == Unused <==> ps[i].st == Unused && i != me
  {
  }

  // Once killed, a process stays killed until its slot is freed.
  lemma {:induction false} KilledUntilReaped(locks: nat, acts: seq<Action>, n: nat, i: nat)
    requires n <= |acts| && i < NPROC && |Run(Boot(locks), acts[..n]).ps| == NPROC
    requires Run(Boot(locks), acts[..n]).ps[i].killed
    requires forall m :: n <= m <= |acts| ==> NotFreed(locks, acts[..m], i)
    ensures |Run(Boot(locks), acts).ps| == NPROC && Run(Boot(locks), acts).ps[i].killed
    decreases |acts|
  {
    if n == |acts| {
      assert acts[..n] == acts;
    } else {
      var front := acts[..|acts| - 1];
      assert acts[..n] == front[..n] && acts[..|acts|] == acts;
      forall m | n <= m <= |front| ensures NotFreed(locks, front[..m], i) { assert front[..m] == acts[..m]; }
      KilledUntilReaped(locks, front, n, i);
      RunInv(locks, front);
      var t := Run(Boot(locks), front);
      var a := acts[|acts| - 1];
      if Enabled(t, a) { MarkStep(t, a, i); }
      assert NotFreed(locks, acts[..|acts|], i);
    }
  }

  ghost predicate NotFreed(locks: nat, acts: seq<Action>, i: nat) {
    i < |Run(Boot(locks), acts).ps| && Run(Boot(locks), acts).ps[i].st != Unused
  }

  ghost predicate NoneWaits(s: State) {
    |s.ps| == |s.pc| && forall i :: 0 <= i < |s.ps| && s.ps[i].killed && s.ps[i].st == Sleeping ==> s.pc[i] != WaitAsleep
  }

  lemma NoneWaitsStep(s: State, a: Action)
    requires Inv(s) && Enabled(s, a) && NoneWaits(s)
    ensures NoneWaits(Step(s, a))
  {
    var t := Step(s, a);
    assert |t.ps| == |t.pc| == |s.ps| by { StepSizes(s, a); }
    forall i | 0 <= i < |t.ps| ensures t.ps[i].killed && t.ps[i].st == Sleeping ==> t.pc[i] != WaitAsleep {
      NoneWaitsAt(s, a, i);
    }
    hide Inv, Step, Enabled;
  }

  lemma StepSizes(s: State, a: Action)
    requires Inv(s) && Enabled(s, a)
    ensures |Step(s, a).ps| == |Step(s, a).pc| == |s.ps|
  {
    hide Places, Trees, Locks, Pids;
  }

  lemma GoNoneWaits(s: State, p: nat, i: nat)
    requires Inv(s) && Enabled(s, Go(p)) && NoneWaits(s) && i < |s.ps|
    ensures var t := Step(s, Go(p));
      |t.ps| == |t.pc| == |s.ps| && (t.ps[i].killed && t.ps[i].st == Sleeping ==> t.pc[i] != WaitAsleep)
  {
    hide Places, Trees, Locks, Pids;
  }

  lemma NoneWaitsAt(s: State, a: Action, i: nat)
    requires Inv(s) && Enabled(s, a) && NoneWaits(s) && i < |s.ps| == |Step(s, a).ps| == |Step(s, a).pc|
    ensures var t := Step(s, a); t.ps[i].killed && t.ps[i].st == Sleeping ==> t.pc[i] != WaitAsleep
  {
    MarkStep(s, a, i);
    assert PlaceOk(s, i);
    if a.Go? { GoNoneWaits(s, a.p, i); }
    hide Places, Trees, Locks, Pids, GoOn, GoEnabled;
    match a
    case Exit(p) => ExitedSame(s.ps, p, s.init, i);
    case Scan(p) => RoundIs(s.ps, p);
    case Kill(_, pid) => KilledIs(s.ps, pid);
    case Fork(p) => AllocatedIs(s.ps, s.nextpid);
    case _ =>
  }

  // A killed process does not sleep in wait: it never goes to sleep there, and kill has woken it.
  lemma {:induction false} KilledNeverWaits(locks: nat, acts: seq<Action>)
    ensures NoneWaits(Run(Boot(locks), acts))
  {
    hide Inv, Enabled, Step, NoneWaits;
    if acts == [] {
      assert NoneWaits(Boot(locks)) by { BootNoneWaits(locks); }
    } else {
      var front := acts[..|acts| - 1];
      KilledNeverWaits(locks, front);
      RunInv(locks, front);
      var t := Run(Boot(locks), front);
      if Enabled(t, acts[|acts| - 1]) { NoneWaitsStep(t, acts[|acts| - 1]); }
    }
  }

  lemma BootNoneWaits(locks: nat)
    ensures NoneWaits(Boot(locks))
  {
  }

  // No unused slot carries the mark of a kill, so that every new process starts without it.
  ghost predicate Clean(s: State) {
    forall i :: 0 <= i < |s.ps| && s.ps[i].st == Unused ==> !s.ps[i].killed
  }

  // The two ways in which an unused slot gets it: a kill whose pid is that of an unused slot
  // first - all of them have pid 0 at boot - and a fork that fails after its embryo was killed.
  ghost predicate MarksUnused(s: State, a: Action)
    requires Enabled(s, a)
  {
    || (a.Kill? && PidFrom(s.ps, a.pid, 0) < |s.ps| && s.ps[PidFrom(s.ps, a.pid, 0)].st == Unused)
    || (a.ForkFail? && s.pc[a.p].np < |s.ps| && s.ps[s.pc[a.p].np].killed)
  }

  lemma CleanIff(s: State, a: Action)
    requires Inv(s) && Enabled(s, a) && Clean(s)
    ensures Clean(Step(s, a)) <==> !MarksUnused(s, a)
    ensures a.Fork? && FreeFrom(s.ps, 0) < |s.ps| ==> !Step(s, a).ps[FreeFrom(s.ps, 0)].killed
  {
    var t := Step(s, a);
    assert Inv(t) by { StepKeeps(s, a); }
    hide Places, Trees, Locks, Pids;
    forall i | 0 <= i < |t.ps| && t.ps[i].st == Unused && t.ps[i].killed ensures MarksUnused(s, a) {
      MarkStep(s, a, i);
      if s.ps[i].st != Unused { UnusedBefore(s, a, i); } else { KilledIs(s.ps, a.pid); }
    }
    if a.Kill? && MarksUnused(s, a) {
      var k := PidFrom(s.ps, a.pid, 0);
      KilledIs(s.ps, a.pid);
      assert t.ps[k].st == Unused && t.ps[k].killed;
    }
    if a.ForkFail? && MarksUnused(s, a) {
      var k := s.pc[a.p].np;
      assert t.ps[k].st == Unused && t.ps[k].killed;
    }
    if a.Fork? { AllocatedIs(s.ps, s.nextpid); }
  }

  // A slot becomes unused when a child is reaped or a fork fails, and at no other time.
  lemma UnusedBefore(s: State, a: Action, i: nat)
    requires Inv(s) && Enabled(s, a) && i < |s.ps| && |Step(s, a).ps| == |s.ps|
    requires Step(s, a).ps[i].st == Unused && s.ps[i].st != Unused
    ensures (a.Scan? && !Step(s, a).ps[i].killed) || (a.ForkFail? && i == s.pc[a.p].np)
  {
    hide Places, Trees, Locks, Pids;
    if a.Exit? { ExitedSame(s.ps, a.p, s.init, i); }
    if a.Scan? { RoundIs(s.ps, a.p); }
    if a.Kill? { KilledIs(s.ps, a.pid); }
    if a.Fork? { AllocatedIs(s.ps, s.nextpid); }
  }

  // kill(0) succeeds as soon as a slot is free, and the next process is killed before it starts.
  lemma BornKilled(locks: nat)
    ensures var s := Run(Boot(locks), [Action.Resume(0), Action.Kill(0, 0), Action.Fork(0), ForkFill(0), ForkRun(0)]);
      |s.ps| == NPROC && s.ps[1].st == Runnable && s.ps[1].killed && s.ps[1].pid == 2
  {
    hide Boot, Enabled, Step;
    var b := Boot(locks);
    var acts := [Action.Resume(0), Action.Kill(0, 0), Action.Fork(0), ForkFill(0), ForkRun(0)];
    KillZero(locks);
    RunOne(b, [], acts[0]);
    RunOne(b, acts[..1], acts[1]);
    assert acts[..1] == [] + [acts[0]] && acts[..2] == acts[..1] + [acts[1]];
    ForkMarked(Run(b, acts[..2]));
    RunOne(b, acts[..2], acts[2]);
    RunOne(b, acts[..3], acts[3]);
    RunOne(b, acts[..4], acts[4]);
    assert acts[..3] == acts[..2] + [acts[2]] && acts[..4] == acts[..3] + [acts[3]] && acts == acts[..4] + [acts[4]];
  }

  // Slot 1 is free and marked, and process 0 runs.
  ghost predicate SlotMarked(s: State) {
    && Sizes(s) && |s.ps| == NPROC && s.ptable == Nobody && s.nextpid == 2 && s.pc[0] == User
    && s.ps[0].st == Running && s.ps[1].st == Unused && s.ps[1].killed
  }

  lemma KillZero(locks: nat)
    ensures var b := Boot(locks);
      && Enabled(b, Action.Resume(0)) && Enabled(Step(b, Action.Resume(0)), Action.Kill(0, 0))
      && SlotMarked(Step(Step(b, Action.Resume(0)), Action.Kill(0, 0)))
  {
    var s := Step(Boot(locks), Action.Resume(0));
    assert FirstWithPid(s.ps, 0, 1);
    KilledIs(s.ps, 0);
  }

  lemma ForkMarked(s: State)
    requires SlotMarked(s)
    ensures Enabled(s, Action.Fork(0))
    ensures var s1 := Step(s, Action.Fork(0));
      && Enabled(s1, ForkFill(0))
      && var s2 := Step(s1, ForkFill(0));
      && Enabled(s2, ForkRun(0))
      && var t := Step(s2, ForkRun(0));
      |t.ps| == NPROC && t.ps[1].st == Runnable && t.ps[1].killed && t.ps[1].pid == 2
  {
    AllocatedIs(s.ps, s.nextpid);
  }

  lemma RunOne(s: State, acts: seq<Action>, a: Action)
    ensures Run(s, acts + [a]) == if Enabled(Run(s, acts), a) then Step(Run(s, acts), a) else Run(s, acts)
  {
    assert (acts + [a])[..|acts|] == acts;
  }

  // No wakeup is lost: whoever sleeps in wait has no child to reap, and whoever sleeps on a
  // sleep lock whose spin lock is free waits for a lock that is held.
  lemma NoLostWakeup(locks: nat, acts: seq<Action>, p: nat)
    ensures var s := Run(Boot(locks), acts);
      p < |s.ps| && |s.pc| == |s.ps| && s.ps[p].st == Sleeping ==>
        || (s.pc[p] == WaitAsleep && !ZombieChild(s.ps, p, |s.ps|))
        || (s.pc[p].AcqAsleep? && s.pc[p].l < |s.locks| && (s.locks[s.pc[p].l].spin == Nobody ==> s.locks[s.pc[p].l].locked))
  {
    RunInv(locks, acts);
    var s := Run(Boot(locks), acts);
    hide Run, Boot;
    if p < |s.ps| && s.ps[p].st == Sleeping {
      assert PlaceOk(s, p) && LockPcOk(s, p);
      if s.pc[p] == WaitAsleep {
        forall i | 0 <= i < |s.ps| && s.ps[i].parent == p ensures s.ps[i].st != Zombie { assert TreeOk(s, i); }
      }
    }
  }

  // Every started process but init has a live parent: it is not a zombie and not freed.
  lemma LiveParent(locks: nat, acts: seq<Action>, i: nat)
    ensures var s := Run(Boot(locks), acts);
      i < |s.ps| && (Alive(s.ps[i]) || s.ps[i].st == Zombie) && i != s.init ==>
        0 <= s.ps[i].parent < |s.ps| && Alive(s.ps[s.ps[i].parent])
  {
    RunInv(locks, acts);
    var s := Run(Boot(locks), acts);
    hide Run, Boot;
    if i < |s.ps| { assert TreeOk(s, i); }
  }

  // A sleep lock has one holder, and holdingsleep - locked, with the caller's pid - tells who.
  lemma HoldingSleepExact(locks: nat, acts: seq<Action>, l: nat, p: nat)
    ensures var s := Run(Boot(locks), acts);
      l < |s.locks| && p < |s.ps| && Alive(s.ps[p]) ==>
        (s.locks[l].owner == p <==> s.locks[l].locked && s.locks[l].pid == s.ps[p].pid)
  {
    RunInv(locks, acts);
    var s := Run(Boot(locks), acts);
    hide Run, Boot;
    if l < |s.locks| && p < |s.ps| {
      assert LockOk(s, l) && PidOk(s, p);
    }
  }

  // acquiresleep does not return while another process has the lock.
  lemma MutualExclusion(locks: nat, acts: seq<Action>, p: nat)
    ensures var s := Run(Boot(locks), acts);
      Enabled(s, Go(p)) && s.pc[p].AcqTest? && s.locks[s.pc[p].l].owner != Nobody ==>
        Step(s, Go(p)).pc[p] == AcqSleep1(s.pc[p].l)
  {
    RunInv(locks, acts);
    var s := Run(Boot(locks), acts);
    hide Run, Boot;
    if Enabled(s, Go(p)) && s.pc[p].AcqTest? { assert LockOk(s, s.pc[p].l); }
  }
}
