/**
 The process table of os/memory-assignment/proc.c: the critical sections of exit, wait,
 wakeup, kill and allocproc, each of which runs with ptable.lock held.
 */
module ProcTable {

  const NPROC: nat := 64

  datatype Status = Unused | Embryo | Sleeping | Runnable | Running | Zombie

  // What a process sleeps on: a process (wait), a sleep lock, or nothing.
  datatype Chan = NoChan | ProcChan(i: nat) | LockChan(l: nat)

  const Nobody: int := -1

  // struct proc. `parent` is a slot of the table, or Nobody.
  datatype Slot = Slot(st: Status, parent: int, chan: Chan, killed: bool, pid: nat)

  predicate Alive(x: Slot) {
    x.st == Sleeping || x.st == Runnable || x.st == Running
  }

  // ---- The sections as functions ----

  function WokenSlot(x: Slot, chan: Chan): Slot {
    if x.st == Sleeping && x.chan == chan then x.(st := Runnable) else x
  }

  ghost function Woken(ps: seq<Slot>, chan: Chan): (r: seq<Slot>)
    ensures |r| == |ps| && forall i :: 0 <= i < |ps| ==> r[i] == WokenSlot(ps[i], chan)
  {
    seq(|ps|, i requires 0 <= i < |ps| => WokenSlot(ps[i], chan))
  }

  ghost predicate ZombieChild(ps: seq<Slot>, me: int, n: nat)
    requires n <= |ps|
  {
    exists i :: 0 <= i < n && ps[i].parent == me && ps[i].st == Zombie
  }

  ghost predicate HasChild(ps: seq<Slot>, me: int) {
    exists i :: 0 <= i < |ps| && ps[i].parent == me
  }

  // One slot of the table when process `me` has exited. Its parent is woken, its children are
  // handed to init, and init is woken if one of them is a zombie already.
  ghost function ExitedSlot(ps: seq<Slot>, me: nat, init: nat, i: nat): Slot
    requires me < |ps| && i < |ps|
  {
    var x := if ps[me].parent >= 0 then WokenSlot(ps[i], ProcChan(ps[me].parent)) else ps[i];
    var y := if ZombieChild(ps, me, |ps|) then WokenSlot(x, ProcChan(init)) else x;
    if i == me then y.(st := Zombie) else if ps[i].parent == me then y.(parent := init) else y
  }

  ghost function Exited(ps: seq<Slot>, me: nat, init: nat): (r: seq<Slot>)
    requires me < |ps|
    ensures |r| == |ps| && forall i :: 0 <= i < |ps| ==> r[i] == ExitedSlot(ps, me, init, i)
  {
    seq(|ps|, i requires 0 <= i < |ps| => ExitedSlot(ps, me, init, i))
  }

  function Reaped(x: Slot): Slot {
    Slot(Unused, Nobody, x.chan, false, 0)
  }

  // The first slot from i on that is a zombie child of `me`, that has the pid, or that is free.
  function ZombieFrom(ps: seq<Slot>, me: int, i: nat): (r: nat)
    requires i <= |ps|
    ensures i <= r <= |ps| && (r < |ps| ==> ps[r].parent == me && ps[r].st == Zombie)
    ensures forall k :: i <= k < r ==> !(ps[k].parent == me && ps[k].st == Zombie)
    decreases |ps| - i
  {
    if i == |ps| || (ps[i].parent == me && ps[i].st == Zombie) then i else ZombieFrom(ps, me, i + 1)
  }

  function PidFrom(ps: seq<Slot>, pid: nat, i: nat): (r: nat)
    requires i <= |ps|
    ensures i <= r <= |ps| && (r < |ps| ==> ps[r].pid == pid) && forall k :: i <= k < r ==> ps[k].pid != pid
    decreases |ps| - i
  {
    if i == |ps| || ps[i].pid == pid then i else PidFrom(ps, pid, i + 1)
  }

  function FreeFrom(ps: seq<Slot>, i: nat): (r: nat)
    requires i <= |ps|
    ensures i <= r <= |ps| && (r < |ps| ==> ps[r].st == Unused) && forall k :: i <= k < r ==> ps[k].st != Unused
    decreases |ps| - i
  {
    if i == |ps| || ps[i].st == Unused then i else FreeFrom(ps, i + 1)
  }

  // What one round of wait comes to.
  datatype Round = Reap(child: nat) | Fail | Sleep

  ghost function WaitRoundOf(ps: seq<Slot>, me: nat): Round
    requires me < |ps|
  {
    var z := ZombieFrom(ps, me, 0);
    if z < |ps| then Reap(z) else if !HasChild(ps, me) || ps[me].killed then Fail else Sleep
  }

  ghost function AfterRound(ps: seq<Slot>, me: nat): seq<Slot>
    requires me < |ps|
  {
    match WaitRoundOf(ps, me)
    case Reap(c) => ps[c := Reaped(ps[c])]
    case Fail => ps
    case Sleep => ps[me := ps[me].(chan := ProcChan(me), st := Sleeping)]
  }

  ghost function Killed(ps: seq<Slot>, pid: nat): seq<Slot> {
    var k := PidFrom(ps, pid, 0);
    if k < |ps| then ps[k := KilledSlot(ps[k])] else ps
  }

  ghost function Allocated(ps: seq<Slot>, pid: nat): seq<Slot> {
    var k := FreeFrom(ps, 0);
    if k < |ps| then ps[k := ps[k].(st := Embryo, pid := pid)] else ps
  }

  function KilledSlot(x: Slot): Slot {
    x.(killed := true, st := if x.st == Sleeping then Runnable else x.st)
  }

  // ---- What the sections do, field by field ----

  ghost predicate FirstWithPid(ps: seq<Slot>, pid: nat, k: nat) {
    k < |ps| && ps[k].pid == pid && forall j :: 0 <= j < k ==> ps[j].pid != pid
  }

  ghost predicate OthersSame(ps: seq<Slot>, to: seq<Slot>, k: nat) {
    |ps| == |to| && forall j :: 0 <= j < |ps| && j != k ==> to[j] == ps[j]
  }

  // kill marks the first slot with the pid, wakes it if it sleeps, and does nothing else.
  ghost predicate MarkedKilled(ps: seq<Slot>, to: seq<Slot>, k: nat) {
    && k < |ps| && OthersSame(ps, to, k)
    && to[k].killed && to[k].st == (if ps[k].st == Sleeping then Runnable else ps[k].st)
    && to[k].parent == ps[k].parent && to[k].chan == ps[k].chan && to[k].pid == ps[k].pid
  }

  lemma KilledIs(ps: seq<Slot>, pid: nat)
    ensures var to, k := Killed(ps, pid), PidFrom(ps, pid, 0);
      if k < |ps| then FirstWithPid(ps, pid, k) && MarkedKilled(ps, to, k) else to == ps
    ensures PidFrom(ps, pid, 0) == |ps| <==> forall j :: 0 <= j < |ps| ==> ps[j].pid != pid
  {
  }

  // wakeup makes exactly the sleepers on the channel runnable, and touches nothing else.
  lemma WokenIs(ps: seq<Slot>, chan: Chan, i: nat)
    requires i < |ps|
    ensures var x, y := ps[i], Woken(ps, chan)[i];
      && (y.st == if x.st == Sleeping && x.chan == chan then Runnable else x.st)
      && y.parent == x.parent && y.chan == x.chan && y.killed == x.killed && y.pid == x.pid
  {
  }

  // exit: the process is a zombie, its children are init's, its parent does not sleep in wait any
  // more, nor does init if it has inherited a zombie. Nothing else happens to anybody.
  lemma ExitedIs(ps: seq<Slot>, me: nat, init: nat, i: nat)
    requires me < |ps| && init < |ps| && i < |ps| && ps[me].st == Running && ps[me].parent != me
    ensures var x, y := ps[i], Exited(ps, me, init)[i];
      && y.killed == x.killed && y.pid == x.pid && y.chan == x.chan
      && y.parent == (if x.parent == me then init else x.parent)
      && (i == me ==> y.st == Zombie)
      && (i != me && y.st != x.st ==> x.st == Sleeping && y.st == Runnable)
      && (i != me && x.st == Sleeping && x.chan.ProcChan? ==>
          (y.st == Runnable <==> x.chan.i == ps[me].parent || (x.chan.i == init && ZombieChild(ps, me, |ps|))))
      && (i != me && x.st == Sleeping && !x.chan.ProcChan? ==> y.st == Sleeping)
  {
  }

  // wait: a zombie child if there is one, and its slot is free again; failure without children or
  // when killed; and otherwise sleep, on the process itself.
  lemma RoundIs(ps: seq<Slot>, me: nat)
    requires me < |ps|
    ensures var r, to := WaitRoundOf(ps, me), AfterRound(ps, me);
      && (r.Reap? <==> exists i :: 0 <= i < |ps| && ps[i].parent == me && ps[i].st == Zombie)
      && (r.Reap? ==> r.child < |ps| && ps[r.child].parent == me && ps[r.child].st == Zombie)
      && (r.Reap? ==> OthersSame(ps, to, r.child) && to[r.child].st == Unused && to[r.child].parent == Nobody)
      && (r.Reap? ==> !to[r.child].killed && to[r.child].pid == 0)
      && (!r.Reap? ==> (r.Fail? <==> ps[me].killed || forall i :: 0 <= i < |ps| ==> ps[i].parent != me))
      && (r.Fail? ==> to == ps)
      && (r.Sleep? ==> OthersSame(ps, to, me) && to[me].st == Sleeping && to[me].chan == ProcChan(me))
      && (r.Sleep? ==> to[me].parent == ps[me].parent && to[me].pid == ps[me].pid && !to[me].killed)
  {
    var z := ZombieFrom(ps, me, 0);
    if z < |ps| { assert ps[z].parent == me && ps[z].st == Zombie; }
  }

  // allocproc: the first unused slot becomes an embryo with the pid; the mark of a kill stays.
  lemma AllocatedIs(ps: seq<Slot>, pid: nat)
    ensures var k, to := FreeFrom(ps, 0), Allocated(ps, pid);
      && (k == |ps| <==> forall j :: 0 <= j < |ps| ==> ps[j].st != Unused)
      && (k == |ps| ==> to == ps)
      && (k < |ps| ==> OthersSame(ps, to, k) && ps[k].st == Unused && to[k].st == Embryo && to[k].pid == pid)
      && (k < |ps| ==> to[k].killed == ps[k].killed && to[k].parent == ps[k].parent)
  {
  }

  // A slot in the middle of exit's loop over the table, of which i slots are done.
  ghost function Passed(ps: seq<Slot>, before: seq<Slot>, me: nat, init: nat, i: nat, k: nat): Slot
    requires i <= |ps| && k < |before|
  {
    var y := if ZombieChild(ps, me, i) then WokenSlot(before[k], ProcChan(init)) else before[k];
    if k < i && before[k].parent == me then y.(parent := init) else y
  }

  class Table {
    var ps: seq<Slot>
    var init: nat
    var nextpid: nat

    // wakeup1
    method Wakeup1(chan: Chan)
      modifies this`ps
      ensures ps == Woken(old(ps), chan)
    {
      var i := 0;
      while i < |ps|
        invariant 0 <= i <= |ps| == |old(ps)|
        invariant forall k :: 0 <= k < i ==> ps[k] == WokenSlot(old(ps)[k], chan)
        invariant forall k :: i <= k < |ps| ==> ps[k] == old(ps)[k]
      {
        if ps[i].st == Sleeping && ps[i].chan == chan {
          ps := ps[i := ps[i].(st := Runnable)];
        }
        i := i + 1;
      }
    }

    // exit, from the acquiring of ptable.lock on
    method Exit(me: nat)
      requires me < |ps| && init < |ps| && me != init && ps[me].st == Running && ps[me].parent != me
      modifies this`ps
      ensures ps == Exited(old(ps), me, init)
    {
      if ps[me].parent >= 0 { Wakeup1(ProcChan(ps[me].parent)); }
      ghost var before := ps;
      var i := 0;
      while i < |ps|
        invariant 0 <= i <= |ps| == |old(ps)| && |before| == |ps|
        invariant forall k :: 0 <= k < |ps| ==> ps[k] == Passed(old(ps), before, me, init, i, k)
      {
        if ps[i].parent == me {
          ps := ps[i := ps[i].(parent := init)];
          if ps[i].st == Zombie { Wakeup1(ProcChan(init)); }
        }
        i := i + 1;
      }
      ps := ps[me := ps[me].(st := Zombie)];
    }

    // wait, from the acquiring of ptable.lock (or the waking up) until it returns or sleeps
    method WaitRound(me: nat) returns (r: Round, pid: nat)
      requires me < |ps|
      modifies this`ps
      ensures r == WaitRoundOf(old(ps), me) && ps == AfterRound(old(ps), me)
      ensures r.Reap? ==> r.child < |ps| && pid == old(ps)[r.child].pid
    {
      var havekids := false;
      pid := 0;
      var i := 0;
      while i < |ps|
        invariant 0 <= i <= |ps| && ps == old(ps) && ZombieFrom(ps, me, 0) >= i
        invariant havekids <==> exists k :: 0 <= k < i && ps[k].parent == me
      {
        if ps[i].parent == me {
          havekids := true;
          if ps[i].st == Zombie {
            r, pid := Reap(i), ps[i].pid;
            ps := ps[i := Slot(Unused, Nobody, ps[i].chan, false, 0)];
            return;
          }
        }
        i := i + 1;
      }
      if !havekids || ps[me].killed { return Fail, 0; }
      ps := ps[me := ps[me].(chan := ProcChan(me), st := Sleeping)];
      r := Sleep;
    }

    // kill: the first slot with that pid
    method Kill(pid: nat) returns (found: bool)
      modifies this`ps
      ensures ps == Killed(old(ps), pid) && (found <==> exists k :: 0 <= k < |ps| && old(ps)[k].pid == pid)
      ensures forall k | FirstWithPid(old(ps), pid, k) :: MarkedKilled(old(ps), ps, k)
      ensures !found ==> ps == old(ps)
    {
      KilledIs(ps, pid);
      var i := 0;
      while i < |ps|
        invariant 0 <= i <= |ps| && ps == old(ps) && PidFrom(ps, pid, 0) >= i
      {
        if ps[i].pid == pid {
          ps := ps[i := ps[i].(killed := true)];
          if ps[i].st == Sleeping { ps := ps[i := ps[i].(st := Runnable)]; }
          return true;
        }
        i := i + 1;
      }
      found := false;
    }

    // allocproc, the part under the lock
    method AllocProc() returns (r: int)
      modifies this`ps, this`nextpid
      ensures ps == Allocated(old(ps), old(nextpid))
      ensures r == if FreeFrom(old(ps), 0) < |ps| then FreeFrom(old(ps), 0) else Nobody
      ensures nextpid == if r == Nobody then old(nextpid) else old(nextpid) + 1
    {
      var i := 0;
      while i < |ps|
        invariant 0 <= i <= |ps| && FreeFrom(ps, 0) >= i
        modifies {}
      {
        if ps[i].st == Unused { break; }
        i := i + 1;
      }
      if i == |ps| { return Nobody; }
      ps := ps[i := ps[i].(st := Embryo)];
      ps := ps[i := ps[i].(pid := nextpid)];
      nextpid := nextpid + 1;
      r := i;
    }
  }
}
