/**
 What begin_op, log_write and end_op come to, told from the calls alone: which of them are
 accepted, what every block holds, and what a crash leaves. LogSimulation proves it of the code.
 */
module LogCalls {
  import opened LogDisk

  datatype Call = Begin | Log(op: nat, b: int, data: Block) | End(op: nat)

  // The log_write calls of the operations under way, the blocks logged since the last commit,
  // every home block as last logged, and as last committed.
  datatype Ledger = Ledger(ops: seq<nat>, blocks: set<int>, latest: map<int, Block>, home: map<int, Block>, panicked: bool)

  // A log_write that its caller may make: by an operation under way, within MAXOPBLOCKS, of a home block.
  predicate Allowed(l: Layout, ops: seq<nat>, c: Call) {
    c.Log? && c.op < |ops| && ops[c.op] < MAXOPBLOCKS && l.Home(c.b)
  }

  // One of those that finds room in the log.
  ghost predicate Accepts(l: Layout, x: Ledger, c: Call) {
    !x.panicked && Allowed(l, x.ops, c) && |x.blocks| < LOGSIZE && |x.blocks| < l.size - 1
  }

  // An end_op of the last operation under way.
  ghost predicate Commits(x: Ledger, c: Call) {
    !x.panicked && c.End? && c.op < |x.ops| && |x.ops| == 1
  }

  ghost function Called(l: Layout, x: Ledger, c: Call): Ledger {
    if x.panicked then x
    else
      match c
      case Begin =>
        if |x.blocks| + (|x.ops| + 1) * MAXOPBLOCKS <= LOGSIZE then x.(ops := x.ops + [0]) else x
      case Log(op, b, data) =>
        if Accepts(l, x, c) then
          x.(ops := x.ops[op := x.ops[op] + 1], blocks := x.blocks + {b}, latest := x.latest[b := data])
        else x.(panicked := Allowed(l, x.ops, c))
      case End(op) =>
        if Commits(x, c) then Ledger([], {}, x.latest, x.latest, false)
        else if op < |x.ops| then x.(ops := x.ops[..op] + x.ops[op + 1..])
        else x
  }

  // After a list of calls, from a machine that has just recovered to `home`.
  ghost function After(l: Layout, home: map<int, Block>, calls: seq<Call>): Ledger {
    if calls == [] then Ledger([], {}, home, home, false)
    else Called(l, After(l, home, calls[..|calls| - 1]), calls[|calls| - 1])
  }

  // The block writes that the calls cause: a commit writes every logged block twice, and the header twice.
  ghost function Caused(x: Ledger, c: Call): nat {
    if Commits(x, c) && x.blocks != {} then 2 * |x.blocks| + 2 else 0
  }

  ghost function Writes(l: Layout, home: map<int, Block>, calls: seq<Call>): nat {
    if calls == [] then 0
    else
      var front := calls[..|calls| - 1];
      Writes(l, home, front) + Caused(After(l, home, front), calls[|calls| - 1])
  }

  // What a crash after m of those writes recovers to: the header write is the one that counts.
  ghost function CrashHome(l: Layout, home: map<int, Block>, calls: seq<Call>, m: nat): map<int, Block> {
    if calls == [] then home
    else
      var front := calls[..|calls| - 1];
      var n, x := Writes(l, home, front), After(l, home, front);
      if m <= n then CrashHome(l, home, front, m)
      else if m <= n + |x.blocks| then x.home else After(l, home, calls).home
  }

  // ---- What that means for a block ----

  // Call i logs block b.
  ghost predicate Logs(l: Layout, home: map<int, Block>, calls: seq<Call>, i: nat, b: int) {
    i < |calls| && calls[i].Log? && calls[i].b == b && Accepts(l, After(l, home, calls[..i]), calls[i])
  }

  // Call c is the last of the first n to commit.
  ghost predicate LastCommit(l: Layout, home: map<int, Block>, calls: seq<Call>, n: nat, c: nat) {
    && c < n <= |calls| && Commits(After(l, home, calls[..c]), calls[c])
    && forall j: nat | c < j < n :: !Commits(After(l, home, calls[..j]), calls[j])
  }

  ghost predicate LastLogged(l: Layout, home: map<int, Block>, calls: seq<Call>, n: nat, b: int, i: nat) {
    i < n <= |calls| && Logs(l, home, calls, i, b) && forall j: nat | i < j < n :: !Logs(l, home, calls, j, b)
  }

  lemma OneMoreCall(l: Layout, home: map<int, Block>, calls: seq<Call>, n: nat)
    requires 0 < n <= |calls|
    ensures After(l, home, calls[..n]) == Called(l, After(l, home, calls[..n - 1]), calls[n - 1])
  {
    assert calls[..n][..n - 1] == calls[..n - 1];
  }

  lemma {:induction false} LatestIs(l: Layout, home: map<int, Block>, calls: seq<Call>, n: nat, b: int, i: nat)
    requires LastLogged(l, home, calls, n, b, i)
    ensures b in After(l, home, calls[..n]).latest && After(l, home, calls[..n]).latest[b] == calls[i].data
    decreases n
  {
    hide After;
    OneMoreCall(l, home, calls, n);
    if i < n - 1 {
      LatestIs(l, home, calls, n - 1, b, i);
      assert !Logs(l, home, calls, n - 1, b);
    }
  }

  lemma {:induction false} LatestNone(l: Layout, home: map<int, Block>, calls: seq<Call>, n: nat, b: int)
    requires n <= |calls| && b in home && forall j: nat | j < n :: !Logs(l, home, calls, j, b)
    ensures b in After(l, home, calls[..n]).latest && After(l, home, calls[..n]).latest[b] == home[b]
  {
    if n > 0 {
      hide After;
      OneMoreCall(l, home, calls, n);
      LatestNone(l, home, calls, n - 1, b);
      assert !Logs(l, home, calls, n - 1, b);
    }
  }

  lemma {:induction false} HomeIs(l: Layout, home: map<int, Block>, calls: seq<Call>, n: nat, c: nat)
    requires LastCommit(l, home, calls, n, c)
    ensures After(l, home, calls[..n]).home == After(l, home, calls[..c]).latest
    decreases n
  {
    hide After;
    OneMoreCall(l, home, calls, n);
    if c < n - 1 { HomeIs(l, home, calls, n - 1, c); }
  }

  lemma {:induction false} HomeNone(l: Layout, home: map<int, Block>, calls: seq<Call>, n: nat)
    requires n <= |calls| && forall j: nat | j < n :: !Commits(After(l, home, calls[..j]), calls[j])
    ensures After(l, home, calls[..n]).home == home
  {
    if n > 0 {
      hide After;
      OneMoreCall(l, home, calls, n);
      HomeNone(l, home, calls, n - 1);
      assert !Commits(After(l, home, calls[..n - 1]), calls[n - 1]);
    }
  }

  // A home block holds what was logged to it last before the last commit.
  lemma CommittedBlock(l: Layout, home: map<int, Block>, calls: seq<Call>, c: nat, b: int, i: nat)
    requires LastCommit(l, home, calls, |calls|, c) && LastLogged(l, home, calls, c, b, i)
    ensures b in After(l, home, calls).home && After(l, home, calls).home[b] == calls[i].data
  {
    assert calls[..|calls|] == calls;
    HomeIs(l, home, calls, |calls|, c);
    LatestIs(l, home, calls, c, b, i);
  }

  // Without a commit, or without a log_write before the last one, it holds what recovery gave.
  lemma UntouchedBlock(l: Layout, home: map<int, Block>, calls: seq<Call>, c: nat, b: int)
    requires b in home && c <= |calls| && (c < |calls| ==> LastCommit(l, home, calls, |calls|, c))
    requires c == |calls| ==> forall j: nat | j < |calls| :: !Commits(After(l, home, calls[..j]), calls[j])
    requires c < |calls| ==> forall j: nat | j < c :: !Logs(l, home, calls, j, b)
    ensures b in After(l, home, calls).home && After(l, home, calls).home[b] == home[b]
  {
    assert calls[..|calls|] == calls;
    if c < |calls| {
      HomeIs(l, home, calls, |calls|, c);
      LatestNone(l, home, calls, c, b);
    } else {
      HomeNone(l, home, calls, |calls|);
    }
  }

  // Nothing is lost with the calls that wrote nothing.
  lemma {:induction false} NothingLogged(l: Layout, home: map<int, Block>, calls: seq<Call>)
    ensures var x := After(l, home, calls); x.blocks == {} ==> x.latest == x.home
  {
    if calls != [] { NothingLogged(l, home, calls[..|calls| - 1]); }
  }

  lemma {:induction false} CrashAfterAll(l: Layout, home: map<int, Block>, calls: seq<Call>)
    ensures CrashHome(l, home, calls, Writes(l, home, calls)) == After(l, home, calls).home
  {
    if calls != [] {
      var front, c := calls[..|calls| - 1], calls[|calls| - 1];
      assert After(l, home, calls) == Called(l, After(l, home, front), c);
      hide After;
      CrashAfterAll(l, home, front);
      NothingLogged(l, home, front);
      NothingCaused(l, After(l, home, front), c);
      hide Called, Caused;
    }
  }

  lemma NothingCaused(l: Layout, x: Ledger, c: Call)
    requires x.blocks == {} ==> x.latest == x.home
    ensures Caused(x, c) == 0 ==> Called(l, x, c).home == x.home
    ensures Caused(x, c) > 0 ==> Caused(x, c) > |x.blocks|
  {
  }

  // Every crash leaves the blocks as the first n calls have committed them, for some n that
  // includes every call whose writes were all done.
  lemma {:induction false} CrashPrefix(l: Layout, home: map<int, Block>, calls: seq<Call>, m: nat) returns (n: nat)
    requires m <= Writes(l, home, calls)
    ensures n <= |calls| && CrashHome(l, home, calls, m) == After(l, home, calls[..n]).home
    ensures forall k: nat | k <= |calls| && Writes(l, home, calls[..k]) <= m :: k <= n
  {
    hide After, Called, Caused;
    assert calls[..|calls|] == calls;
    if m == Writes(l, home, calls) {
      CrashAfterAll(l, home, calls);
      n := |calls|;
    } else {
      var front := calls[..|calls| - 1];
      assert front[..|front|] == front;
      if m <= Writes(l, home, front) {
        n := CrashPrefix(l, home, front, m);
        assert forall k: nat :: k <= |front| ==> front[..k] == calls[..k];
      } else {
        n := if m <= Writes(l, home, front) + |After(l, home, front).blocks| then |front| else |calls|;
      }
    }
  }
}
