/**
 The disk side of the xv6 redo log (os/memory-assignment/log.c): the layout of
 the log on disk, the block writes that `commit` and `recover_from_log` issue,
 and the meaning of the disk at every crash point between two of those writes.
 */
module LogDisk {

  const LOGSIZE: nat := 30
  const MAXOPBLOCKS: nat := 10
  const WORDS: nat := 128 // BSIZE / sizeof(int)

  // A disk block as BSIZE bytes read as ints.
  type Block = b: seq<int> | |b| == WORDS witness seq(WORDS, i => 0)

  type Disk = seq<Block>

  // One `bwrite`, the unit a crash cannot divide.
  datatype Write = Write(addr: nat, data: Block)

  // Where the log lives: the header at `start`, log blocks behind it, `size` blocks in all.
  datatype Layout = Layout(start: nat, size: nat, blocks: nat) {
    ghost predicate Valid() {
      1 <= size && start + size <= blocks
    }

    // A block of the file system proper, outside the log.
    predicate Home(b: int) {
      0 <= b < blocks && !(start <= b < start + size)
    }
  }

  // The three parts of a disk, told apart by block number.
  datatype Regions = Regions(head: Block, log: seq<Block>, home: map<int, Block>)

  ghost function Split(l: Layout, d: Disk): (r: Regions)
    requires l.Valid() && |d| == l.blocks
    ensures |r.log| == l.size - 1
    ensures forall b :: b in r.home <==> l.Home(b)
  {
    Regions(d[l.start], d[l.start + 1..l.start + l.size], map b | 0 <= b < l.blocks && l.Home(b) :: d[b])
  }

  // The blocks one commit makes durable, with the contents they get.
  datatype Txn = Txn(addrs: seq<int>, data: seq<Block>)

  ghost predicate Distinct(s: seq<int>) {
    forall i, j | 0 <= i < j < |s| :: s[i] != s[j]
  }

  ghost predicate WfTxn(l: Layout, t: Txn) {
    && |t.addrs| == |t.data|
    && |t.addrs| <= LOGSIZE
    && |t.addrs| < l.size
    && forall i | 0 <= i < |t.addrs| :: l.Home(t.addrs[i])
  }

  ghost function Take(t: Txn, k: nat): Txn
    requires k <= |t.addrs| && k <= |t.data|
  {
    Txn(t.addrs[..k], t.data[..k])
  }

  // What a transaction leaves in its blocks, written in order.
  ghost function Replay(t: Txn): map<int, Block>
    requires |t.addrs| == |t.data|
    decreases |t.addrs|
  {
    if |t.addrs| == 0 then map[]
    else
      var n := |t.addrs| - 1;
      Replay(Take(t, n))[t.addrs[n] := t.data[n]]
  }

  // The home blocks with a transaction in its places.
  ghost function Updated(home: map<int, Block>, t: Txn): map<int, Block>
    requires |t.addrs| == |t.data|
  {
    home + Replay(t)
  }

  // The log absorbs a second write of the same block and appends a first one.
  ghost function Absorb(t: Txn, b: int, data: Block): (r: Txn)
    requires |t.addrs| == |t.data|
    ensures |r.addrs| == |r.data|
    ensures b in r.addrs
  {
    if b in t.addrs then
      Txn(t.addrs, seq(|t.addrs|, i requires 0 <= i < |t.data| => if t.addrs[i] == b then data else t.data[i]))
    else
      Txn(t.addrs + [b], t.data + [data])
  }

  // The header block holds n and then n block numbers.
  ghost function HeadAddrs(head: Block): seq<int>
    requires 0 <= head[0] < WORDS
  {
    head[1..1 + head[0]]
  }

  ghost function Logged(r: Regions): Txn
    requires 0 <= r.head[0] < WORDS && r.head[0] <= |r.log|
  {
    Txn(HeadAddrs(r.head), r.log[..r.head[0]])
  }

  // A disk on which `write_head` wrote the header.
  ghost predicate WfRegions(l: Layout, r: Regions) {
    && 0 <= r.head[0] < WORDS && r.head[0] <= |r.log|
    && WfTxn(l, Logged(r))
  }

  ghost predicate WfDisk(l: Layout, d: Disk) {
    l.Valid() && |d| == l.blocks && WfRegions(l, Split(l, d))
  }

  // No transaction is recorded on disk.
  ghost predicate Empty(l: Layout, d: Disk) {
    WfDisk(l, d) && d[l.start][0] == 0
  }

  // The home blocks of a disk.
  ghost function Home(l: Layout, d: Disk): map<int, Block>
    requires WfDisk(l, d)
  {
    Split(l, d).home
  }

  // The home blocks after a recovery that runs to completion.
  ghost function Recovered(l: Layout, d: Disk): map<int, Block>
    requires WfDisk(l, d)
  {
    var r := Split(l, d);
    Updated(r.home, Logged(r))
  }

  // Only the words that matter are rewritten; the rest of the block keeps what it held.
  function EncodeHead(prev: Block, addrs: seq<int>): (b: Block)
    requires |addrs| <= LOGSIZE
    ensures b[0] == |addrs| && HeadAddrs(b) == addrs
  {
    [|addrs|] + addrs + prev[1 + |addrs|..]
  }

  // ---- The writes of log.c ----

  function LogWrites(l: Layout, t: Txn): (ws: seq<Write>)
    requires |t.addrs| == |t.data|
    ensures |ws| == |t.addrs|
  {
    seq(|t.addrs|, i requires 0 <= i < |t.data| => Write(l.start + 1 + i, t.data[i]))
  }

  function HomeWrites(t: Txn): (ws: seq<Write>)
    requires |t.addrs| == |t.data| && forall i | 0 <= i < |t.addrs| :: 0 <= t.addrs[i]
    ensures |ws| == |t.addrs|
  {
    seq(|t.addrs|, i requires 0 <= i < |t.addrs| == |t.data| && 0 <= t.addrs[i] => Write(t.addrs[i], t.data[i]))
  }

  // install_trans() and the write_head() that erases the log.
  function EraseWrites(l: Layout, head: Block, t: Txn): seq<Write>
    requires |t.addrs| == |t.data| && forall i | 0 <= i < |t.addrs| :: 0 <= t.addrs[i]
  {
    HomeWrites(t) + [Write(l.start, EncodeHead(head, []))]
  }

  // commit(): log blocks, header, home blocks, cleared header; nothing for an empty transaction.
  function CommitWrites(l: Layout, head: Block, t: Txn): seq<Write>
    requires |t.addrs| == |t.data| <= LOGSIZE && forall i | 0 <= i < |t.addrs| :: 0 <= t.addrs[i]
  {
    if t.addrs == [] then []
    else
      LogWrites(l, t) + [Write(l.start, EncodeHead(head, t.addrs))]
      + EraseWrites(l, EncodeHead(head, t.addrs), t)
  }

  // recover_from_log(): home blocks, then a cleared header even when there was nothing to do.
  ghost function RecoverWrites(l: Layout, d: Disk): seq<Write>
    requires WfDisk(l, d)
  {
    EraseWrites(l, d[l.start], Logged(Split(l, d)))
  }

  // ---- Sequences of writes ----

  ghost function Apply(d: Disk, ws: seq<Write>): (r: Disk)
    requires forall i | 0 <= i < |ws| :: ws[i].addr < |d|
    ensures |r| == |d|
  {
    if ws == [] then d
    else
      var n := |ws| - 1;
      Apply(d, ws[..n])[ws[n].addr := ws[n].data]
  }

  // The block writes that lead from one disk to another.
  ghost predicate Issued(d: Disk, ws: seq<Write>, d': Disk) {
    && (forall i | 0 <= i < |ws| :: ws[i].addr < |d|)
    && d' == Apply(d, ws)
  }

  lemma IssuedOne(d: Disk, w: Write)
    requires w.addr < |d|
    ensures Issued(d, [w], d[w.addr := w.data])
  {
    assert [w][..0] == [];
  }

  lemma IssuedStep(d: Disk, ws: seq<Write>, k: nat, e: Disk)
    requires k < |ws| && Issued(d, ws[..k], e) && ws[k].addr < |d|
    ensures Issued(d, ws[..k + 1], e[ws[k].addr := ws[k].data])
  {
    assert ws[..k + 1][..k] == ws[..k];
  }

  lemma {:induction false} IssuedConcat(d: Disk, a: seq<Write>, d1: Disk, b: seq<Write>, d2: Disk)
    requires Issued(d, a, d1) && Issued(d1, b, d2)
    ensures Issued(d, a + b, d2)
    decreases |b|
  {
    if b == [] {
      assert a + b == a;
    } else {
      var n := |b| - 1;
      assert (a + b)[..|a + b| - 1] == a + b[..n];
      IssuedConcat(d, a, d1, b[..n], Apply(d1, b[..n]));
    }
  }

  // ---- One write, seen by region ----

  lemma HeadWrite(l: Layout, d: Disk, data: Block)
    requires l.Valid() && |d| == l.blocks
    ensures Split(l, d[l.start := data]) == Split(l, d).(head := data)
  {
    var d' := d[l.start := data];
    assert Split(l, d').log == Split(l, d).log;
    assert Split(l, d').home == Split(l, d).home;
  }

  lemma LogWrite(l: Layout, d: Disk, i: nat, data: Block)
    requires l.Valid() && |d| == l.blocks && i < l.size - 1
    ensures Split(l, d[l.start + 1 + i := data]) == Split(l, d).(log := Split(l, d).log[i := data])
  {
    var d' := d[l.start + 1 + i := data];
    assert Split(l, d').log == Split(l, d).log[i := data];
    assert Split(l, d').home == Split(l, d).home;
  }

  lemma HomeWrite(l: Layout, d: Disk, b: int, data: Block)
    requires l.Valid() && |d| == l.blocks && l.Home(b)
    ensures Split(l, d[b := data]) == Split(l, d).(home := Split(l, d).home[b := data])
  {
    var d' := d[b := data];
    assert Split(l, d').log == Split(l, d).log;
    assert Split(l, d').home == Split(l, d).home[b := data];
  }

  // ---- Updating home blocks ----

  lemma ReplayStep(t: Txn, k: nat)
    requires |t.addrs| == |t.data| && k < |t.addrs|
    ensures Replay(Take(t, k + 1)) == Replay(Take(t, k))[t.addrs[k] := t.data[k]]
  {
    assert Take(Take(t, k + 1), k) == Take(t, k);
  }

  lemma {:induction false} ReplayGrows(t: Txn, k: nat)
    requires |t.addrs| == |t.data| && k <= |t.addrs|
    ensures Replay(Take(t, k)).Keys <= Replay(t).Keys
    decreases |t.addrs|
  {
    var n := |t.addrs| - 1;
    if k <= n {
      assert Take(Take(t, n), k) == Take(t, k);
      ReplayGrows(Take(t, n), k);
    } else {
      assert Take(t, k) == t;
    }
  }

  lemma UpdatedStep(home: map<int, Block>, t: Txn, k: nat)
    requires |t.addrs| == |t.data| && k < |t.addrs|
    ensures Updated(home, Take(t, k + 1)) == Updated(home, Take(t, k))[t.addrs[k] := t.data[k]]
  {
    ReplayStep(t, k);
    PlusUpdate(home, Replay(Take(t, k)), t.addrs[k], t.data[k]);
  }

  lemma PlusUpdate(home: map<int, Block>, m: map<int, Block>, a: int, x: Block)
    ensures home + m[a := x] == (home + m)[a := x]
  {
  }

  lemma PlusAbsorbs(home: map<int, Block>, m: map<int, Block>, m': map<int, Block>)
    requires m.Keys <= m'.Keys
    ensures home + m + m' == home + m'
  {
  }

  // Installing part of a transaction first does not change what installing all of it gives.
  lemma PartInstalled(home: map<int, Block>, t: Txn, k: nat)
    requires |t.addrs| == |t.data| && k <= |t.addrs|
    ensures Updated(Updated(home, Take(t, k)), t) == Updated(home, t)
  {
    ReplayGrows(t, k);
    PlusAbsorbs(home, Replay(Take(t, k)), Replay(t));
  }

  // ---- Crash points of a commit ----

  // The regions of the disk after `k` of the writes of a commit.
  ghost function CommitRegions(r: Regions, t: Txn, k: nat): Regions
    requires |t.addrs| == |t.data| <= |r.log| && |t.addrs| <= LOGSIZE && k <= 2 * |t.addrs| + 2
  {
    var n := |t.addrs|;
    if k <= n then r.(log := t.data[..k] + r.log[k..])
    else
      var head := EncodeHead(r.head, t.addrs);
      if k <= 2 * n + 1 then
        Regions(head, t.data + r.log[n..], Updated(r.home, Take(t, k - n - 1)))
      else
        Regions(EncodeHead(head, []), t.data + r.log[n..], Updated(r.home, t))
  }

  // The four phases of a commit: which write comes k-th.
  ghost predicate CommitWrite(l: Layout, head: Block, t: Txn, k: nat, w: Write)
    requires |t.addrs| == |t.data| <= LOGSIZE && k < 2 * |t.addrs| + 2
    requires forall i | 0 <= i < |t.addrs| :: 0 <= t.addrs[i]
  {
    var n := |t.addrs|;
    if k < n then w == Write(l.start + 1 + k, t.data[k])
    else if k == n then w == Write(l.start, EncodeHead(head, t.addrs))
    else if k <= 2 * n then w.addr == t.addrs[k - n - 1] && w.data == t.data[k - n - 1]
    else w == Write(l.start, EncodeHead(EncodeHead(head, t.addrs), []))
  }

  lemma CommitCount(l: Layout, head: Block, t: Txn)
    requires |t.addrs| == |t.data| <= LOGSIZE && t.addrs != [] && forall i | 0 <= i < |t.addrs| :: 0 <= t.addrs[i]
    ensures |CommitWrites(l, head, t)| == 2 * |t.addrs| + 2
  {
  }

  lemma CommitWriteAt(l: Layout, head: Block, t: Txn, k: nat)
    requires |t.addrs| == |t.data| <= LOGSIZE && t.addrs != [] && forall i | 0 <= i < |t.addrs| :: 0 <= t.addrs[i]
    requires k < |CommitWrites(l, head, t)|
    ensures CommitWrite(l, head, t, k, CommitWrites(l, head, t)[k])
  {
    var n := |t.addrs|;
    var a := LogWrites(l, t) + [Write(l.start, EncodeHead(head, t.addrs))];
    var b := EraseWrites(l, EncodeHead(head, t.addrs), t);
    assert CommitWrites(l, head, t) == a + b;
    assert (a + b)[k] == if k <= n then a[k] else b[k - n - 1];
  }

  lemma CommitLogStep(r: Regions, t: Txn, k: nat)
    requires |t.addrs| == |t.data| <= |r.log| && |t.addrs| <= LOGSIZE && k < |t.addrs|
    ensures var s := CommitRegions(r, t, k);
            CommitRegions(r, t, k + 1) == s.(log := s.log[k := t.data[k]])
  {
    assert (t.data[..k] + r.log[k..])[k := t.data[k]] == t.data[..k + 1] + r.log[k + 1..];
  }

  lemma CommitHeadStep(r: Regions, t: Txn)
    requires |t.addrs| == |t.data| <= |r.log| && |t.addrs| <= LOGSIZE
    ensures var s := CommitRegions(r, t, |t.addrs|);
            CommitRegions(r, t, |t.addrs| + 1) == s.(head := EncodeHead(r.head, t.addrs))
  {
    assert t.data[..|t.addrs|] == t.data;
    assert Replay(Take(t, 0)) == map[];
    assert r.home + map[] == r.home;
  }

  lemma CommitHomeStep(r: Regions, t: Txn, k: nat)
    requires |t.addrs| == |t.data| <= |r.log| && |t.addrs| <= LOGSIZE && |t.addrs| < k <= 2 * |t.addrs|
    ensures var s, i := CommitRegions(r, t, k), k - |t.addrs| - 1;
            CommitRegions(r, t, k + 1) == s.(home := s.home[t.addrs[i] := t.data[i]])
  {
    var i := k - |t.addrs| - 1;
    UpdatedStep(r.home, t, i);
  }

  lemma CommitEraseStep(r: Regions, t: Txn)
    requires |t.addrs| == |t.data| <= |r.log| && |t.addrs| <= LOGSIZE
    ensures var s := CommitRegions(r, t, 2 * |t.addrs| + 1);
            CommitRegions(r, t, 2 * |t.addrs| + 2) == s.(head := EncodeHead(EncodeHead(r.head, t.addrs), []))
  {
    assert Take(t, |t.addrs|) == t;
  }

  lemma CommitStep(l: Layout, d: Disk, t: Txn, k: nat, e: Disk, w: Write)
    requires l.Valid() && |d| == |e| == l.blocks && WfTxn(l, t) && k < 2 * |t.addrs| + 2
    requires CommitWrite(l, d[l.start], t, k, w)
    requires Split(l, e) == CommitRegions(Split(l, d), t, k)
    ensures w.addr < l.blocks
    ensures Split(l, e[w.addr := w.data]) == CommitRegions(Split(l, d), t, k + 1)
  {
    var n := |t.addrs|;
    var r := Split(l, d);
    if k < n {
      LogWrite(l, e, k, w.data);
      CommitLogStep(r, t, k);
    } else if k == n {
      HeadWrite(l, e, w.data);
      CommitHeadStep(r, t);
    } else if k <= 2 * n {
      assert l.Home(t.addrs[k - n - 1]);
      HomeWrite(l, e, w.addr, w.data);
      CommitHomeStep(r, t, k);
    } else {
      HeadWrite(l, e, w.data);
      CommitEraseStep(r, t);
    }
  }

  // What a commit of `t`, starting from `d`, has made of the disk after `k` writes.
  ghost predicate CommitAt(l: Layout, d: Disk, t: Txn, k: nat, e: Disk)
    requires l.Valid() && |d| == l.blocks && WfTxn(l, t)
  {
    && |e| == l.blocks
    && k <= (if t.addrs == [] then 0 else 2 * |t.addrs| + 2)
    && Split(l, e) == CommitRegions(Split(l, d), t, k)
  }

  lemma CommitStart(l: Layout, d: Disk, t: Txn)
    requires l.Valid() && |d| == l.blocks && WfTxn(l, t)
    ensures CommitAt(l, d, t, 0, d)
  {
    assert t.data[..0] + Split(l, d).log[0..] == Split(l, d).log;
  }

  // An empty transaction writes nothing.
  lemma CommitNothing(l: Layout, d: Disk, t: Txn, k: nat, e: Disk)
    requires l.Valid() && |d| == l.blocks && WfTxn(l, t) && t.addrs == [] && CommitAt(l, d, t, k, e)
    ensures Split(l, e) == Split(l, d)
  {
    assert t.data[..0] + Split(l, d).log[0..] == Split(l, d).log;
  }

  lemma CommitNext(l: Layout, d: Disk, t: Txn, k: nat, e: Disk)
    requires l.Valid() && |d| == l.blocks && WfTxn(l, t) && t.addrs != []
    requires CommitAt(l, d, t, k, e) && k < |CommitWrites(l, d[l.start], t)|
    ensures var w := CommitWrites(l, d[l.start], t)[k];
            w.addr < l.blocks && CommitAt(l, d, t, k + 1, e[w.addr := w.data])
  {
    var ws := CommitWrites(l, d[l.start], t);
    CommitCount(l, d[l.start], t);
    CommitWriteAt(l, d[l.start], t, k);
    CommitStep(l, d, t, k, e, ws[k]);
  }

  // Every number of writes of a commit leads to one disk, in bounds all the way.
  lemma {:induction false} CommitReaches(l: Layout, d: Disk, t: Txn, k: nat) returns (e: Disk)
    requires l.Valid() && |d| == l.blocks && WfTxn(l, t) && t.addrs != []
    requires k <= |CommitWrites(l, d[l.start], t)|
    ensures Issued(d, CommitWrites(l, d[l.start], t)[..k], e) && CommitAt(l, d, t, k, e)
  {
    if k == 0 {
      e := d;
      CommitStart(l, d, t);
    } else {
      var e' := CommitReaches(l, d, t, k - 1);
      var ws := CommitWrites(l, d[l.start], t);
      CommitNext(l, d, t, k - 1, e');
      IssuedStep(d, ws, k - 1, e');
      e := e'[ws[k - 1].addr := ws[k - 1].data];
    }
  }

  // The commit point is the header write: a crash after k of the writes of a
  // commit recovers to the old home blocks if k <= n and to the new ones if
  // k > n. After the last one the home blocks hold them and the log is empty.
  lemma CommitCrashPoint(l: Layout, d: Disk, t: Txn, k: nat, e: Disk)
    requires Empty(l, d) && WfTxn(l, t) && t.addrs != [] && CommitAt(l, d, t, k, e)
    ensures WfDisk(l, e)
    ensures Recovered(l, e) == if k <= |t.addrs| then Home(l, d) else Updated(Home(l, d), t)
    ensures k == |CommitWrites(l, d[l.start], t)| ==> Empty(l, e) && Home(l, e) == Updated(Home(l, d), t)
  {
    CommitCount(l, d[l.start], t);
    CommitRecovers(l, Split(l, d), t, k);
  }

  lemma CommitRecovers(l: Layout, r: Regions, t: Txn, k: nat)
    requires WfRegions(l, r) && r.head[0] == 0 && WfTxn(l, t) && |t.addrs| <= |r.log|
    requires k <= 2 * |t.addrs| + 2
    requires forall b :: b in r.home <==> l.Home(b)
    ensures var s := CommitRegions(r, t, k);
            && WfRegions(l, s)
            && Updated(s.home, Logged(s)) == if k <= |t.addrs| then r.home else Updated(r.home, t)
  {
    var n := |t.addrs|;
    var s := CommitRegions(r, t, k);
    if n < k <= 2 * n + 1 {
      assert s.log[..n] == t.data;
      assert Logged(s) == t;
      PartInstalled(r.home, t, k - n - 1);
    }
  }

  // ---- Crash points of a recovery ----

  ghost function RecoverRegions(r: Regions, k: nat): Regions
    requires 0 <= r.head[0] < WORDS && r.head[0] <= |r.log| && k <= r.head[0] + 1
  {
    var t := Logged(r);
    if k <= |t.addrs| then r.(home := Updated(r.home, Take(t, k)))
    else Regions(EncodeHead(r.head, []), r.log, Updated(r.home, t))
  }

  lemma RecoverHomeStep(r: Regions, k: nat)
    requires 0 <= r.head[0] < WORDS && r.head[0] <= |r.log| && k < r.head[0]
    ensures var s, t := RecoverRegions(r, k), Logged(r);
            RecoverRegions(r, k + 1) == s.(home := s.home[t.addrs[k] := t.data[k]])
  {
    var t := Logged(r);
    UpdatedStep(r.home, t, k);
  }

  lemma RecoverEraseStep(r: Regions)
    requires 0 <= r.head[0] < WORDS && r.head[0] <= |r.log|
    ensures var s := RecoverRegions(r, r.head[0]);
            RecoverRegions(r, r.head[0] + 1) == s.(head := EncodeHead(r.head, []))
  {
    assert Take(Logged(r), r.head[0]) == Logged(r);
  }

  lemma RecoverStep(l: Layout, d: Disk, k: nat, e: Disk)
    requires WfDisk(l, d) && |e| == l.blocks && k < |RecoverWrites(l, d)|
    requires Split(l, e) == RecoverRegions(Split(l, d), k)
    ensures var w := RecoverWrites(l, d)[k];
            && w.addr < l.blocks
            && Split(l, e[w.addr := w.data]) == RecoverRegions(Split(l, d), k + 1)
  {
    var r := Split(l, d);
    var t := Logged(r);
    if k < |t.addrs| {
      assert RecoverWrites(l, d)[k] == HomeWrites(t)[k];
      assert l.Home(t.addrs[k]);
      HomeWrite(l, e, t.addrs[k], t.data[k]);
      RecoverHomeStep(r, k);
    } else {
      HeadWrite(l, e, EncodeHead(r.head, []));
      RecoverEraseStep(r);
    }
  }

  // What a recovery, starting from `d`, has made of the disk after `k` writes.
  ghost predicate RecoverAt(l: Layout, d: Disk, k: nat, e: Disk)
    requires WfDisk(l, d)
  {
    && |e| == l.blocks && k <= d[l.start][0] + 1
    && Split(l, e) == RecoverRegions(Split(l, d), k)
  }

  lemma RecoverStart(l: Layout, d: Disk)
    requires WfDisk(l, d)
    ensures RecoverAt(l, d, 0, d)
  {
    assert Replay(Take(Logged(Split(l, d)), 0)) == map[];
    assert Split(l, d).home + map[] == Split(l, d).home;
  }

  lemma RecoverNext(l: Layout, d: Disk, k: nat, e: Disk)
    requires WfDisk(l, d) && RecoverAt(l, d, k, e) && k < |RecoverWrites(l, d)|
    ensures var w := RecoverWrites(l, d)[k];
            w.addr < l.blocks && RecoverAt(l, d, k + 1, e[w.addr := w.data])
  {
    RecoverStep(l, d, k, e);
  }

  lemma {:induction false} RecoverReaches(l: Layout, d: Disk, k: nat) returns (e: Disk)
    requires WfDisk(l, d) && k <= |RecoverWrites(l, d)|
    ensures Issued(d, RecoverWrites(l, d)[..k], e) && RecoverAt(l, d, k, e)
  {
    if k == 0 {
      e := d;
      RecoverStart(l, d);
    } else {
      var e' := RecoverReaches(l, d, k - 1);
      var ws := RecoverWrites(l, d);
      RecoverNext(l, d, k - 1, e');
      IssuedStep(d, ws, k - 1, e');
      e := e'[ws[k - 1].addr := ws[k - 1].data];
    }
  }

  // Recovery is idempotent at every crash point: whatever part of it ran,
  // recovering again gives the home blocks it would have given the first time;
  // and once it has run, the home blocks hold them and the log is empty.
  lemma RecoverCrashPoint(l: Layout, d: Disk, k: nat, e: Disk)
    requires WfDisk(l, d) && RecoverAt(l, d, k, e)
    ensures WfDisk(l, e) && Recovered(l, e) == Recovered(l, d)
    ensures k == |RecoverWrites(l, d)| ==> Empty(l, e) && Home(l, e) == Recovered(l, d)
  {
    var r := Split(l, d);
    var t := Logged(r);
    if k <= |t.addrs| {
      assert Logged(Split(l, e)) == t;
      PartInstalled(r.home, t, k);
    }
  }
}
