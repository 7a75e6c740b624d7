/**
 os/memory-assignment/log.c itself: the in-memory log, the buffer cache it goes
 through, and the loops of `commit` and `recover_from_log`, each proved to issue
 exactly the block writes of LogDisk, in that order.
 */
module LogCode {
  import opened LogDisk

  // A cached block; a dirty one is pinned until its next `bwrite`.
  datatype Buf = Buf(data: Block, dirty: bool)

  // What `bread` returns for a block.
  ghost function Lookup(disk: Disk, cache: map<int, Buf>, b: int): Block
    requires 0 <= b < |disk|
  {
    if b in cache then cache[b].data else disk[b]
  }

  // The contents of a list of blocks, as `bread` returns them.
  ghost function Contents(disk: Disk, cache: map<int, Buf>, addrs: seq<int>): (data: seq<Block>)
    requires forall i | 0 <= i < |addrs| :: 0 <= addrs[i] < |disk|
    ensures |data| == |addrs|
    ensures forall i | 0 <= i < |addrs| :: data[i] == Lookup(disk, cache, addrs[i])
  {
    seq(|addrs|, i requires 0 <= i < |addrs| && 0 <= addrs[i] < |disk| => Lookup(disk, cache, addrs[i]))
  }

  ghost function Dirty(cache: map<int, Buf>): set<int> {
    set b | b in cache && cache[b].dirty
  }

  ghost function Elements(addrs: seq<int>): set<int> {
    set b | b in addrs
  }

  // Distinct home blocks are logged, and every clean buffer agrees with the disk.
  ghost predicate WfMem(l: Layout, disk: Disk, cache: map<int, Buf>, addrs: seq<int>) {
    && l.Valid()
    && |disk| == l.blocks
    && |addrs| < l.size
    && (forall i | 0 <= i < |addrs| :: 0 <= addrs[i] < l.blocks && l.Home(addrs[i]))
    && (forall b | b in cache :: 0 <= b < l.blocks)
    && (forall b | b in cache && !cache[b].dirty :: cache[b].data == disk[b])
  }

  class FsLog {
    const l: Layout
    var outstanding: int
    var committing: bool
    var n: nat // lh.n
    const block: array<int> // lh.block
    var disk: Disk
    var cache: map<int, Buf>
    ghost var journal: seq<Write> // every block write so far, in order

    ghost predicate Valid()
      reads this, block
    {
      && block.Length == LOGSIZE && n <= LOGSIZE
      && WfMem(l, disk, cache, block[..n])
    }

    // Exactly the logged blocks are pinned, and each is logged once.
    ghost predicate Pinned()
      requires Valid()
      reads this, block
    {
      Dirty(cache) == Elements(block[..n]) && Distinct(block[..n])
    }

    ghost function View(b: int): Block
      requires Valid() && 0 <= b < l.blocks
      reads this, block
    {
      Lookup(disk, cache, b)
    }

    // The transaction being built.
    ghost function Pending(): (t: Txn)
      requires Valid()
      reads this, block
      ensures WfTxn(l, t)
    {
      Txn(block[..n], Contents(disk, cache, block[..n]))
    }

    // A machine that has just booted: nothing cached, nothing logged in memory.
    constructor (layout: Layout, d: Disk)
      requires layout.Valid() && |d| == layout.blocks
      ensures Valid() && Pinned() && l == layout && disk == d && journal == []
      ensures n == 0 && outstanding == 0 && !committing && cache == map[] && fresh(block)
    {
      l, disk := layout, d;
      outstanding, committing, n, cache := 0, false, 0, map[];
      block := new int[LOGSIZE](_ => 0);
      journal := [];
    }

    // bread: the cached copy, or a copy just read from the disk.
    method Bread(b: int) returns (data: Block)
      requires Valid() && 0 <= b < l.blocks
      modifies this`cache
      ensures Valid() && data == View(b) == old(View(b))
      ensures Pending() == old(Pending())
      ensures forall a | 0 <= a < l.blocks :: View(a) == old(View(a))
      ensures Dirty(cache) == old(Dirty(cache))
      ensures cache == if b in old(cache) then old(cache) else old(cache)[b := Buf(disk[b], false)]
    {
      if b !in cache {
        ReadIn(disk, cache, block[..n], b);
        ReadIn(disk, cache, LogAddrs(l, n), b);
        cache := cache[b := Buf(disk[b], false)];
      }
      data := cache[b].data;
    }

    // The two breads of each copying loop: both buffers in the cache, the source's contents returned.
    method BreadBoth(src: int, dst: int) returns (data: Block)
      requires Valid() && 0 <= src < l.blocks && 0 <= dst < l.blocks
      modifies this`cache
      ensures Valid() && data == old(View(src)) && View(l.start) == old(View(l.start))
      ensures Pending() == old(Pending()) && LogData() == old(LogData())
      ensures Dirty(cache) == old(Dirty(cache))
    {
      data := Bread(src);
      var other := Bread(dst);
    }

    // bwrite: the block goes to disk and is no longer pinned.
    method Bwrite(b: int, data: Block)
      requires Valid() && 0 <= b < l.blocks
      modifies this`cache, this`disk, this`journal
      ensures Valid()
      ensures disk == old(disk)[b := data]
      ensures cache == old(cache)[b := Buf(data, false)]
      ensures journal == old(journal) + [Write(b, data)]
    {
      cache := cache[b := Buf(data, false)];
      disk := disk[b := data];
      journal := journal + [Write(b, data)];
    }

    // bget recycling a buffer: any clean one may go, a pinned one may not.
    method Evict(b: int)
      requires Valid() && b in cache && !cache[b].dirty
      modifies this`cache
      ensures Valid() && b !in cache
      ensures forall a | 0 <= a < l.blocks :: View(a) == old(View(a))
      ensures Dirty(cache) == old(Dirty(cache))
      ensures Pending() == old(Pending())
    {
      cache := cache - {b};
    }

    // One pass of the loop of begin_op: false means the caller sleeps.
    method TryBeginOp() returns (started: bool)
      requires Valid()
      modifies this`outstanding
      ensures started <==> !committing && n + (old(outstanding) + 1) * MAXOPBLOCKS <= LOGSIZE
      ensures outstanding == if started then old(outstanding) + 1 else old(outstanding)
    {
      if committing {
        started := false;
      } else if n + (outstanding + 1) * MAXOPBLOCKS > LOGSIZE {
        started := false;
      } else {
        outstanding := outstanding + 1;
        started := true;
      }
    }

    // The loop of log_write: the slot that already holds `b`, or the next free one.
    method Slot(b: int) returns (i: nat)
      requires Valid()
      ensures i <= n && b !in block[..i]
      ensures i < n ==> block[i] == b
    {
      i := 0;
      while i < n
        invariant i <= n
        invariant b !in block[..i]
      {
        if block[i] == b {
          break;
        }
        i := i + 1;
      }
    }

    // log_write of a buffer holding `data`; false stands for the two panics.
    method LogWrite(b: int, data: Block) returns (ok: bool)
      requires Valid() && Pinned() && l.Home(b)
      modifies this`n, this`cache, block
      ensures Valid() && Pinned()
      ensures ok <==> old(n) < LOGSIZE && old(n) < l.size - 1 && outstanding >= 1
      ensures ok ==> Pending() == Absorb(old(Pending()), b, data)
      ensures ok ==> cache == old(cache)[b := Buf(data, true)]
      ensures !ok ==> n == old(n) && block[..] == old(block[..]) && cache == old(cache)
    {
      if n >= LOGSIZE || n >= l.size - 1 {
        return false;
      }
      if outstanding < 1 {
        return false;
      }
      ghost var addrs := block[..n];
      var i := Slot(b);
      block[i] := b;
      if i == n {
        n := n + 1;
      }
      assert block[..n] == Logging(addrs, b);
      cache := cache[b := Buf(data, true)];
      AbsorbIsLogging(disk, old(cache), addrs, b, data);
      ok := true;
    }

    // One step of write_log: the cached copy of logged block number `tail` goes to the log.
    method WriteLogBlock(tail: nat)
      requires Valid() && Pinned() && tail < n
      modifies this`cache, this`disk, this`journal
      ensures Valid() && Pinned() && Pending() == old(Pending())
      ensures var w := LogWrites(l, old(Pending()))[tail];
              journal == old(journal) + [w] && disk == old(disk)[w.addr := w.data]
      ensures View(l.start) == old(View(l.start))
      ensures LogData() == old(LogData())[tail := old(Pending()).data[tail]]
    {
      assert l.Home(block[tail]);
      var from := BreadBoth(block[tail], l.start + tail + 1);
      LogBlockWritten(l, disk, cache, block[..n], l.start + tail + 1, from);
      LogCopied(l, disk, cache, n, tail, from);
      Bwrite(l.start + tail + 1, from);
    }

    // write_log
    method WriteLog()
      requires Valid() && Pinned()
      modifies this`cache, this`disk, this`journal
      ensures Valid() && Pinned() && Pending() == old(Pending())
      ensures Wrote(old(disk), old(journal), LogWrites(l, old(Pending())), disk, journal)
      ensures LogData() == Pending().data
      ensures View(l.start) == old(View(l.start))
    {
      hide Wrote, Issued, Elements, Dirty, Distinct, Lookup;
      ghost var t, head, d0, j0 := Pending(), View(l.start), disk, journal;
      ghost var ws := LogWrites(l, t);
      WroteNone(d0, j0, ws);
      var tail := 0;
      while tail < n
        invariant tail <= n && Valid() && Pinned() && Pending() == t && View(l.start) == head
        invariant Wrote(d0, j0, ws[..tail], disk, journal) && LogData()[..tail] == t.data[..tail]
      {
        TakeUpdate(LogData(), t.data, tail);
        Snoc(d0, j0, ws, tail, disk, journal);
        WriteLogBlock(tail);
        tail := tail + 1;
      }
      assert ws[..n] == ws && LogData()[..n] == LogData() && t.data[..n] == t.data;
    }

    // write_head
    method WriteHead()
      requires Valid() && Pinned()
      modifies this`cache, this`disk, this`journal
      ensures Valid() && Pinned() && Pending() == old(Pending()) && LogData() == old(LogData())
      ensures var w := Write(l.start, EncodeHead(old(View(l.start)), block[..n]));
              journal == old(journal) + [w] && disk == old(disk)[w.addr := w.data] && View(l.start) == w.data
    {
      var head := Bread(l.start);
      var words := head[0 := n];
      var i := 0;
      while i < n
        invariant i <= n && |words| == WORDS
        invariant words == [n] + block[..i] + head[1 + i..]
      {
        words := words[1 + i := block[i]];
        i := i + 1;
      }
      assert words == EncodeHead(head, block[..n]);
      LogBlockWritten(l, disk, cache, block[..n], l.start, words);
      HeadWritten(l, disk, cache, n, words);
      Bwrite(l.start, words);
    }

    // The log blocks of the pending transaction, as `bread` returns them.
    ghost function LogData(): (data: seq<Block>)
      requires Valid()
      reads this, block
      ensures |data| == n
    {
      Contents(disk, cache, LogAddrs(l, n))
    }

    // One step of install_trans: log block number `tail` goes home.
    method InstallBlock(tail: nat)
      requires Valid() && tail < n
      modifies this`cache, this`disk, this`journal
      ensures Valid() && LogData() == old(LogData()) && View(l.start) == old(View(l.start))
      ensures var w := Write(block[tail], old(LogData())[tail]);
              journal == old(journal) + [w] && disk == old(disk)[w.addr := w.data]
      ensures Dirty(cache) == old(Dirty(cache)) - {block[tail]}
    {
      assert l.Home(block[tail]) && LogAddrs(l, n)[tail] == l.start + tail + 1;
      var lbuf := BreadBoth(l.start + tail + 1, block[tail]);
      HomeBlockWritten(l, disk, cache, block[..n], block[tail], lbuf);
      Bwrite(block[tail], lbuf);
    }

    // install_trans
    method InstallTrans()
      requires Valid()
      modifies this`cache, this`disk, this`journal
      ensures Valid() && LogData() == old(LogData()) && View(l.start) == old(View(l.start))
      ensures Wrote(old(disk), old(journal), HomeWrites(Txn(block[..n], old(LogData()))), disk, journal)
      ensures Dirty(cache) == old(Dirty(cache)) - Elements(block[..n])
    {
      hide Wrote, Issued, Lookup;
      ghost var t, head, d0, j0, dirty := Txn(block[..n], LogData()), View(l.start), disk, journal, Dirty(cache);
      ghost var ws := HomeWrites(t);
      WroteNone(d0, j0, ws);
      HomeInRange(l, t);
      var tail := 0;
      while tail < n
        invariant tail <= n && Valid() && LogData() == t.data && View(l.start) == head
        invariant Wrote(d0, j0, ws[..tail], disk, journal)
        invariant Dirty(cache) == dirty - Elements(t.addrs[..tail])
      {
        Snoc(d0, j0, ws, tail, disk, journal);
        ElementsSnoc(t.addrs, tail);
        InstallBlock(tail);
        tail := tail + 1;
      }
      assert ws[..n] == ws && t.addrs[..n] == t.addrs;
    }

    // The last three lines of both commit and recover_from_log.
    method InstallAndErase()
      requires Valid() && Dirty(cache) <= Elements(block[..n])
      modifies this`n, this`cache, this`disk, this`journal
      ensures Valid() && Pinned() && n == 0
      ensures var ws := EraseWrites(l, old(View(l.start)), Txn(old(block[..n]), old(LogData())));
              journal == old(journal) + ws && Issued(old(disk), ws, disk)
    {
      ghost var t, head, d0, j0 := Txn(block[..n], LogData()), View(l.start), disk, journal;
      InstallTrans();
      ghost var d1 := disk;
      n := 0;
      assert block[..0] == [];
      WriteHead();
      IssuedOne(d1, Write(l.start, EncodeHead(head, [])));
      IssuedConcat(d0, HomeWrites(t), d1, [Write(l.start, EncodeHead(head, []))], disk);
      Assoc(j0, HomeWrites(t), [Write(l.start, EncodeHead(head, []))]);
    }

    // commit: the writes of LogDisk.CommitWrites, whose crash points CommitCrashPoint describes.
    method Commit()
      requires Valid() && Pinned()
      modifies this`n, this`cache, this`disk, this`journal
      ensures Valid() && Pinned() && n == 0
      ensures var ws := CommitWrites(l, old(disk[l.start]), old(Pending()));
              journal == old(journal) + ws && Issued(old(disk), ws, disk)
    {
      ghost var t, d0, j0 := Pending(), disk, journal;
      ghost var a, w := LogWrites(l, t), Write(l.start, EncodeHead(d0[l.start], t.addrs));
      NotPinned(l, cache, block[..n]);
      if n > 0 {
        WriteLog();
        ghost var d1 := disk;
        WriteHead();
        ghost var d2 := disk;
        InstallAndErase();
        ghost var b := EraseWrites(l, w.data, t);
        IssuedOne(d1, w);
        IssuedConcat(d0, a, d1, [w], d2);
        IssuedConcat(d0, a + [w], d2, b, disk);
        Assoc(j0, a, [w]);
        Assoc(j0, a + [w], b);
      }
    }

    // end_op; false stands for the panic. The last operation out commits.
    method EndOp() returns (ok: bool)
      requires Valid() && Pinned() && Empty(l, disk)
      modifies this`outstanding, this`committing, this`n, this`cache, this`disk, this`journal
      ensures Valid() && Pinned() && Empty(l, disk)
      ensures ok <==> !old(committing)
      ensures committing == old(committing) && outstanding == old(outstanding) - 1
      ensures ok && outstanding == 0 ==> n == 0 && Home(l, disk) == Updated(old(Home(l, disk)), old(Pending()))
      ensures ok && outstanding == 0 ==>
        Wrote(old(disk), old(journal), CommitWrites(l, old(disk[l.start]), old(Pending())), disk, journal)
      ensures !(ok && outstanding == 0) ==>
                disk == old(disk) && journal == old(journal) && n == old(n) && cache == old(cache)
    {
      outstanding := outstanding - 1;
      if committing {
        return false;
      }
      if outstanding == 0 {
        committing := true;
        CommitAll();
        committing := false;
      }
      ok := true;
    }

    // commit on an empty on-disk log installs the whole pending transaction.
    method CommitAll()
      requires Valid() && Pinned() && Empty(l, disk)
      modifies this`n, this`cache, this`disk, this`journal
      ensures Valid() && Pinned() && n == 0 && Empty(l, disk)
      ensures Home(l, disk) == Updated(old(Home(l, disk)), old(Pending()))
      ensures Wrote(old(disk), old(journal), CommitWrites(l, old(disk[l.start]), old(Pending())), disk, journal)
    {
      ghost var t, d0 := Pending(), disk;
      Commit();
      CommitHome(l, d0, t, disk);
    }

    // read_head; the disk must hold a header that write_head wrote.
    method ReadHead()
      requires Valid() && Pinned() && n == 0 && WfDisk(l, disk)
      modifies this`n, this`cache, block
      ensures Valid() && Dirty(cache) == {}
      ensures Txn(block[..n], LogData()) == Logged(Split(l, disk)) && View(l.start) == disk[l.start]
    {
      NoneDirty(disk, cache, block[..0]);
      var head := Bread(l.start);
      n := head[0];
      var i := 0;
      while i < n
        modifies block
        invariant i <= n == head[0]
        invariant forall j | 0 <= j < i :: block[j] == head[1 + j]
      {
        assert HeadAddrs(head)[i] == head[1 + i];
        block[i] := head[1 + i];
        i := i + 1;
      }
      assert block[..n] == Logged(Split(l, disk)).addrs;
      assert LogData() == Logged(Split(l, disk)).data;
    }

    // recover_from_log: the writes of LogDisk.RecoverWrites, whose crash points RecoverCrashPoint describes.
    method RecoverFromLog()
      requires Valid() && Pinned() && n == 0 && WfDisk(l, disk)
      modifies this`n, this`cache, this`disk, this`journal, block
      ensures Valid() && Pinned() && n == 0 && Empty(l, disk)
      ensures Home(l, disk) == old(Recovered(l, disk))
      ensures Wrote(old(disk), old(journal), RecoverWrites(l, old(disk)), disk, journal)
    {
      ghost var d0 := disk;
      ReadHead();
      InstallAndErase();
      RecoverHome(l, d0, disk);
    }
  }

  lemma NoneDirty(disk: Disk, cache: map<int, Buf>, addrs: seq<int>)
    requires Dirty(cache) == Elements(addrs) && addrs == []
    ensures Dirty(cache) == {}
    ensures forall b | b in cache :: !cache[b].dirty
  {
    assert Elements(addrs) == {};
    forall b | b in cache ensures !cache[b].dirty {
      assert cache[b].dirty ==> b in Dirty(cache);
    }
  }

  lemma Assoc(j: seq<Write>, a: seq<Write>, b: seq<Write>)
    ensures j + a + b == j + (a + b)
  {
  }

  lemma CommitHome(l: Layout, d: Disk, t: Txn, d': Disk)
    requires Empty(l, d) && WfTxn(l, t) && Issued(d, CommitWrites(l, d[l.start], t), d')
    ensures Empty(l, d') && Home(l, d') == Updated(Home(l, d), t)
  {
    var ws := CommitWrites(l, d[l.start], t);
    assert ws[..|ws|] == ws;
    if t.addrs == [] {
      assert Home(l, d) + map[] == Home(l, d);
    } else {
      var e := CommitReaches(l, d, t, |ws|);
      CommitCrashPoint(l, d, t, |ws|, e);
    }
  }

  lemma RecoverHome(l: Layout, d: Disk, d': Disk)
    requires WfDisk(l, d) && Issued(d, RecoverWrites(l, d), d')
    ensures Empty(l, d') && Home(l, d') == Recovered(l, d)
  {
    var ws := RecoverWrites(l, d);
    assert ws[..|ws|] == ws;
    var e := RecoverReaches(l, d, |ws|);
    RecoverCrashPoint(l, d, |ws|, e);
  }

  lemma HomeInRange(l: Layout, t: Txn)
    requires WfTxn(l, t)
    ensures forall i | 0 <= i < |HomeWrites(t)| :: HomeWrites(t)[i].addr < l.blocks
  {
    forall i | 0 <= i < |HomeWrites(t)| ensures HomeWrites(t)[i].addr < l.blocks {
      assert l.Home(t.addrs[i]);
    }
  }

  lemma NotPinned(l: Layout, cache: map<int, Buf>, addrs: seq<int>)
    requires l.Valid() && Dirty(cache) == Elements(addrs) && forall i | 0 <= i < |addrs| :: l.Home(addrs[i])
    ensures l.start in cache ==> !cache[l.start].dirty
  {
    assert l.start !in Elements(addrs);
  }

  ghost function LogAddrs(l: Layout, n: nat): (addrs: seq<int>)
    ensures |addrs| == n && forall i | 0 <= i < n :: addrs[i] == l.start + 1 + i {
    seq(n, (i: nat) => l.start + 1 + i)
  }

  lemma ElementsSnoc(addrs: seq<int>, k: nat)
    requires k < |addrs|
    ensures Elements(addrs[..k + 1]) == Elements(addrs[..k]) + {addrs[k]}
  {
    assert addrs[..k + 1] == addrs[..k] + [addrs[k]];
  }

  lemma TakeUpdate(s: seq<Block>, t: seq<Block>, k: nat)
    requires k < |s| == |t| && s[..k] == t[..k]
    ensures s[k := t[k]][..k + 1] == t[..k + 1]
  {
    assert s[k := t[k]][..k] == s[..k];
    assert t[..k + 1] == t[..k] + [t[k]];
  }

  // The block writes that lead from one disk and journal to another.
  ghost predicate Wrote(d: Disk, j: seq<Write>, ws: seq<Write>, d': Disk, j': seq<Write>) {
    j' == j + ws && Issued(d, ws, d')
  }

  lemma WroteNone(d: Disk, j: seq<Write>, ws: seq<Write>)
    ensures Wrote(d, j, ws[..0], d, j)
  {
    assert j + ws[..0] == j && ws[..0] == [];
  }

  lemma Snoc(d: Disk, j: seq<Write>, ws: seq<Write>, k: nat, d': Disk, j': seq<Write>)
    requires k < |ws| && Wrote(d, j, ws[..k], d', j') && ws[k].addr < |d|
    ensures Wrote(d, j, ws[..k + 1], d'[ws[k].addr := ws[k].data], j' + [ws[k]])
  {
    IssuedStep(d, ws, k, d');
    assert ws[..k + 1] == ws[..k] + [ws[k]];
  }

  // Reading a block in does not change what any block holds.
  lemma ReadIn(disk: Disk, cache: map<int, Buf>, addrs: seq<int>, b: int)
    requires 0 <= b < |disk| && b !in cache && forall i | 0 <= i < |addrs| :: 0 <= addrs[i] < |disk|
    ensures var cache' := cache[b := Buf(disk[b], false)];
            && Dirty(cache') == Dirty(cache)
            && Contents(disk, cache', addrs) == Contents(disk, cache, addrs)
  {
  }

  // Writing a block of the log itself leaves the pending transaction alone.
  lemma LogBlockWritten(l: Layout, disk: Disk, cache: map<int, Buf>, addrs: seq<int>, a: int, data: Block)
    requires WfMem(l, disk, cache, addrs) && Dirty(cache) == Elements(addrs)
    requires l.start <= a < l.start + l.size
    ensures var disk', cache' := disk[a := data], cache[a := Buf(data, false)];
            && WfMem(l, disk', cache', addrs)
            && Dirty(cache') == Dirty(cache)
            && Contents(disk', cache', addrs) == Contents(disk, cache, addrs)
  {
    assert a !in Elements(addrs);
    assert a !in Dirty(cache);
  }

  lemma LogCopied(l: Layout, disk: Disk, cache: map<int, Buf>, n: nat, tail: nat, data: Block)
    requires l.Valid() && |disk| == l.blocks && tail < n < l.size
    ensures Contents(disk[l.start + tail + 1 := data], cache[l.start + tail + 1 := Buf(data, false)], LogAddrs(l, n))
         == Contents(disk, cache, LogAddrs(l, n))[tail := data]
  {
  }

  lemma HeadWritten(l: Layout, disk: Disk, cache: map<int, Buf>, n: nat, data: Block)
    requires l.Valid() && |disk| == l.blocks && n < l.size
    ensures Contents(disk[l.start := data], cache[l.start := Buf(data, false)], LogAddrs(l, n))
         == Contents(disk, cache, LogAddrs(l, n))
  {
  }

  // Installing one logged block unpins it and leaves the log itself alone.
  lemma HomeBlockWritten(l: Layout, disk: Disk, cache: map<int, Buf>, addrs: seq<int>, a: int, data: Block)
    requires WfMem(l, disk, cache, addrs) && l.Home(a)
    ensures var disk', cache' := disk[a := data], cache[a := Buf(data, false)];
            && WfMem(l, disk', cache', addrs)
            && Dirty(cache') == Dirty(cache) - {a}
            && Contents(disk', cache', LogAddrs(l, |addrs|)) == Contents(disk, cache, LogAddrs(l, |addrs|))
            && Lookup(disk', cache', l.start) == Lookup(disk, cache, l.start)
  {
  }

  ghost function Logging(addrs: seq<int>, b: int): seq<int> {
    if b in addrs then addrs else addrs + [b]
  }

  lemma AbsorbIsLogging(d: Disk, cache: map<int, Buf>, addrs: seq<int>, b: int, data: Block)
    requires 0 <= b < |d| && forall i | 0 <= i < |addrs| :: 0 <= addrs[i] < |d|
    requires Elements(addrs) == Dirty(cache)
    ensures Distinct(addrs) ==> Distinct(Logging(addrs, b))
    ensures Elements(Logging(addrs, b)) == Dirty(cache[b := Buf(data, true)])
    ensures Txn(Logging(addrs, b), Contents(d, cache[b := Buf(data, true)], Logging(addrs, b)))
         == Absorb(Txn(addrs, Contents(d, cache, addrs)), b, data)
  {
    assert Dirty(cache[b := Buf(data, true)]) == Dirty(cache) + {b};
    assert Elements(addrs + [b]) == Elements(addrs) + {b};
    var t := Absorb(Txn(addrs, Contents(d, cache, addrs)), b, data);
    assert Contents(d, cache[b := Buf(data, true)], Logging(addrs, b)) == t.data;
  }
}
