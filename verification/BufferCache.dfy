/**
 The buffer cache of os/memory-assignment/bio.c: a doubly linked list of all buffers, the
 most recently used first, over a disk. A method is what runs under bcache.lock, or what
 the holder of a buffer's sleep lock does with it.
 */
module BufferCache {

  const NBUF: nat := 30

  // A block's contents.
  type Data = seq<int>

  datatype Key = Key(dev: nat, blockno: nat)

  class Buf {
    var dev: nat
    var blockno: nat
    var valid: bool      // B_VALID
    var dirty: bool      // B_DIRTY
    var locked: bool
    var refcnt: nat
    var prev: Buf?
    var next: Buf?
    var data: Data

    constructor ()
      ensures dev == 0 && blockno == 0 && !valid && !dirty && !locked && refcnt == 0
    {
      dev, blockno, valid, dirty, locked, refcnt, prev, next, data := 0, 0, false, false, false, 0, null, null, [];
    }
  }

  // ---- The list ----

  ghost function Succ(n: nat, i: nat): nat {
    if i + 1 < n then i + 1 else 0
  }

  ghost predicate Different(cyc: seq<Buf>) {
    forall i, j :: 0 <= i < j < |cyc| ==> cyc[i] != cyc[j]
  }

  ghost predicate LinkedAt(cyc: seq<Buf>, i: nat)
    requires i < |cyc|
    reads cyc`next, cyc`prev
  {
    cyc[i].next == cyc[Succ(|cyc|, i)] && cyc[Succ(|cyc|, i)].prev == cyc[i]
  }

  // The list in memory, the head first: a cycle in both directions.
  ghost predicate Cycle(cyc: seq<Buf>)
    reads cyc`next, cyc`prev
  {
    |cyc| > 0 && Different(cyc) && forall i :: 0 <= i < |cyc| ==> LinkedAt(cyc, i)
  }

  ghost function Without(cyc: seq<Buf>, k: nat): seq<Buf>
    requires k < |cyc|
  {
    cyc[..k] + cyc[k + 1..]
  }

  ghost function AtFront(cyc: seq<Buf>, b: Buf): seq<Buf>
    requires |cyc| > 0
  {
    [cyc[0], b] + cyc[1..]
  }

  // Where the blocks of the shorter list and their successors come from.
  lemma WithoutAt(cyc: seq<Buf>, k: nat, i: nat)
    requires 0 < k < |cyc| && i < |cyc| - 1 && Different(cyc)
    ensures var r := Without(cyc, k); var j := if i < k then i else i + 1;
      && |r| == |cyc| - 1 && r[i] == cyc[j] && Different(r)
      && r[Succ(|r|, i)] == cyc[if j == k - 1 then Succ(|cyc|, k) else Succ(|cyc|, j)]
  {
  }

  lemma Apart(cyc: seq<Buf>, i: nat, j: nat)
    requires Different(cyc) && i < |cyc| && j < |cyc| && i != j
    ensures cyc[i] != cyc[j]
  {
  }

  // b, which is at place k, is taken out: its neighbours are linked to each other.
  method Unlink(b: Buf, ghost cyc: seq<Buf>, ghost k: nat)
    requires Cycle(cyc) && 0 < k < |cyc| && b == cyc[k]
    modifies cyc`next, cyc`prev
    ensures Cycle(Without(cyc, k)) && b !in Without(cyc, k)
  {
    assert LinkedAt(cyc, k) && LinkedAt(cyc, k - 1);
    b.next.prev := b.prev;
    b.prev.next := b.next;
    ghost var r := Without(cyc, k);
    forall i | 0 <= i < |r| ensures LinkedAt(r, i) {
      WithoutAt(cyc, k, i);
      ghost var j := if i < k then i else i + 1;
      assert old(LinkedAt(cyc, j));
      if j != k - 1 {
        Apart(cyc, j, k - 1);
        Apart(cyc, Succ(|cyc|, j), Succ(|cyc|, k));
      }
    }
  }

  // b becomes the first after the head.
  method LinkFront(head: Buf, b: Buf, ghost cyc: seq<Buf>)
    requires Cycle(cyc) && head == cyc[0] && b !in cyc
    modifies b`next, b`prev, cyc`next, cyc`prev
    ensures Cycle(AtFront(cyc, b))
  {
    assert LinkedAt(cyc, 0);
    b.next := head.next;
    b.prev := head;
    head.next.prev := b;
    head.next := b;
    ghost var r := AtFront(cyc, b);
    forall i | 0 <= i < |r| ensures LinkedAt(r, i) {
      if i > 1 { assert old(LinkedAt(cyc, i - 1)); }
    }
  }

  // ---- The buffers ----

  ghost predicate Caches(b: Buf, k: Key)
    reads b`dev, b`blockno
  {
    b.dev == k.dev && b.blockno == k.blockno
  }

  // A buffer that is valid holds the latest contents of its block, unless its holder is at
  // work on it; and if it is not dirty, the disk has them too.
  ghost predicate BufOk(b: Buf, disk: map<Key, Data>, current: map<Key, Data>, editing: set<Buf>)
    reads b`dev, b`blockno, b`valid, b`dirty, b`locked, b`refcnt, b`data
  {
    var k := Key(b.dev, b.blockno);
    && (b.valid ==> b.dev != 0)
    && (b.dev != 0 ==> k in disk && k in current)
    && (b.valid && b !in editing ==> k in current && b.data == current[k])
    && (b.dev != 0 && !b.dirty ==> k in disk && k in current && disk[k] == current[k])
    && (b.dirty ==> b.valid) && (b.locked ==> b.refcnt > 0) && (b in editing ==> b.locked && b.valid)
  }

  ghost predicate Cached(bufs: seq<Buf>, k: Key)
    reads bufs`dev, bufs`blockno
  {
    exists i :: 0 <= i < |bufs| && Caches(bufs[i], k)
  }

  ghost predicate OneEach(bufs: seq<Buf>)
    reads bufs`dev, bufs`blockno
  {
    forall i, j :: 0 <= i < j < |bufs| && bufs[i].dev != 0 ==> !Caches(bufs[j], Key(bufs[i].dev, bufs[i].blockno))
  }

  ghost predicate Coherent(bufs: seq<Buf>, disk: map<Key, Data>, current: map<Key, Data>, editing: set<Buf>)
    reads bufs`dev, bufs`blockno, bufs`valid, bufs`dirty, bufs`locked, bufs`refcnt, bufs`data
  {
    && disk.Keys == current.Keys && OneEach(bufs)
    && (forall i :: 0 <= i < |bufs| ==> BufOk(bufs[i], disk, current, editing))
    && (forall k <- disk :: k.dev != 0 && !Cached(bufs, k) ==> disk[k] == current[k])
  }

  // The list is the head and all buffers.
  ghost predicate Listed(cyc: seq<Buf>, head: Buf, bufs: seq<Buf>) {
    && |cyc| == |bufs| + 1 && cyc[0] == head && head !in bufs && Different(bufs)
    && (forall b :: b in bufs ==> b in cyc) && forall i :: 0 < i < |cyc| ==> cyc[i] in bufs
  }

  // The list is in the order of the last release, the latest first.
  ghost predicate Recent(cyc: seq<Buf>, released: map<Buf, nat>, clock: nat) {
    && (forall i :: 0 < i < |cyc| ==> cyc[i] in released && released[cyc[i]] < clock)
    && forall i, j :: 0 < i < j < |cyc| ==> released[cyc[j]] < released[cyc[i]]
  }

  // A buffer as binit leaves it.
  ghost predicate Idle(b: Buf)
    reads b
  {
    b.dev == 0 && !b.valid && !b.dirty && !b.locked && b.refcnt == 0
  }

  // The loop of binit: every buffer is put in front of the list.
  method LinkAll() returns (h: Buf, bs: seq<Buf>, ghost c: seq<Buf>, ghost times: map<Buf, nat>)
    ensures |bs| == NBUF && fresh(h) && forall b :: b in bs ==> fresh(b) && Idle(b)
    ensures Cycle(c) && Listed(c, h, bs) && Recent(c, times, NBUF) && forall b :: b in c ==> fresh(b)
  {
    hide Recent;
    h := new Buf();
    h.prev := h;
    h.next := h;
    bs := [];
    c := [h];
    times := map[];
    NoneReleased(h, times);
    var i := 0;
    while i < NBUF
      invariant 0 <= i <= NBUF && |bs| == i && fresh(h) && (forall b :: b in bs ==> fresh(b) && Idle(b))
      invariant Cycle(c) && Listed(c, h, bs) && Recent(c, times, i) && forall b :: b in c ==> fresh(b)
    {
      var b := new Buf();
      ghost var was := c;
      LinkFront(h, b, c);
      bs := bs + [b];
      c := AtFront(was, b);
      ReleasedFront(was, b, times, i);
      times := times[b := i];
      assert forall x :: x in bs ==> x in c;
      i := i + 1;
    }
  }

  class Cache {
    const head: Buf
    const bufs: seq<Buf>
    var disk: map<Key, Data>

    // The list from the head on, what was written or logged last to each block, and the
    // buffers whose holders have changed them since.
    ghost var cyc: seq<Buf>
    ghost var current: map<Key, Data>
    ghost var editing: set<Buf>

    // When each buffer was released last, and the time now.
    ghost var released: map<Buf, nat>
    ghost var clock: nat

    ghost predicate Valid()
      reads this, cyc, bufs
    {
      Cycle(cyc) && Listed(cyc, head, bufs) && Coherent(bufs, disk, current, editing) && Recent(cyc, released, clock)
    }

    // binit: every buffer is put in front of the list. No block is in the cache yet.
    constructor (contents: map<Key, Data>)
      ensures Valid() && |bufs| == NBUF && disk == contents && current == contents && editing == {}
      ensures fresh(head) && forall b :: b in bufs ==> fresh(b)
    {
      var h, bs, c, times := LinkAll();
      head, bufs, disk, cyc, current, editing := h, bs, contents, c, contents, {};
      released, clock := times, NBUF;
      new;
      forall k | 0 <= k < |bufs| ensures Idle(bufs[k]) { assert bufs[k] in bs; }
    }

    // The first loop of bget: from the most recently used on.
    method FindCached(dev: nat, blockno: nat) returns (r: Buf?)
      requires Valid()
      ensures r == null ==> !Cached(bufs, Key(dev, blockno))
      ensures r != null ==> r in bufs && Caches(r, Key(dev, blockno))
    {
      var b := head.next;
      ghost var i := Succ(|cyc|, 0);
      assert LinkedAt(cyc, 0);
      while b != head
        invariant 0 <= i < |cyc| && b == cyc[i]
        invariant forall k :: 0 < k < (if i == 0 then |cyc| else i) ==> !Caches(cyc[k], Key(dev, blockno))
        decreases if i == 0 then 0 else |cyc| - i
      {
        assert LinkedAt(cyc, i);
        if b.dev == dev && b.blockno == blockno { return b; }
        b := b.next;
        i := Succ(|cyc|, i);
      }
      assert i == 0;
      forall k | 0 <= k < |bufs| ensures !Caches(bufs[k], Key(dev, blockno)) {
        assert bufs[k] in cyc;
      }
      r := null;
    }

    // The second loop of bget: from the least recently used on.
    method FindUnused() returns (r: Buf?, ghost i: nat)
      requires Valid()
      ensures r == null ==> forall i :: 0 <= i < |bufs| ==> bufs[i].refcnt > 0 || bufs[i].dirty
      ensures r != null ==> r in bufs && r.refcnt == 0 && !r.dirty && 0 < i < |cyc| && r == cyc[i]
      ensures r != null ==> forall k :: i < k < |cyc| ==> cyc[k].refcnt > 0 || cyc[k].dirty
    {
      i := |cyc| - 1;
      assert LinkedAt(cyc, i);
      var b := head.prev;
      while b != head
        invariant 0 <= i < |cyc| && b == cyc[i]
        invariant forall k :: i < k < |cyc| ==> cyc[k].refcnt > 0 || cyc[k].dirty
        decreases i
      {
        assert LinkedAt(cyc, i - 1);
        if b.refcnt == 0 && !b.dirty { return b, i; }
        b := b.prev;
        i := i - 1;
      }
      assert i == 0;
      forall k | 0 <= k < |bufs| ensures bufs[k].refcnt > 0 || bufs[k].dirty {
        assert bufs[k] in cyc;
      }
      r := null;
    }

    // bget, as long as bcache.lock is held. Null is the panic.
    method Bget(dev: nat, blockno: nat) returns (r: Buf?)
      requires Valid() && dev != 0 && Key(dev, blockno) in disk
      modifies bufs`dev, bufs`blockno, bufs`valid, bufs`dirty, bufs`refcnt
      ensures Valid() && disk == old(disk) && current == old(current) && cyc == old(cyc) && editing == old(editing)
      ensures r == null <==> !old(Cached(bufs, Key(dev, blockno))) && forall i :: 0 <= i < |bufs| ==>
        old(bufs[i].refcnt > 0 || bufs[i].dirty)
      ensures r != null ==> r in bufs && Caches(r, Key(dev, blockno)) && r.refcnt > 0
      ensures r != null ==>
        if old(Cached(bufs, Key(dev, blockno))) then r.refcnt == old(r.refcnt) + 1 && r.valid == old(r.valid)
                            else old(r.refcnt) == 0 && !old(r.dirty) && r.refcnt == 1 && !r.valid
      ensures r != null && !old(Cached(bufs, Key(dev, blockno))) ==>
        forall b :: b in bufs && old(b.refcnt == 0 && !b.dirty) ==>
          r in released && b in released && released[r] <= released[b]
      ensures released == old(released) && clock == old(clock)
      ensures forall b :: b in bufs && b != r ==> unchanged(b)
    {
      r := FindCached(dev, blockno);
      if r != null {
        CachedBy(bufs, r, Key(dev, blockno));
        Reference(r);
        return;
      }
      ghost var at: nat;
      r, at := FindUnused();
      if r != null {
        forall b | b in bufs && b.refcnt == 0 && !b.dirty ensures b in released && released[r] <= released[b] {
          var k :| 0 <= k < |cyc| && cyc[k] == b;
        }
        Recycle(r, dev, blockno);
      }
    }

    method Reference(b: Buf)
      requires Valid() && b in bufs
      modifies b`refcnt
      ensures Valid() && b.refcnt == old(b.refcnt) + 1
    {
      hide Cycle, Listed, OneEach, Cached;
      b.refcnt := b.refcnt + 1;
    }

    // A buffer that nobody refers to and the log does not pin gets another block.
    method Recycle(b: Buf, dev: nat, blockno: nat)
      requires Valid() && b in bufs && b.refcnt == 0 && !b.dirty && dev != 0 && Key(dev, blockno) in disk
      requires !Cached(bufs, Key(dev, blockno))
      modifies b`dev, b`blockno, b`valid, b`dirty, b`refcnt
      ensures Valid() && Caches(b, Key(dev, blockno)) && b.refcnt == 1 && !b.valid
    {
      hide Cycle, Listed;
      ListedDifferent(cyc, head, bufs);
      b.dev := dev;
      b.blockno := blockno;
      b.valid := false;
      b.dirty := false;
      b.refcnt := 1;
    }

    // The holder of a buffer: acquiresleep in bget, once the lock is free.
    method Lock(b: Buf)
      requires Valid() && b in bufs && b.refcnt > 0 && !b.locked
      modifies b`locked
      ensures Valid() && b.locked
    {
      hide Cycle, Listed, OneEach, Cached;
      b.locked := true;
    }

    // The rest of bread: what the buffer then holds is what was last written or logged.
    method Fill(b: Buf)
      requires Valid() && b in bufs && b.locked && b.dev != 0 && b !in editing
      modifies b`valid, b`data
      ensures Valid() && b.valid && Key(b.dev, b.blockno) in current && b.data == current[Key(b.dev, b.blockno)]
    {
      hide Cycle, Listed, OneEach, Cached;
      if !b.valid {
        b.data := disk[Key(b.dev, b.blockno)];
        b.valid := true;
      }
    }

    // The holder changes the data.
    method Change(b: Buf, d: Data)
      requires Valid() && b in bufs && b.locked && b.valid
      modifies b`data, this`editing
      ensures Valid() && b.data == d && editing == old(editing) + {b}
    {
      hide Cycle, Listed, Cached;
      editing := editing + {b};
      b.data := d;
    }

    // log_write, as far as the buffer goes: it is pinned, and its data count from now on.
    method LogWrite(b: Buf)
      requires Valid() && b in bufs && b.locked && b.valid
      modifies b`dirty, this`editing, this`current
      ensures Valid() && b.dirty && editing == old(editing) - {b}
      ensures current == old(current)[Key(b.dev, b.blockno) := b.data]
    {
      hide Cycle, Listed, Cached;
      ListedDifferent(cyc, head, bufs);
      CachedBy(bufs, b, Key(b.dev, b.blockno));
      b.dirty := true;
      editing := editing - {b};
      current := current[Key(b.dev, b.blockno) := b.data];
    }

    // bwrite
    method Bwrite(b: Buf)
      requires Valid() && b in bufs && b.locked && b.valid
      modifies b`dirty, b`valid, this`disk, this`editing, this`current
      ensures Valid() && !b.dirty && b.valid && editing == old(editing) - {b}
      ensures disk == old(disk)[Key(b.dev, b.blockno) := b.data]
      ensures current == old(current)[Key(b.dev, b.blockno) := b.data]
    {
      LogWrite(b);
      WriteOut(b);
    }

    // iderw for a dirty buffer
    method WriteOut(b: Buf)
      requires Valid() && b in bufs && b.locked && b.dirty && b !in editing
      modifies b`dirty, b`valid, this`disk
      ensures Valid() && !b.dirty && b.valid && disk == old(disk)[Key(b.dev, b.blockno) := b.data]
    {
      hide Cycle, Listed, Cached;
      ListedDifferent(cyc, head, bufs);
      CachedBy(bufs, b, Key(b.dev, b.blockno));
      b.dirty := false;
      disk := disk[Key(b.dev, b.blockno) := b.data];
      b.valid := true;
    }

    // brelse: the last reference gone, the buffer moves to the front of the list.
    method Brelse(b: Buf, ghost k: nat)
      requires Valid() && b in bufs && b.locked && b !in editing && 0 < k < |cyc| && cyc[k] == b
      modifies b`locked, b`refcnt, cyc`next, cyc`prev, this`cyc, this`released, this`clock
      ensures Valid() && !b.locked && b.refcnt == old(b.refcnt) - 1
      ensures cyc == if b.refcnt == 0 then AtFront(Without(old(cyc), k), b) else old(cyc)
      ensures released == (if b.refcnt == 0 then old(released)[b := old(clock)] else old(released))
      ensures clock == old(clock) + if b.refcnt == 0 then 1 else 0
    {
      Unreference(b);
      if b.refcnt == 0 { MoveToFront(b, k); }
    }

    method Unreference(b: Buf)
      requires Valid() && b in bufs && b.locked && b !in editing
      modifies b`locked, b`refcnt
      ensures Valid() && !b.locked && b.refcnt == old(b.refcnt) - 1
    {
      hide Cycle, Listed, OneEach, Cached;
      b.locked := false;
      b.refcnt := b.refcnt - 1;
    }

    method MoveToFront(b: Buf, ghost k: nat)
      requires Valid() && 0 < k < |cyc| && cyc[k] == b
      modifies cyc`next, cyc`prev, this`cyc, this`released, this`clock
      ensures Valid() && cyc == AtFront(Without(old(cyc), k), b)
      ensures released == old(released)[b := old(clock)] && clock == old(clock) + 1
    {
      hide Coherent, Recent, Listed;
      MovedListed(cyc, head, bufs, k);
      ReleasedWithout(cyc, k, released, clock);
      ReleasedFront(Without(cyc, k), b, released, clock);
      Unlink(b, cyc, k);
      LinkFront(head, b, Without(cyc, k));
      cyc := AtFront(Without(cyc, k), b);
      released, clock := released[b := clock], clock + 1;
    }
  }

  lemma NoneReleased(head: Buf, released: map<Buf, nat>)
    ensures Recent([head], released, 0)
  {
  }

  lemma ReleasedFront(cyc: seq<Buf>, b: Buf, released: map<Buf, nat>, clock: nat)
    requires |cyc| > 0 && Recent(cyc, released, clock) && b !in cyc
    ensures Recent(AtFront(cyc, b), released[b := clock], clock + 1)
  {
  }

  lemma ReleasedWithout(cyc: seq<Buf>, k: nat, released: map<Buf, nat>, clock: nat)
    requires 0 < k < |cyc| && Recent(cyc, released, clock) && Different(cyc)
    ensures Recent(Without(cyc, k), released, clock) && cyc[k] !in Without(cyc, k)
  {
  }

  lemma MovedListed(cyc: seq<Buf>, head: Buf, bufs: seq<Buf>, k: nat)
    requires Listed(cyc, head, bufs) && 0 < k < |cyc|
    ensures Listed(AtFront(Without(cyc, k), cyc[k]), head, bufs)
  {
    var r := AtFront(Without(cyc, k), cyc[k]);
    forall b | b in bufs ensures b in r {
      var i :| 0 <= i < |cyc| && cyc[i] == b;
      assert r[if i == 0 then 0 else if i < k then i + 1 else if i == k then 1 else i] == b;
    }
    forall i | 0 < i < |r| ensures r[i] in bufs {
      assert r[i] == cyc[if i == 1 then k else if i <= k then i - 1 else i];
    }
  }

  lemma ListedDifferent(cyc: seq<Buf>, head: Buf, bufs: seq<Buf>)
    requires Listed(cyc, head, bufs)
    ensures Different(bufs)
  {
  }

  // A block whose latest contents are not on the disk has them in a dirty buffer, which bget
  // does not give away.
  lemma NotLost(bufs: seq<Buf>, disk: map<Key, Data>, current: map<Key, Data>, editing: set<Buf>, k: Key)
    requires Coherent(bufs, disk, current, editing) && k in disk && k.dev != 0 && disk[k] != current[k]
    ensures exists i :: && 0 <= i < |bufs| && Caches(bufs[i], k) && bufs[i].valid && bufs[i].dirty
                       && (bufs[i] !in editing ==> bufs[i].data == current[k])
  {
    assert Cached(bufs, k);
    var i :| 0 <= i < |bufs| && Caches(bufs[i], k);
    assert BufOk(bufs[i], disk, current, editing);
  }

  lemma CachedBy(bufs: seq<Buf>, b: Buf, k: Key)
    requires b in bufs && Caches(b, k)
    ensures Cached(bufs, k)
  {
    var i :| 0 <= i < |bufs| && bufs[i] == b;
    assert Caches(bufs[i], k);
  }
}
