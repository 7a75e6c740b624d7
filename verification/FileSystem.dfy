/**
 File contents in os/memory-assignment/fs.c: block allocation, bmap, itrunc, readi and
 writei. A block is what bread returns for it, that is the latest logged contents.
 */
module FileSystem {
  import opened Options

  const BSIZE: nat := 512
  const NDIRECT: nat := 12
  const NINDIRECT: nat := 128
  const MAXFILE: nat := NDIRECT + NINDIRECT
  const WordRange: nat := 0x1_0000_0000

  type Byte = b: int | 0 <= b < 256

  type Block = b: seq<Byte> | |b| == BSIZE witness seq(BSIZE, _ => 0)

  // The addresses in addrs are those of the direct blocks and, last, of the indirect block.
  datatype Inode = Inode(size: nat, addrs: seq<nat>)

  // The free map is `used`; data blocks start at block number `start`.
  datatype State = State(blocks: seq<Block>, used: seq<bool>, inodes: seq<Inode>, start: nat)

  function ZeroBlock(): Block {
    seq(BSIZE, _ => 0)
  }

  // Entry i of a block read as an array of 32-bit words, lowest byte first.
  function Word(b: Block, i: nat): (w: nat)
    requires i < NINDIRECT
    ensures w < WordRange
  {
    Join(b[4 * i], b[4 * i + 1], b[4 * i + 2], b[4 * i + 3])
  }

  function Join(b0: int, b1: int, b2: int, b3: int): int {
    b0 + 0x100 * b1 + 0x1_0000 * b2 + 0x100_0000 * b3
  }

  function SetWord(b: Block, i: nat, w: nat): Block
    requires i < NINDIRECT && w < WordRange
  {
    b[4 * i := w % 0x100][4 * i + 1 := w / 0x100 % 0x100][4 * i + 2 := w / 0x1_0000 % 0x100][4 * i + 3 := w / 0x100_0000]
  }

  lemma Split(w: nat)
    requires w < WordRange
    ensures Join(w % 0x100, w / 0x100 % 0x100, w / 0x1_0000 % 0x100, w / 0x100_0000) == w
  {
    var x := w / 0x100;
    var y := x / 0x100;
    assert w == 0x100 * x + w % 0x100 && x == 0x100 * y + x % 0x100 && y == 0x100 * (y / 0x100) + y % 0x100;
    DivTwice(w);
    DivTwice(x);
  }

  lemma DivTwice(w: nat)
    ensures w / 0x1_0000 == w / 0x100 / 0x100 && w / 0x100_0000 == w / 0x1_0000 / 0x100
  {
  }

  lemma WordSet(b: Block, i: nat, w: nat, j: nat)
    requires i < NINDIRECT && j < NINDIRECT && w < WordRange
    ensures Word(SetWord(b, i, w), j) == if i == j then w else Word(b, j)
  {
    Split(w);
    hide Join;
  }

  lemma WordZero(j: nat)
    requires j < NINDIRECT
    ensures Word(ZeroBlock(), j) == 0
  {
  }

  // ---- Who owns a block ----

  // The places of an inode that hold a block number: 0..11 the direct blocks, 12 the
  // indirect block, and from 13 on the entries of the indirect block.
  const Slots: nat := NDIRECT + 1 + NINDIRECT

  ghost predicate Shape(st: State) {
    && |st.used| == |st.blocks| <= WordRange && 0 < st.start
    && forall i :: 0 <= i < |st.inodes| ==> InodeOk(st, i)
  }

  ghost predicate InodeOk(st: State, i: nat)
    requires i < |st.inodes|
  {
    |st.inodes[i].addrs| == NDIRECT + 1 && forall k :: 0 <= k <= NDIRECT ==> st.inodes[i].addrs[k] < |st.blocks| || st.inodes[i].addrs[k] == 0
  }

  // The block number in a place; 0 if there is none.
  ghost function Addr(st: State, i: nat, slot: nat): nat
    requires Shape(st) && i < |st.inodes| && slot < Slots
  {
    var addrs := st.inodes[i].addrs;
    assert InodeOk(st, i);
    if slot <= NDIRECT then addrs[slot]
    else if addrs[NDIRECT] == 0 then 0
    else Word(st.blocks[addrs[NDIRECT]], slot - NDIRECT - 1)
  }

  datatype Place = Place(i: nat, slot: nat)

  ghost predicate PlaceOk(st: State, p: Place) {
    p.i < |st.inodes| && p.slot < Slots
  }

  // Every block in use in the data area is in exactly one place, and what is in a place is in use.
  ghost predicate Owned(st: State, owner: map<nat, Place>)
    requires Shape(st)
  {
    && (forall b <- owner ::
          && st.start <= b < |st.blocks| && st.used[b]
          && PlaceOk(st, owner[b]) && Addr(st, owner[b].i, owner[b].slot) == b)
    && (forall i, slot :: 0 <= i < |st.inodes| && 0 <= slot < Slots && Addr(st, i, slot) != 0 ==>
      Addr(st, i, slot) in owner && owner[Addr(st, i, slot)] == Place(i, slot))
    && (forall b :: 0 <= b < |st.used| && st.used[b] ==> b < st.start || b in owner)
    && (forall b :: 0 <= b < |st.used| && b < st.start ==> st.used[b])
  }

  // ---- Contents ----

  function DataSlot(bn: nat): nat {
    if bn < NDIRECT then bn else bn + 1
  }

  // The first `len` bytes of the file have blocks.
  ghost predicate Backed(st: State, i: nat, len: nat)
    requires Shape(st) && i < |st.inodes|
  {
    len <= MAXFILE * BSIZE && forall bn :: 0 <= bn < MAXFILE && bn * BSIZE < len ==> Addr(st, i, DataSlot(bn)) != 0
  }

  ghost predicate FsOk(st: State, owner: map<nat, Place>) {
    Shape(st) && Owned(st, owner) && forall i :: 0 <= i < |st.inodes| ==> Backed(st, i, st.inodes[i].size)
  }

  ghost function ByteAt(st: State, i: nat, p: nat): Byte
    requires Shape(st) && i < |st.inodes| && p < MAXFILE * BSIZE
  {
    var a := Addr(st, i, DataSlot(p / BSIZE));
    if a < |st.blocks| then st.blocks[a][p % BSIZE] else 0
  }

  // The file as a string of bytes.
  ghost function Content(st: State, i: nat): (c: seq<Byte>)
    requires Shape(st) && i < |st.inodes| && st.inodes[i].size <= MAXFILE * BSIZE
    ensures |c| == st.inodes[i].size && forall p :: 0 <= p < |c| ==> c[p] == ByteAt(st, i, p)
  {
    seq(st.inodes[i].size, p requires 0 <= p < st.inodes[i].size => ByteAt(st, i, p))
  }

  // Two places never hold the same block.
  lemma OnePlace(st: State, owner: map<nat, Place>, i: nat, s: nat, j: nat, t: nat)
    requires FsOk(st, owner) && i < |st.inodes| && j < |st.inodes| && s < Slots && t < Slots
    requires Addr(st, i, s) == Addr(st, j, t) != 0
    ensures i == j && s == t
  {
    assert owner[Addr(st, i, s)] == Place(i, s) && owner[Addr(st, j, t)] == Place(j, t);
  }

  // ---- Recording a new block ----

  // Block b, new and zeroed, is now in place (i, slot), and no other place has changed.
  ghost predicate Recorded(st: State, owner: map<nat, Place>, to: State, i: nat, slot: nat, b: nat)
    requires FsOk(st, owner) && i < |st.inodes| && slot < Slots
  {
    && Shape(to) && |to.inodes| == |st.inodes| && |to.blocks| == |st.blocks| && to.start == st.start && b < |st.blocks|
    && to.used == st.used[b := true]
    && (forall j :: 0 <= j < |st.inodes| ==> to.inodes[j].size == st.inodes[j].size)
    && (forall j, t :: 0 <= j < |st.inodes| && 0 <= t < Slots ==>
      Addr(to, j, t) == if j == i && t == slot then b else Addr(st, j, t))
    && (forall c :: 0 <= c < |st.blocks| && c != b && (c in owner ==> owner[c].slot != NDIRECT) ==> to.blocks[c] == st.blocks[c])
    && to.blocks[b] == ZeroBlock()
  }

  lemma Unused(st: State, owner: map<nat, Place>, b: nat)
    requires FsOk(st, owner) && b < |st.used| && !st.used[b]
    ensures st.start <= b && b !in owner
  {
  }

  lemma RecordedOk(st: State, owner: map<nat, Place>, to: State, i: nat, slot: nat, b: nat)
    requires FsOk(st, owner) && i < |st.inodes| && slot < Slots && b < |st.used| && !st.used[b]
    requires Addr(st, i, slot) == 0 && Recorded(st, owner, to, i, slot, b)
    ensures FsOk(to, owner[b := Place(i, slot)])
  {
    hide Addr, ByteAt, ZeroBlock;
    Unused(st, owner, b);
    var o := owner[b := Place(i, slot)];
    forall j | 0 <= j < |to.inodes|
      ensures Backed(to, j, to.inodes[j].size)
    {
      assert Backed(st, j, st.inodes[j].size);
    }
    assert Owned(to, o);
  }

  // What was in the files is still there.
  lemma RecordedKeeps(st: State, owner: map<nat, Place>, to: State, i: nat, slot: nat, b: nat, j: nat, p: nat)
    requires FsOk(st, owner) && i < |st.inodes| && slot < Slots && b < |st.used| && !st.used[b]
    requires Addr(st, i, slot) == 0 && Recorded(st, owner, to, i, slot, b)
    requires j < |st.inodes| && p < MAXFILE * BSIZE && Addr(st, j, DataSlot(p / BSIZE)) != 0
    ensures ByteAt(to, j, p) == ByteAt(st, j, p)
  {
    Unused(st, owner, b);
    var t := DataSlot(p / BSIZE);
    assert Addr(to, j, t) == Addr(st, j, t);
    assert owner[Addr(st, j, t)] == Place(j, t);
  }

  ghost function WithDirect(st: State, i: nat, slot: nat, b: nat): State
    requires i < |st.inodes| && slot < |st.inodes[i].addrs| && b < |st.used| && b < |st.blocks|
  {
    st.(used := st.used[b := true], blocks := st.blocks[b := ZeroBlock()],
        inodes := st.inodes[i := st.inodes[i].(addrs := st.inodes[i].addrs[slot := b])])
  }

  // A direct block, or the indirect block, in the inode itself.
  lemma DirectRecorded(st: State, owner: map<nat, Place>, i: nat, slot: nat, b: nat)
    requires FsOk(st, owner) && i < |st.inodes| && slot <= NDIRECT && b < |st.used| && !st.used[b]
    requires Addr(st, i, slot) == 0
    ensures InodeOk(st, i) && Recorded(st, owner, WithDirect(st, i, slot, b), i, slot, b)
  {
    Unused(st, owner, b);
    assert InodeOk(st, i);
    var to := WithDirect(st, i, slot, b);
    forall j | 0 <= j < |to.inodes| ensures InodeOk(to, j) { assert InodeOk(st, j); }
    forall j, t | 0 <= j < |st.inodes| && 0 <= t < Slots
      ensures Addr(to, j, t) == if j == i && t == slot then b else Addr(st, j, t)
    {
      DirectAddr(st, owner, i, slot, b, j, t);
    }
  }

  lemma DirectAddr(st: State, owner: map<nat, Place>, i: nat, slot: nat, b: nat, j: nat, t: nat)
    requires FsOk(st, owner) && i < |st.inodes| && slot <= NDIRECT && b < |st.used| && !st.used[b]
    requires Addr(st, i, slot) == 0
    requires InodeOk(st, i) && Shape(WithDirect(st, i, slot, b)) && j < |st.inodes| && t < Slots
    ensures Addr(WithDirect(st, i, slot, b), j, t) == if j == i && t == slot then b else Addr(st, j, t)
  {
    Unused(st, owner, b);
    assert InodeOk(st, j);
    if t > NDIRECT {
      var a := Addr(st, j, NDIRECT);
      assert a != 0 ==> a in owner;
      EntryAddr(st, WithDirect(st, i, slot, b), i, slot, b, j, t);
    }
  }

  // The entries of the indirect blocks.
  lemma EntryAddr(st: State, to: State, i: nat, slot: nat, b: nat, j: nat, t: nat)
    requires Shape(st) && Shape(to) && |to.inodes| == |st.inodes| && j < |st.inodes| && NDIRECT < t < Slots
    requires 0 < b < |st.blocks| && b < |to.blocks| == |st.blocks| && to.blocks[b] == ZeroBlock()
    requires forall c :: 0 <= c < |st.blocks| && c != b ==> to.blocks[c] == st.blocks[c]
    requires Addr(st, j, NDIRECT) != b
    requires Addr(to, j, NDIRECT) == if j == i && slot == NDIRECT then b else Addr(st, j, NDIRECT)
    requires j == i && slot == NDIRECT ==> Addr(st, j, NDIRECT) == 0
    ensures Addr(to, j, t) == Addr(st, j, t)
  {
    hide Word, ZeroBlock;
    assert InodeOk(st, j) && InodeOk(to, j);
    WordZero(t - NDIRECT - 1);
  }

  ghost function WithEntry(st: State, a: nat, e: nat, b: nat): State
    requires a < |st.blocks| && e < NINDIRECT && b < |st.used| && b < |st.blocks| && b < WordRange
  {
    st.(used := st.used[b := true], blocks := st.blocks[b := ZeroBlock()][a := SetWord(st.blocks[a], e, b)])
  }

  // An entry of the indirect block a.
  lemma EntryRecorded(st: State, owner: map<nat, Place>, i: nat, e: nat, b: nat, a: nat)
    requires FsOk(st, owner) && i < |st.inodes| && e < NINDIRECT && b < |st.used| && !st.used[b]
    requires a == Addr(st, i, NDIRECT) != 0 && Addr(st, i, NDIRECT + 1 + e) == 0
    ensures a < |st.blocks| && Recorded(st, owner, WithEntry(st, a, e, b), i, NDIRECT + 1 + e, b)
  {
    Unused(st, owner, b);
    assert owner[a] == Place(i, NDIRECT);
    var to := WithEntry(st, a, e, b);
    forall j | 0 <= j < |to.inodes| ensures InodeOk(to, j) { assert InodeOk(st, j); }
    forall j, t | 0 <= j < |st.inodes| && 0 <= t < Slots
      ensures Addr(to, j, t) == if j == i && t == NDIRECT + 1 + e then b else Addr(st, j, t)
    {
      assert InodeOk(st, j);
      var c := st.inodes[j].addrs[NDIRECT];
      if t > NDIRECT {
        assert c == Addr(st, j, NDIRECT);
        if c != 0 { assert c in owner && owner[c] == Place(j, NDIRECT); }
        WordSet(st.blocks[a], e, b, t - NDIRECT - 1);
      }
    }
  }

  // ---- Writing a data block ----

  lemma DataWritten(st: State, owner: map<nat, Place>, i: nat, bn: nat, nb: Block, a: nat, to: State)
    requires FsOk(st, owner) && i < |st.inodes| && bn < MAXFILE && a == Addr(st, i, DataSlot(bn)) != 0
    requires a < |st.blocks|
    requires to == st.(blocks := st.blocks[a := nb])
    ensures FsOk(to, owner)
    ensures forall j, t :: 0 <= j < |st.inodes| && 0 <= t < Slots ==> Addr(to, j, t) == Addr(st, j, t)
    ensures forall j, p :: 0 <= j < |st.inodes| && 0 <= p < MAXFILE * BSIZE ==>
      ByteAt(to, j, p) == if j == i && p / BSIZE == bn then nb[p % BSIZE] else ByteAt(st, j, p)
  {
    assert owner[a] == Place(i, DataSlot(bn));
    forall j | 0 <= j < |to.inodes| ensures InodeOk(to, j) { assert InodeOk(st, j); }
    forall j, t | 0 <= j < |st.inodes| && 0 <= t < Slots ensures Addr(to, j, t) == Addr(st, j, t) {
      WrittenAddr(st, owner, i, bn, nb, j, t);
    }
    WrittenOk(st, owner, to);
    forall j, p | 0 <= j < |st.inodes| && 0 <= p < MAXFILE * BSIZE
      ensures ByteAt(to, j, p) == if j == i && p / BSIZE == bn then nb[p % BSIZE] else ByteAt(st, j, p)
    {
      var t := DataSlot(p / BSIZE);
      if Addr(st, j, t) == a { OnePlace(st, owner, j, t, i, DataSlot(bn)); }
    }
  }

  lemma WrittenAddr(st: State, owner: map<nat, Place>, i: nat, bn: nat, nb: Block, j: nat, t: nat)
    requires FsOk(st, owner) && i < |st.inodes| && bn < MAXFILE && j < |st.inodes| && t < Slots
    requires var a := Addr(st, i, DataSlot(bn)); a != 0 && a < |st.blocks| && Shape(st.(blocks := st.blocks[a := nb]))
    ensures Addr(st.(blocks := st.blocks[Addr(st, i, DataSlot(bn)) := nb]), j, t) == Addr(st, j, t)
  {
    assert InodeOk(st, j);
    if t > NDIRECT && Addr(st, j, NDIRECT) == Addr(st, i, DataSlot(bn)) {
      OnePlace(st, owner, j, NDIRECT, i, DataSlot(bn));
    }
  }

  lemma WrittenOk(st: State, owner: map<nat, Place>, to: State)
    requires FsOk(st, owner) && Shape(to) && |to.inodes| == |st.inodes| && |to.blocks| == |st.blocks|
    requires to.start == st.start && to.used == st.used
    requires forall j :: 0 <= j < |st.inodes| ==> to.inodes[j].size == st.inodes[j].size
    requires forall j, t :: 0 <= j < |st.inodes| && 0 <= t < Slots ==> Addr(to, j, t) == Addr(st, j, t)
    ensures FsOk(to, owner)
  {
    hide Addr;
    forall j | 0 <= j < |to.inodes|
      ensures Backed(to, j, to.inodes[j].size)
    {
      assert Backed(st, j, st.inodes[j].size);
    }
  }

  // ---- What allocation leaves alone ----

  // Every block that was in a place still is, and holds what it held if it is a data block.
  ghost predicate Extends(st: State, to: State)
    requires Shape(st)
  {
    && Shape(to) && |to.inodes| == |st.inodes| && to.start == st.start && |to.blocks| == |st.blocks|
    && (forall j :: 0 <= j < |st.inodes| ==> to.inodes[j].size == st.inodes[j].size)
    && (forall j, t :: 0 <= j < |st.inodes| && 0 <= t < Slots && Addr(st, j, t) != 0 ==>
      Addr(to, j, t) == Addr(st, j, t))
    && (forall j, p :: 0 <= j < |st.inodes| && 0 <= p < MAXFILE * BSIZE && Addr(st, j, DataSlot(p / BSIZE)) != 0 ==>
      ByteAt(to, j, p) == ByteAt(st, j, p))
  }

  lemma RecordedExtends(st: State, owner: map<nat, Place>, to: State, i: nat, slot: nat, b: nat)
    requires FsOk(st, owner) && i < |st.inodes| && slot < Slots && b < |st.used| && !st.used[b]
    requires Addr(st, i, slot) == 0 && Recorded(st, owner, to, i, slot, b)
    ensures Extends(st, to) && FsOk(to, owner[b := Place(i, slot)]) && Addr(to, i, slot) == b && b != 0
    ensures forall j, t :: 0 <= j < |st.inodes| && 0 <= t < Slots && (j != i || t != slot) ==>
      Addr(to, j, t) == Addr(st, j, t)
  {
    RecordedOk(st, owner, to, i, slot, b);
    Unused(st, owner, b);
    forall j, p | 0 <= j < |st.inodes| && 0 <= p < MAXFILE * BSIZE && Addr(st, j, DataSlot(p / BSIZE)) != 0
      ensures ByteAt(to, j, p) == ByteAt(st, j, p)
    {
      RecordedKeeps(st, owner, to, i, slot, b, j, p);
    }
  }

  lemma ExtendsTransitive(a: State, b: State, c: State)
    requires Shape(a) && Extends(a, b) && Extends(b, c)
    ensures Extends(a, c)
  {
    hide Addr, ByteAt;
  }

  const BPB: nat := BSIZE * 8

  ghost predicate DiskFull(used: seq<bool>) {
    forall c :: 0 <= c < |used| ==> used[c]
  }

  class Fs {
    var blocks: seq<Block>
    var used: seq<bool>
    var inodes: seq<Inode>
    const start: nat

    ghost var owner: map<nat, Place>

    ghost function St(): State
      reads this
    {
      State(blocks, used, inodes, start)
    }

    ghost predicate Valid()
      reads this
    {
      FsOk(St(), owner)
    }

    // A new file system: `count` blocks, of which those from `first` on are for data, and empty inodes.
    constructor (count: nat, first: nat, inodeCount: nat)
      requires 0 < first <= count <= WordRange
      ensures Valid() && |inodes| == inodeCount && start == first
      ensures forall i :: 0 <= i < |inodes| ==> inodes[i].size == 0
    {
      blocks := seq(count, _ => ZeroBlock());
      used := seq(count, b => b < first);
      inodes := seq(inodeCount, _ => Inode(0, seq(NDIRECT + 1, _ => 0)));
      start := first;
      owner := map[];
      new;
      assert forall i :: 0 <= i < |inodes| ==> InodeOk(St(), i);
    }

    // balloc: the first block that is not in use, marked and zeroed. Without one the kernel panics.
    method Balloc() returns (r: Option<nat>)
      requires |used| == |blocks|
      modifies this`blocks, this`used
      ensures r.None? ==> blocks == old(blocks) && used == old(used) && DiskFull(used)
      ensures r.Some? ==>
        && r.value < |old(used)| && !old(used)[r.value] && (forall c :: 0 <= c < r.value ==> old(used)[c])
        && used == old(used)[r.value := true] && blocks == old(blocks)[r.value := ZeroBlock()]
    {
      var b := 0;
      while b < |used|
        invariant b % BPB == 0 && used == old(used) && blocks == old(blocks)
        invariant forall c :: 0 <= c < b && c < |used| ==> used[c]
      {
        var bi := 0;
        while bi < BPB && b + bi < |used|
          invariant 0 <= bi <= BPB && used == old(used) && blocks == old(blocks)
          invariant forall c :: 0 <= c < b + bi && c < |used| ==> used[c]
        {
          if !used[b + bi] {
            used := used[b + bi := true];
            blocks := blocks[b + bi := ZeroBlock()];
            return Some(b + bi);
          }
          bi := bi + 1;
        }
        b := b + BPB;
      }
      r := None;
    }

    // A new block for place `slot` of inode i, which holds none.
    method AllocDirect(i: nat, slot: nat) returns (r: Option<nat>)
      requires Valid() && i < |inodes| && slot <= NDIRECT && Addr(St(), i, slot) == 0
      modifies this
      ensures |inodes| == |old(inodes)| && (r.None? ==> DiskFull(used))
      ensures r.Some? ==> Valid() && Extends(old(St()), St()) && Addr(St(), i, slot) == r.value != 0
      ensures r.Some? ==> forall j, t :: 0 <= j < |inodes| && 0 <= t < Slots && (j != i || t != slot) ==>
        Addr(St(), j, t) == old(Addr(St(), j, t))
    {
      hide FsOk, Addr, Extends, Recorded;
      ghost var st := St();
      Sizes(st, owner, i);
      r := Balloc();
      if r.None? { return; }
      var b := r.value;
      DirectRecorded(st, owner, i, slot, b);
      inodes := inodes[i := inodes[i].(addrs := inodes[i].addrs[slot := b])];
      assert St() == WithDirect(st, i, slot, b);
      RecordedExtends(st, owner, St(), i, slot, b);
      owner := owner[b := Place(i, slot)];
    }

    // A new block for entry e of the indirect block a.
    method AllocEntry(i: nat, a: nat, e: nat) returns (r: Option<nat>)
      requires Valid() && i < |inodes| && e < NINDIRECT && a == Addr(St(), i, NDIRECT) != 0
      requires Addr(St(), i, NDIRECT + 1 + e) == 0
      modifies this
      ensures |inodes| == |old(inodes)| && (r.None? ==> DiskFull(used))
      ensures r.Some? ==> Valid() && Extends(old(St()), St()) && Addr(St(), i, NDIRECT + 1 + e) == r.value != 0
    {
      hide FsOk, Addr, Extends, Recorded;
      ghost var st := St();
      Sizes(st, owner, i);
      var bp := if a < |blocks| then blocks[a] else ZeroBlock();
      r := Balloc();
      if r.None? { return; }
      var b := r.value;
      EntryRecorded(st, owner, i, e, b, a);
      blocks := blocks[a := SetWord(bp, e, b)];
      assert St() == WithEntry(st, a, e, b);
      RecordedExtends(st, owner, St(), i, NDIRECT + 1 + e, b);
      owner := owner[b := Place(i, NDIRECT + 1 + e)];
    }

    // bmap: the block of the n-th part of the file, allocated if there is none. None is a panic.
    method Bmap(i: nat, bn: nat) returns (r: Option<nat>)
      requires Valid() && i < |inodes|
      modifies this
      ensures |inodes| == |old(inodes)| && (r.None? ==> bn >= MAXFILE || DiskFull(used))
      ensures r.Some? ==>
        && bn < MAXFILE && Valid() && Extends(old(St()), St()) && r.value == Addr(St(), i, DataSlot(bn)) != 0
        && r.value < |blocks|
      ensures bn < MAXFILE && old(Addr(St(), i, DataSlot(bn))) != 0 ==>
        r.Some? && St() == old(St()) && owner == old(owner)
    {
      hide FsOk, Extends, Addr;
      Sizes(St(), owner, i);
      if bn < NDIRECT {
        ExtendsSelf(St());
        DirectIs(St(), i, bn);
        r := Some(inodes[i].addrs[bn]);
        if r.value == 0 { r := AllocDirect(i, bn); }
        if r.Some? { InBounds(St(), owner, i, bn); }
      } else if bn - NDIRECT < NINDIRECT {
        r := BmapIndirect(i, bn - NDIRECT);
      } else {
        r := None;
      }
    }

    // The second half of bmap, through the indirect block.
    method BmapIndirect(i: nat, bn: nat) returns (r: Option<nat>)
      requires Valid() && i < |inodes| && bn < NINDIRECT
      modifies this
      ensures |inodes| == |old(inodes)| && (r.None? ==> DiskFull(used))
      ensures r.Some? ==>
        Valid() && Extends(old(St()), St()) && r.value == Addr(St(), i, NDIRECT + 1 + bn) != 0 && r.value < |blocks|
      ensures old(Addr(St(), i, NDIRECT + 1 + bn)) != 0 ==> r.Some? && St() == old(St()) && owner == old(owner)
    {
      hide FsOk, Extends, Addr, Word;
      Sizes(St(), owner, i);
      ExtendsSelf(St());
      DirectIs(St(), i, NDIRECT);
      NoEntries(St(), i, bn);
      ghost var st := St();
      var addr := Some(inodes[i].addrs[NDIRECT]);
      if addr.value == 0 {
        addr := AllocDirect(i, NDIRECT);
        if addr.None? { return None; }
      }
      InBounds(St(), owner, i, NDIRECT);
      r := EntryOf(i, addr.value, bn, st);
    }

    // The entry of the indirect block, allocated if there is none.
    method EntryOf(i: nat, a: nat, e: nat, ghost st: State) returns (r: Option<nat>)
      requires Valid() && i < |inodes| && e < NINDIRECT && a == Addr(St(), i, NDIRECT) != 0 && a < |blocks|
      requires Shape(st) && Extends(st, St())
      modifies this
      ensures |inodes| == |old(inodes)| && (r.None? ==> DiskFull(used))
      ensures r.Some? ==>
        Valid() && Extends(st, St()) && r.value == Addr(St(), i, NDIRECT + 1 + e) != 0 && r.value < |blocks|
      ensures old(Addr(St(), i, NDIRECT + 1 + e)) != 0 ==> r.Some? && St() == old(St()) && owner == old(owner)
    {
      hide FsOk, Extends, Addr, Word;
      Sizes(St(), owner, i);
      EntryIs(St(), i, e);
      r := Some(Word(blocks[a], e));
      if r.value == 0 {
        ghost var mid := St();
        r := AllocEntry(i, a, e);
        if r.Some? { ExtendsTransitive(st, mid, St()); }
      }
      if r.Some? { InBounds(St(), owner, i, NDIRECT + 1 + e); }
    }

    // readi: the bytes from off on, as far as the file goes. The file system does not change.
    method Readi(i: nat, off0: nat, n0: nat) returns (r: Option<seq<Byte>>)
      requires Valid() && i < |inodes| && off0 < WordRange && n0 < WordRange
      modifies this
      ensures St() == old(St()) && Valid() && inodes[i].size <= MAXFILE * BSIZE
      ensures r.None? <==> off0 > inodes[i].size || off0 + n0 >= WordRange
      ensures r.Some? ==>
        var end := if off0 + n0 > inodes[i].size then inodes[i].size else off0 + n0;
        off0 <= end && r.value == Content(St(), i)[off0..end]
    {
      hide FsOk, Extends, Addr, ByteAt;
      Sizes(St(), owner, i);
      var off, n := off0, n0;
      if off > inodes[i].size || (off + n) % WordRange < off { return None; }
      if off + n > inodes[i].size { n := inodes[i].size - off; }
      ghost var st := St();
      ghost var content := Content(st, i);
      var dst: seq<Byte> := [];
      var tot := 0;
      while tot < n
        invariant 0 <= tot <= n && off == off0 + tot && off0 + n <= |content| && St() == st && Valid()
        invariant dst == content[off0..off]
      {
        BlockThere(st, owner, i, off);
        var a := Bmap(i, off / BSIZE);
        var m := if n - tot < BSIZE - off % BSIZE then n - tot else BSIZE - off % BSIZE;
        BlockHolds(st, i, off, m, a.value);
        dst := dst + blocks[a.value][off % BSIZE..off % BSIZE + m];
        assert content[off0..off] + content[off..off + m] == content[off0..off + m];
        tot, off := tot + m, off + m;
      }
      r := Some(dst);
    }

    // writei: None is the return of -1; a write that runs out of blocks panics.
    method Writei(i: nat, src: seq<Byte>, off0: nat) returns (r: Option<nat>, panic: bool)
      requires Valid() && i < |inodes| && off0 < WordRange && |src| < WordRange
      modifies this
      ensures !panic ==> Valid() && |inodes| == |old(inodes)|
      ensures !panic ==>
        (r.None? <==> off0 > old(inodes)[i].size || off0 + |src| >= WordRange || off0 + |src| > MAXFILE * BSIZE)
      ensures panic ==> off0 <= old(inodes)[i].size && off0 + |src| < WordRange && off0 + |src| <= MAXFILE * BSIZE
      ensures panic ==> DiskFull(used)
      ensures !panic && r.None? ==> St() == old(St())
      ensures !panic && r.Some? ==> r.value == |src| && Spliced(old(St()), St(), i, src, off0)
    {
      hide FsOk, Extends, Addr, ByteAt, Written;
      Sizes(St(), owner, i);
      r, panic := None, false;
      var off, n := off0, |src|;
      if off > inodes[i].size || (off + n) % WordRange < off { return; }
      if off + n > MAXFILE * BSIZE { return; }
      ghost var st := St();
      WriteStarts(st, owner, i, src, off0);
      var tot := 0;
      while tot < n
        invariant 0 <= tot <= n && off == off0 + tot && Valid() && |inodes| == |old(inodes)| && Shape(st)
        invariant Written(st, St(), i, src, off0, tot) && inodes[i].size == st.inodes[i].size
      {
        ghost var before, owner0 := St(), owner;
        var a := Bmap(i, off / BSIZE);
        if a.None? { panic := true; return; }
        var m := if n - tot < BSIZE - off % BSIZE then n - tot else BSIZE - off % BSIZE;
        var p := off % BSIZE;
        var nb: Block := blocks[a.value][..p] + src[tot..tot + m] + blocks[a.value][p + m..];
        MappedWritten(st, before, St(), owner0, i, src, off0, tot);
        WriteStep(st, St(), owner, i, src, off0, tot, m, nb);
        blocks := blocks[a.value := nb];
        tot, off := tot + m, off + m;
      }
      SizeSet(st, St(), owner, i, src, off0);
      assert inodes[i := inodes[i].(size := inodes[i].size)] == inodes;
      if n > 0 && off > inodes[i].size {
        inodes := inodes[i := inodes[i].(size := off)];
      }
      r := Some(n);
    }

    // bfree. Freeing a block that is not in use would be a panic.
    method Bfree(b: nat)
      requires b < |used| && used[b]
      modifies this`used
      ensures used == old(used)[b := false]
    {
      used := used[b := false];
    }

    // itrunc: the blocks of inode i are free again, and nothing else has changed.
    method Itrunc(i: nat)
      requires Valid() && i < |inodes|
      modifies this
      ensures Valid() && Truncated(old(St()), St(), old(owner), i)
    {
      hide FsOk, Addr, Freed, Word;
      ghost var st, own := St(), owner;
      Sizes(st, own, i);
      NothingFreed(st, own, i);
      var k := 0;
      while k < NDIRECT
        invariant 0 <= k <= NDIRECT && blocks == st.blocks && |used| == |st.used| && Cleared(st.inodes, inodes, i, k)
        invariant Freed(st, own, used, i, k)
        modifies this`used, this`inodes
      {
        DirectIs(st, i, k);
        FreeStep(st, own, used, i, k);
        if inodes[i].addrs[k] != 0 {
          Bfree(inodes[i].addrs[k]);
        }
        inodes := inodes[i := inodes[i].(addrs := inodes[i].addrs[k := 0])];
        k := k + 1;
      }
      DirectIs(st, i, NDIRECT);
      FreeEntries(i, st, own);
      inodes := inodes[i := Inode(0, inodes[i].addrs[NDIRECT := 0])];
      AllFreed(st, own, used, i, St());
      owner := Others(own, i);
    }

    // The second half of itrunc: the blocks in the indirect block, and the indirect block.
    method FreeEntries(i: nat, ghost st: State, ghost own: map<nat, Place>)
      requires FsOk(st, own) && i < |inodes| && i < |st.inodes| && blocks == st.blocks
      requires |used| == |st.used| == |blocks|
      requires |inodes[i].addrs| == NDIRECT + 1 && inodes[i].addrs[NDIRECT] == Addr(st, i, NDIRECT)
      requires Freed(st, own, used, i, NDIRECT)
      modifies this`used
      ensures |used| == |old(used)| && Freed(st, own, used, i, Slots)
    {
      hide FsOk, Addr, Freed, Word;
      Sizes(st, own, i);
      var a := inodes[i].addrs[NDIRECT];
      if a == 0 {
        EmptyFreed(st, own, used, i);
      } else {
        InBounds(st, own, i, NDIRECT);
        var e := 0;
        while e < NINDIRECT
          invariant 0 <= e <= NINDIRECT && |used| == |st.used| && a < |blocks|
          invariant Freed(st, own, used, i, NDIRECT + e)
        {
          EntryIs(st, i, e);
          FreeStep(st, own, used, i, NDIRECT + 1 + e);
          if Word(blocks[a], e) != 0 {
            Bfree(Word(blocks[a], e));
          }
          e := e + 1;
        }
        FreeStep(st, own, used, i, NDIRECT);
        Bfree(a);
      }
    }
  }

  lemma DirectIs(st: State, i: nat, slot: nat)
    requires Shape(st) && i < |st.inodes| && slot <= NDIRECT
    ensures InodeOk(st, i) && Addr(st, i, slot) == st.inodes[i].addrs[slot]
  {
  }

  lemma NoEntries(st: State, i: nat, e: nat)
    requires Shape(st) && i < |st.inodes| && e < NINDIRECT
    ensures Addr(st, i, NDIRECT) == 0 ==> Addr(st, i, NDIRECT + 1 + e) == 0
  {
    assert InodeOk(st, i);
  }

  lemma EntryIs(st: State, i: nat, e: nat)
    requires Shape(st) && i < |st.inodes| && e < NINDIRECT && 0 < Addr(st, i, NDIRECT) < |st.blocks|
    ensures Addr(st, i, NDIRECT + 1 + e) == Word(st.blocks[Addr(st, i, NDIRECT)], e)
  {
    assert InodeOk(st, i);
  }

  // The new contents: the bytes of src from off on, and otherwise what was there; the file
  // grows if it must. The other files are as they were.
  ghost predicate Spliced(st: State, to: State, i: nat, src: seq<Byte>, off: nat)
    requires Shape(st) && i < |st.inodes|
  {
    && Shape(to) && |to.inodes| == |st.inodes| && off <= st.inodes[i].size <= MAXFILE * BSIZE
    && (forall j :: 0 <= j < |st.inodes| ==>
      && st.inodes[j].size <= MAXFILE * BSIZE && to.inodes[j].size <= MAXFILE * BSIZE
      && (j != i ==> Content(to, j) == Content(st, j)))
    && Content(to, i) == Content(st, i)[..off] + src
      + (if off + |src| < |Content(st, i)| then Content(st, i)[off + |src|..] else [])
  }

  // In the middle of writei, when `tot` bytes are written.
  ghost predicate Written(st: State, to: State, i: nat, src: seq<Byte>, off: nat, tot: nat)
    requires Shape(st) && i < |st.inodes|
  {
    && Shape(to) && |to.inodes| == |st.inodes| && tot <= |src| && off <= st.inodes[i].size
    && off + |src| <= MAXFILE * BSIZE
    && (forall j :: 0 <= j < |st.inodes| ==> to.inodes[j].size == st.inodes[j].size <= MAXFILE * BSIZE)
    && (forall j, p :: 0 <= j < |st.inodes| && 0 <= p < st.inodes[j].size && (j != i || p < off || off + tot <= p) ==>
      ByteAt(to, j, p) == ByteAt(st, j, p))
    && (forall p :: off <= p < off + tot ==> ByteAt(to, i, p) == src[p - off])
    && Backed(to, i, if off + tot > st.inodes[i].size then off + tot else st.inodes[i].size)
  }

  lemma BlockThere(st: State, owner: map<nat, Place>, i: nat, off: nat)
    requires FsOk(st, owner) && i < |st.inodes| && off < st.inodes[i].size
    ensures off / BSIZE < MAXFILE && Addr(st, i, DataSlot(off / BSIZE)) != 0
  {
    assert Backed(st, i, st.inodes[i].size);
    assert (off / BSIZE) * BSIZE <= off;
  }

  // The part of a block that a step of readi copies is that part of the contents.
  lemma BlockHolds(st: State, i: nat, off: nat, m: nat, a: nat)
    requires Shape(st) && i < |st.inodes| && st.inodes[i].size <= MAXFILE * BSIZE
    requires off + m <= st.inodes[i].size && off % BSIZE + m <= BSIZE && m > 0
    requires off / BSIZE < MAXFILE && a == Addr(st, i, DataSlot(off / BSIZE)) && a < |st.blocks|
    ensures st.blocks[a][off % BSIZE..off % BSIZE + m] == Content(st, i)[off..off + m]
  {
    var s, t := st.blocks[a][off % BSIZE..off % BSIZE + m], Content(st, i)[off..off + m];
    forall k | 0 <= k < m ensures s[k] == t[k] {
      SamePart(off, k);
      assert t[k] == ByteAt(st, i, off + k);
    }
  }

  lemma SamePart(off: nat, k: nat)
    requires off % BSIZE + k < BSIZE
    ensures (off + k) / BSIZE == off / BSIZE && (off + k) % BSIZE == off % BSIZE + k
  {
  }

  lemma WriteStarts(st: State, owner: map<nat, Place>, i: nat, src: seq<Byte>, off: nat)
    requires FsOk(st, owner) && i < |st.inodes| && off <= st.inodes[i].size && off + |src| <= MAXFILE * BSIZE
    ensures Shape(st) && Written(st, st, i, src, off, 0)
  {
    hide Addr, ByteAt;
    forall j | 0 <= j < |st.inodes|
      ensures st.inodes[j].size <= MAXFILE * BSIZE
    {
      assert Backed(st, j, st.inodes[j].size);
    }
    assert Backed(st, i, st.inodes[i].size);
  }

  // bmap in the middle of writei.
  lemma MappedWritten(st: State, before: State, mid: State, owner0: map<nat, Place>, i: nat, src: seq<Byte>, off: nat,
                      tot: nat)
    requires Shape(st) && i < |st.inodes| && FsOk(before, owner0) && Written(st, before, i, src, off, tot)
    requires Extends(before, mid)
    ensures Written(st, mid, i, src, off, tot)
  {
    hide Addr, ByteAt, Owned;
    forall j, p | 0 <= j < |st.inodes| && 0 <= p < st.inodes[j].size && (j != i || p < off || off + tot <= p)
      ensures ByteAt(mid, j, p) == ByteAt(st, j, p)
    {
      BlockThere(before, owner0, j, p);
      assert ByteAt(mid, j, p) == ByteAt(before, j, p);
    }
    forall p | off <= p < off + tot ensures ByteAt(mid, i, p) == src[p - off] {
      BackedAt(before, i, off + tot, p);
      assert ByteAt(mid, i, p) == ByteAt(before, i, p);
    }
  }

  lemma BackedAt(st: State, i: nat, len: nat, p: nat)
    requires Shape(st) && i < |st.inodes| && p < len
    ensures Backed(st, i, len) ==> p / BSIZE < MAXFILE && Addr(st, i, DataSlot(p / BSIZE)) != 0
    ensures forall more :: len <= more && Backed(st, i, more) ==>
      p / BSIZE < MAXFILE && Addr(st, i, DataSlot(p / BSIZE)) != 0
  {
    assert (p / BSIZE) * BSIZE <= p;
  }

  // The bytes of the step are those of src, and the block had the right bytes around them.
  lemma StepBytes(b: Block, src: seq<Byte>, tot: nat, m: nat, p: nat, nb: seq<Byte>, k: nat)
    requires p + m <= BSIZE && tot + m <= |src| && k < BSIZE && nb == b[..p] + src[tot..tot + m] + b[p + m..]
    ensures |nb| == BSIZE && nb[k] == if p <= k < p + m then src[tot + (k - p)] else b[k]
  {
  }

  lemma BackedMore(st: State, i: nat, len: nat, off: nat, m: nat)
    requires Shape(st) && i < |st.inodes| && Backed(st, i, len) && off <= len && off % BSIZE + m <= BSIZE
    requires off + m <= MAXFILE * BSIZE
    requires off / BSIZE < MAXFILE && Addr(st, i, DataSlot(off / BSIZE)) != 0
    ensures Backed(st, i, if off + m > len then off + m else len)
  {
    forall bn | 0 <= bn < MAXFILE && bn * BSIZE < off + m && len <= bn * BSIZE ensures bn == off / BSIZE {
      assert off == (off / BSIZE) * BSIZE + off % BSIZE;
    }
  }

  // One step of writei: bmap, then the copy into the block.
  lemma WriteStep(st: State, mid: State, owner: map<nat, Place>, i: nat, src: seq<Byte>, off0: nat, tot: nat, m: nat,
                  nb: Block)
    requires Shape(st) && i < |st.inodes| && FsOk(mid, owner) && Written(st, mid, i, src, off0, tot) && 0 < m
    requires tot + m <= |src|
    requires var off := off0 + tot; var bn := off / BSIZE; var p := off % BSIZE;
      && bn < MAXFILE && p + m <= BSIZE && Addr(mid, i, DataSlot(bn)) != 0 && Addr(mid, i, DataSlot(bn)) < |mid.blocks|
      && nb == mid.blocks[Addr(mid, i, DataSlot(bn))][..p] + src[tot..tot + m]
          + mid.blocks[Addr(mid, i, DataSlot(bn))][p + m..]
    ensures var to := mid.(blocks := mid.blocks[Addr(mid, i, DataSlot((off0 + tot) / BSIZE)) := nb]);
      FsOk(to, owner) && Written(st, to, i, src, off0, tot + m) && to.inodes[i].size == st.inodes[i].size
  {
    hide Addr, ByteAt, FsOk, Written;
    var off := off0 + tot;
    WrittenFacts(st, mid, i, src, off0, tot);
    var a := Addr(mid, i, DataSlot(off / BSIZE));
    var to := mid.(blocks := mid.blocks[a := nb]);
    DataWritten(mid, owner, i, off / BSIZE, nb, a, to);
    Sizes(to, owner, i);
    hide Backed;
    var len := if off > st.inodes[i].size then off else st.inodes[i].size;
    BackedMore(mid, i, len, off, m);
    BackedSame(mid, to, i, if off + m > len then off + m else len);
    StepBlock(mid, to, i, src, off, tot, m, nb, a);
    WrittenMore(st, mid, to, i, src, off0, tot, m);
  }

  lemma WrittenFacts(st: State, to: State, i: nat, src: seq<Byte>, off: nat, tot: nat)
    requires Shape(st) && i < |st.inodes| && Written(st, to, i, src, off, tot)
    ensures |to.inodes| == |st.inodes| && off <= st.inodes[i].size && off + |src| <= MAXFILE * BSIZE && Shape(to)
    ensures Backed(to, i, if off + tot > st.inodes[i].size then off + tot else st.inodes[i].size)
  {
  }

  lemma BackedSame(st: State, to: State, i: nat, len: nat)
    requires Shape(st) && Shape(to) && i < |st.inodes| && i < |to.inodes| && Backed(st, i, len)
    requires forall t :: 0 <= t < Slots ==> Addr(to, i, t) == Addr(st, i, t)
    ensures Backed(to, i, len)
  {
    hide Addr;
  }

  lemma WrittenMore(st: State, mid: State, to: State, i: nat, src: seq<Byte>, off0: nat, tot: nat, m: nat)
    requires Shape(st) && i < |st.inodes| && Written(st, mid, i, src, off0, tot) && tot + m <= |src|
    requires Shape(to) && to.inodes == mid.inodes
    requires forall j, q ::
      0 <= j < |mid.inodes| && 0 <= q < MAXFILE * BSIZE && (j != i || q < off0 + tot || off0 + tot + m <= q) ==>
      ByteAt(to, j, q) == ByteAt(mid, j, q)
    requires forall q :: off0 + tot <= q < off0 + tot + m ==> ByteAt(to, i, q) == src[tot + (q - (off0 + tot))]
    requires Backed(to, i, if off0 + tot + m > st.inodes[i].size then off0 + tot + m else st.inodes[i].size)
    ensures Written(st, to, i, src, off0, tot + m) && to.inodes[i].size == st.inodes[i].size
  {
    hide Addr, ByteAt, Backed, Shape;
  }

  // What the step makes of the bytes of all files.
  lemma StepBlock(mid: State, to: State, i: nat, src: seq<Byte>, off: nat, tot: nat, m: nat, nb: Block, a: nat)
    requires Shape(mid) && Shape(to) && |to.inodes| == |mid.inodes| && i < |mid.inodes| && off + m <= MAXFILE * BSIZE
    requires tot + m <= |src|
    requires off / BSIZE < MAXFILE && off % BSIZE + m <= BSIZE && a == Addr(mid, i, DataSlot(off / BSIZE))
    requires a < |mid.blocks|
    requires nb == mid.blocks[a][..off % BSIZE] + src[tot..tot + m] + mid.blocks[a][off % BSIZE + m..]
    requires forall j, q :: 0 <= j < |mid.inodes| && 0 <= q < MAXFILE * BSIZE ==>
      ByteAt(to, j, q) == if j == i && q / BSIZE == off / BSIZE then nb[q % BSIZE] else ByteAt(mid, j, q)
    ensures forall j, q :: 0 <= j < |mid.inodes| && 0 <= q < MAXFILE * BSIZE && (j != i || q < off || off + m <= q) ==>
      ByteAt(to, j, q) == ByteAt(mid, j, q)
    ensures forall q :: off <= q < off + m ==> ByteAt(to, i, q) == src[tot + (q - off)]
  {
    var p := off % BSIZE;
    forall j, q | 0 <= j < |mid.inodes| && 0 <= q < MAXFILE * BSIZE && (j != i || q < off || off + m <= q)
      ensures ByteAt(to, j, q) == ByteAt(mid, j, q)
    {
      if j == i && q / BSIZE == off / BSIZE {
        StepBytes(mid.blocks[a], src, tot, m, p, nb, q % BSIZE);
        SameBlock(off, q, m);
        InBlock(mid, i, q, a);
      }
    }
    hide Addr, Shape;
    forall q | off <= q < off + m ensures ByteAt(to, i, q) == src[tot + (q - off)] {
      SamePart(off, q - off);
      StepBytes(mid.blocks[a], src, tot, m, p, nb, q % BSIZE);
    }
  }

  lemma InBlock(st: State, i: nat, q: nat, a: nat)
    requires Shape(st) && i < |st.inodes| && q < MAXFILE * BSIZE && a == Addr(st, i, DataSlot(q / BSIZE))
    requires a < |st.blocks|
    ensures ByteAt(st, i, q) == st.blocks[a][q % BSIZE]
  {
  }

  lemma SameBlock(off: nat, q: nat, m: nat)
    requires q / BSIZE == off / BSIZE && (q < off || off + m <= q)
    ensures q % BSIZE < off % BSIZE || off % BSIZE + m <= q % BSIZE
  {
  }

  lemma SizeOk(st: State, to: State, owner: map<nat, Place>, i: nat, src: seq<Byte>, off: nat, size: nat)
    requires Shape(st) && i < |st.inodes| && FsOk(to, owner) && Written(st, to, i, src, off, |src|)
    requires size == if off + |src| > to.inodes[i].size then off + |src| else to.inodes[i].size
    ensures var end := to.(inodes := to.inodes[i := to.inodes[i].(size := size)]);
      && FsOk(end, owner)
      && (forall j, t :: 0 <= j < |st.inodes| && 0 <= t < Slots ==> Addr(end, j, t) == Addr(to, j, t))
  {
    var end := to.(inodes := to.inodes[i := to.inodes[i].(size := size)]);
    forall j | 0 <= j < |end.inodes| ensures InodeOk(end, j) { assert InodeOk(to, j); }
    forall j, t | 0 <= j < |st.inodes| && 0 <= t < Slots
      ensures Addr(end, j, t) == Addr(to, j, t)
    {
      assert InodeOk(to, j);
    }
    hide Addr;
    forall j | 0 <= j < |end.inodes| ensures Backed(end, j, end.inodes[j].size) {
      assert j != i ==> Backed(to, j, to.inodes[j].size);
    }
  }

  lemma SizeSet(st: State, to: State, owner: map<nat, Place>, i: nat, src: seq<Byte>, off: nat)
    requires Shape(st) && i < |st.inodes| && FsOk(to, owner) && Written(st, to, i, src, off, |src|)
    ensures var size := if off + |src| > to.inodes[i].size then off + |src| else to.inodes[i].size;
      var end := to.(inodes := to.inodes[i := to.inodes[i].(size := size)]);
      FsOk(end, owner) && Spliced(st, end, i, src, off)
  {
    var size := if off + |src| > to.inodes[i].size then off + |src| else to.inodes[i].size;
    var end := to.(inodes := to.inodes[i := to.inodes[i].(size := size)]);
    SizeOk(st, to, owner, i, src, off, size);
    forall j, p | 0 <= j < |st.inodes| && 0 <= p < MAXFILE * BSIZE ensures ByteAt(end, j, p) == ByteAt(to, j, p) {}
    hide Addr, ByteAt, FsOk, Backed, Content;
    forall j | 0 <= j < |st.inodes| && j != i ensures Content(end, j) == Content(st, j) {
      SameContent(st, end, j);
    }
    SplicedContent(st, end, i, src, off);
  }

  lemma SameContent(st: State, to: State, j: nat)
    requires Shape(st) && Shape(to) && j < |st.inodes| && j < |to.inodes|
    requires to.inodes[j].size == st.inodes[j].size <= MAXFILE * BSIZE
    requires forall p :: 0 <= p < st.inodes[j].size ==> ByteAt(to, j, p) == ByteAt(st, j, p)
    ensures Content(to, j) == Content(st, j)
  {
  }

  lemma SplicedContent(st: State, to: State, i: nat, src: seq<Byte>, off: nat)
    requires Shape(st) && Shape(to) && i < |st.inodes| && i < |to.inodes| && off <= st.inodes[i].size <= MAXFILE * BSIZE
    requires to.inodes[i].size == (if off + |src| > st.inodes[i].size then off + |src| else st.inodes[i].size) <= MAXFILE * BSIZE
    requires forall p :: 0 <= p < st.inodes[i].size && (p < off || off + |src| <= p) ==>
      ByteAt(to, i, p) == ByteAt(st, i, p)
    requires forall p :: off <= p < off + |src| ==> ByteAt(to, i, p) == src[p - off]
    ensures var c := Content(st, i);
      Content(to, i) == c[..off] + src + (if off + |src| < |c| then c[off + |src|..] else [])
  {
    var c, d := Content(st, i), Content(to, i);
    var e := c[..off] + src + (if off + |src| < |c| then c[off + |src|..] else []);
    hide ByteAt, Addr;
    assert |d| == |e|;
    forall p | 0 <= p < |d| ensures d[p] == e[p] {}
  }

  // ---- Truncation ----

  // The order in which itrunc comes by the places: the indirect block is the last.
  ghost function Turn(slot: nat): nat {
    if slot < NDIRECT then slot else if slot == NDIRECT then Slots - 1 else slot - 1
  }

  // The free map when the blocks in the first n places of inode i have been freed.
  ghost predicate Freed(st: State, owner: map<nat, Place>, used: seq<bool>, i: nat, n: nat) {
    && |used| == |st.used|
    && forall b :: 0 <= b < |used| ==> (used[b] <==> st.used[b] && !(b in owner && owner[b].i == i && Turn(owner[b].slot) < n))
  }

  ghost function Others(owner: map<nat, Place>, i: nat): map<nat, Place> {
    map b | b in owner && owner[b].i != i :: owner[b]
  }

  // The inodes when the first k direct blocks of inode i are forgotten.
  ghost predicate Cleared(inodes: seq<Inode>, to: seq<Inode>, i: nat, k: nat) {
    && |to| == |inodes| && i < |inodes| && |inodes[i].addrs| == |to[i].addrs| == NDIRECT + 1 && k <= NDIRECT
    && (forall j :: 0 <= j < |inodes| && j != i ==> to[j] == inodes[j])
    && forall t :: 0 <= t <= NDIRECT ==> to[i].addrs[t] == if t < k then 0 else inodes[i].addrs[t]
  }

  lemma NothingFreed(st: State, owner: map<nat, Place>, i: nat)
    ensures Freed(st, owner, st.used, i, 0)
  {
  }

  // One place: the block in it is in use, so freeing it is no panic.
  lemma FreeStep(st: State, owner: map<nat, Place>, used: seq<bool>, i: nat, slot: nat)
    requires FsOk(st, owner) && i < |st.inodes| && slot < Slots && Freed(st, owner, used, i, Turn(slot))
    ensures var a := Addr(st, i, slot);
      if a == 0 then Freed(st, owner, used, i, Turn(slot) + 1)
      else a < |used| && used[a] && Freed(st, owner, used[a := false], i, Turn(slot) + 1)
  {
    hide Addr;
    var a := Addr(st, i, slot);
    assert forall b <- owner :: owner[b] == Place(i, slot) ==> b == a;
  }

  // Without an indirect block there is nothing more to free.
  lemma EmptyFreed(st: State, owner: map<nat, Place>, used: seq<bool>, i: nat)
    requires FsOk(st, owner) && i < |st.inodes| && Freed(st, owner, used, i, NDIRECT) && Addr(st, i, NDIRECT) == 0
    ensures Freed(st, owner, used, i, Slots)
  {
    forall b | b in owner && owner[b].i == i ensures owner[b].slot < NDIRECT {
      var t := owner[b].slot;
      NoEntries(st, i, if t > NDIRECT then t - NDIRECT - 1 else 0);
    }
  }

  // What itrunc promises: the file is empty, exactly its blocks are free that were not, and the
  // other files are as they were.
  ghost predicate Truncated(st: State, to: State, owner: map<nat, Place>, i: nat)
    requires FsOk(st, owner) && i < |st.inodes|
  {
    && Shape(to) && |to.inodes| == |st.inodes| && |to.used| == |st.used| && to.inodes[i].size == 0
    && (forall slot :: 0 <= slot < Slots ==> Addr(to, i, slot) == 0)
    && (forall b :: 0 <= b < |st.used| ==>
      (to.used[b] <==> st.used[b] && !exists slot :: 0 <= slot < Slots && b == Addr(st, i, slot) && b != 0))
    && (forall j :: 0 <= j < |st.inodes| && j != i ==>
      && to.inodes[j] == st.inodes[j] && st.inodes[j].size <= MAXFILE * BSIZE && Content(to, j) == Content(st, j))
  }

  lemma FreedExactly(st: State, owner: map<nat, Place>, used: seq<bool>, i: nat, b: nat)
    requires FsOk(st, owner) && i < |st.inodes| && Freed(st, owner, used, i, Slots) && b < |used|
    ensures used[b] <==> st.used[b] && !exists slot :: 0 <= slot < Slots && b == Addr(st, i, slot) && b != 0
  {
    hide Addr;
    if b in owner && owner[b].i == i { assert b == Addr(st, i, owner[b].slot); }
  }

  // What was written is read back, and the rest of the file is as it was.
  lemma WriteRead(st: State, to: State, i: nat, src: seq<Byte>, off: nat)
    requires Shape(st) && i < |st.inodes| && Spliced(st, to, i, src, off)
    ensures var c, d := Content(st, i), Content(to, i);
      && off + |src| <= |d| && d[off..off + |src|] == src
      && forall p :: 0 <= p < |c| && (p < off || off + |src| <= p) ==> d[p] == c[p]
  {
    var c, d := Content(st, i), Content(to, i);
    hide Addr, ByteAt, Content;
    assert d[off..off + |src|] == src;
  }

  lemma AllFreed(st: State, owner: map<nat, Place>, used: seq<bool>, i: nat, to: State)
    requires FsOk(st, owner) && i < |st.inodes| && Freed(st, owner, used, i, Slots)
    requires to.blocks == st.blocks && to.used == used && to.start == st.start && |to.inodes| == |st.inodes|
    requires to.inodes[i].size == 0 && |to.inodes[i].addrs| == NDIRECT + 1
    requires forall t :: 0 <= t <= NDIRECT ==> to.inodes[i].addrs[t] == 0
    requires forall j :: 0 <= j < |st.inodes| && j != i ==> to.inodes[j] == st.inodes[j]
    ensures FsOk(to, Others(owner, i)) && Truncated(st, to, owner, i)
  {
    forall j | 0 <= j < |to.inodes| ensures InodeOk(to, j) { assert InodeOk(st, j); }
    forall j, t | 0 <= j < |st.inodes| && 0 <= t < Slots
      ensures Addr(to, j, t) == if j == i then 0 else Addr(st, j, t) {
      assert InodeOk(st, j) && InodeOk(to, j);
    }
    hide Addr;
    forall j | 0 <= j < |to.inodes|
      ensures Backed(to, j, to.inodes[j].size)
    {
      assert Backed(st, j, st.inodes[j].size);
    }
    forall b | 0 <= b < |st.used|
      ensures to.used[b] <==> st.used[b] && !exists slot :: 0 <= slot < Slots && b == Addr(st, i, slot) && b != 0
    {
      FreedExactly(st, owner, used, i, b);
    }
    hide Freed;
    forall j | 0 <= j < |st.inodes| && j != i
      ensures st.inodes[j].size <= MAXFILE * BSIZE && Content(to, j) == Content(st, j) {
      assert Backed(st, j, st.inodes[j].size);
      SameContent(st, to, j);
    }
    assert Owned(to, Others(owner, i));
  }

  lemma Sizes(st: State, owner: map<nat, Place>, i: nat)
    requires FsOk(st, owner) && i < |st.inodes|
    ensures Shape(st) && |st.used| == |st.blocks| <= WordRange && |st.inodes[i].addrs| == NDIRECT + 1
    ensures st.inodes[i].size <= MAXFILE * BSIZE
  {
    assert InodeOk(st, i) && Backed(st, i, st.inodes[i].size);
  }

  lemma ExtendsSelf(st: State)
    requires Shape(st)
    ensures Extends(st, st)
  {
  }

  lemma InBounds(st: State, owner: map<nat, Place>, i: nat, slot: nat)
    requires FsOk(st, owner) && i < |st.inodes| && slot < Slots
    ensures Addr(st, i, slot) != 0 ==> Addr(st, i, slot) < |st.blocks|
  {
  }
}
