/**
 The cyclic folded-history registers of ChampSim/branch/tage_sc_l/tage_sc_l.cc, and the ring
 of branch outcomes that feeds them. A 32-bit word is the sequence of its bits, lowest first.
 */
module FoldedHistories {

  const WordLength: nat := 32

  const BufferLength: nat := 4096

  type Word = w: seq<bool> | |w| == WordLength witness seq(WordLength, _ => false)

  function Xor(a: Word, b: Word): Word {
    seq(WordLength, k requires 0 <= k < WordLength => a[k] != b[k])
  }

  function ShiftLeft(a: Word, n: nat): Word {
    seq(WordLength, k requires 0 <= k < WordLength => k >= n && a[k - n])
  }

  function ShiftRight(a: Word, n: nat): Word {
    seq(WordLength, k requires 0 <= k < WordLength => k + n < WordLength && a[k + n])
  }

  // a & ((1 << n) - 1)
  function LowBits(a: Word, n: nat): Word {
    seq(WordLength, k requires 0 <= k < WordLength => k < n && a[k])
  }

  function FromBit(b: bool): Word {
    seq(WordLength, k => k == 0 && b)
  }

  // i & (BufferLength - 1), also for negative i.
  function Wrap(i: int): nat {
    i % BufferLength
  }

  // ---- The history and its direct fold ----

  // The outcome of age i, 0 being the newest. Before the first branch all outcomes are false.
  ghost function Age(past: seq<bool>, i: nat): bool {
    i < |past| && past[i]
  }

  // Bit j of the last n outcomes folded to c bits: the exclusive or of those whose age is j modulo c.
  ghost function Fold(past: seq<bool>, n: nat, c: nat, j: nat): bool
    requires c > 0
  {
    if n == 0 then false else Fold(past, n - 1, c, j) != ((n - 1) % c == j && Age(past, n - 1))
  }

  ghost function Folded(past: seq<bool>, n: nat, c: nat, j: nat): set<nat>
    requires c > 0
  {
    set i: nat | i < n && i % c == j && Age(past, i)
  }

  // The fold is a parity: how many of the last n outcomes whose age is j modulo c were taken.
  lemma {:induction false} FoldIsParity(past: seq<bool>, n: nat, c: nat, j: nat)
    requires c > 0
    ensures Fold(past, n, c, j) <==> |Folded(past, n, c, j)| % 2 == 1
  {
    if n > 0 {
      FoldIsParity(past, n - 1, c, j);
      var before := Folded(past, n - 1, c, j);
      if (n - 1) % c == j && Age(past, n - 1) {
        assert Folded(past, n, c, j) == before + {n - 1};
      } else {
        assert Folded(past, n, c, j) == before;
      }
    }
  }

  // The ring holds the last BufferLength outcomes, the newest at y.
  ghost predicate Rings(h: seq<bool>, y: int, past: seq<bool>) {
    |h| == BufferLength && forall i: nat :: i < BufferLength ==> h[Wrap(y + i)] == Age(past, i)
  }

  lemma RingPushed(h: seq<bool>, y: int, past: seq<bool>, b: bool)
    requires Rings(h, y, past)
    ensures Rings(h[Wrap(y - 1) := b], y - 1, [b] + past)
  {
    var t := h[Wrap(y - 1) := b];
    forall i: nat | i < BufferLength ensures t[Wrap(y - 1 + i)] == Age([b] + past, i) {
      if i > 0 {
        assert y - 1 + i == y + (i - 1);
        WrapApart(y - 1, i);
        assert h[Wrap(y + (i - 1))] == Age(past, i - 1);
      }
    }
  }

  lemma WrapApart(y: int, i: nat)
    requires 0 < i < BufferLength
    ensures Wrap(y + i) != Wrap(y)
  {
  }

  // One more outcome turns the fold by one place, brings the newest in and takes the oldest out.
  lemma {:induction false} FoldTurns(past: seq<bool>, b: bool, n: nat, c: nat, j: nat)
    requires 0 < c && j < c
    ensures Fold([b] + past, n, c, j)
      == ((Fold(past, n, c, if j == 0 then c - 1 else j - 1) != (j == 0 && b)) != (n % c == j && Age([b] + past, n)))
  {
    var pj := if j == 0 then c - 1 else j - 1;
    if n > 0 {
      FoldTurns(past, b, n - 1, c, j);
      NextModulo(n - 1, c, j);
      assert Age([b] + past, n) == Age(past, n - 1);
    } else {
      assert 0 % c == 0;
    }
  }

  lemma NextModulo(n: nat, c: nat, j: nat)
    requires 0 < c && j < c
    ensures (n + 1) % c == j <==> n % c == if j == 0 then c - 1 else j - 1
  {
    var q, r := n / c, n % c;
    assert n == q * c + r;
    if r + 1 < c {
      ModuloIs(n + 1, c, q, r + 1);
    } else {
      assert n + 1 == (q + 1) * c;
      ModuloIs(n + 1, c, q + 1, 0);
    }
  }

  lemma ModuloIs(n: nat, c: nat, q: nat, r: nat)
    requires 0 < c && r < c && n == q * c + r
    ensures n % c == r
  {
    var d := n / c - q;
    assert n == (n / c) * c + n % c;
    assert d * c == r - n % c;
    SmallMultiple(d, c);
  }

  lemma SmallMultiple(d: int, c: int)
    requires 0 - c < d * c < c
    ensures d == 0
  {
  }

  class FoldedHistory {
    var comp: Word
    var clength: nat
    var olength: nat
    var outpoint: nat

    ghost predicate Valid(past: seq<bool>)
      reads this
    {
      && 0 < clength < WordLength - 1 && olength < BufferLength && outpoint == olength % clength
      && forall j :: 0 <= j < WordLength ==> comp[j] == (j < clength && Fold(past, olength, clength, j))
    }

    // init, when there is no history
    method Init(originalLength: nat, compressedLength: nat)
      requires 0 < compressedLength < WordLength - 1 && originalLength < BufferLength
      modifies this
      ensures Valid([]) && olength == originalLength && clength == compressedLength
    {
      comp := seq(WordLength, _ => false);
      olength := originalLength;
      clength := compressedLength;
      outpoint := olength % clength;
      forall j | 0 <= j < clength ensures !Fold([], olength, clength, j) { FoldNothing(olength, clength, j); }
    }

    // update, when outcome b has just entered the ring
    method Update(h: array<bool>, pt: int, ghost past: seq<bool>, ghost b: bool)
      requires h.Length == BufferLength && Valid(past) && Rings(h[..], pt, [b] + past)
      modifies this`comp
      ensures Valid([b] + past)
    {
      ghost var comp0 := comp;
      hide Fold, Xor, ShiftLeft, ShiftRight, LowBits, FromBit, Rings;
      var newest, oldest := h[Wrap(pt)], h[Wrap(pt + olength)];
      assert newest == b && oldest == Age([b] + past, olength) by { RingAt(h[..], pt, [b] + past, olength); }
      comp := Xor(ShiftLeft(comp, 1), FromBit(newest));
      comp := Xor(comp, ShiftLeft(FromBit(oldest), outpoint));
      comp := Xor(comp, ShiftRight(comp, clength));
      comp := LowBits(comp, clength);
      assert comp == Updated(comp0, newest, oldest, outpoint, clength);
      UpdatedFolds(comp0, past, b, olength, clength);
    }
  }

  lemma RingAt(h: seq<bool>, y: int, past: seq<bool>, n: nat)
    requires Rings(h, y, past) && n < BufferLength
    ensures h[Wrap(y)] == Age(past, 0) && h[Wrap(y + n)] == Age(past, n)
  {
    assert h[Wrap(y + 0)] == Age(past, 0);
  }

  lemma {:induction false} FoldNothing(n: nat, c: nat, j: nat)
    requires c > 0
    ensures !Fold([], n, c, j)
  {
    if n > 0 { FoldNothing(n - 1, c, j); }
  }

  // The word after update's four assignments.
  ghost function Updated(comp: Word, newest: bool, oldest: bool, outpoint: nat, c: nat): Word {
    var w := Xor(Xor(ShiftLeft(comp, 1), FromBit(newest)), ShiftLeft(FromBit(oldest), outpoint));
    LowBits(Xor(w, ShiftRight(w, c)), c)
  }

  // A turn by one place within c bits, with one bit in and one bit out.
  lemma Turned(comp: Word, newest: bool, oldest: bool, outpoint: nat, c: nat)
    requires 0 < c < WordLength - 1 && outpoint < c && forall k :: c <= k < WordLength ==> !comp[k]
    ensures var r := Updated(comp, newest, oldest, outpoint, c);
      forall j :: 0 <= j < WordLength ==>
        r[j] == (j < c && ((comp[if j == 0 then c - 1 else j - 1] != (j == 0 && newest)) != (j == outpoint && oldest)))
  {
    var w := Xor(Xor(ShiftLeft(comp, 1), FromBit(newest)), ShiftLeft(FromBit(oldest), outpoint));
    assert forall k :: 0 < k < WordLength ==> w[k] == (comp[k - 1] != (k == outpoint && oldest));
    assert w[0] == (newest != (outpoint == 0 && oldest));
    assert forall k :: c < k < WordLength ==> !w[k];
  }

  lemma UpdatedFolds(comp: Word, past: seq<bool>, b: bool, n: nat, c: nat)
    requires 0 < c < WordLength - 1 && forall j :: 0 <= j < WordLength ==> comp[j] == (j < c && Fold(past, n, c, j))
    ensures var r := Updated(comp, b, Age([b] + past, n), n % c, c);
      forall j :: 0 <= j < WordLength ==> r[j] == (j < c && Fold([b] + past, n, c, j))
  {
    var oldest := Age([b] + past, n);
    Turned(comp, b, oldest, n % c, c);
    hide Updated, Fold;
    var r := Updated(comp, b, oldest, n % c, c);
    forall j | 0 <= j < WordLength ensures r[j] == (j < c && Fold([b] + past, n, c, j)) {
      if j < c { FoldTurns(past, b, n, c, j); }
    }
  }

  class Predictor {
    const ghist: array<bool>
    var y: int
    // All registers: H[i], G[i] and J[i] for each i.
    const regs: seq<FoldedHistory>
    ghost var past: seq<bool>

    ghost predicate Valid()
      reads this, ghist, regs
    {
      && ghist.Length == BufferLength && Rings(ghist[..], y, past)
      && (forall i, j :: 0 <= i < j < |regs| ==> regs[i] != regs[j])
      && forall i :: 0 <= i < |regs| ==> regs[i].Valid(past)
    }

    constructor (registers: seq<FoldedHistory>)
      requires (forall i, j :: 0 <= i < j < |registers| ==> registers[i] != registers[j])
      requires forall i :: 0 <= i < |registers| ==> registers[i].Valid([])
      ensures Valid() && past == [] && regs == registers && fresh(ghist)
    {
      ghist := new bool[BufferLength](_ => false);
      y, regs, past := 0, registers, [];
    }

    // The loop of HistoryUpdate: the outcomes `bits` enter one after the other.
    method HistoryUpdate(bits: seq<bool>)
      requires Valid()
      modifies this, ghist, regs
      ensures Valid() && past == Pushed(old(past), bits)
    {
      var t := 0;
      while t < |bits|
        invariant 0 <= t <= |bits| && Valid() && past == Pushed(old(past), bits[..t])
      {
        assert bits[..t + 1][..t] == bits[..t];
        Push(bits[t]);
        t := t + 1;
      }
      assert bits[..t] == bits;
    }

    method Push(b: bool)
      requires Valid()
      modifies this, ghist, regs
      ensures Valid() && past == [b] + old(past)
    {
      RingPushed(ghist[..], y, past, b);
      y := y - 1;
      ghist[Wrap(y)] := b;
      ghost var before := past;
      var i := 0;
      while i < |regs|
        invariant 0 <= i <= |regs| && past == before && Rings(ghist[..], y, [b] + past)
        invariant forall k :: 0 <= k < i ==> regs[k].Valid([b] + past)
        invariant forall k :: i <= k < |regs| ==> regs[k].Valid(past)
        modifies regs
      {
        regs[i].Update(ghist, y, past, b);
        i := i + 1;
      }
      past := [b] + past;
    }
  }

  // Outcome t of those that enter is so many places from the newest; the older ones move up.
  lemma {:induction false} PushedAt(past: seq<bool>, bits: seq<bool>, i: nat)
    ensures Age(Pushed(past, bits), i) == if i < |bits| then bits[|bits| - 1 - i] else Age(past, i - |bits|)
  {
    if bits != [] && i > 0 { PushedAt(past, bits[..|bits| - 1], i - 1); }
  }

  // The history after some outcomes, the newest first.
  ghost function Pushed(past: seq<bool>, bits: seq<bool>): seq<bool> {
    if bits == [] then past else [bits[|bits| - 1]] + Pushed(past, bits[..|bits| - 1])
  }
}
