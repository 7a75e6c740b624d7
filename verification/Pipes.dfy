/**
 The pipe of os/memory-assignment/pipe.c: a ring of bytes between two counters that wrap
 around at 32 bits. A method runs from the acquiring of p->lock to its release, which is at
 the return or in sleep; any number of readers and writers take turns in any order.
 */
module Pipes {

  const PIPESIZE: nat := 512

  const WordRange: nat := 0x1_0000_0000

  type Byte = b: int | 0 <= b < 256

  function Next(n: nat): nat {
    (n + 1) % WordRange
  }

  // What a call comes to: it returns, or goes to sleep at index i of the loop.
  datatype WriteResult = Wrote | WriteFailed | WriteAsleep(i: nat)
  datatype ReadResult = Read(bytes: seq<Byte>) | ReadFailed | ReadAsleep

  // The ring between two counters holds the bytes of `queue`.
  ghost predicate Holds(data: seq<Byte>, nread: nat, nwrite: nat, accepted: seq<Byte>, delivered: seq<Byte>) {
    && |data| == PIPESIZE && |delivered| <= |accepted| <= |delivered| + PIPESIZE
    && delivered == accepted[..|delivered|]
    && nread == |delivered| % WordRange && nwrite == |accepted| % WordRange
    && forall k :: |delivered| <= k < |accepted| ==> data[k % PIPESIZE] == accepted[k]
  }

  // The code's tests for an empty and a full ring say what they should, also when a counter
  // has wrapped around.
  lemma RingTests(data: seq<Byte>, nread: nat, nwrite: nat, accepted: seq<Byte>, delivered: seq<Byte>)
    requires Holds(data, nread, nwrite, accepted, delivered)
    ensures nread == nwrite <==> |accepted| == |delivered|
    ensures nwrite == (nread + PIPESIZE) % WordRange <==> |accepted| == |delivered| + PIPESIZE
    ensures nread < WordRange && nwrite < WordRange && |data| == PIPESIZE
    ensures |delivered| <= |accepted| <= |delivered| + PIPESIZE
  {
    var d := |accepted| - |delivered|;
    Apart(|delivered|, d);
    Apart(|delivered| + d, PIPESIZE - d);
    assert (|delivered| % WordRange + PIPESIZE) % WordRange == (|delivered| + PIPESIZE) % WordRange;
  }

  lemma Apart(n: nat, d: nat)
    requires d <= PIPESIZE
    ensures (n + d) % WordRange == n % WordRange <==> d == 0
  {
  }

  lemma Pushed(data: seq<Byte>, nread: nat, nwrite: nat, accepted: seq<Byte>, delivered: seq<Byte>, b: Byte)
    requires Holds(data, nread, nwrite, accepted, delivered) && |accepted| < |delivered| + PIPESIZE
    ensures Holds(data[nwrite % PIPESIZE := b], nread, Next(nwrite), accepted + [b], delivered)
  {
    var n := |accepted|;
    Mod(n);
    forall k | |delivered| <= k < n ensures k % PIPESIZE != n % PIPESIZE { Near(k, n); }
  }

  lemma Popped(data: seq<Byte>, nread: nat, nwrite: nat, accepted: seq<Byte>, delivered: seq<Byte>)
    requires Holds(data, nread, nwrite, accepted, delivered) && |delivered| < |accepted|
    ensures data[nread % PIPESIZE] == accepted[|delivered|]
    ensures Holds(data, Next(nread), nwrite, accepted, delivered + [accepted[|delivered|]])
  {
    Mod(|delivered|);
  }

  lemma Mod(n: nat)
    ensures n % WordRange % PIPESIZE == n % PIPESIZE && Next(n % WordRange) == (n + 1) % WordRange
  {
    var q := n / WordRange;
    assert n == q * WordRange + n % WordRange;
    assert q * WordRange == (q * 8388608) * PIPESIZE;
  }

  lemma Near(k: nat, n: nat)
    requires k < n < k + PIPESIZE
    ensures k % PIPESIZE != n % PIPESIZE
  {
  }

  class Pipe {
    const data: array<Byte>
    var nread: nat
    var nwrite: nat
    var readopen: bool
    var writeopen: bool

    // All bytes taken and given so far, and who sleeps on &p->nread and &p->nwrite.
    ghost var accepted: seq<Byte>
    ghost var delivered: seq<Byte>
    ghost var readers: set<nat>
    ghost var writers: set<nat>

    // Set while readers sleep that a failing pipewrite has passed over: it returns from a full
    // ring without waking those who slept when the ring was empty.
    ghost var stranded: bool

    ghost predicate Valid()
      reads this, data
    {
      && Holds(data[..], nread, nwrite, accepted, delivered)
      && (readers != {} && !stranded ==> |accepted| == |delivered| && writeopen)
      && (writers != {} ==> |accepted| == |delivered| + PIPESIZE && readopen)
    }

    constructor ()
      ensures Valid() && fresh(data) && accepted == [] && delivered == [] && readopen && writeopen
      ensures readers == {} && writers == {} && !stranded
    {
      data := new Byte[PIPESIZE](_ => 0);
      nread, nwrite, readopen, writeopen := 0, 0, true, true;
      accepted, delivered, readers, writers, stranded := [], [], {}, {}, false;
    }

    // pipeclose
    method Close(writable: bool) returns (freed: bool)
      requires Valid()
      modifies this
      ensures Valid() && accepted == old(accepted) && delivered == old(delivered)
      ensures readopen == (old(readopen) && writable) && writeopen == (old(writeopen) && !writable)
      ensures if writable then readers == {} && writers == old(writers) else writers == {} && readers == old(readers)
      ensures freed == (!readopen && !writeopen) && stranded == (old(stranded) && !writable)
    {
      if writable {
        writeopen := false;
        readers, stranded := {}, false;
      } else {
        readopen := false;
        writers := {};
      }
      freed := !readopen && !writeopen;
    }

    // p->data[p->nwrite++ % PIPESIZE] = b
    method Put(b: Byte)
      requires Holds(data[..], nread, nwrite, accepted, delivered) && |accepted| < |delivered| + PIPESIZE
      modifies this`nwrite, this`accepted, data
      ensures Holds(data[..], nread, nwrite, accepted, delivered) && accepted == old(accepted) + [b]
    {
      hide Holds;
      assert data.Length == PIPESIZE by { RingTests(data[..], nread, nwrite, accepted, delivered); }
      Pushed(data[..], nread, nwrite, accepted, delivered, b);
      data[nwrite % PIPESIZE] := b;
      nwrite := Next(nwrite);
      accepted := accepted + [b];
    }

    // Bytes that fit into the ring before it is full.
    ghost function Room(): int
      reads this
    {
      PIPESIZE - (|accepted| - |delivered|)
    }

    // pipewrite by process `me` of the bytes addr, from index i on
    method Write(addr: seq<Byte>, i0: nat, killed: bool, ghost me: nat) returns (r: WriteResult)
      requires Valid() && i0 <= |addr| && me !in readers && me !in writers
      modifies this, data
      ensures Valid() && delivered == old(delivered) && readopen == old(readopen) && writeopen == old(writeopen)
      ensures match r
        case Wrote => accepted == old(accepted) + addr[i0..] && readers == {} && writers == old(writers)
        case WriteFailed =>
          && (killed || !readopen) && |accepted| == |delivered| + PIPESIZE && readers == old(readers)
          && writers == old(writers)
          && exists i :: i0 <= i < |addr| && accepted == old(accepted) + addr[i0..i]
        case WriteAsleep(i) =>
          && i0 <= i < |addr| && accepted == old(accepted) + addr[i0..i] && |accepted| == |delivered| + PIPESIZE
          && readers == {} && me in writers && !killed && readopen
      ensures r.Wrote? <==> |addr| - i0 <= old(Room())
      ensures r.WriteFailed? <==> (killed || !readopen) && |addr| - i0 > old(Room())
      ensures stranded == (r.WriteFailed? && (old(stranded) || (old(readers) != {} && old(Room()) > 0)))
    {
      hide Holds;
      var i := i0;
      while i < |addr|
        invariant i0 <= i <= |addr| && Writing(i > i0) && delivered == old(delivered)
        invariant accepted == old(accepted) + addr[i0..i]
        invariant readers == old(readers) && writers == old(writers) && stranded == old(stranded)
        invariant readopen == old(readopen) && writeopen == old(writeopen)
      {
        RingTests(data[..], nread, nwrite, accepted, delivered);
        if nwrite == (nread + PIPESIZE) % WordRange {
          if !readopen || killed {
            stranded := stranded || (readers != {} && i > i0);
            return WriteFailed;
          }
          readers, stranded := {}, false;
          writers := writers + {me};
          return WriteAsleep(i);
        }
        assert addr[i0..i + 1] == addr[i0..i] + [addr[i]];
        Put(addr[i]);
        i := i + 1;
      }
      RingTests(data[..], nread, nwrite, accepted, delivered);
      readers, stranded := {}, false;
      r := Wrote;
    }

    // piperead by process `me` of up to n bytes
    method Read(n: nat, killed: bool, ghost me: nat) returns (r: ReadResult)
      requires Valid() && me !in readers && me !in writers
      modifies this
      ensures Valid() && accepted == old(accepted) && readopen == old(readopen) && writeopen == old(writeopen)
      ensures match r
        case Read(bytes) =>
          && delivered == old(delivered) + bytes && writers == {} && readers == old(readers)
          && stranded == old(stranded)
          && |bytes| == (if n < |accepted| - |old(delivered)| then n else |accepted| - |old(delivered)|)
          && (n > 0 && bytes == [] ==> !writeopen && delivered == accepted)
        case ReadFailed => killed && delivered == old(delivered) && readers == old(readers) && writers == old(writers)
        case ReadAsleep =>
          && delivered == old(delivered) == accepted && writeopen && !killed && readers == old(readers) + {me}
          && stranded == old(stranded)
      ensures r.ReadFailed? <==> killed && writeopen && |accepted| == |old(delivered)|
      ensures r.ReadAsleep? <==> !killed && writeopen && |accepted| == |old(delivered)|
    {
      RingTests(data[..], nread, nwrite, accepted, delivered);
      if nread == nwrite && writeopen {
        if killed { return ReadFailed; }
        readers := readers + {me};
        return ReadAsleep;
      }
      var bytes := [];
      var i := 0;
      while i < n
        invariant 0 <= i <= n && |bytes| == i && Reading(i > 0) && delivered == old(delivered) + bytes
        invariant accepted == old(accepted) && readers == old(readers) && stranded == old(stranded)
        invariant readopen == old(readopen) && writeopen == old(writeopen)
      {
        RingTests(data[..], nread, nwrite, accepted, delivered);
        if nread == nwrite { break; }
        Popped(data[..], nread, nwrite, accepted, delivered);
        bytes := bytes + [data[nread % PIPESIZE]];
        nread := Next(nread);
        delivered := delivered + [accepted[|delivered|]];
        i := i + 1;
      }
      writers := {};
      r := ReadResult.Read(bytes);
    }

    // A sleeper is woken by kill, or finds after a wakeup that it must go on.
    ghost method Woken(me: nat)
      requires Valid()
      modifies this`readers, this`writers, this`stranded
      ensures Valid() && readers == old(readers) - {me} && writers == old(writers) - {me}
      ensures stranded == (old(stranded) && readers != {})
    {
      readers, writers := readers - {me}, writers - {me};
      stranded := stranded && readers != {};
    }

    // In pipewrite readers may sleep although bytes have come in, and in piperead writers although
    // bytes have gone out, until they are woken before the lock is released.
    ghost predicate Writing(pushed: bool)
      reads this, data
    {
      && Holds(data[..], nread, nwrite, accepted, delivered)
      && (readers != {} && !stranded ==> writeopen && (!pushed ==> |accepted| == |delivered|))
      && (writers != {} ==> |accepted| == |delivered| + PIPESIZE && readopen)
    }

    ghost predicate Reading(popped: bool)
      reads this, data
    {
      && Holds(data[..], nread, nwrite, accepted, delivered)
      && (readers != {} && !stranded ==> |accepted| == |delivered| && writeopen)
      && (writers != {} ==> readopen && (!popped ==> |accepted| == |delivered| + PIPESIZE))
    }
  }

  // A run in which a wakeup is lost: a reader sleeps on an empty pipe, and a writer that is
  // killed while it fills the pipe returns without waking it. The pipe is left full, the write
  // end may still be open in other processes, and the reader sleeps on.
  method LostWakeup() returns (p: Pipe)
    ensures p.Valid() && p.readers == {1} && p.delivered == [] && |p.accepted| == PIPESIZE && p.writeopen && p.readopen
  {
    p := new Pipe();
    var r := p.Read(1, false, 1);
    var w := p.Write(seq(PIPESIZE + 1, _ => 0), 0, true, 2);
  }
}
