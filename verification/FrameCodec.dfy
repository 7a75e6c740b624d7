/**
 The checksum and the frames of the audio network: networks/networks_lab3/generator.py, which
 sends, and recording.py, which receives. Bits are the characters '0' and '1'.
 */
module FrameCodec {

  predicate IsBits(s: string) {
    forall i :: 0 <= i < |s| ==> s[i] == '0' || s[i] == '1'
  }

  function XorChar(a: char, b: char): char {
    if a == b then '0' else '1'
  }

  function Flip(s: string, t: string): string
    requires |s| == |t|
  {
    seq(|s|, i requires 0 <= i < |s| => XorChar(s[i], t[i]))
  }

  function Zeros(n: nat): string {
    seq(n, _ => '0')
  }

  const Generator: string := "010111010111"

  // ---- Division modulo two ----

  // One step of the division: the first bit of tmp goes, and if it was 1, the divisor is taken
  // away. The first character of the divisor is not looked at.
  function Shifted(g: string, tmp: string): (r: string)
    requires 0 < |tmp| <= |g|
    ensures |r| == |tmp| - 1
  {
    if tmp[0] == '1' then Flip(g[1..|tmp|], tmp[1..]) else tmp[1..]
  }

  // The division of tmp followed by the rest of the dividend.
  function Divided(g: string, tmp: string, rest: string): (r: string)
    requires 0 < |tmp| <= |g|
    ensures |r| == |tmp| - 1
    decreases |rest|
  {
    if rest == [] then Shifted(g, tmp) else Divided(g, Shifted(g, tmp) + [rest[0]], rest[1..])
  }

  // mod2div of a nonempty dividend
  function Remainder(g: string, s: string): (r: string)
    requires s != [] && g != []
    ensures |r| == (if |s| < |g| then |s| else |g|) - 1
  {
    var k := if |s| < |g| then |s| else |g|;
    Divided(g, s[..k], s[k..])
  }

  // The generator as a polynomial: its first coefficient is 1 whatever is written there.
  function Monic(g: string): string
    requires g != []
  {
    "1" + g[1..]
  }

  lemma {:induction false} ShiftedLinear(g: string, a: string, b: string)
    requires 0 < |a| == |b| <= |g| && IsBits(g) && IsBits(a) && IsBits(b)
    ensures Shifted(g, Flip(a, b)) == Flip(Shifted(g, a), Shifted(g, b))
    ensures IsBits(Shifted(g, a)) && IsBits(Shifted(g, b))
  {
    var x, y, z := Shifted(g, Flip(a, b)), Shifted(g, a), Shifted(g, b);
    forall i | 0 <= i < |x| ensures x[i] == XorChar(y[i], z[i]) {}
  }

  // The division is linear.
  lemma {:induction false} DividedLinear(g: string, a: string, b: string, c: string, d: string)
    requires 0 < |a| == |b| <= |g| && |c| == |d| && IsBits(g) && IsBits(a) && IsBits(b) && IsBits(c) && IsBits(d)
    ensures Divided(g, Flip(a, b), Flip(c, d)) == Flip(Divided(g, a, c), Divided(g, b, d))
    decreases |c|
  {
    ShiftedLinear(g, a, b);
    if c != [] {
      var x, y := Shifted(g, a), Shifted(g, b);
      assert Flip(x + [c[0]], y + [d[0]]) == Flip(x, y) + [XorChar(c[0], d[0])];
      assert Flip(c[1..], d[1..]) == Flip(c, d)[1..];
      DividedLinear(g, x + [c[0]], y + [d[0]], c[1..], d[1..]);
    } else {
      assert Flip(c, d) == [];
    }
  }

  lemma RemainderLinear(g: string, s: string, t: string)
    requires 0 < |s| == |t| && g != [] && IsBits(g) && IsBits(s) && IsBits(t)
    ensures Remainder(g, Flip(s, t)) == Flip(Remainder(g, s), Remainder(g, t))
  {
    var k := if |s| < |g| then |s| else |g|;
    assert Flip(s, t)[..k] == Flip(s[..k], t[..k]) && Flip(s, t)[k..] == Flip(s[k..], t[k..]);
    DividedLinear(g, s[..k], t[..k], s[k..], t[k..]);
  }

  // A leading zero changes nothing.
  lemma LeadingZero(g: string, s: string)
    requires 0 < |g| <= |s| + 1
    ensures Remainder(g, "0" + s) == if |s| < |g| then s else Remainder(g, s)
  {
    var t := "0" + s;
    var k := |g|;
    assert t[..k][1..] == s[..k - 1] && t[k..] == s[k - 1..];
    assert Shifted(g, t[..k]) == s[..k - 1];
    if |s| < |g| {
      assert t[k..] == [];
    } else {
      assert s[..k - 1] + [s[k - 1]] == s[..k] && s[k - 1..][1..] == s[k..];
    }
  }

  lemma {:induction false} LeadingZeros(g: string, n: nat, s: string)
    requires g != [] && |s| + 1 == |g| && n > 0
    ensures Remainder(g, Zeros(n) + s) == s
  {
    if n == 1 {
      assert Zeros(1) == "0";
      LeadingZero(g, s);
    } else {
      assert Zeros(n) + s == "0" + (Zeros(n - 1) + s);
      LeadingZero(g, Zeros(n - 1) + s);
      LeadingZeros(g, n - 1, s);
    }
  }

  // encode_data
  function Encoded(g: string, data: string): string
    requires data != [] && g != []
  {
    data + Remainder(g, data + Zeros(|g| - 1))
  }

  lemma {:induction false} RemainderBits(g: string, tmp: string, rest: string)
    requires 0 < |tmp| <= |g| && IsBits(g) && IsBits(tmp) && IsBits(rest)
    ensures IsBits(Divided(g, tmp, rest))
    decreases |rest|
  {
    ShiftedLinear(g, tmp, tmp);
    if rest != [] { RemainderBits(g, Shifted(g, tmp) + [rest[0]], rest[1..]); }
  }

  // Every nonempty message is encoded to a codeword: its remainder is zero.
  lemma EncodedDivides(g: string, data: string)
    requires data != [] && g != [] && IsBits(g) && IsBits(data)
    ensures IsBits(Encoded(g, data)) && |Encoded(g, data)| == |data| + |g| - 1 && Encoded(g, data)[..|data|] == data
    ensures Remainder(g, Encoded(g, data)) == Zeros(|g| - 1)
  {
    var n := |g| - 1;
    var s := data + Zeros(n);
    var crc := Remainder(g, s);
    assert IsBits(Zeros(n)) && IsBits(s) && IsBits(Zeros(|data|));
    RemainderBits(g, s[..|g|], s[|g|..]);
    var t := Zeros(|data|) + crc;
    assert Flip(s, t) == data + crc;
    RemainderLinear(g, s, t);
    LeadingZeros(g, |data|, crc);
    assert Flip(crc, crc) == Zeros(n);
  }

  // ---- What the remainder means ----

  // Multiplication of polynomials over two elements, highest coefficient first.
  function Times(q: string, p: string): (r: string)
    requires p != []
    ensures |r| == |q| + |p| - 1
  {
    if q == [] then Zeros(|p| - 1)
    else Flip((if q[0] == '1' then p else Zeros(|p|)) + Zeros(|q| - 1), "0" + Times(q[1..], p))
  }

  ghost function Quotient(g: string, tmp: string, rest: string): (q: string)
    requires 0 < |tmp| <= |g|
    ensures |q| == |rest| + 1
    decreases |rest|
  {
    [tmp[0]] + if rest == [] then [] else Quotient(g, Shifted(g, tmp) + [rest[0]], rest[1..])
  }

  lemma {:induction false} TimesBits(q: string, p: string)
    requires p != [] && IsBits(p)
    ensures IsBits(Times(q, p))
  {
  }

  // What one step takes away.
  lemma StepTakes(g: string, tmp: string, rest: string)
    requires 0 < |tmp| == |g| && IsBits(g) && IsBits(tmp) && IsBits(rest)
    ensures tmp + rest == Flip(Head(g, tmp, |rest|), "0" + (Shifted(g, tmp) + rest))
  {
    var x := Head(g, tmp, |rest|);
    var y := "0" + (Shifted(g, tmp) + rest);
    var z := Flip(x, y);
    var w := tmp + rest;
    assert |z| == |w|;
    forall i | 0 <= i < |z| ensures z[i] == w[i] {
      StepTakesAt(g, tmp, rest, i);
    }
    assert z == w;
  }

  lemma StepTakesAt(g: string, tmp: string, rest: string, i: nat)
    requires 0 < |tmp| == |g| && IsBits(g) && IsBits(tmp) && IsBits(rest) && i < |g| + |rest|
    ensures Flip(Head(g, tmp, |rest|), "0" + (Shifted(g, tmp) + rest))[i] == (tmp + rest)[i]
  {
    var x, y := Head(g, tmp, |rest|), "0" + (Shifted(g, tmp) + rest);
    if i == 0 {
    } else if i < |g| {
      assert y[i] == Shifted(g, tmp)[i - 1];
    } else {
      assert y[i] == rest[i - |g|] && x[i] == '0';
    }
  }

  ghost function Head(g: string, tmp: string, n: nat): (h: string)
    requires 0 < |tmp| == |g|
    ensures |h| == |g| + n
  {
    (if tmp[0] == '1' then Monic(g) else Zeros(|g|)) + Zeros(n)
  }

  lemma FlipZero(a: string, b: string)
    requires |a| == |b|
    ensures "0" + Flip(a, b) == Flip("0" + a, "0" + b)
  {
  }

  lemma ZerosMore(n: nat, s: string)
    ensures "0" + (Zeros(n) + s) == Zeros(n + 1) + s && IsBits(Zeros(n))
  {
  }

  lemma BitsConcat(s: string, t: string)
    requires IsBits(s) && IsBits(t)
    ensures IsBits(s + t)
  {
  }

  lemma HeadBits(g: string, tmp: string, n: nat)
    requires 0 < |tmp| == |g| && IsBits(g)
    ensures IsBits(Head(g, tmp, n)) && IsBits(Monic(g)) && |Monic(g)| == |g|
  {
  }

  lemma TimesStep(q: string, g: string, tmp: string)
    requires q != [] && 0 < |tmp| == |g| && q[0] == tmp[0]
    ensures |Monic(g)| == |g| && Times(q, Monic(g)) == Flip(Head(g, tmp, |q| - 1), "0" + Times(q[1..], Monic(g)))
  {
  }

  // One step of the identity, from what is left after it.
  lemma IdentityStep(g: string, tmp: string, rest: string, q: string, t: string, r: string)
    requires 0 < |tmp| == |g| && IsBits(g) && IsBits(tmp) && IsBits(rest) && IsBits(r) && IsBits(t) && |r| == |g| - 1
    requires |q| == |rest| + 1 && q[0] == tmp[0] && |Monic(g)| == |g| && t == Times(q[1..], Monic(g))
    requires Shifted(g, tmp) + rest == Flip(t, Zeros(|rest|) + r)
    ensures tmp + rest == Flip(Times(q, Monic(g)), Zeros(|rest| + 1) + r)
  {
    var z, head := Zeros(|rest|) + r, Head(g, tmp, |rest|);
    StepTakes(g, tmp, rest);
    HeadBits(g, tmp, |rest|);
    TimesStep(q, g, tmp);
    ZeroBits();
    hide Times, Flip, Shifted, IsBits, Head, Monic, Zeros;
    ZerosMore(|rest|, r);
    BitsConcat(Zeros(|rest|), r);
    FlipZero(t, z);
    BitsConcat("0", t);
    BitsConcat("0", z);
    FlipThree(head, "0" + t, "0" + z);
  }

  // Dividend = quotient times divisor plus remainder.
  lemma {:induction false} DivisionIdentity(g: string, tmp: string, rest: string)
    requires 0 < |tmp| == |g| && IsBits(g) && IsBits(tmp) && IsBits(rest)
    ensures |Monic(g)| == |g|
    ensures tmp + rest == Flip(Times(Quotient(g, tmp, rest), Monic(g)), Zeros(|rest| + 1) + Divided(g, tmp, rest))
    decreases |rest|
  {
    var q, r := Quotient(g, tmp, rest), Divided(g, tmp, rest);
    var sh := Shifted(g, tmp);
    ShiftedLinear(g, tmp, tmp);
    HeadBits(g, tmp, 0);
    TimesBits(q[1..], Monic(g));
    RemainderBits(g, tmp, rest);
    var t := Times(q[1..], Monic(g));
    hide Times, Flip, Shifted, IsBits, Monic, Zeros;
    if rest == [] {
      assert q[1..] == [];
      LastStep(Monic(g), sh, t, Zeros(0) + r);
    } else {
      var next := sh + [rest[0]];
      NextBits(sh, rest);
      DivisionIdentity(g, next, rest[1..]);
      assert q[1..] == Quotient(g, next, rest[1..]);
      assert next + rest[1..] == sh + rest;
    }
    IdentityStep(g, tmp, rest, q, t, r);
  }

  lemma ZeroBits()
    ensures IsBits("0")
  {
  }

  lemma NextBits(s: string, rest: string)
    requires rest != [] && IsBits(s) && IsBits(rest)
    ensures IsBits(s + [rest[0]]) && IsBits(rest[1..])
  {
  }

  lemma LastStep(p: string, r: string, t: string, z: string)
    requires p != [] && |r| == |p| - 1 && IsBits(r) && t == Times([], p) && z == Zeros(0) + r
    ensures |t| == |z| && r + [] == Flip(t, z)
  {
    var x := Flip(t, z);
    forall i | 0 <= i < |r| ensures x[i] == r[i] {}
  }

  lemma FlipThree(a: string, b: string, c: string)
    requires |a| == |b| == |c| && IsBits(a) && IsBits(b) && IsBits(c)
    ensures Flip(a, Flip(b, c)) == Flip(Flip(a, b), c)
  {
  }

  lemma FlipZeros(s: string)
    requires IsBits(s)
    ensures Flip(s, Zeros(|s|)) == s && Flip(Zeros(|s|), s) == s && Flip(s, s) == Zeros(|s|)
  {
    assert Flip(s, Zeros(|s|)) == s;
    assert Flip(Zeros(|s|), s) == s;
    assert Flip(s, s) == Zeros(|s|);
  }

  lemma {:induction false} AllZeros(g: string, n: nat)
    requires g != [] && n >= |g|
    ensures Remainder(g, Zeros(n)) == Zeros(|g| - 1)
  {
    var k := |g| - 1;
    assert Zeros(n) == Zeros(n - k) + Zeros(k);
    LeadingZeros(g, n - k, Zeros(k));
  }

  // The divisor itself, moved up by n places.
  lemma {:induction false} DivisorDivides(g: string, n: nat)
    requires g != [] && IsBits(g)
    ensures |Monic(g)| == |g| && Remainder(g, Monic(g) + Zeros(n)) == Zeros(|g| - 1)
  {
    var s := Monic(g) + Zeros(n);
    var k := |g|;
    assert s[..k] == Monic(g) && s[k..] == Zeros(n) && s[..k][1..] == g[1..k];
    FlipZeros(g[1..]);
    assert Shifted(g, s[..k]) == Zeros(k - 1);
    ZerosOnly(g, n);
  }

  lemma {:induction false} ZerosOnly(g: string, n: nat)
    requires g != []
    ensures forall tmp: string :: 0 < |tmp| == |g| && Shifted(g, tmp) == Zeros(|g| - 1) ==>
      Divided(g, tmp, Zeros(n)) == Zeros(|g| - 1)
  {
    forall tmp: string | 0 < |tmp| == |g| && Shifted(g, tmp) == Zeros(|g| - 1)
      ensures Divided(g, tmp, Zeros(n)) == Zeros(|g| - 1) {
      if n > 0 {
        ZerosOnly(g, n - 1);
        assert Zeros(n)[1..] == Zeros(n - 1);
        var next := Shifted(g, tmp) + [Zeros(n)[0]];
        assert next == Zeros(|g|);
        assert Shifted(g, next) == Zeros(|g| - 1);
      }
    }
  }

  lemma TailBits(s: string)
    requires s != [] && IsBits(s)
    ensures IsBits(s[1..])
  {
  }

  lemma TimesNone(p: string)
    requires p != []
    ensures Times([], p) == Zeros(|p| - 1)
  {
  }

  // Multiples of the divisor leave nothing.
  lemma {:induction false} TimesDivides(g: string, q: string)
    requires g != [] && q != [] && IsBits(g) && IsBits(q)
    ensures |Times(q, Monic(g))| == |q| + |g| - 1 && Remainder(g, Times(q, Monic(g))) == Zeros(|g| - 1)
  {
    var p := Monic(g);
    var n := |q| - 1;
    var x := (if q[0] == '1' then p else Zeros(|g|)) + Zeros(n);
    var y := "0" + Times(q[1..], p);
    assert IsBits(p);
    TimesBits(q[1..], p);
    assert IsBits(x) && IsBits(y);
    assert Times(q, p) == Flip(x, y);
    hide Times, Flip, IsBits, Divided;
    RemainderLinear(g, x, y);
    if q[0] == '1' {
      DivisorDivides(g, n);
    } else {
      assert x == Zeros(|g| + n);
      AllZeros(g, |g| + n);
    }
    LeadingZero(g, Times(q[1..], p));
    if q[1..] != [] {
      assert IsBits(q[1..]) by { TailBits(q); }
      TimesDivides(g, q[1..]);
    } else {
      assert Times(q[1..], p) == Zeros(|g| - 1) by { TimesNone(p); }
    }
    assert IsBits(Zeros(|g| - 1)) by { ZerosMore(|g| - 1, []); }
    FlipZeros(Zeros(|g| - 1));
  }

  lemma ZeroIsMultiple(g: string, s: string) returns (q: string)
    requires g != [] && |s| >= |g| && IsBits(g) && IsBits(s) && Remainder(g, s) == Zeros(|g| - 1)
    ensures q != [] && IsBits(q) && s == Times(q, Monic(g))
  {
    var tmp, rest := s[..|g|], s[|g|..];
    q := Quotient(g, tmp, rest);
    DivisionIdentity(g, tmp, rest);
    QuotientBits(g, tmp, rest);
    assert IsBits(Monic(g));
    TimesBits(q, Monic(g));
    hide Times, Quotient, Flip, IsBits;
    assert s == tmp + rest;
    var t := Times(q, Monic(g));
    assert Zeros(|rest| + 1) + Zeros(|g| - 1) == Zeros(|t|);
    FlipZeros(t);
  }

  // The remainder is zero exactly for the multiples of the divisor. For a received frame this
  // says which errors go unseen, since a sent frame is a multiple itself.
  lemma RemainderZeroIff(g: string, s: string)
    requires g != [] && |s| >= |g| && IsBits(g) && IsBits(s)
    ensures Remainder(g, s) == Zeros(|g| - 1)
      <==> exists q: string :: q != [] && IsBits(q) && s == Times(q, Monic(g))
  {
    if exists q: string :: q != [] && IsBits(q) && s == Times(q, Monic(g)) {
      var q: string :| q != [] && IsBits(q) && s == Times(q, Monic(g));
      TimesDivides(g, q);
    } else if Remainder(g, s) == Zeros(|g| - 1) {
      var q := ZeroIsMultiple(g, s);
    }
  }

  lemma {:induction false} QuotientBits(g: string, tmp: string, rest: string)
    requires 0 < |tmp| <= |g| && IsBits(g) && IsBits(tmp) && IsBits(rest)
    ensures IsBits(Quotient(g, tmp, rest))
    decreases |rest|
  {
    ShiftedLinear(g, tmp, tmp);
    if rest != [] { QuotientBits(g, Shifted(g, tmp) + [rest[0]], rest[1..]); }
  }

  // One more bit is one more step.
  lemma {:induction false} OneMore(g: string, tmp: string, rest: string, c: char)
    requires 0 < |tmp| == |g|
    ensures Divided(g, tmp, rest + [c]) == Shifted(g, Divided(g, tmp, rest) + [c])
    decreases |rest|
  {
    if rest == [] {
      assert [] + [c] == [c] && [c][1..] == [];
    } else {
      assert (rest + [c])[1..] == rest[1..] + [c];
      OneMore(g, Shifted(g, tmp) + [rest[0]], rest[1..], c);
    }
  }

  ghost predicate Nonzero(s: string) {
    exists i :: 0 <= i < |s| && s[i] == '1'
  }

  // A step with a zero does not lose what is there, as the divisor ends in 1.
  lemma StepKeeps(g: string, r: string)
    requires |g| > 1 && |r| == |g| - 1 && IsBits(r) && IsBits(g) && g[|g| - 1] == '1' && Nonzero(r)
    ensures Nonzero(Shifted(g, r + "0"))
  {
    var x := Shifted(g, r + "0");
    if r[0] == '1' {
      assert x[|x| - 1] == XorChar(g[|g| - 1], '0') == '1';
    } else {
      var i :| 0 <= i < |r| && r[i] == '1';
      assert x[i - 1] == '1';
    }
  }

  lemma LongerSeen(g: string, f: string)
    requires |g| > 1 && IsBits(g) && g[|g| - 1] == '1' && IsBits(f) && |f| >= |g| && Nonzero(Remainder(g, f))
    ensures Nonzero(Remainder(g, f + "0"))
  {
    var e := f + "0";
    assert e[..|g|] == f[..|g|] && e[|g|..] == f[|g|..] + "0";
    OneMore(g, f[..|g|], f[|g|..], '0');
    RemainderBits(g, f[..|g|], f[|g|..]);
    StepKeeps(g, Remainder(g, f));
  }

  // A burst of at most as many bits as the checksum has always shows.
  lemma {:induction false} BurstSeen(g: string, i: nat, burst: string, j: nat)
    requires |g| > 1 && IsBits(g) && g[|g| - 1] == '1'
    requires IsBits(burst) && Nonzero(burst) && |burst| < |g| <= i + |burst| + j
    ensures Nonzero(Remainder(g, Zeros(i) + burst + Zeros(j)))
    decreases j
  {
    var e := Zeros(i) + burst + Zeros(j);
    var n := |g| - 1;
    if j == 0 {
      var k := |e| - n;
      assert e == Zeros(k) + (Zeros(n - |burst|) + burst);
      LeadingZeros(g, k, Zeros(n - |burst|) + burst);
      NonzeroIn(Zeros(n - |burst|), burst, []);
      assert Zeros(n - |burst|) + burst + [] == Zeros(n - |burst|) + burst;
    } else {
      var f := Zeros(i) + burst + Zeros(j - 1);
      assert e == f + "0" && IsBits(f);
      if |f| == n {
        assert e[..|g|] == e && e[|g|..] == [];
        NonzeroIn(Zeros(i), burst, Zeros(j - 1));
        StepKeeps(g, f);
      } else {
        BurstSeen(g, i, burst, j - 1);
        LongerSeen(g, f);
      }
    }
  }

  lemma NonzeroIn(a: string, s: string, b: string)
    requires Nonzero(s)
    ensures Nonzero(a + s + b)
  {
    var i :| 0 <= i < |s| && s[i] == '1';
    assert (a + s + b)[|a| + i] == '1';
  }

  // So a codeword hit by such a burst is not taken for a codeword.
  lemma BurstDetected(data: string, i: nat, burst: string, j: nat)
    requires data != [] && IsBits(data) && IsBits(burst) && Nonzero(burst) && |burst| <= 11
    requires i + |burst| + j == |Encoded(Generator, data)|
    ensures Remainder(Generator, Flip(Encoded(Generator, data), Zeros(i) + burst + Zeros(j))) != Zeros(11)
  {
    var w, e := Encoded(Generator, data), Zeros(i) + burst + Zeros(j);
    EncodedDivides(Generator, data);
    assert IsBits(e);
    RemainderLinear(Generator, w, e);
    BurstSeen(Generator, i, burst, j);
    RemainderBits(Generator, e[..12], e[12..]);
    FlipZeros(Remainder(Generator, e));
  }

  // ---- The code of the division ----

  datatype Result<T> = Ok(value: T) | IndexError

  // xor: from the second character on
  method XorTail(a: string, b: string) returns (r: string)
    requires 0 < |b| <= |a|
    ensures r == Flip(a[1..|b|], b[1..])
  {
    r := "";
    var i := 1;
    while i < |b|
      invariant 1 <= i <= |b| && r == Flip(a[1..i], b[1..i])
    {
      r := r + [XorChar(a[i], b[i])];
      i := i + 1;
    }
    assert b[1..i] == b[1..];
  }

  method Mod2Div(dividend: string, divisor: string) returns (r: Result<string>)
    requires divisor != [] && IsBits(dividend) && IsBits(divisor)
    ensures r == if dividend == [] then IndexError else Ok(Remainder(divisor, dividend))
  {
    var pick := |divisor|;
    var tmp := if pick <= |dividend| then dividend[0..pick] else dividend;
    if tmp == [] { return IndexError; }
    assert |divisor| <= |dividend| ==> dividend[0..pick] == dividend[..pick];
    while pick < |dividend|
      invariant |divisor| <= pick && 0 < |tmp| <= |divisor| && IsBits(tmp)
      invariant if |divisor| <= |dividend| then pick <= |dividend| else tmp == dividend
      invariant pick <= |dividend| ==>
        |tmp| == |divisor| && Remainder(divisor, dividend) == Divided(divisor, tmp, dividend[pick..])
    {
      var next := TakeAway(divisor, tmp, pick);
      assert dividend[pick..][1..] == dividend[pick + 1..];
      tmp := next + [dividend[pick]];
      pick := pick + 1;
    }
    if |dividend| < |divisor| {
      assert dividend[..|dividend|] == dividend && dividend[|dividend|..] == [];
    } else {
      assert dividend[pick..] == [];
    }
    var last := TakeAway(divisor, tmp, pick);
    r := Ok(last);
  }

  // The test on the first bit, and the xor with the divisor or with zeros.
  method TakeAway(divisor: string, tmp: string, pick: nat) returns (r: string)
    requires 0 < |tmp| <= |divisor| <= pick && IsBits(tmp) && IsBits(divisor)
    ensures r == Shifted(divisor, tmp) && IsBits(r)
  {
    if tmp[0] == '1' {
      r := XorTail(divisor, tmp);
    } else {
      r := XorTail(Zeros(pick), tmp);
      assert Zeros(pick)[1..|tmp|] == Zeros(|tmp| - 1);
      FlipZeros(tmp[1..]);
    }
    ShiftedLinear(divisor, tmp, tmp);
  }

  method EncodeData(data: string) returns (r: string)
    requires data != [] && IsBits(data)
    ensures r == Encoded(Generator, data)
  {
    var remainder := Mod2Div(data + Zeros(|Generator| - 1), Generator);
    r := data + remainder.value;
  }

  // ---- Numbers as bits ----

  function Bit(c: char): nat {
    if c == '1' then 1 else 0
  }

  function Value(s: string): nat {
    if s == [] then 0 else 2 * Value(s[..|s| - 1]) + Bit(s[|s| - 1])
  }

  function Power2(n: nat): nat {
    if n == 0 then 1 else 2 * Power2(n - 1)
  }

  function Digits(n: nat): string {
    if n == 0 then "" else Digits(n / 2) + [if n % 2 == 0 then '0' else '1']
  }

  // decTobitstring: n in binary, filled with zeros to k places - or more places, if n needs them
  function Binary(n: nat, k: nat): string {
    Zeros(if |Digits(n)| < k then k - |Digits(n)| else 0) + Digits(n)
  }

  function Reversed(s: string): string {
    if s == [] then [] else [s[|s| - 1]] + Reversed(s[..|s| - 1])
  }

  method DecToBitstring(n0: nat, noOfBits: nat) returns (s: string)
    ensures s == Binary(n0, noOfBits)
  {
    s := "";
    var n := n0;
    while n > 0
      invariant Digits(n0) == Digits(n) + Reversed(s)
    {
      if n % 2 == 0 { s := s + "0"; } else { s := s + "1"; }
      assert s[..|s| - 1] + [s[|s| - 1]] == s;
      n := n / 2;
    }
    ReversedLength(s);
    var length := |s|;
    var fill := Zeros(if noOfBits > length then noOfBits - length else 0);
    ReversedFill(s, |fill|);
    s := Reversed(s + fill);
  }

  lemma {:induction false} ReversedLength(s: string)
    ensures |Reversed(s)| == |s|
  {
    if s != [] { ReversedLength(s[..|s| - 1]); }
  }

  lemma {:induction false} ReversedFill(s: string, k: nat)
    ensures Reversed(s + Zeros(k)) == Zeros(k) + Reversed(s)
  {
    if k == 0 {
      assert s + Zeros(0) == s;
    } else {
      var t := s + Zeros(k);
      assert t[..|t| - 1] == s + Zeros(k - 1) && t[|t| - 1] == '0';
      ReversedFill(s, k - 1);
      assert "0" + (Zeros(k - 1) + Reversed(s)) == Zeros(k) + Reversed(s);
    }
  }

  lemma {:induction false} ReversedAt(s: string, i: nat)
    requires i < |s|
    ensures |Reversed(s)| == |s| && Reversed(s)[i] == s[|s| - 1 - i]
  {
    ReversedLength(s);
    if i > 0 { ReversedAt(s[..|s| - 1], i - 1); }
  }

  // strToDec: the value of the last nbits characters
  method StrToDec(s: string, nbits: nat) returns (r: Result<nat>)
    ensures r == if nbits <= |s| then Ok(Value(s[|s| - nbits..])) else IndexError
  {
    var ans := 0;
    var t := Reversed(s);
    ReversedLength(s);
    var i := 0;
    while i < nbits
      invariant 0 <= i <= nbits && i <= |s| && ans == Value(s[|s| - i..])
    {
      if i >= |t| { return IndexError; }
      ReversedAt(s, i);
      FrontBit(s[|s| - (i + 1)..]);
      assert s[|s| - (i + 1)..][1..] == s[|s| - i..];
      if t[i] == '1' { ans := ans + Power2(i); }
      i := i + 1;
    }
    r := Ok(ans);
  }

  lemma {:induction false} FrontBit(s: string)
    requires s != []
    ensures Value(s) == Bit(s[0]) * Power2(|s| - 1) + Value(s[1..])
  {
    if |s| > 1 {
      FrontBit(s[..|s| - 1]);
      assert s[..|s| - 1][1..] == s[1..][..|s| - 2];
    } else {
      assert s[..0] == [];
    }
  }

  lemma {:induction false} ValueBound(s: string)
    ensures Value(s) < Power2(|s|)
  {
    if s != [] { ValueBound(s[..|s| - 1]); }
  }

  lemma {:induction false} DigitsValue(n: nat)
    ensures Value(Digits(n)) == n && IsBits(Digits(n)) && (n > 0 ==> Digits(n) != [] && Digits(n)[0] == '1')
  {
    if n > 0 {
      DigitsValue(n / 2);
      assert Digits(n)[..|Digits(n)| - 1] == Digits(n / 2);
    }
  }

  lemma {:induction false} PowerPositive(n: nat)
    ensures Power2(n) > 0
  {
    if n > 0 { PowerPositive(n - 1); }
  }

  lemma {:induction false} DigitsFit(n: nat, k: nat)
    ensures n < Power2(k) <==> |Digits(n)| <= k
  {
    PowerPositive(k);
    DigitsValue(n);
    if n > 0 && k > 0 { DigitsFit(n / 2, k - 1); }
  }

  lemma {:induction false} ValueZeros(k: nat, s: string)
    ensures Value(Zeros(k) + s) == Value(s)
  {
    if s == [] {
      if k > 0 {
        ValueZeros(k - 1, []);
        assert (Zeros(k) + s)[..k - 1] == Zeros(k - 1) + [];
      }
    } else {
      ValueZeros(k, s[..|s| - 1]);
      assert (Zeros(k) + s)[..k + |s| - 1] == Zeros(k) + s[..|s| - 1];
    }
  }

  // A number that fits is k characters long and has that value; one that does not is longer.
  lemma BinaryValue(n: nat, k: nat)
    ensures Value(Binary(n, k)) == n && IsBits(Binary(n, k)) && |Binary(n, k)| >= k
    ensures |Binary(n, k)| == k <==> n < Power2(k)
  {
    DigitsValue(n);
    DigitsFit(n, k);
    ValueZeros(if |Digits(n)| < k then k - |Digits(n)| else 0, Digits(n));
  }

  // ---- Frames ----

  const Preamble: string := "10101010101010101111"

  const Sync: string := "10101111"

  // addPreamble
  function Frame(bits: string, sender: nat, dest: nat): string {
    Preamble + Binary(|bits| + 4, 5) + Binary(sender, 2) + Binary(dest, 2) + bits
  }

  method AddPreamble(bits: string, sender: nat, dest: nat) returns (r: string)
    ensures r == Frame(bits, sender, dest)
  {
    var len := DecToBitstring(|bits| + 4, 5);
    var from := DecToBitstring(sender, 2);
    var to := DecToBitstring(dest, 2);
    r := Preamble + len + from + to + bits;
  }

  // A separator before each bit, and one at the end.
  function Spaced(s: string): string {
    if s == [] then [] else Spaced(s[..|s| - 1]) + ['x', s[|s| - 1]]
  }

  // On the line every second character, the last one included, is a separator.
  lemma {:induction false} SpacedAt(s: string, i: nat)
    ensures |Spaced(s)| == 2 * |s|
    ensures i < |s| ==> Spaced(s)[2 * i] == 'x' && Spaced(s)[2 * i + 1] == s[i]
  {
    if s != [] { SpacedAt(s[..|s| - 1], i); }
  }

  method ConvertMessage(message: string) returns (r: string)
    ensures r == Spaced(message) + "x"
  {
    r := "";
    var i := 0;
    while i < |message|
      invariant 0 <= i <= |message| && r == Spaced(message[..i])
    {
      r := r + ['x', message[i]];
      assert message[..i + 1][..i] == message[..i];
      i := i + 1;
    }
    assert message[..i] == message;
    r := r + "x";
  }

  // strip_and_remove_x: what is left without the separators
  function Cleaned(s: string): string {
    if s == [] then [] else Cleaned(s[..|s| - 1]) + if s[|s| - 1] == 'x' then [] else [s[|s| - 1]]
  }

  lemma {:induction false} CleanedSpaced(s: string)
    requires IsBits(s)
    ensures Cleaned(Spaced(s) + "x") == s
  {
    var t := Spaced(s) + "x";
    assert t[..|t| - 1] == Spaced(s);
    if s != [] {
      var front, c := s[..|s| - 1], s[|s| - 1];
      CleanedSpaced(front);
      var u := Spaced(s);
      assert u[..|u| - 1] == Spaced(front) + "x";
      assert s == front + [c];
    }
  }

  // Where the end of the preamble is found from place i on, or the length of the message.
  function SyncFrom(s: string, i: nat): (r: nat)
    requires i <= |s|
    ensures i <= r <= |s|
    decreases |s| - i
  {
    if i == |s| || SyncAt(s, i) then i else SyncFrom(s, i + 1)
  }

  predicate SyncAt(s: string, i: nat) {
    i + 8 <= |s| && s[i..i + 8] == Sync
  }

  // A slice, as Python takes it when the bounds are beyond the end or out of order.
  function Slice(s: string, a: nat, b: nat): string {
    var end := if b < |s| then b else |s|;
    if a < end then s[a..end] else ""
  }

  lemma SliceBits(s: string, a: nat, b: nat)
    requires IsBits(s)
    ensures IsBits(Slice(s, a, b)) && |Slice(s, a, b)| <= if b > a then b - a else 0
  {
  }

  datatype Info = Info(isMyMsg: bool, collision: bool, lenBits: string, lenMsg: int, sender: string, receiver: string,
      sentMsg: string)

  // getInfo on a message without separators
  function InfoOf(s: string, mac: nat): Result<Info>
    requires IsBits(s)
  {
    var i := SyncFrom(s, 0);
    var lenBits, receiver := Slice(s, i + 8, i + 13), Slice(s, i + 15, i + 17);
    if |lenBits| < 5 then IndexError
    else
      var len := Value(lenBits) - 4;
      var msg := Slice(s, i + 17, i + 17 + len);
      if |receiver| < 2 || msg == [] then IndexError
      else
        SliceBits(s, i + 17, i + 17 + len);
        Ok(Info(Value(receiver) == mac, Remainder(Generator, msg) != Zeros(11), lenBits, len, Slice(s, i + 13, i + 15),
            receiver, msg))
  }

  lemma SyncSlice(s: string, i: nat)
    requires i < |s|
    ensures Slice(s, i, i + 8) == Sync <==> SyncAt(s, i)
  {
    if !SyncAt(s, i) && i + 8 > |s| { assert |Slice(s, i, i + 8)| < 8; }
  }

  lemma GeneratorBits()
    ensures IsBits(Generator) && |Generator| == 12
  {
  }

  method GetInfo(received: string, mac: nat) returns (r: Result<Info>)
    requires IsBits(Cleaned(received))
    ensures r == InfoOf(Cleaned(received), mac)
  {
    hide Value, Remainder, Power2, Slice, IsBits;
    var s := Cleaned(received);
    var n := |s|;
    var i := 0;
    while i < n
      invariant 0 <= i <= n && SyncFrom(s, 0) == SyncFrom(s, i)
    {
      SyncSlice(s, i);
      if Slice(s, i, i + 8) == Sync { break; }
      i := i + 1;
    }
    assert i == SyncFrom(s, 0);
    SliceBits(s, i + 8, i + 13);
    SliceBits(s, i + 15, i + 17);
    var lenBits := Slice(s, i + 8, i + 13);
    var len := StrToDec(lenBits, 5);
    if len.IndexError? { return IndexError; }
    assert lenBits[|lenBits| - 5..] == lenBits;
    var lengthOfMessage := len.value - 4;
    var sender := Slice(s, i + 13, i + 15);
    var receiver := Slice(s, i + 15, i + 17);
    var msg := Slice(s, i + 17, i + 17 + lengthOfMessage);
    var to := StrToDec(receiver, 2);
    if to.IndexError? { return IndexError; }
    assert receiver[|receiver| - 2..] == receiver;
    SliceBits(s, i + 17, i + 17 + lengthOfMessage);
    GeneratorBits();
    var remainder := Mod2Div(msg, Generator);
    if remainder.IndexError? { return IndexError; }
    r := Ok(Info(to.value == mac, remainder.value != Zeros(|Generator| - 1), lenBits, lengthOfMessage, sender,
        receiver, msg));
  }

  // The end of the preamble is found where it is.
  lemma SyncFound(rest: string)
    ensures SyncFrom(Preamble + rest, 0) == 12
  {
    var s := Preamble + rest;
    forall i: nat | i < 12 ensures !SyncAt(s, i) {
      if i % 2 == 1 { assert s[i..i + 8][0] == s[i] == '0'; }
      else if i == 10 { assert s[i..i + 8][5] == s[15] == '0'; }
      else { assert s[i..i + 8][5] == s[i + 5] == '0'; }
    }
    assert s[12..20] == Sync && SyncAt(s, 12);
    SyncReached(s, 12);
  }

  lemma {:induction false} SyncReached(s: string, i: nat)
    requires SyncAt(s, i) && forall k: nat :: k < i ==> !SyncAt(s, k)
    ensures SyncFrom(s, 0) == i
  {
    SyncSkips(s, 0, i);
  }

  lemma {:induction false} SyncSkips(s: string, j: nat, i: nat)
    requires j <= i && SyncAt(s, i) && forall k: nat :: j <= k < i ==> !SyncAt(s, k)
    ensures SyncFrom(s, j) == i
    decreases i - j
  {
    if j < i { SyncSkips(s, j + 1, i); }
  }

  ghost predicate Recovered(r: Result<Info>, bits: string, sender: nat, dest: nat) {
    r.Ok? && r.value.sentMsg == bits && Value(r.value.sender) == sender && Value(r.value.receiver) == dest
  }

  lemma FrameBits(bits: string, sender: nat, dest: nat)
    requires IsBits(bits)
    ensures IsBits(Frame(bits, sender, dest))
  {
    BinaryValue(|bits| + 4, 5);
    BinaryValue(sender, 2);
    BinaryValue(dest, 2);
  }

  // Fields of the right size are where the receiver looks for them.
  lemma FieldsFit(bits: string, sender: nat, dest: nat)
    requires |bits| + 4 < 32 && sender < 4 && dest < 4
    ensures var s := Frame(bits, sender, dest);
      && SyncFrom(s, 0) == 12 && Slice(s, 20, 25) == Binary(|bits| + 4, 5) && Slice(s, 25, 27) == Binary(sender, 2)
      && Slice(s, 27, 29) == Binary(dest, 2) && Slice(s, 29, 29 + |bits|) == bits
  {
    var a, b, c := Binary(|bits| + 4, 5), Binary(sender, 2), Binary(dest, 2);
    assert Power2(5) == 32 && Power2(2) == 4;
    BinaryValue(|bits| + 4, 5);
    BinaryValue(sender, 2);
    BinaryValue(dest, 2);
    assert Frame(bits, sender, dest) == Preamble + a + b + c + bits;
    hide Binary, Value, Power2, Frame, IsBits;
    Cut(Preamble, a, b, c, bits);
    assert Preamble + a + b + c + bits == Preamble + (a + b + c + bits);
    SyncFound(a + b + c + bits);
  }

  // The frame, field by field: a preamble of alternating bits with its end, the length of the
  // payload and the addresses, the sender, the destination, and the payload.
  lemma FrameLayout(bits: string, sender: nat, dest: nat)
    requires |bits| + 4 < 32 && sender < 4 && dest < 4
    ensures var s := Frame(bits, sender, dest);
      && |s| == 29 + |bits| && (forall i | 0 <= i < 20 :: s[i] == if i % 2 == 0 || i > 15 then '1' else '0')
      && Value(s[20..25]) == |bits| + 4 && Value(s[25..27]) == sender && Value(s[27..29]) == dest && s[29..] == bits
  {
    var a, b, c := Binary(|bits| + 4, 5), Binary(sender, 2), Binary(dest, 2);
    var s := Frame(bits, sender, dest);
    assert Power2(5) == 32 && Power2(2) == 4;
    BinaryValue(|bits| + 4, 5);
    BinaryValue(sender, 2);
    BinaryValue(dest, 2);
    assert s == Preamble + a + b + c + bits;
    hide Binary, Value, Power2, Frame;
    Cut(Preamble, a, b, c, bits);
    Alternating(a + b + c + bits);
    assert Preamble + a + b + c + bits == Preamble + (a + b + c + bits);
  }

  lemma Alternating(rest: string)
    ensures forall i | 0 <= i < 20 :: (Preamble + rest)[i] == if i % 2 == 0 || i > 15 then '1' else '0'
  {
  }

  lemma Cut(p: string, a: string, b: string, c: string, d: string)
    requires |p| == 20 && |a| == 5 && |b| == 2 && |c| == 2
    ensures var s := p + a + b + c + d;
      Slice(s, 20, 25) == a && Slice(s, 25, 27) == b && Slice(s, 27, 29) == c && Slice(s, 29, 29 + |d|) == d
  {
    var s := p + a + b + c + d;
    assert |s| == 29 + |d|;
    assert s[20..25] == a;
    assert s[25..27] == b;
    assert s[27..29] == c;
    assert s[29..] == d;
  }

  lemma RoundTrip(bits: string, sender: nat, dest: nat, mac: nat)
    requires bits != [] && IsBits(bits) && |bits| + 4 < 32 && sender < 4 && dest < 4
    ensures var s := Frame(bits, sender, dest);
      && IsBits(s) && Recovered(InfoOf(s, mac), bits, sender, dest) && InfoOf(s, mac).value.isMyMsg == (dest == mac)
      && InfoOf(s, mac).value.collision == (Remainder(Generator, bits) != Zeros(11))
  {
    FrameBits(bits, sender, dest);
    FieldsFit(bits, sender, dest);
    BinaryValue(|bits| + 4, 5);
    BinaryValue(sender, 2);
    BinaryValue(dest, 2);
    hide Frame, Binary, Remainder, SyncFrom, Value;
    var s := Frame(bits, sender, dest);
    assert |Slice(s, 20, 25)| == 5 && Value(Slice(s, 20, 25)) - 4 == |bits| by {
      assert Power2(5) == 32;
    }
    assert |Slice(s, 27, 29)| == 2 by { assert Power2(2) == 4; }
  }

  // The receiver gets back what was sent exactly when the two addresses fit in two bits each
  // and the length of the payload, with the addresses, in five.
  lemma RoundTripIff(bits: string, sender: nat, dest: nat, mac: nat)
    requires bits != [] && IsBits(bits)
    ensures IsBits(Frame(bits, sender, dest))
    ensures Recovered(InfoOf(Frame(bits, sender, dest), mac), bits, sender, dest) <==>
      |bits| + 4 < 32 && sender < 4 && dest < 4
  {
    var s := Frame(bits, sender, dest);
    FrameBits(bits, sender, dest);
    if |bits| + 4 < 32 && sender < 4 && dest < 4 {
      RoundTrip(bits, sender, dest, mac);
    } else if InfoOf(s, mac).Ok? {
      InfoBounds(s, mac);
    }
  }

  // The fields bound what the receiver can make of them.
  lemma InfoBounds(s: string, mac: nat)
    requires IsBits(s) && InfoOf(s, mac).Ok?
    ensures var info := InfoOf(s, mac).value; |info.sentMsg| <= 27 && Value(info.sender) < 4 && Value(info.receiver) < 4
  {
    hide SyncFrom, Slice, Remainder, Value, IsBits;
    var i := SyncFrom(s, 0);
    var info := InfoOf(s, mac).value;
    SliceBits(s, i + 8, i + 13);
    SliceBits(s, i + 13, i + 15);
    SliceBits(s, i + 15, i + 17);
    SliceBits(s, i + 17, i + 17 + info.lenMsg);
    Small(info.lenBits, 5);
    Small(info.sender, 2);
    Small(info.receiver, 2);
  }

  lemma Small(s: string, k: nat)
    requires |s| <= k <= 5
    ensures Value(s) < if k == 2 then 4 else if k == 5 then 32 else Power2(k)
  {
    ValueBound(s);
    PowerGrows(|s|, k);
    assert Power2(2) == 4 && Power2(5) == 32;
  }

  lemma {:induction false} PowerGrows(m: nat, n: nat)
    requires m <= n
    ensures Power2(m) <= Power2(n)
  {
    if m < n { PowerGrows(m, n - 1); }
  }

  // From the message to the receiver's answer: with its checksum, and through the separators,
  // a message of up to 16 bits arrives and is not reported as damaged.
  lemma MessageArrives(data: string, sender: nat, dest: nat, mac: nat)
    requires 0 < |data| <= 16 && IsBits(data) && sender < 4 && dest < 4
    ensures var bits := Encoded(Generator, data); var received := Cleaned(Spaced(Frame(bits, sender, dest)) + "x");
      && IsBits(received) && Recovered(InfoOf(received, mac), bits, sender, dest)
      && InfoOf(received, mac).value.isMyMsg == (dest == mac) && !InfoOf(received, mac).value.collision
  {
    var bits := Encoded(Generator, data);
    EncodedDivides(Generator, data);
    FrameBits(bits, sender, dest);
    CleanedSpaced(Frame(bits, sender, dest));
    RoundTrip(bits, sender, dest, mac);
  }

  // And one whose payload was hit on the way by a burst of at most 11 bits is reported.
  lemma DamageReported(data: string, sender: nat, dest: nat, mac: nat, i: nat, burst: string, j: nat)
    requires 0 < |data| <= 16 && IsBits(data) && sender < 4 && dest < 4
    requires IsBits(burst) && Nonzero(burst) && |burst| <= 11 && i + |burst| + j == |Encoded(Generator, data)|
    ensures var damaged := Flip(Encoded(Generator, data), Zeros(i) + burst + Zeros(j));
      var received := Cleaned(Spaced(Frame(damaged, sender, dest)) + "x");
      IsBits(received) && Recovered(InfoOf(received, mac), damaged, sender, dest) && InfoOf(received, mac).value.collision
  {
    var damaged := Flip(Encoded(Generator, data), Zeros(i) + burst + Zeros(j));
    EncodedDivides(Generator, data);
    BurstDetected(data, i, burst, j);
    assert IsBits(damaged);
    FrameBits(damaged, sender, dest);
    CleanedSpaced(Frame(damaged, sender, dest));
    RoundTrip(damaged, sender, dest, mac);
  }
}
