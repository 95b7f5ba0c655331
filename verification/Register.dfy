/** The bit-serial shift register of section 8.1.1.6.2 of ITU-T V.42, without the final complement:
    what lib/crc.c computes with a table. A register is 32 bits, the lowest-order one first. */
module Register {

  type Bits = seq<bool>

  predicate IsWord(r: Bits) { |r| == 32 }

  /** 0xedb88320 from its lowest-order bit: the polynomial with its highest-order term first. */
  const POLY: Bits := [
    false, false, false, false, false, true, false, false,
    true, true, false, false, false, false, false, true,
    false, false, false, true, true, true, false, true,
    true, false, true, true, false, true, true, true]

  function Zeros(n: nat): (z: Bits)
    ensures |z| == n && forall i | 0 <= i < n :: !z[i]
  {
    seq(n, i => false)
  }

  function Xor(a: Bits, b: Bits): (d: Bits)
    requires |a| == |b|
    ensures |d| == |a| && forall i | 0 <= i < |d| :: d[i] == (a[i] != b[i])
  {
    seq(|a|, i requires 0 <= i < |a| => a[i] != b[i])
  }

  /** One bit of a message: the register moves one place, and if the bit that leaves it differs
      from the message's, the polynomial is added. */
  function Feed(r: Bits, bit: bool): (s: Bits)
    requires IsWord(r)
    ensures IsWord(s)
  {
    if r[0] != bit then Xor(r[1..] + [false], POLY) else r[1..] + [false]
  }

  /** The register after the bits of a message, in order of transmission. */
  function Serial(bits: Bits, r: Bits): (s: Bits)
    requires IsWord(r)
    ensures IsWord(s)
    decreases |bits|
  {
    if bits == [] then r else Serial(bits[1..], Feed(r, bits[0]))
  }

  lemma {:induction false} SerialAppend(a: Bits, b: Bits, r: Bits)
    requires IsWord(r)
    ensures Serial(a + b, r) == Serial(b, Serial(a, r))
    decreases |a|
  {
    if a == [] {
      assert a + b == b;
    } else {
      assert (a + b)[1..] == a[1..] + b;
      SerialAppend(a[1..], b, Feed(r, a[0]));
    }
  }

  lemma FeedIsLinear(x: Bits, y: Bits, p: bool, q: bool)
    requires IsWord(x) && IsWord(y)
    ensures Feed(Xor(x, y), p != q) == Xor(Feed(x, p), Feed(y, q))
  {
  }

  /** The difference of two runs is the run of the differences. */
  lemma {:induction false} SerialIsLinear(a: Bits, b: Bits, x: Bits, y: Bits)
    requires IsWord(x) && IsWord(y) && |a| == |b|
    ensures Serial(Xor(a, b), Xor(x, y)) == Xor(Serial(a, x), Serial(b, y))
    decreases |a|
  {
    if a != [] {
      assert Xor(a, b)[1..] == Xor(a[1..], b[1..]);
      FeedIsLinear(x, y, a[0], b[0]);
      SerialIsLinear(a[1..], b[1..], Feed(x, a[0]), Feed(y, b[0]));
    }
  }

  /** The polynomial has its highest bit, so a register tells whether the polynomial was added. */
  lemma FeedIsInjective(x: Bits, y: Bits, bit: bool)
    requires IsWord(x) && IsWord(y) && Feed(x, bit) == Feed(y, bit)
    ensures x == y
  {
    var s := Feed(x, bit);
    assert s[31] == (x[0] != bit) == (y[0] != bit);
    forall i | 0 < i < 32 ensures x[i] == y[i] {
      assert s[i - 1] == (x[i] != (s[31] && POLY[i - 1]));
      assert s[i - 1] == (y[i] != (s[31] && POLY[i - 1]));
    }
  }

  lemma {:induction false} SerialIsInjective(bits: Bits, x: Bits, y: Bits)
    requires IsWord(x) && IsWord(y) && Serial(bits, x) == Serial(bits, y)
    ensures x == y
    decreases |bits|
  {
    if bits != [] {
      SerialIsInjective(bits[1..], Feed(x, bits[0]), Feed(y, bits[0]));
      FeedIsInjective(x, y, bits[0]);
    }
  }

  /** A register that at most 32 bits empty held exactly these bits. */
  lemma {:induction false} EmptiedByItsBits(d: Bits, r: Bits)
    requires IsWord(r) && |d| <= 32 && Serial(d, r) == Zeros(32)
    ensures r == d + Zeros(32 - |d|)
    decreases |d|
  {
    if d != [] {
      var s := Feed(r, d[0]);
      EmptiedByItsBits(d[1..], s);
      assert !s[31];
      forall i | 0 < i < 32 ensures r[i] == s[i - 1] {}
    }
  }

  /** The register never loses sight of a difference within 32 bits. */
  lemma WindowDetected(a: Bits, b: Bits, r: Bits)
    requires IsWord(r) && |a| == |b| <= 32 && Serial(a, r) == Serial(b, r)
    ensures a == b
  {
    var d := Xor(a, b);
    SerialIsLinear(a, b, r, r);
    assert Xor(r, r) == Zeros(32);
    assert Xor(Serial(a, r), Serial(b, r)) == Zeros(32);
    EmptiedByItsBits(d, Zeros(32));
    forall i | 0 <= i < |a| ensures a[i] == b[i] {
      assert (d + Zeros(32 - |d|))[i] == d[i];
    }
  }

  /** Burst detection, whatever surrounds the window. */
  lemma BurstDetected(a: Bits, b: Bits, r: Bits, from: nat, to: nat)
    requires IsWord(r) && |a| == |b| && from <= to <= |a| && to - from <= 32
    requires a[..from] == b[..from] && a[to..] == b[to..]
    requires Serial(a, r) == Serial(b, r)
    ensures a == b
  {
    var m, n := a[from..to], b[from..to];
    assert a == a[..from] + m + a[to..];
    assert b == a[..from] + n + a[to..];
    MiddleDetected(a[..from], m, n, a[to..], r);
  }

  lemma MiddleDetected(before: Bits, m: Bits, n: Bits, after: Bits, r: Bits)
    requires IsWord(r) && |m| == |n| <= 32
    requires Serial(before + m + after, r) == Serial(before + n + after, r)
    ensures m == n
  {
    var s := Serial(before, r);
    SerialMiddle(before, m, after, r);
    SerialMiddle(before, n, after, r);
    SerialIsInjective(after, Serial(m, s), Serial(n, s));
    WindowDetected(m, n, s);
  }

  /** Feeding bits one by one, or adding them to the register at once and stepping on. */
  lemma {:induction false} AddedAtOnce(bits: Bits, r: Bits)
    requires IsWord(r) && |bits| <= 32
    ensures Serial(bits, r) == Serial(Zeros(|bits|), Xor(r, bits + Zeros(32 - |bits|)))
    decreases |bits|
  {
    var n := |bits|;
    if n > 0 {
      FedAndAdded(bits, r);
      AddedAtOnce(bits[1..], Feed(r, bits[0]));
    } else {
      assert Xor(r, [] + Zeros(32)) == r;
    }
  }

  lemma FedAndAdded(bits: Bits, r: Bits)
    requires IsWord(r) && 0 < |bits| <= 32
    ensures Zeros(|bits|)[1..] == Zeros(|bits| - 1)
    ensures Feed(Xor(r, bits + Zeros(32 - |bits|)), false)
            == Xor(Feed(r, bits[0]), bits[1..] + Zeros(32 - (|bits| - 1)))
  {
    var w := bits + Zeros(32 - |bits|);
    FeedIsLinear(r, w, bits[0], bits[0]);
    FeedOwnBit(w);
    MovedOn(bits);
  }

  lemma MovedOn(bits: Bits)
    requires 0 < |bits| <= 32
    ensures (bits + Zeros(32 - |bits|))[1..] + [false] == bits[1..] + Zeros(32 - (|bits| - 1))
    ensures Zeros(|bits|)[1..] == Zeros(|bits| - 1)
  {
  }

  lemma FeedOwnBit(w: Bits)
    requires IsWord(w)
    ensures Feed(w, w[0]) == w[1..] + [false]
  {
  }

  /** High bits only move. */
  lemma {:induction false} HighBitsMove(n: nat, high: Bits)
    requires n + |high| == 32
    ensures Serial(Zeros(n), Zeros(n) + high) == high + Zeros(n)
    decreases n
  {
    if n > 0 {
      assert Zeros(n)[1..] == Zeros(n - 1);
      assert Feed(Zeros(n) + high, false) == Zeros(n - 1) + (high + [false]);
      HighBitsMove(n - 1, high + [false]);
      assert high + [false] + Zeros(n - 1) == high + Zeros(n);
    } else {
      assert Zeros(0) + high == high + Zeros(0);
    }
  }

  /** A register is emptied by its own bits. */
  lemma EmptiedByItself(w: Bits)
    requires IsWord(w)
    ensures Serial(w, w) == Zeros(32)
  {
    AddedAtOnce(w, w);
    assert Xor(w, w + Zeros(0)) == Zeros(32);
    HighBitsMove(32, []);
    assert Zeros(32) + [] == Zeros(32) == [] + Zeros(32);
  }

  lemma FeedOne()
    ensures Feed(Zeros(32), true) == POLY
  {
    assert Zeros(32)[1..] + [false] == Zeros(32);
    XorZeros(POLY, 32);
  }

  lemma XorZeros(a: Bits, n: nat)
    requires |a| == n
    ensures Xor(a, Zeros(n)) == a == Xor(Zeros(n), a)
  {
  }

  lemma PolynomialUnseen(r: Bits)
    requires IsWord(r)
    ensures Serial([true] + POLY, r) == Serial(Zeros(33), r)
  {
    FeedOne();
    assert ([true] + POLY)[1..] == POLY;
    EmptiedByItself(POLY);
    SerialIsLinear([true] + POLY, Zeros(33), Zeros(32), r);
    XorZeros([true] + POLY, 33);
    XorZeros(r, 32);
    XorZeros(Serial(Zeros(33), r), 32);
  }

  lemma SerialMiddle(a: Bits, m: Bits, b: Bits, r: Bits)
    requires IsWord(r)
    ensures Serial(a + m + b, r) == Serial(b, Serial(m, Serial(a, r)))
  {
    SerialAppend(a, m, r);
    SerialAppend(a + m, b, r);
  }

  /** 32 is the best possible: the polynomial itself is a burst of 33 bits that goes unseen. */
  lemma LongerBurstEscapes(before: Bits, after: Bits, r: Bits)
    requires IsWord(r)
    ensures Serial(before + ([true] + POLY) + after, r) == Serial(before + Zeros(33) + after, r)
  {
    SerialMiddle(before, [true] + POLY, after, r);
    SerialMiddle(before, Zeros(33), after, r);
    PolynomialUnseen(Serial(before, r));
  }

  /** The step of a table-driven register, eight bits at a time. */
  lemma EightAtOnce(bits: Bits, r: Bits)
    requires IsWord(r) && |bits| == 8
    ensures Serial(bits, r)
            == Xor(Serial(Zeros(8), Xor(r[..8], bits) + Zeros(24)), r[8..] + Zeros(8))
  {
    var low, high := Xor(r[..8], bits) + Zeros(24), Zeros(8) + r[8..];
    AddedAtOnce(bits, r);
    assert Xor(r, bits + Zeros(24)) == Xor(low, high);
    assert Xor(Zeros(8), Zeros(8)) == Zeros(8);
    SerialIsLinear(Zeros(8), Zeros(8), low, high);
    HighBitsMove(8, r[8..]);
  }
}
