/** The frame checksum: a 16-bit shift register with feedback 0x1021, preset to 0xffff. */
module Crc {
  import opened Bytes

  /** A uint16_t as its sixteen bits, most significant first. */
  type Reg = r: seq<bool> | |r| == 16 witness Zeros(16)

  const ZERO: Reg := Zeros(16)

  /** 0xffff */
  const PRESET: Reg := Ones(16)

  /** 0x1021, that is x^12 + x^5 + 1 */
  const FEEDBACK: Reg :=
    [false, false, false, true, false, false, false, false,
     false, false, true, false, false, false, false, true]

  /** One turn of the inner loop: shift left, feed back when the top bit falls out. */
  function Shift(r: Reg): Reg {
    if r[0] then Xor(r[1..] + [false], FEEDBACK) else r[1..] + [false]
  }

  function ShiftN(r: Reg, n: nat): Reg
    decreases n
  {
    if n == 0 then r else ShiftN(Shift(r), n - 1)
  }

  /** The serial view: one message bit enters at the top, then the register turns once. */
  function Step(r: Reg, bit: bool): Reg {
    Shift(r[0 := r[0] != bit])
  }

  function Feed(r: Reg, bits: seq<bool>): Reg
    decreases |bits|
  {
    if |bits| == 0 then r else Feed(Step(r, bits[0]), bits[1..])
  }

  function CrcOf(data: seq<byte>): Reg {
    Feed(PRESET, BitsOf(data))
  }

  lemma {:induction false} FeedConcat(r: Reg, a: seq<bool>, b: seq<bool>)
    ensures Feed(r, a + b) == Feed(Feed(r, a), b)
    decreases |a|
  {
    if |a| == 0 {
      assert a + b == b;
    } else {
      FeedConcat(Step(r, a[0]), a[1..], b);
      assert (a + b)[1..] == a[1..] + b;
    }
  }

  lemma {:induction false} ShiftNConcat(r: Reg, m: nat, n: nat)
    ensures ShiftN(r, m + n) == ShiftN(ShiftN(r, m), n)
    decreases m
  {
    if m != 0 {
      ShiftNConcat(Shift(r), m - 1, n);
    }
  }

  // ----- linearity and invertibility -----

  lemma ShiftLinear(a: Reg, b: Reg)
    ensures Shift(Xor(a, b)) == Xor(Shift(a), Shift(b))
  {
  }

  /** The checksum is linear over GF(2) in preset and message together. */
  lemma {:induction false} FeedLinear(r: Reg, s: Reg, a: seq<bool>, b: seq<bool>)
    requires |a| == |b|
    ensures Feed(Xor(r, s), Xor(a, b)) == Xor(Feed(r, a), Feed(s, b))
    decreases |a|
  {
    if |a| != 0 {
      var r', s' := r[0 := r[0] != a[0]], s[0 := s[0] != b[0]];
      assert Xor(r, s)[0 := Xor(r, s)[0] != Xor(a, b)[0]] == Xor(r', s');
      ShiftLinear(r', s');
      FeedLinear(Step(r, a[0]), Step(s, b[0]), a[1..], b[1..]);
      assert Xor(a, b)[1..] == Xor(a[1..], b[1..]);
    }
  }

  lemma ShiftInjective(a: Reg, b: Reg)
    requires Shift(a) == Shift(b)
    ensures a == b
  {
    assert Shift(a)[15] == a[0] && Shift(b)[15] == b[0];
    forall i | 1 <= i < 16
      ensures a[i] == b[i]
    {
      assert Shift(a)[i - 1] == (a[i] != (a[0] && FEEDBACK[i - 1]));
      assert Shift(b)[i - 1] == (b[i] != (b[0] && FEEDBACK[i - 1]));
    }
  }

  lemma {:induction false} ShiftNInjective(a: Reg, b: Reg, n: nat)
    requires ShiftN(a, n) == ShiftN(b, n)
    ensures a == b
    decreases n
  {
    if n != 0 {
      ShiftNInjective(Shift(a), Shift(b), n - 1);
      ShiftInjective(a, b);
    }
  }

  lemma {:induction false} ShiftNZero(n: nat)
    ensures ShiftN(ZERO, n) == ZERO
  {
    assert Shift(ZERO) == ZERO;
    if n != 0 {
      ShiftNZero(n - 1);
    }
  }

  /** A load of several bits is a load of the first and a load, one place down, of the others. */
  lemma LoadSplits(r: Reg, w: seq<bool>)
    requires 0 < |w| <= 16
    ensures var top, below := [w[0]] + Zeros(15), [false] + w[1..] + Zeros(16 - |w|);
      && Xor(r, w + Zeros(16 - |w|)) == Xor(Xor(r, top), below)
      && Xor(r, top) == r[0 := r[0] != w[0]]
      && Shift(below) == w[1..] + Zeros(17 - |w|)
  {
  }

  /** Feeding at most sixteen bits serially is loading them at the top and shifting. */
  lemma {:induction false} FeedIsLoadThenShift(r: Reg, w: seq<bool>)
    requires |w| <= 16
    ensures Feed(r, w) == ShiftN(Xor(r, w + Zeros(16 - |w|)), |w|)
    decreases |w|
  {
    if |w| == 0 {
      assert Xor(r, w + Zeros(16)) == r;
    } else {
      LoadSplits(r, w);
      hide Shift, Xor;
      ShiftLinear(Xor(r, [w[0]] + Zeros(15)), [false] + w[1..] + Zeros(16 - |w|));
      FeedIsLoadThenShift(Step(r, w[0]), w[1..]);
    }
  }

  // ----- the bytewise loop computes the serial checksum -----

  lemma ByteTurn(r: Reg, b: byte)
    ensures ShiftN(Xor(r, ByteBits(b) + Zeros(8)), 8) == Feed(r, ByteBits(b))
  {
    FeedIsLoadThenShift(r, ByteBits(b));
  }

  method Crc16(data: seq<byte>) returns (crc: Reg)
    ensures crc == CrcOf(data)
  {
    crc := PRESET;
    var i := 0;
    while i < |data|
      invariant 0 <= i <= |data|
      invariant crc == CrcOf(data[..i])
    {
      ghost var before := crc;
      crc := Xor(crc, ByteBits(data[i]) + Zeros(8));
      ghost var loaded := crc;
      var bit := 0;
      while bit < 8
        invariant 0 <= bit <= 8
        invariant crc == ShiftN(loaded, bit)
      {
        ShiftNConcat(loaded, bit, 1);
        assert ShiftN(crc, 1) == Shift(crc);
        crc := if crc[0] then Xor(crc[1..] + [false], FEEDBACK) else crc[1..] + [false];
        bit := bit + 1;
      }
      ByteTurn(before, data[i]);
      assert data[..i + 1] == data[..i] + [data[i]];
      BitsOfAppend(data[..i], [data[i]]);
      assert BitsOf([data[i]]) == ByteBits(data[i]);
      FeedConcat(PRESET, BitsOf(data[..i]), ByteBits(data[i]));
      i := i + 1;
    }
    assert data[..i] == data;
  }

  // ----- error detection -----

  /** All differences between a and b lie in a window of at most sixteen consecutive bits. */
  ghost predicate Burst(a: seq<bool>, b: seq<bool>) {
    && |a| == |b|
    && a != b
    && exists lo, hi :: InWindow(a, b, lo, hi)
  }

  ghost predicate InWindow(a: seq<bool>, b: seq<bool>, lo: int, hi: int)
    requires |a| == |b|
  {
    0 <= lo <= hi <= |a| && hi - lo <= 16 && a[..lo] == b[..lo] && a[hi..] == b[hi..]
  }

  /** A non-zero window of at most sixteen bits never leaves the register at zero. */
  lemma WindowNonZero(w: seq<bool>)
    requires |w| <= 16 && w != Zeros(|w|)
    ensures Feed(ZERO, w) != ZERO
  {
    FeedIsLoadThenShift(ZERO, w);
    var load := Xor(ZERO, w + Zeros(16 - |w|));
    var k :| 0 <= k < |w| && w[k];
    assert load[k];
    if Feed(ZERO, w) == ZERO {
      ShiftNZero(|w|);
      ShiftNInjective(load, ZERO, |w|);
    }
  }

  lemma BurstChangesRegister(r: Reg, a: seq<bool>, b: seq<bool>)
    requires Burst(a, b)
    ensures Feed(r, a) != Feed(r, b)
  {
    var lo, hi :| InWindow(a, b, lo, hi);
    var u, v := a[lo..hi], b[lo..hi];
    var rest := a[hi..];
    assert a == a[..lo] + (u + rest) && b == a[..lo] + (v + rest);
    var mid := Feed(r, a[..lo]);
    FeedConcat(r, a[..lo], u + rest);
    FeedConcat(r, a[..lo], v + rest);
    FeedConcat(mid, u, rest);
    FeedConcat(mid, v, rest);
    FeedDifference(mid, u, v);
    WindowNonZero(Xor(u, v)) by {
      var k :| 0 <= k < |u| && u[k] != v[k];
      assert Xor(u, v)[k];
    }
    if Feed(r, a) == Feed(r, b) {
      FeedInjective(Feed(mid, u), Feed(mid, v), rest);
      XorSelf(Feed(mid, u));
    }
  }

  lemma XorSelf(r: Reg)
    ensures Xor(r, r) == ZERO
  {
  }

  lemma FeedDifference(r: Reg, u: seq<bool>, v: seq<bool>)
    requires |u| == |v|
    ensures Feed(ZERO, Xor(u, v)) == Xor(Feed(r, u), Feed(r, v))
  {
    FeedLinear(r, r, u, v);
    XorSelf(r);
  }

  lemma {:induction false} FeedInjective(r: Reg, s: Reg, bits: seq<bool>)
    requires Feed(r, bits) == Feed(s, bits)
    ensures r == s
    decreases |bits|
  {
    if |bits| != 0 {
      FeedInjective(Step(r, bits[0]), Step(s, bits[0]), bits[1..]);
      var r', s' := r[0 := r[0] != bits[0]], s[0 := s[0] != bits[0]];
      ShiftInjective(r', s');
      assert r == r'[0 := r[0]] && s == s'[0 := s[0]];
      assert r'[0] == s'[0];
    }
  }

  /** Whether the number of ones is odd. */
  function Odd(bits: seq<bool>): bool {
    if |bits| == 0 then false else bits[0] != Odd(bits[1..])
  }

  lemma {:induction false} OddConcat(a: seq<bool>, b: seq<bool>)
    ensures Odd(a + b) == (Odd(a) != Odd(b))
  {
    if |a| == 0 {
      assert a + b == b;
    } else {
      OddConcat(a[1..], b);
      assert (a + b)[1..] == a[1..] + b;
    }
  }

  lemma {:induction false} OddXor(a: seq<bool>, b: seq<bool>)
    requires |a| == |b|
    ensures Odd(Xor(a, b)) == (Odd(a) != Odd(b))
  {
    if |a| != 0 {
      OddXor(a[1..], b[1..]);
      assert Xor(a, b)[1..] == Xor(a[1..], b[1..]);
    }
  }

  lemma {:induction false} OddZeros(n: nat)
    ensures !Odd(Zeros(n))
  {
    if n != 0 {
      OddZeros(n - 1);
      assert Zeros(n)[1..] == Zeros(n - 1);
    }
  }

  lemma OddOne(m: nat, n: nat)
    ensures Odd(Zeros(m) + [true] + Zeros(n))
  {
    OddZeros(m);
    OddZeros(n);
    OddConcat(Zeros(m), [true]);
    OddConcat(Zeros(m) + [true], Zeros(n));
  }

  lemma OddFeedback()
    ensures Odd(FEEDBACK)
  {
    var a, b, c := Zeros(3) + [true] + Zeros(3), Zeros(3) + [true] + Zeros(4), [true];
    assert FEEDBACK == a + (b + c);
    OddOne(3, 3);
    OddOne(3, 4);
    OddConcat(b, c);
    OddConcat(a, b + c);
  }

  /** The generator has four terms, so a turn of the register keeps its parity. */
  lemma ShiftKeepsParity(r: Reg)
    ensures Odd(Shift(r)) == Odd(r)
  {
    OddConcat(r[1..], [false]);
    OddFeedback();
    OddXor(r[1..] + [false], FEEDBACK);
  }

  lemma {:induction false} FeedParity(r: Reg, bits: seq<bool>)
    ensures Odd(Feed(r, bits)) == (Odd(r) != Odd(bits))
    decreases |bits|
  {
    if |bits| != 0 {
      var r' := r[0 := r[0] != bits[0]];
      assert r'[1..] == r[1..];
      ShiftKeepsParity(r');
      FeedParity(Step(r, bits[0]), bits[1..]);
    }
  }
}
