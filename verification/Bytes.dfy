/** Bytes, fixed-width unsigned integers, and the bit vectors behind them. */
module Bytes {

  type byte = x: int | 0 <= x < 256
  type u32 = x: int | 0 <= x < 0x1_0000_0000

  datatype Option<+T> = None | Some(value: T)

  // ----- slices that stop at the end, and runs of zeros -----

  function Take(s: seq<byte>, n: nat): seq<byte> { if n <= |s| then s[..n] else s }

  function Drop(s: seq<byte>, n: nat): seq<byte> { if n <= |s| then s[n..] else [] }

  function Zeroed(n: nat): (r: seq<byte>)
    ensures |r| == n && forall i :: 0 <= i < n ==> r[i] == 0
  {
    seq(n, _ => 0)
  }

  // ----- little-endian integers -----

  function Pow256(k: nat): (r: nat)
    ensures r > 0
  {
    if k == 0 then 1 else 256 * Pow256(k - 1)
  }

  /** The k low-order bytes of n, least significant first. */
  function PutLE(n: nat, k: nat): (s: seq<byte>)
    ensures |s| == k
  {
    if k == 0 then [] else [n % 256] + PutLE(n / 256, k - 1)
  }

  function GetLE(s: seq<byte>): nat {
    if |s| == 0 then 0 else s[0] + 256 * GetLE(s[1..])
  }

  lemma {:induction false} GetPut(n: nat, k: nat)
    requires n < Pow256(k)
    ensures GetLE(PutLE(n, k)) == n
  {
    if k != 0 {
      GetPut(n / 256, k - 1);
      assert PutLE(n, k)[1..] == PutLE(n / 256, k - 1);
    }
  }

  lemma {:induction false} PutGet(s: seq<byte>)
    ensures GetLE(s) < Pow256(|s|)
    ensures PutLE(GetLE(s), |s|) == s
  {
    if |s| != 0 {
      PutGet(s[1..]);
      var low, high := s[0], GetLE(s[1..]);
      DigitBack(low, high);
      assert s == [low] + s[1..];
    }
  }

  /** Byte i of the little-endian form is digit i to the base 256. */
  lemma {:induction false} PutLEAt(n: nat, k: nat, i: nat)
    requires i < k
    ensures PutLE(n, k)[i] == n / Pow256(i) % 256
  {
    if i > 0 {
      PutLEAt(n / 256, k - 1, i - 1);
      DivideTwice(n, 256, Pow256(i - 1));
    }
  }

  lemma MulMonotone(a: nat, b: nat, m: nat)
    requires a <= b
    ensures a * m <= b * m
  {
    assert b * m == a * m + (b - a) * m;
  }

  lemma DivModUnique(a: nat, m: nat, q: nat, r: nat)
    requires m > 0 && a == q * m + r && r < m
    ensures a % m == r && a / m == q
  {
    var q' := a / m;
    assert a == q' * m + a % m;
    assert (q' + 1) * m == q' * m + m && (q + 1) * m == q * m + m;
    if q' < q {
      MulMonotone(q' + 1, q, m);
    } else if q < q' {
      MulMonotone(q + 1, q', m);
    }
  }

  lemma DivMod(n: nat, a: nat) returns (q: nat, r: nat)
    requires a > 0
    ensures n == q * a + r && r < a && q == n / a
  {
    q, r := n / a, n % a;
  }

  lemma DivideTwice(n: nat, a: nat, b: nat)
    requires a > 0 && b > 0
    ensures a * b > 0 && n / a / b == n / (a * b)
  {
    var m, s := DivMod(n, a);
    var q, r := DivMod(m, b);
    Regroup(q, b, r, a);
    MulMonotone(r + 1, b, a);
    assert (r + 1) * a == r * a + a;
    DivModUnique(n, a * b, q, r * a + s);
  }

  lemma Regroup(q: nat, b: nat, r: nat, a: nat)
    ensures (q * b + r) * a == q * (a * b) + r * a
  {
    assert q * b * a == q * (a * b);
  }

  lemma DigitBack(low: byte, high: nat)
    ensures (low + 256 * high) % 256 == low && (low + 256 * high) / 256 == high
  {
  }

  lemma Pow256Values()
    ensures Pow256(1) == 0x100 && Pow256(2) == 0x1_0000 && Pow256(4) == 0x1_0000_0000
  {
    assert Pow256(3) == 0x100_0000;
  }

  function PutU32(n: u32): seq<byte> { PutLE(n, 4) }

  function GetU32(s: seq<byte>): (n: u32)
    requires |s| == 4
    ensures PutU32(n) == s
  {
    PutGet(s);
    Pow256Values();
    GetLE(s)
  }

  lemma GetPutU32(n: u32)
    ensures GetU32(PutU32(n)) == n
  {
    Pow256Values();
    GetPut(n, 4);
  }

  // ----- bit vectors, most significant bit first -----

  /** The k low-order bits of n, most significant first. */
  function Bits(n: nat, k: nat): (r: seq<bool>)
    ensures |r| == k
  {
    if k == 0 then [] else Bits(n / 2, k - 1) + [n % 2 == 1]
  }

  function Pow2(k: nat): (r: nat)
    ensures r > 0
  {
    if k == 0 then 1 else 2 * Pow2(k - 1)
  }

  function Value(b: seq<bool>): (n: nat)
    ensures n < Pow2(|b|)
  {
    if |b| == 0 then 0 else 2 * Value(b[..|b| - 1]) + (if b[|b| - 1] then 1 else 0)
  }

  lemma {:induction false} ValueOfBits(n: nat, k: nat)
    requires n < Pow2(k)
    ensures Value(Bits(n, k)) == n
  {
    if k != 0 {
      ValueOfBits(n / 2, k - 1);
      assert Bits(n, k)[..k - 1] == Bits(n / 2, k - 1);
    }
  }

  lemma {:induction false} BitsOfValue(b: seq<bool>)
    ensures Bits(Value(b), |b|) == b
  {
    if |b| != 0 {
      BitsOfValue(b[..|b| - 1]);
      assert b == b[..|b| - 1] + [b[|b| - 1]];
    }
  }

  /** Bit i from the top is binary digit k - 1 - i. */
  lemma {:induction false} BitsAt(n: nat, k: nat, i: nat)
    requires i < k
    ensures Bits(n, k)[i] <==> n / Pow2(k - 1 - i) % 2 == 1
  {
    if i < k - 1 {
      BitsAt(n / 2, k - 1, i);
      DivideTwice(n, 2, Pow2(k - 2 - i));
    }
  }

  function ByteBits(b: byte): (r: seq<bool>)
    ensures |r| == 8
  {
    Bits(b, 8)
  }

  function ByteOf(b: seq<bool>): (r: byte)
    requires |b| == 8
    ensures ByteBits(r) == b
  {
    assert Pow2(4) == 16;
    assert Pow2(8) == 256;
    BitsOfValue(b);
    Value(b)
  }

  lemma ByteRoundTrip(b: byte)
    ensures ByteOf(ByteBits(b)) == b
  {
    assert Pow2(4) == 16;
    assert Pow2(8) == 256;
    ValueOfBits(b, 8);
  }

  /** All bits of a byte string in transmission order of a bitwise CRC. */
  function BitsOf(data: seq<byte>): (r: seq<bool>)
    ensures |r| == 8 * |data|
  {
    if |data| == 0 then [] else ByteBits(data[0]) + BitsOf(data[1..])
  }

  lemma {:induction false} BitsOfAppend(a: seq<byte>, b: seq<byte>)
    ensures BitsOf(a + b) == BitsOf(a) + BitsOf(b)
  {
    if |a| == 0 {
      assert a + b == b;
    } else {
      BitsOfAppend(a[1..], b);
      assert (a + b)[1..] == a[1..] + b;
    }
  }

  function Xor(a: seq<bool>, b: seq<bool>): (r: seq<bool>)
    requires |a| == |b|
    ensures |r| == |a|
    ensures forall i :: 0 <= i < |a| ==> r[i] == (a[i] != b[i])
  {
    seq(|a|, i requires 0 <= i < |a| => a[i] != b[i])
  }

  function Zeros(n: nat): (r: seq<bool>)
    ensures |r| == n && forall i :: 0 <= i < n ==> !r[i]
  {
    seq(n, _ => false)
  }

  function Ones(n: nat): (r: seq<bool>)
    ensures |r| == n && forall i :: 0 <= i < n ==> r[i]
  {
    seq(n, _ => true)
  }
}
