/** The checksum as a remainder of polynomial division over GF(2). */
module Gf2 {
  import opened Bytes
  import opened Crc

  /** A polynomial over GF(2): the set of exponents whose coefficient is 1. */
  type Poly = set<nat>

  function Plus(a: Poly, b: Poly): Poly { (a - b) + (b - a) }

  /** a * x^k */
  function Raise(a: Poly, k: nat): Poly { set e | e in a :: e + k }

  /** Long multiplication by q, given by its coefficients, highest power first. */
  function Times(q: seq<bool>, g: Poly): Poly {
    if |q| == 0 then {}
    else Plus(Raise(Times(q[..|q| - 1], g), 1), if q[|q| - 1] then g else {})
  }

  /** The polynomial whose coefficients, highest power first, are the given bits. */
  function PolyOf(bits: seq<bool>): Poly {
    set k: nat | k < |bits| && Coefficient(bits, k)
  }

  predicate Coefficient(bits: seq<bool>, k: nat)
    requires k < |bits|
  {
    bits[|bits| - 1 - k]
  }

  const GENERATOR: Poly := {16, 12, 5, 0}

  /** r is what is left of a after taking away some multiple of the generator. */
  ghost predicate IsRemainder(a: Poly, r: Poly) {
    && (forall e :: e in r ==> e < 16)
    && exists q :: a == Plus(Times(q, GENERATOR), r)
  }

  /** The sixteen lowest powers, each once. */
  const SIXTEEN: Poly := {0, 1, 2, 3, 4, 5, 6, 7, 8, 9, 10, 11, 12, 13, 14, 15}

  /** Message times x^16 plus the sixteen powers from its length up. */
  function Dividend(bits: seq<bool>): Poly {
    Plus(Raise(PolyOf(bits), 16), Raise(SIXTEEN, |bits|))
  }

  lemma RaiseMember(a: Poly, k: nat, e: nat)
    ensures e in Raise(a, k) <==> k <= e && e - k in a
  {
    if k <= e && e - k in a {
      assert (e - k) + k == e;
    }
  }

  lemma RaisePlus(a: Poly, b: Poly, k: nat)
    ensures Raise(Plus(a, b), k) == Plus(Raise(a, k), Raise(b, k))
  {
    forall e: nat
      ensures e in Raise(Plus(a, b), k) <==> e in Plus(Raise(a, k), Raise(b, k))
    {
      RaiseMember(Plus(a, b), k, e);
      RaiseMember(a, k, e);
      RaiseMember(b, k, e);
    }
  }

  lemma RaiseRaise(a: Poly, j: nat, k: nat)
    ensures Raise(Raise(a, j), k) == Raise(a, j + k)
  {
    forall e: nat
      ensures e in Raise(Raise(a, j), k) <==> e in Raise(a, j + k)
    {
      RaiseMember(Raise(a, j), k, e);
      if k <= e { RaiseMember(a, j, e - k); }
      RaiseMember(a, j + k, e);
    }
  }

  lemma PlusAssociates(a: Poly, b: Poly, c: Poly)
    ensures Plus(Plus(a, b), c) == Plus(a, Plus(b, c))
  {
  }

  // ----- one register step is one step of long division -----

  lemma PolyOfAppend(bits: seq<bool>, bit: bool)
    ensures PolyOf(bits + [bit]) == Plus(Raise(PolyOf(bits), 1), if bit then {0} else {})
  {
    var s := bits + [bit];
    forall e: nat
      ensures e in PolyOf(s) <==> e in Plus(Raise(PolyOf(bits), 1), if bit then {0} else {})
    {
      RaiseMember(PolyOf(bits), 1, e);
      if 1 <= e <= |bits| {
        assert s[|s| - 1 - e] == bits[|bits| - 1 - (e - 1)];
      }
    }
  }

  /** The preset register holds all sixteen powers. */
  lemma PresetIsSixteen()
    ensures PolyOf(PRESET) == SIXTEEN && Raise(SIXTEEN, 0) == SIXTEEN
  {
    forall e: nat
      ensures e in PolyOf(PRESET) <==> e in SIXTEEN
    {
    }
  }

  lemma PlusSwap(a: Poly, b: Poly, c: Poly)
    ensures Plus(Plus(a, b), c) == Plus(Plus(a, c), b)
  {
  }

  lemma RaiseOne(bit: bool)
    ensures Raise(if bit then {0} else {}, 16) == if bit then {16} else {}
  {
    assert Raise({0}, 16) == {0 + 16};
    assert Raise({}, 16) == {};
  }

  lemma DividendAppend(bits: seq<bool>, bit: bool)
    ensures Dividend(bits + [bit]) == Plus(Raise(Dividend(bits), 1), if bit then {16} else {})
  {
    hide Plus, Raise, PolyOf;
    var m, p := PolyOf(bits), SIXTEEN;
    var low: Poly := if bit then {0} else {};
    PolyOfAppend(bits, bit);
    RaisePlus(Raise(m, 1), low, 16);
    RaiseRaise(m, 1, 16);
    RaiseRaise(m, 16, 1);
    RaiseRaise(p, |bits|, 1);
    RaisePlus(Raise(m, 16), Raise(p, |bits|), 1);
    RaiseOne(bit);
    PlusSwap(Raise(m, 17), Raise(low, 16), Raise(p, |bits| + 1));
  }

  lemma StepDivides(r: Reg, bit: bool)
    ensures Plus(Raise(PolyOf(r), 1), if bit then {16} else {})
         == Plus(if r[0] != bit then GENERATOR else {}, PolyOf(Step(r, bit)))
  {
    var s := Step(r, bit);
    var before := Plus(Raise(PolyOf(r), 1), if bit then {16} else {});
    var after := Plus(if r[0] != bit then GENERATOR else {}, PolyOf(s));
    forall e: nat
      ensures e in before <==> e in after
    {
      RaiseMember(PolyOf(r), 1, e);
      if 1 <= e < 16 {
        assert e in PolyOf(s) <==> s[15 - e];
        assert e - 1 in PolyOf(r) <==> r[16 - e];
        assert s[15 - e] == (r[16 - e] != ((r[0] != bit) && FEEDBACK[15 - e]));
      }
    }
  }

  /** Running the register over the bits leaves a remainder of the dividend. */
  lemma {:induction false} FeedDivides(bits: seq<bool>) returns (q: seq<bool>)
    ensures Dividend(bits) == Plus(Times(q, GENERATOR), PolyOf(Feed(PRESET, bits)))
    decreases |bits|
  {
    if |bits| == 0 {
      q := [];
      assert PolyOf(bits) == {};
      PresetIsSixteen();
    } else {
      var n := |bits| - 1;
      var init, bit := bits[..n], bits[n];
      var q0 := FeedDivides(init);
      var r := Feed(PRESET, init);
      assert bits == init + [bit];
      FeedConcat(PRESET, init, [bit]);
      assert Feed(r, [bit]) == Step(r, bit);
      DividendAppend(init, bit);
      var t := Raise(Times(q0, GENERATOR), 1);
      RaisePlus(Times(q0, GENERATOR), PolyOf(r), 1);
      PlusAssociates(t, Raise(PolyOf(r), 1), if bit then {16} else {});
      StepDivides(r, bit);
      q := q0 + [r[0] != bit];
      assert q[..|q| - 1] == q0;
      PlusAssociates(t, if r[0] != bit then GENERATOR else {}, PolyOf(Step(r, bit)));
    }
  }

  // ----- the remainder is unique -----

  /** A multiple of the generator is zero or has a term of degree 16 or more. */
  lemma {:induction false} MultipleDegree(q: seq<bool>) returns (top: nat)
    ensures Times(q, GENERATOR) == {} || (16 <= top && top in Times(q, GENERATOR))
    ensures Times(q, GENERATOR) != {} ==> forall e :: e in Times(q, GENERATOR) ==> e <= top
    decreases |q|
  {
    top := 16;
    if |q| != 0 {
      var n := |q| - 1;
      var p := Times(q[..n], GENERATOR);
      var above := MultipleDegree(q[..n]);
      forall e: nat
        ensures e in Raise(p, 1) <==> 1 <= e && e - 1 in p
      {
        RaiseMember(p, 1, e);
      }
      if p != {} {
        top := above + 1;
      }
    }
  }

  lemma {:induction false} TimesPlus(q: seq<bool>, p: seq<bool>)
    requires |q| == |p|
    ensures Times(Xor(q, p), GENERATOR) == Plus(Times(q, GENERATOR), Times(p, GENERATOR))
    decreases |q|
  {
    if |q| != 0 {
      var n := |q| - 1;
      assert Xor(q, p)[..n] == Xor(q[..n], p[..n]);
      TimesPlus(q[..n], p[..n]);
      RaisePlus(Times(q[..n], GENERATOR), Times(p[..n], GENERATOR), 1);
    }
  }

  lemma {:induction false} TimesPad(k: nat, q: seq<bool>)
    ensures Times(Zeros(k) + q, GENERATOR) == Times(q, GENERATOR)
    decreases k + |q|
  {
    var s := Zeros(k) + q;
    if |q| != 0 {
      TimesPad(k, q[..|q| - 1]);
      assert s[..|s| - 1] == Zeros(k) + q[..|q| - 1];
    } else if k != 0 {
      TimesPad(k - 1, q);
      assert s[..|s| - 1] == Zeros(k - 1) + q;
    }
  }

  lemma RemainderUnique(a: Poly, r: Poly, s: Poly)
    requires IsRemainder(a, r) && IsRemainder(a, s)
    ensures r == s
  {
    var q :| a == Plus(Times(q, GENERATOR), r);
    var p :| a == Plus(Times(p, GENERATOR), s);
    var q', p' := Zeros(|p|) + q, Zeros(|q|) + p;
    TimesPad(|p|, q);
    TimesPad(|q|, p);
    TimesPlus(q', p');
    var m := Times(Xor(q', p'), GENERATOR);
    assert m == Plus(r, s);
    var top := MultipleDegree(Xor(q', p'));
    assert m == {};
  }

  /** The checksum of any byte string is the one remainder of its dividend. */
  lemma CrcIsRemainder(data: seq<byte>, r: Poly)
    ensures IsRemainder(Dividend(BitsOf(data)), r) <==> r == PolyOf(CrcOf(data))
  {
    var crc := PolyOf(CrcOf(data));
    var q := FeedDivides(BitsOf(data));
    assert IsRemainder(Dividend(BitsOf(data)), crc);
    if IsRemainder(Dividend(BitsOf(data)), r) {
      RemainderUnique(Dividend(BitsOf(data)), r, crc);
    }
  }
}
