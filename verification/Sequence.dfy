/** Request sequence numbers: a 32-bit counter that skips zero when it wraps. */
module Sequence {
  import opened Bytes

  const PERIOD := 0xffff_ffff

  function Successor(n: u32): u32 {
    var m := (n + 1) % 0x1_0000_0000;
    if m == 0 then 1 else m
  }

  class Counter {
    var next: u32

    constructor ()
      ensures next == 1
    {
      next := 1;
    }

    method NextSequence() returns (sequence: u32)
      modifies this
      ensures sequence == old(next) && next == Successor(old(next))
    {
      sequence := next;
      next := (next + 1) % 0x1_0000_0000;
      if next == 0 {
        next := 1;
      }
    }
  }

  /** The number handed out by the k-th call after the counter stood at start. */
  function SequenceAt(start: u32, k: nat): u32 {
    if k == 0 then start else Successor(SequenceAt(start, k - 1))
  }

  lemma {:induction false} ClosedForm(start: u32, k: nat)
    requires start != 0
    ensures SequenceAt(start, k) == (start - 1 + k) % PERIOD + 1
  {
    if k != 0 {
      ClosedForm(start, k - 1);
      SuccessorStep(start - 1 + (k - 1));
    }
  }

  lemma SuccessorStep(x: nat)
    ensures Successor(x % PERIOD + 1) == (x + 1) % PERIOD + 1
  {
    var q, r := x / PERIOD, x % PERIOD;
    assert x == q * PERIOD + r;
    if r == PERIOD - 1 {
      assert x + 1 == (q + 1) * PERIOD;
    }
  }

  /** Two calls get the same number exactly when they are a multiple of 2^32 - 1 calls apart;
      no call gets zero. */
  lemma NumbersRepeatOnlyAfterPeriod(start: u32, i: nat, j: nat)
    requires start != 0 && i <= j
    ensures SequenceAt(start, i) != 0
    ensures SequenceAt(start, i) == SequenceAt(start, j) <==> (j - i) % PERIOD == 0
  {
    ClosedForm(start, i);
    ClosedForm(start, j);
    SameResidue(start - 1 + i, start - 1 + j);
  }

  lemma SameResidue(a: nat, b: nat)
    requires a <= b
    ensures a % PERIOD == b % PERIOD <==> (b - a) % PERIOD == 0
  {
    var q := (b - a) / PERIOD;
    assert b - a == q * PERIOD + (b - a) % PERIOD;
    var qa, qb := a / PERIOD, b / PERIOD;
    if a % PERIOD == b % PERIOD {
      assert b - a == (qb - qa) * PERIOD;
    }
  }
}
