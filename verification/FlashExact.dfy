/** Exactly which segments the page mask serves: those whose every write leaves its data behind. */
module FlashExact {
  import opened Bytes
  import opened Flash

  predicate DataThere(m: Memory, addr: nat, data: seq<byte>) {
    addr + |data| <= |m| && m[addr..addr + |data|] == data
  }

  /** Every covered write leaves its data in place, whatever the memory held before. */
  ghost predicate EveryWriteHolds(layout: seq<Segment>) {
    forall m: Memory, addr: nat, data: seq<byte> ::
      Covered(layout, addr, addr + |data|) && addr + |data| <= |m| ==>
        DataThere(Flashed(m, layout, false, addr, |data|, data), addr, data)
  }

  /** The least power of two that is not below p. */
  function RoundUp(p: nat): (r: nat)
    requires p > 0
    ensures p <= r < 2 * p
  {
    if p == 1 then 1 else 2 * RoundUp((p + 1) / 2)
  }

  /** b is a multiple of the rounded-up page size. */
  predicate OnGrid(b: nat, p: nat)
    requires p > 0
  {
    b % RoundUp(p) == 0
  }

  lemma {:induction false} RoundUpIsPower(p: nat) returns (k: nat)
    requires p > 0
    ensures RoundUp(p) == Pow2(k)
  {
    if p == 1 {
      k := 0;
    } else {
      k := RoundUpIsPower((p + 1) / 2);
      k := k + 1;
    }
  }

  lemma {:induction false} PowerIsItsRoundUp(k: nat)
    ensures RoundUp(Pow2(k)) == Pow2(k)
  {
    if k != 0 {
      PowerIsItsRoundUp(k - 1);
      assert (Pow2(k) + 1) / 2 == Pow2(k - 1);
    }
  }

  // ----- the mask, bit by bit -----

  lemma BitAndStep(a: nat, b: nat)
    ensures BitAnd(a, b) == 2 * BitAnd(a / 2, b / 2) + (if a % 2 == 1 && b % 2 == 1 then 1 else 0)
  {
    BitProduct(a % 2, b % 2);
    if a == 0 || b == 0 {
      assert a / 2 == 0 || b / 2 == 0;
    }
  }

  lemma BitProduct(x: nat, y: nat)
    requires x < 2 && y < 2
    ensures x * y == if x == 1 && y == 1 then 1 else 0
  {
  }

  lemma RoundUpStep(p: nat)
    requires p > 1
    ensures RoundUp(p) == 2 * RoundUp((p + 1) / 2)
  {
  }

  lemma {:induction false} BitAndSelf(a: nat)
    ensures BitAnd(a, a) == a
  {
    if a != 0 {
      BitAndStep(a, a);
      BitAndSelf(a / 2);
    }
  }

  /** Numbers without a common bit add without a carry. */
  lemma {:induction false} DisjointSum(a: nat, c: nat)
    requires BitAnd(a, c) == 0
    ensures BitAnd(a + c, c) == c
  {
    if c != 0 {
      BitAndStep(a, c);
      BitAndStep(a + c, c);
      DisjointSum(a / 2, c / 2);
      assert (a + c) / 2 == a / 2 + c / 2;
    }
  }

  /** A number and its predecessor share no bit exactly when it is a power of two. */
  lemma {:induction false} PowerIffNoCommonBit(p: nat)
    requires p > 0
    ensures BitAnd(p, p - 1) == 0 <==> p == RoundUp(p)
  {
    BitAndStep(p, p - 1);
    if p % 2 == 1 {
      BitAndSelf(p / 2);
      if p > 1 {
        assert RoundUp(p) == 2 * RoundUp((p + 1) / 2);
      }
    } else {
      PowerIffNoCommonBit(p / 2);
      assert (p - 1) / 2 == p / 2 - 1 && (p + 1) / 2 == p / 2;
    }
  }

  /** Bit by bit: on the grid means even, with the half on the grid of the half. */
  lemma OnGridStep(b: nat, p: nat)
    requires p > 1
    ensures OnGrid(b, p) <==> b % 2 == 0 && OnGrid(b / 2, (p + 1) / 2)
  {
    RoundUpStep(p);
    HalfRemainder(b, RoundUp((p + 1) / 2));
  }

  lemma OnGridOfOne(b: nat)
    ensures OnGrid(b, 1) && RoundUp(1) == 1
  {
  }

  lemma Halves(b: nat, d: nat)
    requires b % 2 == 0 || d % 2 == 0
    ensures (b + d) / 2 == b / 2 + d / 2
  {
  }

  lemma HalfBelow(p: nat)
    requires p > 0
    ensures (p - 1) / 2 == (p + 1) / 2 - 1 && ((p - 1) % 2 == 1 <==> p % 2 == 0)
  {
  }

  /** The mask of an address in a page, one bit at a time. */
  lemma MaskStep(b: nat, p: nat, d: nat)
    requires p > 0 && (b % 2 == 0 || d % 2 == 0)
    ensures BitAnd(b + d, p - 1) ==
      2 * BitAnd(b / 2 + d / 2, (p + 1) / 2 - 1) + (if (b + d) % 2 == 1 && p % 2 == 0 then 1 else 0)
  {
    hide BitAnd;
    BitAndStep(b + d, p - 1);
    Halves(b, d);
    HalfBelow(p);
  }

  /** In a page that starts on the grid the mask never leaves the page. */
  lemma {:induction false} AlignedStays(b: nat, p: nat, d: nat)
    requires d < p && OnGrid(b, p)
    ensures BitAnd(b + d, p - 1) <= d
    decreases p
  {
    hide BitAnd, RoundUp, OnGrid;
    if p == 1 {
      BitAndBounded(b, 0);
    } else {
      OnGridStep(b, p);
      MaskStep(b, p, d);
      AlignedStays(b / 2, (p + 1) / 2, d / 2);
    }
  }

  /** In any other page some address is masked below the start of the page. */
  lemma {:induction false} MisalignedLeaves(b: nat, p: nat) returns (d: nat)
    requires p > 0 && !OnGrid(b, p)
    ensures d < p && BitAnd(b + d, p - 1) > d
    decreases p
  {
    hide BitAnd, RoundUp, OnGrid;
    OnGridOfOne(b);
    OnGridStep(b, p);
    var h := (p + 1) / 2;
    if b % 2 == 0 {
      var e := MisalignedLeaves(b / 2, h);
      d := 2 * e;
      MaskStep(b, p, d);
    } else {
      d := 0;
      MaskStep(b, p, d);
      if BitAnd(b, p - 1) == 0 {
        DisjointSum(b / 2, h - 1);
        d := 2 * (h - 1) - 1;
        OddShift(b, p, h - 1);
      }
    }
  }

  lemma OddShift(b: nat, p: nat, q: nat)
    requires b % 2 == 1 && p == 2 * q + 1 && q > 0
    ensures BitAnd(b + (2 * q - 1), p - 1) == 2 * BitAnd(b / 2 + q, q)
  {
    BitAndStep(b + (2 * q - 1), p - 1);
    assert (b + (2 * q - 1)) / 2 == b / 2 + q;
  }

  // ----- a byte that is written without its page being erased -----

  lemma RoundKeepsLength(m: Memory, layout: seq<Segment>, addr: nat, data: seq<byte>)
    ensures |Program(RoundErase(m, layout, false, addr), addr, data)| == |m|
  {
  }

  /** One byte, one round. */
  lemma FlashedByte(m: Memory, layout: seq<Segment>, x: nat, b: byte)
    ensures Flashed(m, layout, false, x, 1, [b]) == Program(RoundErase(m, layout, false, x), x, [b])
  {
    hide BitAnd, PageAddress, SegmentOf, RoundErase, Program, ErasePage;
    var n := RoundSize(layout, false, x, 1);
    assert n == 1 && Take([b], 1) == [b];
  }

  /** Erasing around an address outside the page of x leaves x alone. */
  lemma EraseMisses(m: Memory, layout: seq<Segment>, s: Segment, x: nat, k: nat, a: nat)
    requires Disjoint(layout) && s in layout && s.pageSize > 0 && k < s.numPages && x < |m|
    requires s.addr + k * s.pageSize <= x < s.addr + (k + 1) * s.pageSize
    requires a < s.addr + k * s.pageSize
    ensures ErasePage(m, layout, a)[x] == m[x]
  {
    var found := SegmentOf(layout, a);
    if found != [] {
      var t := found[0];
      InPage(s, x, k);
      WholePages(a - t.addr, t.numPages, t.pageSize);
      var from := a - Rem(a - t.addr, t.pageSize);
      hide Rem;
      if t == s {
        BelowPage(a - s.addr, k, s.pageSize);
      } else {
        assert !t.Contains(x);
      }
      assert !(from <= x < from + t.pageSize);
      ErasedAround(m, layout, t, a, from);
    }
  }

  lemma ErasedAround(m: Memory, layout: seq<Segment>, t: Segment, a: nat, from: nat)
    requires SegmentOf(layout, a) == [t] && t.Contains(a) && t.pageSize > 0 && from == a - Rem(a - t.addr, t.pageSize)
    ensures ErasePage(m, layout, a) == Fill(m, from, t.pageSize)
  {
    hide Rem, SegmentOf, Fill;
  }

  lemma InPage(s: Segment, x: nat, k: nat)
    requires k < s.numPages && s.addr + k * s.pageSize <= x < s.addr + (k + 1) * s.pageSize
    ensures s.Contains(x)
  {
    MulMonotone(k + 1, s.numPages, s.pageSize);
  }

  /** Below page k, a whole page ends at or before its start. */
  lemma BelowPage(d: nat, k: nat, p: nat)
    requires p > 0 && d < k * p
    ensures d - Rem(d, p) + p <= k * p
  {
    WholePages(d, k, p);
  }

  /** If the mask takes x below its page, writing 0xFF over zeros leaves a zero at x. */
  lemma ByteIsLost(layout: seq<Segment>, s: Segment, k: nat, x: nat)
    requires Disjoint(layout) && s in layout && s.pageSize > 0 && k < s.numPages
    requires s.addr + k * s.pageSize <= x < s.addr + (k + 1) * s.pageSize
    requires PageAddress(x, s.pageSize) < s.addr + k * s.pageSize
    ensures !EveryWriteHolds(layout)
  {
    hide PageAddress, ErasePage, BitAnd;
    var m: Memory := seq(x + 1, _ => 0);
    InPage(s, x, k);
    SegmentUnique(layout, s, x);
    EraseMisses(m, layout, s, x, k, PageAddress(x, s.pageSize));
    FlashedByte(m, layout, x, 255);
    var after := Flashed(m, layout, false, x, 1, [255]);
    NothingThere();
    assert after[x] == 0;
    assert Covered(layout, x, x + 1);
    assert !DataThere(after, x, [255]);
    assert |[255]| == 1;
  }

  lemma NothingThere()
    ensures And(0, 255) == 0
  {
  }

  // ----- what a layout must not have -----

  lemma PageFails(layout: seq<Segment>, s: Segment, k: nat)
    requires Disjoint(layout) && s in layout && s.pageSize > 0 && k < s.numPages
    requires !OnGrid(s.addr + k * s.pageSize, s.pageSize)
    ensures !EveryWriteHolds(layout)
  {
    hide OnGrid, BitAnd, PageAddress, EveryWriteHolds;
    var start := s.addr + k * s.pageSize;
    var d := MisalignedLeaves(start, s.pageSize);
    assert (k + 1) * s.pageSize == k * s.pageSize + s.pageSize;
    MaskedAt(start + d, s.pageSize);
    ByteIsLost(layout, s, k, start + d);
  }

  lemma TwoAlignedPages(b: nat, p: nat)
    requires p > 0 && OnGrid(b, p) && OnGrid(b + p, p)
    ensures p == RoundUp(p)
  {
    var r := RoundUp(p);
    if p < r {
      var q := b / r;
      assert b == q * r;
      DivModUnique(b + p, r, q, p);
    }
  }

  /** Aligned to the rounded-up page size, which a segment of several pages must equal. */
  predicate Usable(s: Segment) {
    s.numPages > 0 && s.pageSize > 0 ==>
      && OnGrid(s.addr, s.pageSize)
      && (s.numPages == 1 || s.pageSize == RoundUp(s.pageSize))
  }

  lemma HoldsOnlyIfUsable(layout: seq<Segment>, s: Segment)
    requires Disjoint(layout) && s in layout && EveryWriteHolds(layout)
    ensures Usable(s)
  {
    hide EveryWriteHolds;
    if s.numPages > 0 && s.pageSize > 0 {
      assert 0 * s.pageSize == 0 && 1 * s.pageSize == s.pageSize;
      if !OnGrid(s.addr, s.pageSize) {
        PageFails(layout, s, 0);
      } else if s.numPages >= 2 {
        if !OnGrid(s.addr + s.pageSize, s.pageSize) {
          PageFails(layout, s, 1);
        }
        TwoAlignedPages(s.addr, s.pageSize);
      }
    }
  }

  /** In a page whose size is not a power of two some address is masked to one above the page start. */
  lemma {:induction false} MaskedInside(b: nat, p: nat) returns (d: nat)
    requires p > 0 && p != RoundUp(p) && OnGrid(b, p)
    ensures d < p && BitAnd(b + d, p - 1) < d
    decreases p
  {
    hide BitAnd, RoundUp, OnGrid;
    OnGridOfOne(b);
    OnGridStep(b, p);
    RoundUpStep(p);
    var h := (p + 1) / 2;
    if p % 2 == 1 {
      d := 1;
      MaskStep(b, p, d);
      AlignedStays(b / 2, h, 0);
    } else {
      var e := MaskedInside(b / 2, h);
      d := 2 * e;
      MaskStep(b, p, d);
    }
  }

  /** A single page of another size, with something mapped right behind it. */
  predicate Overrun(layout: seq<Segment>, s: Segment) {
    && s.numPages == 1 && s.pageSize > 0 && s.pageSize != RoundUp(s.pageSize)
    && SegmentOf(layout, s.addr + s.pageSize) != []
  }

  /** A write that runs over the end of such a page does not stop there, and what lies behind is
      not erased. */
  lemma OverrunFails(layout: seq<Segment>, s: Segment)
    requires Disjoint(layout) && s in layout && Usable(s) && Overrun(layout, s)
    ensures !EveryWriteHolds(layout)
  {
    hide PageAddress, BitAnd, ErasePage, SegmentOf, Usable;
    var p := s.pageSize;
    assert OnGrid(s.addr, p) by { UsableStart(s); }
    var d := MaskedInside(s.addr, p);
    var x, size, end := s.addr + d, p - d + 1, s.addr + p;
    var m: Memory, data: seq<byte> := seq(end + 1, _ => 0), seq(size, _ => 255);
    MaskedAt(x, p);
    var a := PageAddress(x, p);
    AlignedStays(s.addr, p, d);
    SegmentUnique(layout, s, x);
    SegmentUnique(layout, s, a);
    PageOf(s, a, 0);
    ErasedAround(m, layout, s, a, s.addr);
    OneRound(m, layout, x, data);
    var after := Flashed(m, layout, false, x, size, data);
    NothingThere();
    assert after[end] == 0 && data[size - 1] == 255;
    CoveredToEnd(layout, s, x, end);
    assert !DataThere(after, x, data) by { assert after[x..x + size][size - 1] == after[end]; }
    assert |data| == size;
  }

  lemma UsableStart(s: Segment)
    requires Usable(s) && s.numPages > 0 && s.pageSize > 0
    ensures OnGrid(s.addr, s.pageSize)
    ensures s.numPages == 1 || s.pageSize == RoundUp(s.pageSize)
  {
  }

  lemma MaskedAt(x: nat, p: nat)
    requires p > 0
    ensures PageAddress(x, p) == x - BitAnd(x, p - 1)
  {
    BitAndBounded(x, p - 1);
  }

  lemma CoveredToEnd(layout: seq<Segment>, s: Segment, x: nat, end: nat)
    requires Disjoint(layout) && s in layout && s.addr <= x && end == s.addr + s.Size() && SegmentOf(layout, end) != []
    ensures Covered(layout, x, end + 1)
  {
    hide SegmentOf;
    forall y | x <= y < end + 1
      ensures SegmentOf(layout, y) != []
    {
      if y < end {
        SegmentUnique(layout, s, y);
      }
    }
  }

  /** The remainder of an offset within page k. */
  lemma PageOf(s: Segment, a: nat, k: nat)
    requires s.pageSize > 0 && s.addr + k * s.pageSize <= a < s.addr + k * s.pageSize + s.pageSize
    ensures Rem(a - s.addr, s.pageSize) == a - s.addr - k * s.pageSize
  {
    DivModUnique(a - s.addr, s.pageSize, k, a - s.addr - k * s.pageSize);
  }

  /** A write that ends before the end of the masked page takes one round. */
  lemma OneRound(m: Memory, layout: seq<Segment>, x: nat, data: seq<byte>)
    requires data != [] && RoundSize(layout, false, x, |data|) == |data|
    ensures Flashed(m, layout, false, x, |data|, data) == Program(RoundErase(m, layout, false, x), x, data)
  {
    hide PageAddress, BitAnd, SegmentOf, RoundErase, Program, RoundSize;
    FlashedRound(m, layout, x, |data|, data);
    assert data[..|data|] == data;
    FlashedNothing(Program(RoundErase(m, layout, false, x), x, data), layout, x + |data|, data[|data|..]);
  }

  // ----- what is left serves every write -----

  ghost predicate Serves(layout: seq<Segment>) {
    forall s <- layout :: Usable(s) && !Overrun(layout, s)
  }

  /** The start of the page that holds x. */
  function Floor(layout: seq<Segment>, x: nat): nat {
    var s := SegmentOf(layout, x);
    if s == [] then x else x - Rem(x - s[0].addr, s[0].pageSize)
  }

  /** The number of the page of a segment that holds x. */
  lemma PageNumber(s: Segment, x: nat) returns (k: nat)
    requires s.Contains(x) && s.pageSize > 0
    ensures k < s.numPages && s.addr + k * s.pageSize <= x < s.addr + k * s.pageSize + s.pageSize
  {
    var d, p := x - s.addr, s.pageSize;
    k := d / p;
    assert d == k * p + d % p;
    if k >= s.numPages {
      MulMonotone(s.numPages, k, p);
    }
  }

  /** Every page of a usable segment starts at a multiple of the rounded-up page size. */
  lemma PagesStartAligned(s: Segment, k: nat)
    requires Usable(s) && s.pageSize > 0 && k < s.numPages
    ensures OnGrid(s.addr + k * s.pageSize, s.pageSize)
  {
    UsableStart(s);
    var r := RoundUp(s.pageSize);
    if s.numPages == 1 {
      assert k * s.pageSize == 0;
    } else {
      var q := s.addr / r;
      assert s.addr == q * r;
      assert (q + k) * r == q * r + k * r;
      DivModUnique(s.addr + k * r, r, q + k, 0);
    }
  }

  /** The mask stays in the page, so the page written to is the page erased. */
  lemma ErasesOwnPage(m: Memory, layout: seq<Segment>, s: Segment, x: nat)
    requires Disjoint(layout) && s in layout && Usable(s) && s.Contains(x) && s.pageSize > 0
    ensures SegmentOf(layout, x) == [s]
    ensures Floor(layout, x) <= PageAddress(x, s.pageSize) <= x < Floor(layout, x) + s.pageSize
    ensures s.addr <= Floor(layout, x) && Floor(layout, x) + s.pageSize <= s.addr + s.Size()
    ensures RoundErase(m, layout, false, x) == Fill(m, Floor(layout, x), s.pageSize)
  {
    hide BitAnd, PageAddress, SegmentOf, Rem, Usable, ErasePage, Fill;
    SegmentUnique(layout, s, x);
    var k := PageNumber(s, x);
    var start := s.addr + k * s.pageSize;
    MulMonotone(k + 1, s.numPages, s.pageSize);
    assert (k + 1) * s.pageSize == k * s.pageSize + s.pageSize;
    PageOf(s, x, k);
    assert Floor(layout, x) == start;
    PagesStartAligned(s, k);
    AlignedStays(start, s.pageSize, x - start);
    MaskedAt(x, s.pageSize);
    var a := PageAddress(x, s.pageSize);
    SegmentUnique(layout, s, a);
    PageOf(s, a, k);
    ErasedAround(m, layout, s, a, start);
  }

  /** In aligned pages of a power of two the mask finds the page start itself. */
  lemma PowerFindsStart(layout: seq<Segment>, s: Segment, x: nat)
    requires Disjoint(layout) && s in layout && Usable(s) && s.Contains(x) && s.pageSize == RoundUp(s.pageSize)
    ensures SegmentOf(layout, x) == [s] && PageAddress(x, s.pageSize) == Floor(layout, x)
  {
    hide BitAnd, PageAddress, SegmentOf, Usable;
    SegmentUnique(layout, s, x);
    UsableStart(s);
    var k := RoundUpIsPower(s.pageSize);
    MaskAligns(x, s.pageSize, k);
    hide Rem;
    AlignedRem(s.addr, s.pageSize);
    OffsetRemainder(s.addr, x, s.pageSize);
  }

  lemma AlignedRem(x: nat, p: nat)
    requires p > 0 && x % p == 0
    ensures Rem(x, p) == 0
  {
  }

  /** Where one page ends and the range goes on, the next page starts. */
  lemma NextFloor(layout: seq<Segment>, s: Segment, x: nat)
    requires Disjoint(layout) && s in layout && Usable(s) && s.Contains(x) && s.pageSize > 0
    requires var y := Floor(layout, x) + s.pageSize; SegmentOf(layout, y) != []
    ensures var y := Floor(layout, x) + s.pageSize; Floor(layout, y) == y
  {
    hide BitAnd, PageAddress, SegmentOf, Usable, Rem, ErasePage;
    ErasesOwnPage([], layout, s, x);
    var y := Floor(layout, x) + s.pageSize;
    var t := SegmentOf(layout, y)[0];
    var k := PageNumber(s, x);
    PageOf(s, x, k);
    if t.Contains(y - 1) {
      assert s.Contains(y - 1) && t == s;
      assert (k + 1) * s.pageSize == k * s.pageSize + s.pageSize;
      PageOf(s, y, k + 1);
    } else {
      assert y == t.addr && 0 * t.pageSize == 0;
      PageOf(t, y, 0);
    }
  }

  /** One round: the bytes it writes are in place, bytes below its page are untouched, and the next
      round starts at a page. */
  lemma RoundServes(m: Memory, layout: seq<Segment>, addr: nat, data: seq<byte>)
    requires Disjoint(layout) && Serves(layout) && data != [] && Covered(layout, addr, addr + |data|)
    ensures var n := RoundSize(layout, false, addr, |data|);
      var m1 := Program(RoundErase(m, layout, false, addr), addr, data[..n]);
      && |m1| == |m|
      && (forall x :: addr <= x < addr + n && x < |m| ==> m1[x] == data[x - addr])
      && (forall x :: 0 <= x < Floor(layout, addr) && x < |m| ==> m1[x] == m[x])
      && (n < |data| ==> Floor(layout, addr + n) == addr + n)
  {
    hide BitAnd, PageAddress, SegmentOf, Usable, Rem, ErasePage, RoundErase, Floor, Overrun, Program, Fill, RoundSize, Disjoint;
    assert SegmentOf(layout, addr) != [];
    var s := SegmentOf(layout, addr)[0];
    assert s in layout && Usable(s) && !Overrun(layout, s);
    hide Serves, Covered;
    var n := RoundSize(layout, false, addr, |data|);
    ErasesOwnPage(m, layout, s, addr);
    RoundFits(layout, s, addr, |data|);
    if n < |data| {
      NextFloor(layout, s, addr);
    }
    ErasedThenWritten(m, Floor(layout, addr), s.pageSize, addr, data[..n]);
  }

  /** What is written inside an erased page reads back; what is below the page stays. */
  lemma ErasedThenWritten(m: Memory, start: nat, size: nat, at: nat, data: seq<byte>)
    requires start <= at && at + |data| <= start + size
    ensures var after := Program(Fill(m, start, size), at, data);
      && |after| == |m|
      && (forall x :: at <= x < at + |data| && x < |m| ==> after[x] == data[x - at])
      && (forall x :: 0 <= x < start && x < |m| ==> after[x] == m[x])
  {
    forall x | 0 <= x < |m| && at <= x < at + |data|
      ensures Program(Fill(m, start, size), at, data)[x] == data[x - at]
    {
      AndErased(data[x - at]);
    }
  }

  /** A round stays in its page, and stops before the data ends only at the end of the page. */
  lemma RoundFits(layout: seq<Segment>, s: Segment, addr: nat, size: nat)
    requires Disjoint(layout) && s in layout && Usable(s) && !Overrun(layout, s) && s.Contains(addr) && s.pageSize > 0
    requires size > 0 && Covered(layout, addr, addr + size)
    ensures var n := RoundSize(layout, false, addr, size);
      && addr + n <= Floor(layout, addr) + s.pageSize
      && (n < size ==> addr + n == Floor(layout, addr) + s.pageSize && SegmentOf(layout, addr + n) != [])
  {
    hide BitAnd, PageAddress, SegmentOf, Usable, Rem, ErasePage, RoundErase, Floor;
    ErasesOwnPage([], layout, s, addr);
    UsableStart(s);
    assert addr + size > s.addr + s.pageSize ==> SegmentOf(layout, s.addr + s.pageSize) != [];
    if s.pageSize == RoundUp(s.pageSize) {
      PowerFindsStart(layout, s, addr);
    }
  }

  /** All rounds together. */
  lemma {:induction false} WriteServes(m: Memory, layout: seq<Segment>, addr: nat, data: seq<byte>)
    requires Disjoint(layout) && Serves(layout) && Covered(layout, addr, addr + |data|)
    ensures var after := Flashed(m, layout, false, addr, |data|, data);
      && |after| == |m|
      && (forall x :: addr <= x < addr + |data| && x < |m| ==> after[x] == data[x - addr])
      && (forall x :: 0 <= x < Floor(layout, addr) && x < |m| ==> after[x] == m[x])
    decreases |data|
  {
    hide BitAnd, PageAddress, SegmentOf, RoundErase, Program, RoundSize, Flashed, Floor, Serves;
    if data == [] {
      FlashedNothing(m, layout, addr, data);
    } else {
      RoundServes(m, layout, addr, data);
      FlashedRound(m, layout, addr, |data|, data);
      var n := RoundSize(layout, false, addr, |data|);
      var m1 := Program(RoundErase(m, layout, false, addr), addr, data[..n]);
      WriteServes(m1, layout, addr + n, data[n..]);
      if n < |data| {
        FloorBelow(layout, addr);
      } else {
        FlashedNothing(m1, layout, addr + n, data[n..]);
      }
    }
  }

  lemma FloorBelow(layout: seq<Segment>, x: nat)
    ensures Floor(layout, x) <= x
  {
  }

  lemma ServesEveryWrite(layout: seq<Segment>)
    requires Disjoint(layout) && Serves(layout)
    ensures EveryWriteHolds(layout)
  {
    hide Serves, Disjoint;
    forall m: Memory, addr: nat, data: seq<byte> | Covered(layout, addr, addr + |data|) && addr + |data| <= |m|
      ensures DataThere(Flashed(m, layout, false, addr, |data|, data), addr, data)
    {
      hide Flashed, Covered, Floor, DataThere;
      WriteServes(m, layout, addr, data);
      AllThere(Flashed(m, layout, false, addr, |data|, data), addr, data);
    }
  }

  lemma AllThere(m: Memory, addr: nat, data: seq<byte>)
    requires addr + |data| <= |m| && forall x :: addr <= x < addr + |data| ==> m[x] == data[x - addr]
    ensures DataThere(m, addr, data)
  {
  }

  // ----- the exact condition -----

  /** Disjoint segments of any sizes and numbers of pages: every covered write leaves its data in
      place, for every memory, if and only if each segment starts at a multiple of its rounded-up
      page size, has a single page or pages of a power of two, and, where its single page is not a
      power of two, has nothing mapped right behind it. */
  lemma HoldsIffServes(layout: seq<Segment>)
    requires Disjoint(layout)
    ensures EveryWriteHolds(layout) <==> Serves(layout)
  {
    hide EveryWriteHolds, Usable, Overrun;
    if EveryWriteHolds(layout) {
      forall s | s in layout
        ensures Usable(s) && !Overrun(layout, s)
      {
        HoldsOnlyIfUsable(layout, s);
        if Overrun(layout, s) {
          OverrunFails(layout, s);
        }
      }
    }
    if Serves(layout) {
      ServesEveryWrite(layout);
    }
  }

  /** For a segment alone: aligned, and a single page or pages of a power of two. */
  lemma HoldsIffUsable(s: Segment)
    ensures EveryWriteHolds([s]) <==> Usable(s)
  {
    hide EveryWriteHolds, Usable;
    HoldsIffServes([s]);
    assert forall t <- [s] :: t == s;
    assert s in [s];
    assert !Overrun([s], s);
  }

  /** With two pages or more in every segment, that is exactly a good layout. */
  lemma HoldsIffGood(layout: seq<Segment>)
    requires Disjoint(layout) && forall s <- layout :: s.numPages >= 2 && s.pageSize > 0
    ensures EveryWriteHolds(layout) <==> GoodLayout(layout)
  {
    hide EveryWriteHolds, GoodSegment, Usable;
    HoldsIffServes(layout);
    forall s | s in layout
      ensures Usable(s) <==> GoodSegment(s)
    {
      UsableIffGood(s);
    }
  }

  lemma UsableIffGood(s: Segment)
    requires s.numPages >= 2 && s.pageSize > 0
    ensures Usable(s) <==> GoodSegment(s)
  {
    if Usable(s) {
      var k := RoundUpIsPower(s.pageSize);
    }
    if GoodSegment(s) {
      var k: nat :| s.pageSize == Pow2(k);
      PowerIsItsRoundUp(k);
    }
  }

  /** Across the border of two pages whose size is not a power of two, the second of two written
      bytes erases the first. */
  lemma OddPagesLoseBytes(n: nat, p: nat, m: Memory)
    requires n >= 2 && p > 0 && p != RoundUp(p) && |m| > p
    ensures var s := Segment(0, n, p);
      && Covered([s], p - 1, p + 1)
      && Flashed(m, [s], false, p - 1, 2, [0, 0])[p - 1] == 255
  {
    hide PageAddress, BitAnd, SegmentOf, ErasePage, Program, RoundErase, Flashed, RoundUp;
    var s := Segment(0, n, p);
    OddMask(p);
    MulMonotone(2, n, p);
    SegmentHere(s, p - 1);
    SegmentHere(s, p);
    var m1 := TwoRounds(m, [s], p - 1);
    SecondErase(s, m1);
    ProgrammedElsewhere(RoundErase(m1, [s], false, p), p, [0], p - 1);
  }

  /** Two bytes whose border is the end of a masked page take two rounds. */
  lemma TwoRounds(m: Memory, layout: seq<Segment>, x: nat) returns (m1: Memory)
    requires RoundSize(layout, false, x, 2) == 1
    ensures |m1| == |m|
    ensures Flashed(m, layout, false, x, 2, [0, 0]) == Program(RoundErase(m1, layout, false, x + 1), x + 1, [0])
  {
    hide PageAddress, BitAnd, SegmentOf, ErasePage, Program, RoundErase, RoundSize;
    var two: seq<byte> := [0, 0];
    m1 := Program(RoundErase(m, layout, false, x), x, two[..1]);
    RoundKeepsLength(m, layout, x, two[..1]);
    FlashedRound(m, layout, x, 2, two);
    assert two[1..] == [0];
    FlashedByte(m1, layout, x + 1, 0);
  }

  /** The round of the second page erases the first. */
  lemma SecondErase(s: Segment, m: Memory)
    requires s.addr == 0 && s.numPages >= 2 && s.pageSize > 0 && s.pageSize != RoundUp(s.pageSize)
    ensures RoundErase(m, [s], false, s.pageSize) == Fill(m, 0, s.pageSize)
  {
    hide PageAddress, BitAnd, SegmentOf, ErasePage, Fill;
    var p := s.pageSize;
    var a := PageAddress(p, p);
    OddMask(p);
    MulMonotone(2, s.numPages, p);
    SegmentHere(s, p);
    SegmentHere(s, a);
    SmallRemainder(a, p);
    ErasedAround(m, [s], s, a, 0);
  }

  lemma OddMask(p: nat)
    requires p > 0 && p != RoundUp(p)
    ensures PageAddress(p - 1, p) == 0 && 0 < PageAddress(p, p) < p
  {
    BitAndSelf(p - 1);
    PowerIffNoCommonBit(p);
  }

  lemma SegmentHere(s: Segment, x: nat)
    requires s.Contains(x)
    ensures SegmentOf([s], x) == [s]
  {
  }

  lemma SmallRemainder(a: nat, p: nat)
    requires a < p
    ensures Rem(a, p) == a
  {
    DivModUnique(a, p, 0, a);
  }

  lemma ProgrammedElsewhere(m: Memory, at: nat, data: seq<byte>, x: nat)
    requires x < |m| && x < at
    ensures Program(m, at, data)[x] == m[x]
  {
  }
}
