/** Writing DFU elements into flash: erase a page to 0xFF, then clear bits. */
module Flash {
  import opened Bytes

  datatype Segment = Segment(addr: nat, numPages: nat, pageSize: nat) {
    function Size(): nat { numPages * pageSize }
    predicate Contains(x: nat) { addr <= x < addr + Size() }
  }

  datatype Element = Element(addr: nat, size: nat, data: seq<byte>)

  /** The bytes of the device, by address. */
  type Memory = seq<byte>

  // ----- integer bit operations -----

  function BitAnd(a: nat, b: nat): nat {
    if a == 0 || b == 0 then 0 else 2 * BitAnd(a / 2, b / 2) + (a % 2) * (b % 2)
  }

  /** addr & ~(pageSize - 1) on unbounded integers */
  function PageAddress(addr: nat, pageSize: nat): (p: nat)
    requires pageSize > 0
    ensures p <= addr < p + pageSize
  {
    BitAndBounded(addr, pageSize - 1);
    addr - BitAnd(addr, pageSize - 1)
  }

  lemma {:induction false} BitAndBounded(a: nat, b: nat)
    ensures BitAnd(a, b) <= a && BitAnd(a, b) <= b
  {
    if a != 0 && b != 0 {
      BitAndBounded(a / 2, b / 2);
      assert a == 2 * (a / 2) + a % 2 && b == 2 * (b / 2) + b % 2;
      assert (a % 2) * (b % 2) <= a % 2 && (a % 2) * (b % 2) <= b % 2 by {
        if a % 2 == 0 {} else { assert a % 2 == 1; }
      }
    }
  }

  /** Masking with a power of two less one takes the remainder. */
  lemma {:induction false} MaskIsRemainder(a: nat, k: nat)
    ensures BitAnd(a, Pow2(k) - 1) == a % Pow2(k)
  {
    if k == 0 {
      assert BitAnd(a, 0) == 0;
    } else {
      var h := Pow2(k - 1);
      MaskIsRemainder(a / 2, k - 1);
      HalfRemainder(a, h);
      assert (2 * h - 1) / 2 == h - 1 && (2 * h - 1) % 2 == 1;
      if a == 0 {
        assert 0 % Pow2(k) == 0;
      } else {
        assert BitAnd(a, 2 * h - 1) == 2 * BitAnd(a / 2, h - 1) + a % 2;
      }
    }
  }

  lemma HalfRemainder(a: nat, h: nat)
    requires h > 0
    ensures a % (2 * h) == 2 * (a / 2 % h) + a % 2
  {
    var q, r := a / 2 / h, a / 2 % h;
    assert a / 2 == q * h + r;
    assert a == q * (2 * h) + (2 * r + a % 2);
    DivModUnique(a, 2 * h, q, 2 * r + a % 2);
  }

  // ----- the abstract device -----

  /** What a cell reads after a write: bits can only be cleared. */
  function And(cell: byte, data: byte): byte {
    BitAndBounded(data, cell);
    BitAnd(data, cell)
  }

  lemma AndErased(b: byte)
    ensures And(255, b) == b
  {
    assert Pow2(4) == 16 && Pow2(8) == 256;
    MaskIsRemainder(b, 8);
  }

  function Fill(m: Memory, from: nat, size: nat): (m': Memory)
    ensures |m'| == |m|
    ensures forall x :: 0 <= x < |m| ==> m'[x] == if from <= x < from + size then 255 else m[x]
  {
    seq(|m|, x requires 0 <= x < |m| => if from <= x < from + size then 255 else m[x])
  }

  function Program(m: Memory, at: nat, data: seq<byte>): (m': Memory)
    ensures |m'| == |m|
    ensures forall x :: 0 <= x < |m| ==> m'[x] == if at <= x < at + |data| then And(m[x], data[x - at]) else m[x]
  {
    seq(|m|, x requires 0 <= x < |m| => if at <= x < at + |data| then And(m[x], data[x - at]) else m[x])
  }

  lemma NonEmptyPages(s: Segment, x: nat)
    requires s.Contains(x)
    ensures s.pageSize > 0
  {
  }

  /** The first segment that holds the address. */
  function SegmentOf(layout: seq<Segment>, x: nat): (r: seq<Segment>)
    ensures |r| <= 1
    ensures |r| == 1 ==> r[0] in layout && r[0].Contains(x) && r[0].pageSize > 0
    ensures |r| == 0 ==> forall s :: s in layout ==> !s.Contains(x)
  {
    if |layout| == 0 then []
    else if layout[0].Contains(x) then
      NonEmptyPages(layout[0], x);
      [layout[0]]
    else SegmentOf(layout[1..], x)
  }

  /** What the device does on a page erase: the whole page around the address it is given. */
  function ErasePage(m: Memory, layout: seq<Segment>, x: nat): (m': Memory)
    ensures |m'| == |m|
  {
    var s := SegmentOf(layout, x);
    if s == [] then m else Fill(m, x - Rem(x - s[0].addr, s[0].pageSize), s[0].pageSize)
  }

  datatype Command = Erase(page: nat) | Write(at: nat, size: nat)

  class Device {
    const layout: seq<Segment>
    const transferSize: nat
    var memory: Memory
    var target: nat
    var commands: seq<Command>

    constructor (layout: seq<Segment>, transferSize: nat, memory: Memory)
      ensures this.layout == layout && this.transferSize == transferSize && this.memory == memory && commands == []
    {
      this.layout, this.transferSize, this.memory := layout, transferSize, memory;
      target, commands := 0, [];
    }

    method PageErase(x: nat)
      modifies this
      ensures memory == ErasePage(old(memory), layout, x) && commands == old(commands) + [Erase(x)]
    {
      memory, commands := ErasePage(memory, layout, x), commands + [Erase(x)];
    }

    method MassErase()
      modifies this`memory
      ensures memory == Fill(old(memory), 0, |old(memory)|)
    {
      memory := Fill(memory, 0, |memory|);
    }

    method SetAddress(x: nat)
      modifies this`target
      ensures target == x
    {
      target := x;
    }

    method Download(data: seq<byte>)
      modifies this
      ensures memory == Program(old(memory), old(target), data) && target == old(target)
      ensures commands == old(commands) + [Write(old(target), |data|)]
    {
      memory, commands := Program(memory, target, data), commands + [Write(target, |data|)];
    }
  }

  // ----- write_memory -----

  function Writes(at: nat, size: nat, chunk: nat): seq<Command>
    requires chunk > 0
    decreases size
  {
    if size == 0 then []
    else
      var n := if chunk < size then chunk else size;
      [Write(at, n)] + Writes(at + n, size - n, chunk)
  }

  lemma ProgramTwice(m: Memory, at: nat, a: seq<byte>, b: seq<byte>)
    ensures Program(Program(m, at, a), at + |a|, b) == Program(m, at, a + b)
  {
  }

  lemma WritesStep(at: nat, size: nat, chunk: nat, n: nat)
    requires size > 0 && n == (if chunk < size then chunk else size) > 0
    ensures Writes(at, size, chunk) == [Write(at, n)] + Writes(at + n, size - n, chunk)
  {
  }

  lemma NoWrites(at: nat, chunk: nat, m: Memory)
    requires chunk > 0
    ensures Writes(at, 0, chunk) == [] && Program(m, at, []) == m
  {
  }

  method WriteMemory(dev: Device, addr: nat, buf: seq<byte>)
    requires dev.transferSize > 0
    modifies dev
    ensures dev.memory == Program(old(dev.memory), addr, buf)
    ensures dev.commands == old(dev.commands) + Writes(addr, |buf|, dev.transferSize)
  {
    hide Program, Writes;
    var done := 0;
    ghost var before, cmds := dev.memory, dev.commands;
    NoWrites(addr + |buf|, dev.transferSize, before);
    while done < |buf|
      invariant 0 <= done <= |buf|
      invariant dev.memory == Program(before, addr, buf[..done])
      invariant dev.commands + Writes(addr + done, |buf| - done, dev.transferSize)
             == cmds + Writes(addr, |buf|, dev.transferSize)
    {
      dev.SetAddress(addr + done);
      var chunk := if dev.transferSize < |buf| - done then dev.transferSize else |buf| - done;
      ProgramTwice(before, addr, buf[..done], buf[done..done + chunk]);
      assert buf[..done + chunk] == buf[..done] + buf[done..done + chunk];
      WritesStep(addr + done, |buf| - done, dev.transferSize, chunk);
      CommandsAssociate(dev.commands, [Write(addr + done, chunk)], Writes(addr + done + chunk, |buf| - done - chunk, dev.transferSize));
      dev.Download(buf[done..done + chunk]);
      done := done + chunk;
    }
    assert buf[..done] == buf;
  }

  lemma CommandsAssociate(a: seq<Command>, b: seq<Command>, c: seq<Command>)
    ensures a + b + c == a + (b + c)
  {
  }

  // ----- write_elements -----

  /** How much the next round writes: up to the end of the page, or everything. */
  function RoundSize(layout: seq<Segment>, massErased: bool, addr: nat, size: nat): (n: nat)
    requires size > 0
    ensures 0 < n <= size
  {
    var s := SegmentOf(layout, addr);
    if massErased || s == [] then size
    else
      var end := PageAddress(addr, s[0].pageSize) + s[0].pageSize;
      if addr + size > end then end - addr else size
  }

  function RoundErase(m: Memory, layout: seq<Segment>, massErased: bool, addr: nat): Memory {
    var s := SegmentOf(layout, addr);
    if massErased || s == [] then m else ErasePage(m, layout, PageAddress(addr, s[0].pageSize))
  }

  function RoundCommands(layout: seq<Segment>, massErased: bool, addr: nat): seq<Command> {
    var s := SegmentOf(layout, addr);
    if massErased || s == [] then [] else [Erase(PageAddress(addr, s[0].pageSize))]
  }

  function Flashed(m: Memory, layout: seq<Segment>, massErased: bool, addr: nat, size: nat, data: seq<byte>): (m': Memory)
    decreases size
  {
    if size == 0 then m
    else
      var n := RoundSize(layout, massErased, addr, size);
      Flashed(Program(RoundErase(m, layout, massErased, addr), addr, Take(data, n)),
              layout, massErased, addr + n, size - n, Drop(data, n))
  }

  function FlashCommands(layout: seq<Segment>, massErased: bool, chunk: nat, addr: nat, size: nat, have: nat): seq<Command>
    requires chunk > 0
    decreases size
  {
    if size == 0 then []
    else
      var n := RoundSize(layout, massErased, addr, size);
      RoundCommands(layout, massErased, addr)
      + Writes(addr, if n <= have then n else have, chunk)
      + FlashCommands(layout, massErased, chunk, addr + n, size - n, if n <= have then have - n else 0)
  }

  lemma FlashedStep(m: Memory, layout: seq<Segment>, massErased: bool, addr: nat, size: nat, data: seq<byte>)
    requires size > 0
    ensures var n := RoundSize(layout, massErased, addr, size);
      Flashed(m, layout, massErased, addr, size, data)
      == Flashed(Program(RoundErase(m, layout, massErased, addr), addr, Take(data, n)), layout, massErased, addr + n,
                 size - n, Drop(data, n))
  {
    hide RoundErase, RoundSize, Program;
  }

  lemma FlashCommandsStep(layout: seq<Segment>, massErased: bool, chunk: nat, addr: nat, size: nat, data: seq<byte>)
    requires size > 0 && chunk > 0
    ensures var n := RoundSize(layout, massErased, addr, size);
      FlashCommands(layout, massErased, chunk, addr, size, |data|)
      == RoundCommands(layout, massErased, addr) + Writes(addr, |Take(data, n)|, chunk)
         + FlashCommands(layout, massErased, chunk, addr + n, size - n, |Drop(data, n)|)
  {
    hide RoundCommands, RoundSize, Writes;
  }

  lemma NothingToFlash(m: Memory, layout: seq<Segment>, massErased: bool, chunk: nat, addr: nat, data: seq<byte>)
    requires chunk > 0
    ensures Flashed(m, layout, massErased, addr, 0, data) == m
    ensures FlashCommands(layout, massErased, chunk, addr, 0, |data|) == []
  {
  }

  method WriteElement(dev: Device, elem: Element, massErased: bool)
    requires dev.transferSize > 0
    modifies dev
    ensures dev.memory == Flashed(old(dev.memory), dev.layout, massErased, elem.addr, elem.size, elem.data)
    ensures dev.commands == old(dev.commands)
      + FlashCommands(dev.layout, massErased, dev.transferSize, elem.addr, elem.size, |elem.data|)
  {
    hide PageAddress, Program, Writes, SegmentOf, RoundSize, RoundErase, RoundCommands, Flashed, FlashCommands, Take, Drop;
    var addr: nat, size: nat, data := elem.addr, elem.size, elem.data;
    ghost var before, cmds := dev.memory, dev.commands;
    ghost var all := FlashCommands(dev.layout, massErased, dev.transferSize, addr, size, |data|);
    while size > 0
      invariant Flashed(dev.memory, dev.layout, massErased, addr, size, data)
             == Flashed(before, dev.layout, massErased, elem.addr, elem.size, elem.data)
      invariant dev.commands + FlashCommands(dev.layout, massErased, dev.transferSize, addr, size, |data|) == cmds + all
    {
      FlashedStep(dev.memory, dev.layout, massErased, addr, size, data);
      FlashCommandsStep(dev.layout, massErased, dev.transferSize, addr, size, data);
      ghost var sent := dev.commands;
      var writeSize := ErasePageOf(dev, massErased, addr, size);
      WriteMemory(dev, addr, Take(data, writeSize));
      CommandsRegroup(sent, RoundCommands(dev.layout, massErased, addr), Writes(addr, |Take(data, writeSize)|, dev.transferSize),
                      FlashCommands(dev.layout, massErased, dev.transferSize, addr + writeSize, size - writeSize,
                                    |Drop(data, writeSize)|));
      data := Drop(data, writeSize);
      addr := addr + writeSize;
      size := size - writeSize;
    }
    NothingToFlash(dev.memory, dev.layout, massErased, dev.transferSize, addr, data);
  }

  lemma CommandsRegroup(a: seq<Command>, b: seq<Command>, c: seq<Command>, d: seq<Command>)
    ensures a + b + c + d == a + (b + c + d)
  {
  }

  /** Erases the page the next write starts in and says how much may be written. */
  method ErasePageOf(dev: Device, massErased: bool, addr: nat, size: nat) returns (writeSize: nat)
    requires size > 0
    modifies dev
    ensures writeSize == RoundSize(dev.layout, massErased, addr, size)
    ensures dev.memory == RoundErase(old(dev.memory), dev.layout, massErased, addr)
    ensures dev.commands == old(dev.commands) + RoundCommands(dev.layout, massErased, addr)
  {
    writeSize := size;
    if !massErased {
      var s := FindSegment(dev.layout, addr);
      if s != [] {
        var pageAddr := PageAddress(addr, s[0].pageSize);
        if addr + writeSize > pageAddr + s[0].pageSize {
          writeSize := pageAddr + s[0].pageSize - addr;
        }
        dev.PageErase(pageAddr);
      }
    }
  }

  /** The scan over the layout, stopping at the first segment that holds the address. */
  method FindSegment(layout: seq<Segment>, addr: nat) returns (r: seq<Segment>)
    ensures r == SegmentOf(layout, addr)
  {
    for i := 0 to |layout|
      invariant SegmentOf(layout, addr) == SegmentOf(layout[i..], addr)
    {
      if layout[i].addr <= addr <= layout[i].addr + layout[i].Size() - 1 {
        return [layout[i]];
      }
      assert layout[i..][1..] == layout[i + 1..];
    }
    return [];
  }

  method WriteElements(dev: Device, elements: seq<Element>, massErased: bool)
    requires dev.transferSize > 0
    modifies dev
    ensures dev.memory == FlashedAll(old(dev.memory), dev.layout, massErased, elements)
  {
    ghost var before := dev.memory;
    for i := 0 to |elements|
      invariant FlashedAll(dev.memory, dev.layout, massErased, elements[i..])
             == FlashedAll(before, dev.layout, massErased, elements)
    {
      assert elements[i..][1..] == elements[i + 1..];
      WriteElement(dev, elements[i], massErased);
    }
  }

  function FlashedAll(m: Memory, layout: seq<Segment>, massErased: bool, elements: seq<Element>): Memory
    decreases |elements|
  {
    if |elements| == 0 then m
    else FlashedAll(Flashed(m, layout, massErased, elements[0].addr, elements[0].size, elements[0].data),
                    layout, massErased, elements[1..])
  }

  // ----- what ends up in flash -----

  /** Segments of whole power-of-two pages, each aligned to its page size, none overlapping. */
  ghost predicate GoodLayout(layout: seq<Segment>) {
    (forall s :: s in layout ==> GoodSegment(s)) && Disjoint(layout)
  }

  /** No address lies in two segments. */
  ghost predicate Disjoint(layout: seq<Segment>) {
    forall s, t, x :: s in layout && t in layout && s.Contains(x) && t.Contains(x) ==> s == t
  }

  predicate Covered(layout: seq<Segment>, from: nat, to: nat) {
    forall x :: from <= x < to ==> SegmentOf(layout, x) != []
  }

  function PageStart(layout: seq<Segment>, x: nat): nat {
    var s := SegmentOf(layout, x);
    if s == [] then x else PageAddress(x, s[0].pageSize)
  }

  function PageEnd(layout: seq<Segment>, x: nat): nat {
    var s := SegmentOf(layout, x);
    if s == [] then x + 1 else PageAddress(x, s[0].pageSize) + s[0].pageSize
  }

  function Rem(x: nat, p: nat): (r: nat)
    requires p > 0
    ensures r < p && r <= x
  {
    RemainderBounded(x, p);
    x % p
  }

  lemma RemainderBounded(x: nat, p: nat)
    requires p > 0
    ensures x % p <= x
  {
    assert x == x / p * p + x % p;
  }

  /** x - base leaves the same remainder as x when the base is aligned. */
  lemma OffsetRemainder(base: nat, x: nat, p: nat)
    requires p > 0 && base <= x && Rem(base, p) == 0
    ensures Rem(x, p) == Rem(x - base, p)
  {
    var a, q, r := base / p, (x - base) / p, (x - base) % p;
    assert base == a * p && x - base == q * p + r;
    assert (a + q) * p == a * p + q * p;
    DivModUnique(x, p, a + q, r);
  }

  /** The page around an offset of a whole number of pages lies within them, aligned. */
  lemma WholePages(d: nat, n: nat, p: nat)
    requires p > 0 && d < n * p
    ensures d - Rem(d, p) + p <= n * p
    ensures Rem(d - Rem(d, p), p) == 0
  {
    var q := d / p;
    assert d == q * p + d % p;
    if n <= q {
      MulMonotone(n, q, p);
    }
    MulMonotone(q + 1, n, p);
    assert (q + 1) * p == q * p + p;
    DivModUnique(q * p, p, q, 0);
  }

  lemma MaskAligns(x: nat, p: nat, k: nat)
    requires p == Pow2(k)
    ensures PageAddress(x, p) == x - Rem(x, p)
  {
    MaskIsRemainder(x, k);
  }

  ghost predicate GoodSegment(s: Segment) {
    s.pageSize > 0 && (exists k: nat :: s.pageSize == Pow2(k)) && Rem(s.addr, s.pageSize) == 0
  }

  lemma SegmentPage(s: Segment, x: nat)
    requires GoodSegment(s) && s.Contains(x)
    ensures var p := PageAddress(x, s.pageSize);
      && s.addr <= p && p + s.pageSize <= s.addr + s.Size()
      && Rem(p - s.addr, s.pageSize) == 0
  {
    hide Rem, BitAnd, Pow2, PageAddress;
    var k: nat :| s.pageSize == Pow2(k);
    MaskAligns(x, s.pageSize, k);
    OffsetRemainder(s.addr, x, s.pageSize);
    WholePages(x - s.addr, s.numPages, s.pageSize);
  }

  /** An aligned address is the start of its own page. */
  lemma AlignedStart(s: Segment, x: nat)
    requires GoodSegment(s) && s.Contains(x) && Rem(x - s.addr, s.pageSize) == 0
    ensures PageAddress(x, s.pageSize) == x
  {
    hide Rem, BitAnd, Pow2, PageAddress;
    var k: nat :| s.pageSize == Pow2(k);
    MaskAligns(x, s.pageSize, k);
    OffsetRemainder(s.addr, x, s.pageSize);
  }

  lemma SegmentUnique(layout: seq<Segment>, s: Segment, x: nat)
    requires Disjoint(layout) && s in layout && s.Contains(x)
    ensures SegmentOf(layout, x) == [s]
  {
    var r := SegmentOf(layout, x);
    assert r != [];
    assert r == [r[0]];
  }

  lemma ErasesAligned(m: Memory, layout: seq<Segment>, s: Segment, p: nat)
    requires SegmentOf(layout, p) == [s] && s.Contains(p) && s.pageSize > 0 && Rem(p - s.addr, s.pageSize) == 0
    ensures ErasePage(m, layout, p) == Fill(m, p, s.pageSize)
  {
    hide Rem, SegmentOf, Fill;
  }

  lemma ErasesItsPage(m: Memory, layout: seq<Segment>, x: nat)
    requires GoodLayout(layout) && SegmentOf(layout, x) != []
    ensures RoundErase(m, layout, false, x) == Fill(m, PageStart(layout, x), PageEnd(layout, x) - PageStart(layout, x))
  {
    hide Rem, BitAnd, Pow2, PageAddress, SegmentOf, ErasePage, Fill;
    var s := SegmentOf(layout, x)[0];
    SegmentPage(s, x);
    SegmentUnique(layout, s, PageAddress(x, s.pageSize));
    ErasesAligned(m, layout, s, PageAddress(x, s.pageSize));
  }

  /** The address after a page starts a page of its own, in this segment or the next. */
  lemma NextPageStarts(layout: seq<Segment>, x: nat)
    requires GoodLayout(layout) && SegmentOf(layout, x) != [] && SegmentOf(layout, PageEnd(layout, x)) != []
    ensures PageStart(layout, PageEnd(layout, x)) == PageEnd(layout, x)
  {
    hide Rem, BitAnd, Pow2, PageAddress;
    var s, y := SegmentOf(layout, x)[0], PageEnd(layout, x);
    var t := SegmentOf(layout, y)[0];
    SegmentPage(s, x);
    if t.Contains(y - 1) {
      SegmentUnique(layout, s, y - 1);
      SegmentUnique(layout, t, y - 1);
      assert [s][0] == [t][0];
      StepRemainder(PageStart(layout, x) - s.addr, s.pageSize);
    }
    AlignedStart(t, y);
  }

  lemma StepRemainder(d: nat, p: nat)
    requires p > 0 && Rem(d, p) == 0
    ensures Rem(d + p, p) == 0
  {
    assert (d / p + 1) * p == d / p * p + p;
    DivModUnique(d + p, p, d / p + 1, 0);
  }

  // ----- the main result -----

  /** Memory after the image has been written: the data, erased bytes up to the page borders,
      and everything else as before. */
  ghost predicate Holds(before: Memory, after: Memory, from: nat, to: nat, lo: nat, hi: nat, data: seq<byte>)
    requires from + |data| == to
  {
    && |after| == |before|
    && forall x :: 0 <= x < |before| ==>
         after[x] == if from <= x < to then data[x - from] else if lo <= x < hi then 255 else before[x]
  }

  /** One round of write_elements from a page start, or from the first address of all. */
  lemma RoundHolds(m: Memory, layout: seq<Segment>, addr: nat, size: nat, data: seq<byte>)
    requires GoodLayout(layout) && SegmentOf(layout, addr) != [] && size == |data| > 0
    ensures var n := RoundSize(layout, false, addr, size);
      && Holds(m, Program(RoundErase(m, layout, false, addr), addr, data[..n]), addr, addr + n,
               PageStart(layout, addr), PageEnd(layout, addr), data[..n])
      && (n < size ==> addr + n == PageEnd(layout, addr))
      && addr + n <= PageEnd(layout, addr)
  {
    hide Rem, BitAnd, Pow2, PageAddress;
    var n := RoundSize(layout, false, addr, size);
    var erased := RoundErase(m, layout, false, addr);
    ErasesItsPage(m, layout, addr);
    forall x | 0 <= x < |m| && addr <= x < addr + n
      ensures Program(erased, addr, data[..n])[x] == data[x - addr]
    {
      AndErased(data[x - addr]);
    }
  }

  lemma RemainderOfOffset(d: nat, k: nat, p: nat)
    requires p > 0 && Rem(d, p) == 0 && k < p
    ensures Rem(d + k, p) == k
  {
    DivModUnique(d + k, p, d / p, k);
  }

  /** Addresses up to the end of a page share that page. */
  lemma SamePage(layout: seq<Segment>, x: nat, y: nat)
    requires GoodLayout(layout) && SegmentOf(layout, x) != [] && x <= y < PageEnd(layout, x)
    ensures PageEnd(layout, y) == PageEnd(layout, x)
  {
    hide Rem, BitAnd, Pow2, PageAddress;
    var s := SegmentOf(layout, x)[0];
    var start := PageStart(layout, x);
    SegmentPage(s, x);
    assert s.Contains(y);
    SegmentUnique(layout, s, y);
    var k: nat :| s.pageSize == Pow2(k);
    MaskAligns(y, s.pageSize, k);
    OffsetRemainder(s.addr, y, s.pageSize);
    RemainderOfOffset(start - s.addr, y - start, s.pageSize);
  }

  lemma HoldsJoin(m: Memory, m1: Memory, m2: Memory, from: nat, mid: nat, to: nat, lo: nat, hi: nat, data: seq<byte>)
    requires lo <= from <= mid <= to <= hi && from + |data| == to
    requires Holds(m, m1, from, mid, lo, mid, data[..mid - from])
    requires Holds(m1, m2, mid, to, mid, hi, data[mid - from..])
    ensures Holds(m, m2, from, to, lo, hi, data)
  {
  }

  lemma FlashedRound(m: Memory, layout: seq<Segment>, addr: nat, size: nat, data: seq<byte>)
    requires |data| == size > 0
    ensures var n := RoundSize(layout, false, addr, size);
      Flashed(m, layout, false, addr, size, data)
      == Flashed(Program(RoundErase(m, layout, false, addr), addr, data[..n]), layout, false, addr + n, size - n, data[n..])
  {
    hide BitAnd, Pow2, PageAddress, Program, Fill, RoundErase, RoundSize, SegmentOf, Rem, ErasePage;
    var n := RoundSize(layout, false, addr, size);
    assert Take(data, n) == data[..n] && Drop(data, n) == data[n..];
  }

  /** Writing an element into covered, well laid out flash without a mass erase leaves exactly
      its data there, whatever the flash held before; bytes that share its first or last page
      read as erased, and every other byte is untouched. */
  lemma {:induction false} FlashHoldsImage(m: Memory, layout: seq<Segment>, addr: nat, size: nat, data: seq<byte>)
    requires GoodLayout(layout) && |data| == size > 0 && Covered(layout, addr, addr + size)
    ensures Holds(m, Flashed(m, layout, false, addr, size, data), addr, addr + size,
                  PageStart(layout, addr), PageEnd(layout, addr + size - 1), data)
    decreases size
  {
    hide Rem, BitAnd, Pow2, PageAddress, SegmentOf, RoundErase, RoundSize, Program, Fill, ErasePage,
         PageStart, PageEnd, Flashed, Holds, GoodLayout, GoodSegment;
    RoundHolds(m, layout, addr, size, data);
    FlashedRound(m, layout, addr, size, data);
    PageAround(layout, addr);
    PageAround(layout, addr + size - 1);
    var n := RoundSize(layout, false, addr, size);
    var m1 := Program(RoundErase(m, layout, false, addr), addr, data[..n]);
    if n == size {
      assert data[..n] == data;
      SamePage(layout, addr, addr + size - 1);
      FlashedNothing(m1, layout, addr + n, data[n..]);
    } else {
      NextPageStarts(layout, addr);
      FlashHoldsImage(m1, layout, addr + n, size - n, data[n..]);
      HoldsJoin(m, m1, Flashed(m, layout, false, addr, size, data), addr, addr + n, addr + size,
                PageStart(layout, addr), PageEnd(layout, addr + size - 1), data);
    }
  }

  lemma PageAround(layout: seq<Segment>, x: nat)
    ensures PageStart(layout, x) <= x < PageEnd(layout, x)
  {
  }

  lemma FlashedNothing(m: Memory, layout: seq<Segment>, addr: nat, data: seq<byte>)
    ensures Flashed(m, layout, false, addr, 0, data) == m
  {
  }

  /** After a mass erase no page is erased again: each bit of the image is cleared in what is there. */
  lemma {:induction false} MassErasedHoldsImage(m: Memory, layout: seq<Segment>, addr: nat, data: seq<byte>)
    requires forall x :: 0 <= x < |m| && addr <= x < addr + |data| ==> m[x] == 255
    ensures Holds(m, Flashed(m, layout, true, addr, |data|, data), addr, addr + |data|, addr, addr + |data|, data)
  {
    if |data| > 0 {
      assert Take(data, |data|) == data;
      var m1 := Program(m, addr, data);
      assert Flashed(m1, layout, true, addr + |data|, 0, Drop(data, |data|)) == m1;
      forall x | 0 <= x < |m| && addr <= x < addr + |data|
        ensures m1[x] == data[x - addr]
      {
        AndErased(data[x - addr]);
      }
    }
  }

  // ----- several elements -----

  /** The pages an element occupies. */
  ghost predicate InPages(layout: seq<Segment>, e: Element, x: int) {
    e.size > 0 && PageStart(layout, e.addr) <= x < PageEnd(layout, e.addr + e.size - 1)
  }

  /** Elements whose sizes are those of their data, on covered flash, sharing no page. */
  ghost predicate Separate(layout: seq<Segment>, es: seq<Element>) {
    && (forall e :: e in es ==> e.size == |e.data| && Covered(layout, e.addr, e.addr + e.size))
    && forall i, j, x :: 0 <= i < j < |es| && InPages(layout, es[i], x) ==> !InPages(layout, es[j], x)
  }

  /** Every element's bytes are in place, and bytes outside the pages of all elements are as before. */
  ghost predicate HoldsAll(before: Memory, after: Memory, layout: seq<Segment>, es: seq<Element>) {
    && |after| == |before|
    && (forall e, x :: e in es && e.addr <= x < e.addr + |e.data| && x < |after| ==> after[x] == e.data[x - e.addr])
    && (forall x :: 0 <= x < |after| && (forall e :: e in es ==> !InPages(layout, e, x)) ==> after[x] == before[x])
  }

  /** Elements that share no page are all in flash at the end, in whatever order they come. */
  lemma {:induction false} FlashHoldsElements(m: Memory, layout: seq<Segment>, es: seq<Element>)
    requires GoodLayout(layout) && Separate(layout, es)
    ensures HoldsAll(m, FlashedAll(m, layout, false, es), layout, es)
    decreases |es|
  {
    hide Rem, BitAnd, Pow2, PageAddress, SegmentOf, GoodLayout, Flashed, PageStart, PageEnd, Covered;
    if |es| != 0 {
      var e, rest := es[0], es[1..];
      var m1 := Flashed(m, layout, false, e.addr, e.size, e.data);
      assert es == [e] + rest;
      if e.size > 0 {
        FlashHoldsImage(m, layout, e.addr, e.size, e.data);
        PageAround(layout, e.addr);
        PageAround(layout, e.addr + e.size - 1);
      } else {
        FlashedNothing(m, layout, e.addr, e.data);
      }
      FlashHoldsElements(m1, layout, rest);
      ElementInPages(layout, e);
      HoldsConsed(m, m1, FlashedAll(m1, layout, false, rest), layout, e, rest);
    }
  }

  /** The first element, then the rest. */
  lemma HoldsConsed(m: Memory, m1: Memory, m2: Memory, layout: seq<Segment>, e: Element, rest: seq<Element>)
    requires Separate(layout, [e] + rest) && HoldsAll(m1, m2, layout, rest) && |m1| == |m|
    requires forall x :: e.addr <= x < e.addr + |e.data| ==> InPages(layout, e, x)
    requires forall x :: e.addr <= x < e.addr + |e.data| && x < |m| ==> m1[x] == e.data[x - e.addr]
    requires forall x :: 0 <= x < |m| && !InPages(layout, e, x) ==> m1[x] == m[x]
    ensures HoldsAll(m, m2, layout, [e] + rest)
  {
    hide InPages, Covered;
    var es := [e] + rest;
    forall r, x | r in rest && InPages(layout, e, x)
      ensures !InPages(layout, r, x)
    {
      var j :| 0 <= j < |rest| && rest[j] == r;
      assert es[0] == e && es[j + 1] == r;
    }
    assert forall f :: f in es <==> f == e || f in rest;
  }

  lemma ElementInPages(layout: seq<Segment>, e: Element)
    requires e.size == |e.data|
    ensures forall x :: e.addr <= x < e.addr + e.size ==> InPages(layout, e, x)
  {
    if e.size > 0 {
      PageAround(layout, e.addr);
      PageAround(layout, e.addr + e.size - 1);
    }
  }

  // ----- erase before write -----

  /** Every write before an erase ended below the page erased. */
  ghost predicate EraseFirst(layout: seq<Segment>, cs: seq<Command>) {
    forall i, j :: 0 <= i < j < |cs| && cs[i].Write? && cs[j].Erase? ==>
      cs[i].at + cs[i].size <= PageStart(layout, cs[j].page)
  }

  ghost predicate WritesBelow(cs: seq<Command>, bound: nat) {
    forall i :: 0 <= i < |cs| && cs[i].Write? ==> cs[i].at + cs[i].size <= bound
  }

  ghost predicate ErasesFrom(layout: seq<Segment>, cs: seq<Command>, bound: nat) {
    forall i :: 0 <= i < |cs| && cs[i].Erase? ==> PageStart(layout, cs[i].page) >= bound
  }

  lemma {:induction false} WritesInRange(at: nat, size: nat, chunk: nat)
    requires chunk > 0
    ensures WritesBelow(Writes(at, size, chunk), at + size)
    ensures forall c :: c in Writes(at, size, chunk) ==> c.Write?
    decreases size
  {
    if size != 0 {
      var n := if chunk < size then chunk else size;
      WritesInRange(at + n, size - n, chunk);
    }
  }

  lemma PageStartAgain(layout: seq<Segment>, x: nat)
    requires GoodLayout(layout) && SegmentOf(layout, x) != []
    ensures PageStart(layout, PageStart(layout, x)) == PageStart(layout, x)
  {
    hide Rem, BitAnd, Pow2, PageAddress;
    var s := SegmentOf(layout, x)[0];
    SegmentPage(s, x);
    SegmentUnique(layout, s, PageStart(layout, x));
    AlignedStart(s, PageStart(layout, x));
  }

  lemma EraseFirstConcat(layout: seq<Segment>, a: seq<Command>, b: seq<Command>, bound: nat)
    requires EraseFirst(layout, a) && EraseFirst(layout, b) && WritesBelow(a, bound) && ErasesFrom(layout, b, bound)
    ensures EraseFirst(layout, a + b)
  {
  }

  lemma RoundEraseFirst(layout: seq<Segment>, chunk: nat, addr: nat, n: nat)
    requires GoodLayout(layout) && SegmentOf(layout, addr) != [] && chunk > 0
    ensures var head := RoundCommands(layout, false, addr) + Writes(addr, n, chunk);
      && EraseFirst(layout, head) && WritesBelow(head, addr + n)
      && ErasesFrom(layout, head, PageStart(layout, addr))
  {
    hide Rem, BitAnd, Pow2, PageAddress;
    WritesInRange(addr, n, chunk);
    PageStartAgain(layout, addr);
    hide Writes;
    var head := RoundCommands(layout, false, addr) + Writes(addr, n, chunk);
    assert head[0] == Erase(PageStart(layout, addr));
    forall k | 1 <= k < |head|
      ensures head[k].Write? && head[k].at + head[k].size <= addr + n
    {
      assert head[k] == Writes(addr, n, chunk)[k - 1] && head[k] in Writes(addr, n, chunk);
    }
  }

  /** No page is erased after a byte of this element has been written to it. */
  lemma {:induction false} NoEraseAfterWrite(layout: seq<Segment>, chunk: nat, addr: nat, size: nat)
    requires GoodLayout(layout) && Covered(layout, addr, addr + size) && chunk > 0
    ensures EraseFirst(layout, FlashCommands(layout, false, chunk, addr, size, size))
    ensures size > 0 ==> ErasesFrom(layout, FlashCommands(layout, false, chunk, addr, size, size), PageStart(layout, addr))
    decreases size
  {
    hide Rem, BitAnd, Pow2, PageAddress, SegmentOf, RoundCommands, RoundSize, Writes;
    if size > 0 {
      RoundHolds([], layout, addr, size, seq(size, _ => 0));
      var n := RoundSize(layout, false, addr, size);
      var head := RoundCommands(layout, false, addr) + Writes(addr, n, chunk);
      var tail := FlashCommands(layout, false, chunk, addr + n, size - n, size - n);
      RoundEraseFirst(layout, chunk, addr, n);
      NoEraseAfterWrite(layout, chunk, addr + n, size - n);
      if n < size {
        NextPageStarts(layout, addr);
      }
      EraseFirstConcat(layout, head, tail, addr + n);
      assert FlashCommands(layout, false, chunk, addr, size, size) == head + tail;
    }
  }

  // ----- what is sent, chunk by chunk -----

  /** The writes go on one behind the other from the address, each of at least one byte and at most a chunk. */
  predicate InRow(cs: seq<Command>, at: nat, chunk: nat)
    decreases |cs|
  {
    |cs| > 0 ==>
      match cs[0]
      case Erase(_) => InRow(cs[1..], at, chunk)
      case Write(x, n) => x == at && 0 < n <= chunk && InRow(cs[1..], at + n, chunk)
  }

  function Written(cs: seq<Command>): nat {
    if |cs| == 0 then 0 else (if cs[0].Write? then cs[0].size else 0) + Written(cs[1..])
  }

  lemma {:induction false} InRowConcat(a: seq<Command>, b: seq<Command>, at: nat, chunk: nat)
    requires InRow(a, at, chunk) && InRow(b, at + Written(a), chunk)
    ensures InRow(a + b, at, chunk) && Written(a + b) == Written(a) + Written(b)
    decreases |a|
  {
    if a == [] {
      assert a + b == b;
    } else {
      assert (a + b)[0] == a[0] && (a + b)[1..] == a[1..] + b;
      InRowConcat(a[1..], b, if a[0].Write? then at + a[0].size else at, chunk);
    }
  }

  lemma {:induction false} WritesAreInRow(at: nat, size: nat, chunk: nat)
    requires chunk > 0
    ensures InRow(Writes(at, size, chunk), at, chunk) && Written(Writes(at, size, chunk)) == size
    decreases size
  {
    if size != 0 {
      var n := if chunk < size then chunk else size;
      WritesAreInRow(at + n, size - n, chunk);
      assert Writes(at, size, chunk)[1..] == Writes(at + n, size - n, chunk);
    }
  }

  /** Writing an element sends its bytes in order, none left out and none twice, in transfers the
      device accepts, whatever the layout. */
  lemma {:induction false} ElementIsSentInRow(layout: seq<Segment>, massErased: bool, chunk: nat, addr: nat, size: nat)
    requires chunk > 0
    ensures var cs := FlashCommands(layout, massErased, chunk, addr, size, size);
      InRow(cs, addr, chunk) && Written(cs) == size
    decreases size
  {
    hide PageAddress, SegmentOf, Writes, RoundSize;
    if size > 0 {
      var n := RoundSize(layout, massErased, addr, size);
      var erase := RoundCommands(layout, massErased, addr);
      WritesAreInRow(addr, n, chunk);
      ElementIsSentInRow(layout, massErased, chunk, addr + n, size - n);
      ErasesOnly(layout, massErased, addr, chunk);
      InRowConcat(erase, Writes(addr, n, chunk), addr, chunk);
      InRowConcat(erase + Writes(addr, n, chunk), FlashCommands(layout, massErased, chunk, addr + n, size - n, size - n), addr, chunk);
    }
  }

  lemma ErasesOnly(layout: seq<Segment>, massErased: bool, addr: nat, chunk: nat)
    ensures InRow(RoundCommands(layout, massErased, addr), addr, chunk) && Written(RoundCommands(layout, massErased, addr)) == 0
  {
    hide PageAddress, SegmentOf;
    var cs := RoundCommands(layout, massErased, addr);
    if cs != [] {
      assert cs[1..] == [];
    }
  }
}
