/** The memory layout a device reports, and when it is fit for writing elements. */
module FlashLayout {
  import opened Flash
  import opened FlashExact

  /** One entry "pages*size multiplier" of the device's layout string, already split. */
  datatype PageSpec = PageSpec(pages: nat, size: nat, multiplier: char) {
    function Bytes(): nat {
      if multiplier == 'K' then size * 1024 else if multiplier == 'M' then size * 1024 * 1024 else size
    }
  }

  /** A start address and the entries that follow it. */
  datatype Group = Group(addr: nat, specs: seq<PageSpec>)

  function Total(specs: seq<PageSpec>): nat {
    if |specs| == 0 then 0 else specs[0].pages * specs[0].Bytes() + Total(specs[1..])
  }

  function SegmentsFrom(addr: nat, specs: seq<PageSpec>): seq<Segment>
    decreases |specs|
  {
    if |specs| == 0 then []
    else
      var s := Segment(addr, specs[0].pages, specs[0].Bytes());
      [s] + SegmentsFrom(addr + s.Size(), specs[1..])
  }

  function LayoutOf(groups: seq<Group>): seq<Segment> {
    if |groups| == 0 then [] else SegmentsFrom(groups[0].addr, groups[0].specs) + LayoutOf(groups[1..])
  }

  lemma SegmentsStep(addr: nat, specs: seq<PageSpec>)
    requires specs != []
    ensures SegmentsFrom(addr, specs) == [Segment(addr, specs[0].pages, specs[0].Bytes())]
                                         + SegmentsFrom(addr + specs[0].pages * specs[0].Bytes(), specs[1..])
  {
  }

  /** The inner loop: the segments of one group. */
  method GroupSegments(start: nat, specs: seq<PageSpec>) returns (result: seq<Segment>)
    ensures result == SegmentsFrom(start, specs)
  {
    var addr: nat := start;
    result := [];
    assert specs[0..] == specs;
    for i := 0 to |specs|
      invariant result + SegmentsFrom(addr, specs[i..]) == SegmentsFrom(start, specs)
    {
      var pageSize := specs[i].size;
      if specs[i].multiplier == 'K' { pageSize := pageSize * 1024; }
      if specs[i].multiplier == 'M' { pageSize := pageSize * 1024 * 1024; }
      assert pageSize == specs[i].Bytes();
      hide SegmentsFrom, PageSpec.Bytes;
      SegmentsStep(addr, specs[i..]);
      assert specs[i..][1..] == specs[i + 1..];
      var size: nat := specs[i].pages * pageSize;
      result := result + [Segment(addr, specs[i].pages, pageSize)];
      addr := addr + size;
    }
  }

  method MemoryLayout(groups: seq<Group>) returns (result: seq<Segment>)
    ensures result == LayoutOf(groups)
  {
    result := [];
    for g := 0 to |groups|
      invariant result + LayoutOf(groups[g..]) == LayoutOf(groups)
    {
      assert groups[g..][1..] == groups[g + 1..];
      var segments := GroupSegments(groups[g].addr, groups[g].specs);
      result := result + segments;
    }
  }

  /** The segments of one group tile the bytes from its address: every address of the run lies in
      one of them, no address in two, and none lies outside the run. */
  lemma {:induction false} SegmentsTile(addr: nat, specs: seq<PageSpec>)
    ensures forall x: nat :: addr <= x < addr + Total(specs) <==> SegmentOf(SegmentsFrom(addr, specs), x) != []
    ensures forall s, x: nat :: s in SegmentsFrom(addr, specs) && s.Contains(x) ==> addr <= x < addr + Total(specs)
    ensures forall s, t, x: nat :: s in SegmentsFrom(addr, specs) && t in SegmentsFrom(addr, specs) && s.Contains(x) && t.Contains(x) ==> s == t
    decreases |specs|
  {
    if |specs| != 0 {
      var s := Segment(addr, specs[0].pages, specs[0].Bytes());
      var tail := SegmentsFrom(addr + s.Size(), specs[1..]);
      SegmentsTile(addr + s.Size(), specs[1..]);
      assert SegmentsFrom(addr, specs) == [s] + tail;
      assert forall t, x: nat :: t in tail && t.Contains(x) ==> !s.Contains(x);
      assert forall x: nat :: SegmentOf(SegmentsFrom(addr, specs), x) != [] <==> s.Contains(x) || SegmentOf(tail, x) != [];
    }
  }

  /** Each page size is a power of two that divides the address its segment starts at. */
  ghost predicate Aligned(addr: nat, specs: seq<PageSpec>)
    decreases |specs|
  {
    |specs| > 0 ==>
      && GoodSegment(Segment(addr, specs[0].pages, specs[0].Bytes()))
      && Aligned(addr + specs[0].pages * specs[0].Bytes(), specs[1..])
  }

  lemma {:induction false} AlignedSegments(addr: nat, specs: seq<PageSpec>)
    ensures Aligned(addr, specs) <==> (forall s :: s in SegmentsFrom(addr, specs) ==> GoodSegment(s))
    decreases |specs|
  {
    if |specs| != 0 {
      var s := Segment(addr, specs[0].pages, specs[0].Bytes());
      AlignedSegments(addr + s.Size(), specs[1..]);
      assert SegmentsFrom(addr, specs) == [s] + SegmentsFrom(addr + s.Size(), specs[1..]);
    }
  }

  /** A reported group is a good layout exactly when its pages are aligned powers of two; where every
      entry has two pages or more, that is also exactly when every write into it holds. */
  lemma GoodWhenAligned(addr: nat, specs: seq<PageSpec>)
    ensures GoodLayout(SegmentsFrom(addr, specs)) <==> Aligned(addr, specs)
    ensures forall from, to :: addr <= from <= to <= addr + Total(specs) ==> Covered(SegmentsFrom(addr, specs), from, to)
    ensures EveryWriteHolds(SegmentsFrom(addr, specs)) <==> Serves(SegmentsFrom(addr, specs))
    ensures (forall p <- specs :: p.pages >= 2 && p.Bytes() > 0) ==>
      (EveryWriteHolds(SegmentsFrom(addr, specs)) <==> Aligned(addr, specs))
  {
    SegmentsTile(addr, specs);
    AlignedSegments(addr, specs);
    HoldsIffServes(SegmentsFrom(addr, specs));
    if forall p <- specs :: p.pages >= 2 && p.Bytes() > 0 {
      SegmentsHavePages(addr, specs);
      HoldsIffGood(SegmentsFrom(addr, specs));
    }
  }

  lemma {:induction false} SegmentsHavePages(addr: nat, specs: seq<PageSpec>)
    requires forall p <- specs :: p.pages >= 2 && p.Bytes() > 0
    ensures forall s <- SegmentsFrom(addr, specs) :: s.numPages >= 2 && s.pageSize > 0
    decreases |specs|
  {
    if |specs| != 0 {
      SegmentsHavePages(addr + specs[0].pages * specs[0].Bytes(), specs[1..]);
    }
  }

  /** 1024 pages of n bytes take what one page of n kilobytes does, and 1024 of those one of n
      megabytes; any letter but K and M stands for plain bytes. */
  lemma UnitsScale(n: nat, other: char)
    requires other != 'K' && other != 'M'
    ensures Total([PageSpec(1, n, other)]) == n
    ensures Total([PageSpec(1, n, 'K')]) == Total([PageSpec(1024, n, other)])
    ensures Total([PageSpec(1, n, 'M')]) == Total([PageSpec(1024, n, 'K')])
  {
    assert forall p: PageSpec :: [p][1..] == [];
    assert forall p: PageSpec :: Total([p]) == p.pages * p.Bytes();
  }

  /** The layout has the segments of every group and no others. */
  lemma {:induction false} LayoutIsAllGroups(groups: seq<Group>, s: Segment)
    ensures s in LayoutOf(groups) <==> exists g <- groups :: s in SegmentsFrom(g.addr, g.specs)
  {
    if |groups| != 0 {
      LayoutIsAllGroups(groups[1..], s);
      assert groups == [groups[0]] + groups[1..];
      assert s in LayoutOf(groups) <==> s in SegmentsFrom(groups[0].addr, groups[0].specs) || s in LayoutOf(groups[1..]);
    }
  }
}
