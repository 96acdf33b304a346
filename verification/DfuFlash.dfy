/** From images to flash: build the file, read it back, write its elements. */
module DfuFlash {
  import opened Bytes
  import opened Flash
  import opened FlashExact
  import opened Dfu

  /** What the flasher does with a file. A mass erase comes first, whatever the file turns out to be. */
  method Upload(dev: Device, crc32: seq<byte> -> u32, decodes: seq<byte> -> bool, file: seq<byte>, massErase: bool)
      returns (elements: Outcome)
    requires dev.transferSize > 0
    modifies dev
    ensures elements == Read(crc32, decodes, file)
    ensures dev.memory == Uploaded(old(dev.memory), dev.layout, elements, massErase)
  {
    if massErase {
      dev.MassErase();
    }
    elements := ReadDfuFile(crc32, decodes, file);
    if !elements.Elements? || elements.elements == [] {
      return;
    }
    WriteElements(dev, elements.elements, massErase);
  }

  function Uploaded(m: Memory, layout: seq<Segment>, read: Outcome, massErase: bool): Memory {
    var erased := if massErase then Fill(m, 0, |m|) else m;
    if !read.Elements? || read.elements == [] then erased else FlashedAll(erased, layout, massErase, read.elements)
  }

  /** Images in any number of targets, sharing no page of a covered, well laid out flash, all end
      up in it padded, and bytes outside their pages stay. */
  lemma ImagesReachFlash(crc32: seq<byte> -> u32, decodes: seq<byte> -> bool, ts: seq<seq<Picture>>, vendor: int,
                         product: int, m: Memory, layout: seq<Segment>)
    requires Fits(ts) && decodes(TargetName()) && GoodLayout(layout)
    requires forall ps <- ts :: TargetFits(ps)
    requires Separate(layout, AllElements(ts))
    ensures HoldsAll(m, Uploaded(m, layout, Read(crc32, decodes, FileOf(crc32, ts, vendor, product)), false),
                     layout, AllElements(ts))
  {
    BuildThenRead(crc32, decodes, ts, vendor, product);
    FlashHoldsElements(m, layout, AllElements(ts));
  }

  /** For a single image, on any layout that serves its writes: the flash holds the image, padded
      with zeros, at its address. */
  lemma ImageReachesFlash(crc32: seq<byte> -> u32, decodes: seq<byte> -> bool, p: Picture, vendor: int, product: int,
                          m: Memory, layout: seq<Segment>)
    requires Fits([[p]]) && decodes(TargetName()) && Disjoint(layout) && Serves(layout)
    requires Covered(layout, p.address, p.address + |Padded(p.data)|) && p.address + |Padded(p.data)| <= |m|
    ensures DataThere(Uploaded(m, layout, Read(crc32, decodes, FileOf(crc32, [[p]], vendor, product)), false),
                      p.address, Padded(p.data))
  {
    hide Disjoint, Serves, Covered, Padded, TargetName, FileOf, Read, Fits, FitsU32, Flashed, DataThere;
    FitsSingle(p);
    BuildThenRead(crc32, decodes, [[p]], vendor, product);
    SingleElement(p);
    ServesEveryWrite(layout);
    var e := ElementOf(p);
    FlashedSingle(m, layout, false, e);
    assert DataThere(Flashed(m, layout, false, e.addr, |e.data|, e.data), e.addr, e.data);
  }

  /** With a mass erase the layout does not matter: the flash holds the padded image and is erased
      everywhere else. */
  lemma ImageReachesErasedFlash(crc32: seq<byte> -> u32, decodes: seq<byte> -> bool, p: Picture, vendor: int, product: int,
                                m: Memory, layout: seq<Segment>)
    requires Fits([[p]]) && decodes(TargetName())
    ensures var after := Uploaded(m, layout, Read(crc32, decodes, FileOf(crc32, [[p]], vendor, product)), true);
      && |after| == |m|
      && forall x :: 0 <= x < |m| ==>
           after[x] == if p.address <= x < p.address + |Padded(p.data)| then Padded(p.data)[x - p.address] else 255
  {
    hide Padded, TargetName, FileOf, Read, Fits, FitsU32, Flashed;
    FitsSingle(p);
    BuildThenRead(crc32, decodes, [[p]], vendor, product);
    SingleElement(p);
    var e := ElementOf(p);
    var erased := Fill(m, 0, |m|);
    FlashedSingle(erased, layout, true, e);
    MassErasedHoldsImage(erased, layout, e.addr, e.data);
  }

  lemma FitsSingle(p: Picture)
    requires Fits([[p]])
    ensures TargetFits([p]) && PictureFits(p)
  {
    FitsTargets([[p]]);
    assert [p] in [[p]] && p in [p];
  }

  lemma FlashedSingle(m: Memory, layout: seq<Segment>, massErase: bool, e: Element)
    ensures FlashedAll(m, layout, massErase, [e]) == Flashed(m, layout, massErase, e.addr, e.size, e.data)
  {
    hide Flashed;
    assert [e][1..] == [];
  }

  lemma SingleElement(p: Picture)
    requires PictureFits(p)
    requires forall ps <- [[p]] :: TargetFits(ps)
    ensures AllElements([[p]]) == [ElementOf(p)]
  {
    assert [p] in [[p]];
    assert ElementsOf([p]) == [ElementOf(p)];
    assert AllElements([[p]][1..]) == [];
  }

  /** A file that is not accepted, or holds no element, is not written; a mass erase asked for has
      happened all the same. */
  lemma NothingToUpload(m: Memory, layout: seq<Segment>, read: Outcome, massErase: bool)
    requires !read.Elements? || read.elements == []
    ensures var after := Uploaded(m, layout, read, massErase);
      |after| == |m| && forall x :: 0 <= x < |m| ==> after[x] == if massErase then 255 else m[x]
  {
  }
}
