/** The DfuSe file: the image builder, the reader, and what survives the trip through the file. */
module Dfu {
  import opened Bytes
  import opened Flash

  /** An image as build gets it; build replaces its data by the padded data. */
  class Image {
    const address: int
    var data: seq<byte>

    constructor (address: int, data: seq<byte>)
      ensures this.address == address && this.data == data
    {
      this.address, this.data := address, data;
    }
  }

  /** The value of an image. */
  datatype Picture = Picture(address: int, data: seq<byte>)

  function Padded(data: seq<byte>): (p: seq<byte>)
    ensures |p| % 8 == 0 && |data| <= |p| < |data| + 8
    ensures p[..|data|] == data && forall i :: |data| <= i < |p| ==> p[i] == 0
  {
    data + seq((8 - |data| % 8) % 8, _ => 0)
  }

  // ----- the bytes of a file -----

  /** A little-endian field of k bytes. */
  function Field(n: int, k: nat): (s: seq<byte>)
    ensures |s| == k
  {
    PutLE(if n < 0 then 0 else n, k)
  }

  function ElementBytes(p: Picture): seq<byte> {
    Field(p.address, 4) + Field(|Padded(p.data)|, 4) + Padded(p.data)
  }

  function BodyBytes(ps: seq<Picture>): seq<byte> {
    if |ps| == 0 then [] else ElementBytes(ps[0]) + BodyBytes(ps[1..])
  }

  /** "ST..." in a field of 255 bytes */
  function TargetName(): (s: seq<byte>)
    ensures |s| == 255
  {
    [83, 84, 46, 46, 46] + Zeroed(250)
  }

  function TargetPrefix(size: nat, elements: nat): (s: seq<byte>)
    ensures |s| == 274
  {
    [84, 97, 114, 103, 101, 116] + [0] + Field(1, 4) + TargetName() + Field(size, 4) + Field(elements, 4)
  }

  function TargetBytes(ps: seq<Picture>): seq<byte> {
    TargetPrefix(|BodyBytes(ps)|, |ps|) + BodyBytes(ps)
  }

  function TargetsBytes(ts: seq<seq<Picture>>): seq<byte> {
    if |ts| == 0 then [] else TargetBytes(ts[0]) + TargetsBytes(ts[1..])
  }

  function FilePrefix(size: nat, targets: nat): (s: seq<byte>)
    ensures |s| == 11
  {
    [68, 102, 117, 83, 101] + [1] + Field(size, 4) + Field(targets, 1)
  }

  function Suffix(vendor: int, product: int): (s: seq<byte>)
    ensures |s| == 12
  {
    Field(0, 2) + Field(product % 0x10000, 2) + Field(vendor % 0x10000, 2) + Field(0x011A, 2) + [85, 70, 68, 16]
  }

  /** 0xFFFFFFFF & -crc32(data) - 1 */
  function ComputeCrc(crc32: seq<byte> -> u32, data: seq<byte>): u32 {
    0xFFFF_FFFF - crc32(data)
  }

  function FileBody(ts: seq<seq<Picture>>, vendor: int, product: int): seq<byte> {
    FilePrefix(|TargetsBytes(ts)| + 11, |ts|) + TargetsBytes(ts) + Suffix(vendor, product)
  }

  function FileOf(crc32: seq<byte> -> u32, ts: seq<seq<Picture>>, vendor: int, product: int): seq<byte> {
    var body := FileBody(ts, vendor, product);
    body + PutU32(ComputeCrc(crc32, body))
  }

  predicate FitsU32(n: int) { 0 <= n < 0x1_0000_0000 }

  /** Whether every number of the file fits the field it is packed into. */
  ghost predicate Fits(ts: seq<seq<Picture>>) {
    && |ts| <= 255
    && FitsU32(|TargetsBytes(ts)| + 11)
    && forall t, i :: 0 <= t < |ts| && 0 <= i < |ts[t]| ==> FitsU32(ts[t][i].address)
  }

  // ----- build -----

  /** The images of one target with the data they were given. */
  ghost function Pictures(target: seq<Image>, given: map<Image, seq<byte>>): (ps: seq<Picture>)
    requires forall img <- target :: img in given
    ensures |ps| == |target|
    ensures forall i :: 0 <= i < |target| ==> ps[i] == Picture(target[i].address, given[target[i]])
  {
    seq(|target|, i requires 0 <= i < |target| => Picture(target[i].address, given[target[i]]))
  }

  ghost function AllImages(targets: seq<seq<Image>>): (s: set<Image>)
    ensures forall t, i :: 0 <= t < |targets| && 0 <= i < |targets[t]| ==> targets[t][i] in s
  {
    set t, i | 0 <= t < |targets| && 0 <= i < |targets[t]| :: targets[t][i]
  }

  ghost function AllPictures(targets: seq<seq<Image>>, given: map<Image, seq<byte>>): (ts: seq<seq<Picture>>)
    requires AllImages(targets) <= given.Keys
    ensures |ts| == |targets|
    ensures forall t :: 0 <= t < |targets| ==> ts[t] == Pictures(targets[t], given)
  {
    seq(|targets|, t requires 0 <= t < |targets| => Pictures(targets[t], given))
  }

  /** Packs one image, which may have been padded before, behind the bytes of its target; fails
      when a number does not fit. */
  method PackImage(image: Image, tdata: seq<byte>, ghost given: seq<byte>) returns (r: Option<seq<byte>>)
    requires image.data == given || image.data == Padded(given)
    modifies image`data
    ensures image.data == Padded(given)
    ensures r == if PictureFits(Picture(image.address, given))
                 then Some(tdata + ElementBytes(Picture(image.address, given))) else None
  {
    var pad := (8 - |image.data| % 8) % 8;
    image.data := image.data + Zeroed(8)[0..pad];
    assert Zeroed(8)[0..pad] == seq(pad, _ => 0);
    if !FitsU32(image.address) || !FitsU32(|image.data|) {
      return None;
    }
    return Some(tdata + (Field(image.address, 4) + Field(|image.data|, 4) + image.data));
  }

  predicate PictureFits(p: Picture) { FitsU32(p.address) && FitsU32(|Padded(p.data)|) }

  lemma BodyStep(ps: seq<Picture>, i: nat, done: seq<byte>)
    requires i < |ps| && done + BodyBytes(ps[i..]) == BodyBytes(ps)
    ensures done + ElementBytes(ps[i]) + BodyBytes(ps[i + 1..]) == BodyBytes(ps)
  {
    hide ElementBytes;
    assert ps[i..][0] == ps[i] && ps[i..][1..] == ps[i + 1..];
    assert BodyBytes(ps[i..]) == ElementBytes(ps[i]) + BodyBytes(ps[i + 1..]);
  }

  lemma BodyNothing()
    ensures BodyBytes([]) == []
  {
  }

  /** The body of one target. */
  method BuildTarget(target: seq<Image>, ghost given: map<Image, seq<byte>>) returns (r: Option<seq<byte>>)
    requires forall img <- target :: img in given && (img.data == given[img] || img.data == Padded(given[img]))
    modifies set img <- target
    ensures forall img <- target :: img.data == given[img] || img.data == Padded(given[img])
    ensures r.Some? ==> forall img <- target :: img.data == Padded(given[img])
    ensures r.Some? <==> forall p <- Pictures(target, given) :: PictureFits(p)
    ensures r.Some? ==> r.value == BodyBytes(Pictures(target, given))
  {
    hide PictureFits, ElementBytes, Padded, BodyBytes;
    ghost var ps := Pictures(target, given);
    assert ps[0..] == ps;
    assert ps[|ps|..] == [];
    BodyNothing();
    var tdata := [];
    for i := 0 to |target|
      invariant tdata + BodyBytes(ps[i..]) == BodyBytes(ps)
      invariant forall img <- target :: img.data == given[img] || img.data == Padded(given[img])
      invariant forall k :: 0 <= k < i ==> target[k].data == Padded(given[target[k]])
      invariant forall k :: 0 <= k < i ==> PictureFits(ps[k])
    {
      var packed := PackImage(target[i], tdata, given[target[i]]);
      if packed.None? {
        return None;
      }
      BodyStep(ps, i, tdata);
      tdata := packed.value;
    }
    return Some(tdata);
  }

  /** One target behind its prefix; fails when a number of it does not fit. */
  method BuildTargetWithPrefix(target: seq<Image>, ghost given: map<Image, seq<byte>>) returns (r: Option<seq<byte>>)
    requires Sound(ImagesOf(target), given)
    modifies ImagesOf(target)
    ensures Sound(ImagesOf(target), given)
    ensures r.Some? ==> AllPadded(ImagesOf(target), given)
    ensures r.Some? <==> TargetFits(Pictures(target, given))
    ensures r.Some? ==> r.value == TargetBytes(Pictures(target, given))
  {
    hide TargetPrefix, PictureFits, BodyBytes, Padded;
    var tdata := BuildTarget(target, given);
    if tdata.None? || !FitsU32(|tdata.value|) || !FitsU32(|target|) {
      return None;
    }
    return Some(TargetPrefix(|tdata.value|, |target|) + tdata.value);
  }

  lemma TargetsStep(ts: seq<seq<Picture>>, t: nat, done: seq<byte>)
    requires t < |ts| && done + TargetsBytes(ts[t..]) == TargetsBytes(ts)
    ensures done + TargetBytes(ts[t]) + TargetsBytes(ts[t + 1..]) == TargetsBytes(ts)
  {
    hide TargetBytes;
    assert ts[t..][0] == ts[t] && ts[t..][1..] == ts[t + 1..];
  }

  lemma {:induction false} FitsPieces(ts: seq<seq<Picture>>, t: nat)
    requires t < |ts|
    ensures |BodyBytes(ts[t])| + 274 <= |TargetsBytes(ts)|
    ensures 8 * |ts[t]| <= |BodyBytes(ts[t])|
    ensures forall p <- ts[t] :: |Padded(p.data)| <= |BodyBytes(ts[t])|
  {
    hide TargetPrefix, ElementBytes, Padded, BodyBytes;
    BodySizes(ts[t]);
    if t > 0 {
      FitsPieces(ts[1..], t - 1);
    }
  }

  lemma {:induction false} BodySizes(ps: seq<Picture>)
    ensures 8 * |ps| <= |BodyBytes(ps)|
    ensures forall p <- ps :: |Padded(p.data)| <= |BodyBytes(ps)|
  {
    if |ps| != 0 {
      BodySizes(ps[1..]);
      hide Padded, Field;
      assert ps == [ps[0]] + ps[1..];
    }
  }

  lemma TargetsNothing()
    ensures TargetsBytes([]) == []
  {
  }

  ghost predicate PicturesFit(ps: seq<Picture>) {
    forall p <- ps :: PictureFits(p)
  }

  ghost predicate TargetFits(ps: seq<Picture>) {
    PicturesFit(ps) && FitsU32(|BodyBytes(ps)|) && FitsU32(|ps|)
  }

  lemma FitsEach(ts: seq<seq<Picture>>, t: nat)
    requires t < |ts| && Fits(ts)
    ensures TargetFits(ts[t])
  {
    FitsPieces(ts, t);
  }

  /** Every image has its data as given, or padded. */
  ghost predicate Sound(images: set<Image>, given: map<Image, seq<byte>>)
    reads images
  {
    forall img <- images :: img in given && (img.data == given[img] || img.data == Padded(given[img]))
  }

  ghost predicate AllPadded(images: set<Image>, given: map<Image, seq<byte>>)
    reads images
  {
    forall img <- images :: img in given && img.data == Padded(given[img])
  }

  ghost function ImagesOf(target: seq<Image>): (s: set<Image>)
    ensures (forall img <- s :: img in target) && forall img <- target :: img in s
  {
    set img <- target
  }

  lemma AllImagesStep(targets: seq<seq<Image>>, t: nat)
    requires t < |targets|
    ensures AllImages(targets[..t + 1]) == AllImages(targets[..t]) + ImagesOf(targets[t])
    ensures AllImages(targets[..t + 1]) <= AllImages(targets)
  {
    var next := targets[..t + 1];
    forall img | img in AllImages(targets[..t]) + ImagesOf(targets[t])
      ensures img in AllImages(next)
    {
      if img in ImagesOf(targets[t]) {
        var i :| 0 <= i < |next[t]| && next[t][i] == img;
      }
      if img in AllImages(targets[..t]) {
        var k, i :| 0 <= k < t && 0 <= i < |targets[k]| && targets[k][i] == img;
        assert next[k][i] == img;
      }
    }
  }

  /** The targets one behind the other; fails when a number of one of them does not fit. */
  method BuildTargets(targets: seq<seq<Image>>, ghost given: map<Image, seq<byte>>) returns (r: Option<seq<byte>>)
    requires AllImages(targets) <= given.Keys && Sound(AllImages(targets), given)
    modifies AllImages(targets)
    ensures Sound(AllImages(targets), given)
    ensures r.Some? ==> AllPadded(AllImages(targets), given)
    ensures r.None? ==> !Fits(AllPictures(targets, given))
    ensures r.Some? ==> r.value == TargetsBytes(AllPictures(targets, given))
    ensures r.Some? ==> var ts := AllPictures(targets, given);
      Fits(ts) == (|ts| <= 255 && FitsU32(|TargetsBytes(ts)| + 11))
  {
    hide TargetPrefix, PictureFits, BodyBytes, Padded, TargetsBytes, TargetBytes, TargetFits, Fits, FitsU32, AllImages;
    ghost var ts := AllPictures(targets, given);
    var data := [];
    assert ts[0..] == ts && ts[|ts|..] == [] && targets[..|targets|] == targets;
    TargetsNothing();
    NoImages(targets);
    for t := 0 to |targets|
      invariant data + TargetsBytes(ts[t..]) == TargetsBytes(ts)
      invariant Sound(AllImages(targets), given)
      invariant AllPadded(AllImages(targets[..t]), given)
      invariant forall k :: 0 <= k < t ==> TargetFits(ts[k])
    {
      if Fits(ts) {
        FitsEach(ts, t);
      }
      AllImagesStep(targets, t);
      var target := BuildTargetWithPrefix(targets[t], given);
      if target.None? {
        return None;
      }
      TargetsStep(ts, t, data);
      data := data + target.value;
    }
    FitsAll(ts);
    return Some(data);
  }

  lemma NoImages(targets: seq<seq<Image>>)
    ensures AllImages(targets[..0]) == {}
  {
  }

  /** Builds the file, padding the images in place. It fails, part of the images padded, exactly
      when some number does not fit its field. */
  method Build(targets: seq<seq<Image>>, vendor: int, product: int, crc32: seq<byte> -> u32, ghost given: map<Image, seq<byte>>)
      returns (file: Option<seq<byte>>)
    requires AllImages(targets) <= given.Keys
    requires forall img <- AllImages(targets) :: img.data == given[img]
    modifies AllImages(targets)
    ensures Sound(AllImages(targets), given)
    ensures file.Some? ==> AllPadded(AllImages(targets), given)
    ensures file == if Fits(AllPictures(targets, given))
                    then Some(FileOf(crc32, AllPictures(targets, given), vendor, product)) else None
  {
    hide TargetPrefix, PictureFits, BodyBytes, Padded, TargetsBytes, Suffix, FilePrefix, Fits;
    var built := BuildTargets(targets, given);
    if built.None? || |targets| > 255 || !FitsU32(|built.value| + 11) {
      return None;
    }
    var data := FilePrefix(|built.value| + 11, |targets|) + built.value;
    data := data + Suffix(vendor, product);
    return Some(data + PutU32(ComputeCrc(crc32, data)));
  }

  lemma FitsAll(ts: seq<seq<Picture>>)
    requires forall k :: 0 <= k < |ts| ==> TargetFits(ts[k])
    ensures Fits(ts) == (|ts| <= 255 && FitsU32(|TargetsBytes(ts)| + 11))
  {
    hide TargetsBytes, BodyBytes;
    assert forall k, i :: 0 <= k < |ts| && 0 <= i < |ts[k]| ==> FitsU32(ts[k][i].address) by {
      forall k, i | 0 <= k < |ts| && 0 <= i < |ts[k]| ensures FitsU32(ts[k][i].address) {
        assert TargetFits(ts[k]) && PictureFits(ts[k][i]);
      }
    }
  }

  // ----- read_dfu_file -----

  datatype Outcome = Elements(elements: seq<Element>) | Refused | Raised

  /** The elements read and the bytes left, or not enough bytes (or an undecodable name). */
  datatype Walk = Walk(elements: seq<Element>, rest: seq<byte>) | Stuck

  function Prepend(es: seq<Element>, w: Walk): Walk {
    if w.Walk? then Walk(es + w.elements, w.rest) else Stuck
  }

  function ReadElements(data: seq<byte>, count: nat): Walk
    decreases count
  {
    if count == 0 then Walk([], data)
    else if |data| < 8 then Stuck
    else
      var addr, size, rest := GetLE(data[..4]), GetLE(data[4..8]), data[8..];
      Prepend([Element(addr, size, Take(rest, size))], ReadElements(Drop(rest, size), count - 1))
  }

  function ReadTargets(decodes: seq<byte> -> bool, data: seq<byte>, count: nat): Walk
    decreases count
  {
    if count == 0 then Walk([], data)
    else if |data| < 274 then Stuck
    else if GetLE(data[7..11]) != 0 && !decodes(data[11..266]) then Stuck
    else
      var size, elements, rest := GetLE(data[266..270]), GetLE(data[270..274]), data[274..];
      var w := ReadElements(Take(rest, size), elements);
      if w.Stuck? then Stuck else Prepend(w.elements, ReadTargets(decodes, Drop(rest, size), count - 1))
  }

  function Read(crc32: seq<byte> -> u32, decodes: seq<byte> -> bool, file: seq<byte>): Outcome {
    var crc := ComputeCrc(crc32, Take(file, if |file| < 4 then 0 else |file| - 4));
    if |file| < 11 then Raised
    else
      var w := ReadTargets(decodes, file[11..], file[10]);
      if w.Stuck? || |w.rest| < 16 then Raised
      else if crc != GetLE(w.rest[12..16]) || |w.rest| > 16 then Refused
      else Elements(w.elements)
  }

  lemma PrependTwice(a: seq<Element>, b: seq<Element>, w: Walk)
    ensures Prepend(a, Prepend(b, w)) == Prepend(a + b, w)
  {
    if w.Walk? {
      assert a + (b + w.elements) == a + b + w.elements;
    }
  }

  /** The inner loop: the elements of one target. */
  method ReadTarget(data: seq<byte>, count: nat) returns (w: Walk)
    ensures w == ReadElements(data, count)
  {
    hide ReadElements, GetLE;
    var targetData, elements := data, [];
    ghost var all := ReadElements(data, count);
    assert Prepend([], all) == all;
    for e := 0 to count
      invariant all == Prepend(elements, ReadElements(targetData, count - e))
    {
      ElementStep(targetData, count - e);
      if |targetData| < 8 { return Stuck; }
      var addr, elemSize := GetLE(targetData[..4]), GetLE(targetData[4..8]);
      targetData := targetData[8..];
      var elem := Element(addr, elemSize, Take(targetData, elemSize));
      targetData := Drop(targetData, elemSize);
      PrependTwice(elements, [elem], ReadElements(targetData, count - e - 1));
      elements := elements + [elem];
    }
    NoElements(targetData);
    return Walk(elements, targetData);
  }

  /** The outer loop: the elements of all targets, in order. */
  method ReadDfuFile(crc32: seq<byte> -> u32, decodes: seq<byte> -> bool, file: seq<byte>) returns (r: Outcome)
    ensures r == Read(crc32, decodes, file)
  {
    hide ReadElements, ReadTargets, GetLE;
    var crc := ComputeCrc(crc32, Take(file, if |file| < 4 then 0 else |file| - 4));
    if |file| < 11 { return Raised; }
    var data, elements := file[11..], [];
    ghost var all := ReadTargets(decodes, file[11..], file[10]);
    assert Prepend([], all) == all;
    for t := 0 to file[10]
      invariant all == Prepend(elements, ReadTargets(decodes, data, file[10] - t))
    {
      TargetStep(decodes, data, file[10] - t);
      if |data| < 274 { return Raised; }
      if GetLE(data[7..11]) != 0 && !decodes(data[11..266]) { return Raised; }
      var size, count := GetLE(data[266..270]), GetLE(data[270..274]);
      var w := ReadTarget(Take(data[274..], size), count);
      if w.Stuck? { return Raised; }
      data := Drop(data[274..], size);
      PrependTwice(elements, w.elements, ReadTargets(decodes, data, file[10] - t - 1));
      elements := elements + w.elements;
    }
    NoTargets(decodes, data);
    if |data| < 16 { return Raised; }
    if crc != GetLE(data[12..16]) { return Refused; }
    data := data[16..];
    if data != [] { return Refused; }
    return Elements(elements);
  }

  lemma ElementStep(data: seq<byte>, count: nat)
    requires count > 0
    ensures ReadElements(data, count) ==
      if |data| < 8 then Stuck
      else Prepend([Element(GetLE(data[..4]), GetLE(data[4..8]), Take(data[8..], GetLE(data[4..8])))],
                   ReadElements(Drop(data[8..], GetLE(data[4..8])), count - 1))
  {
  }

  lemma NoElements(data: seq<byte>)
    ensures ReadElements(data, 0) == Walk([], data)
  {
  }

  lemma TargetStep(decodes: seq<byte> -> bool, data: seq<byte>, count: nat)
    requires count > 0
    ensures ReadTargets(decodes, data, count) ==
      if |data| < 274 || (GetLE(data[7..11]) != 0 && !decodes(data[11..266])) then Stuck
      else
        var w := ReadElements(Take(data[274..], GetLE(data[266..270])), GetLE(data[270..274]));
        if w.Stuck? then Stuck
        else Prepend(w.elements, ReadTargets(decodes, Drop(data[274..], GetLE(data[266..270])), count - 1))
  {
    hide ReadElements, GetLE;
  }

  lemma NoTargets(decodes: seq<byte> -> bool, data: seq<byte>)
    ensures ReadTargets(decodes, data, 0) == Walk([], data)
  {
  }

  // ----- the round trip -----

  function ElementOf(p: Picture): Element
    requires PictureFits(p)
  {
    Element(p.address, |Padded(p.data)|, Padded(p.data))
  }

  ghost function ElementsOf(ps: seq<Picture>): (es: seq<Element>)
    requires PicturesFit(ps)
    ensures |es| == |ps| && forall i :: 0 <= i < |ps| ==> es[i] == ElementOf(ps[i])
  {
    seq(|ps|, i requires 0 <= i < |ps| => ElementOf(ps[i]))
  }

  /** The elements of all targets, in order. */
  ghost function AllElements(ts: seq<seq<Picture>>): seq<Element>
    requires forall ps <- ts :: TargetFits(ps)
  {
    if |ts| == 0 then []
    else
      FitsMeans(ts[0]);
      ElementsOf(ts[0]) + AllElements(ts[1..])
  }

  lemma FieldBack(n: int, k: nat)
    requires 0 <= n < Pow256(k)
    ensures GetLE(Field(n, k)) == n
  {
    GetPut(n, k);
  }

  lemma ElementBack(p: Picture, more: seq<byte>)
    requires PictureFits(p)
    ensures var d := ElementBytes(p) + more;
      && |d| >= 8 && GetLE(d[..4]) == p.address && GetLE(d[4..8]) == |Padded(p.data)|
      && d[8..] == Padded(p.data) + more
  {
    hide GetLE, Field;
    Pow256Values();
    FieldBack(p.address, 4);
    FieldBack(|Padded(p.data)|, 4);
    var d := ElementBytes(p) + more;
    assert d[..4] == Field(p.address, 4);
    assert d[4..8] == Field(|Padded(p.data)|, 4);
    assert d[8..] == Padded(p.data) + more;
  }

  lemma TakeDrop(a: seq<byte>, b: seq<byte>)
    ensures Take(a + b, |a|) == a && Drop(a + b, |a|) == b
  {
  }

  /** The elements of a target read back in order; bytes behind them are left, and do not matter. */
  lemma {:induction false} BodyReadsBack(ps: seq<Picture>, more: seq<byte>)
    requires PicturesFit(ps)
    ensures ReadElements(BodyBytes(ps) + more, |ps|) == Walk(ElementsOf(ps), more)
  {
    hide GetLE, Field, ReadElements, ElementBytes, Padded, PictureFits, BodyBytes, Take, Drop;
    if ps == [] {
      BodyNothing();
      assert [] + more == more;
      NoElements(more);
    } else {
      BodyReadsBack(ps[1..], more);
      var rest := BodyBytes(ps[1..]) + more;
      BodyFirst(ps);
      ElementBack(ps[0], rest);
      Associates(ElementBytes(ps[0]), BodyBytes(ps[1..]), more);
      ElementStep(BodyBytes(ps) + more, |ps|);
      TakeDrop(Padded(ps[0].data), rest);
      assert ElementsOf(ps) == [ElementOf(ps[0])] + ElementsOf(ps[1..]);
    }
  }

  lemma BodyFirst(ps: seq<Picture>)
    requires ps != []
    ensures BodyBytes(ps) == ElementBytes(ps[0]) + BodyBytes(ps[1..])
  {
    hide ElementBytes;
  }

  function Code(c: char): byte { if c < 128 as char then c as int else 63 }

  /** A text as its ASCII codes. */
  function Ascii(s: string): (b: seq<byte>)
    ensures |b| == |s| && forall i :: 0 <= i < |s| ==> b[i] == Code(s[i])
  {
    seq(|s|, i requires 0 <= i < |s| => Code(s[i]))
  }

  lemma NameIs()
    ensures TargetName()[..5] == Ascii("ST...") && TargetName()[5..] == Zeroed(250)
  {
  }

  lemma TargetPrefixBack(size: nat, count: nat, more: seq<byte>)
    requires FitsU32(size) && FitsU32(count)
    ensures var d := TargetPrefix(size, count) + more;
      && d[..6] == Ascii("Target") && d[6] == 0
      && d[11..16] == Ascii("ST...") && d[16..266] == Zeroed(250)
      && GetLE(d[7..11]) == 1 && d[11..266] == TargetName()
      && GetLE(d[266..270]) == size && GetLE(d[270..274]) == count && d[274..] == more
  {
    hide GetLE, Field, TargetName;
    Pow256Values();
    FieldBack(1, 4);
    FieldBack(size, 4);
    FieldBack(count, 4);
    var d := TargetPrefix(size, count) + more;
    assert d[..6] == Ascii("Target");
    assert d[7..11] == Field(1, 4);
    assert d[11..266] == TargetName();
    NameIs();
    assert d[11..16] == d[11..266][..5] && d[16..266] == d[11..266][5..];
    assert d[266..270] == Field(size, 4);
    assert d[270..274] == Field(count, 4);
    assert d[274..] == more;
  }

  lemma Associates(a: seq<byte>, b: seq<byte>, c: seq<byte>)
    ensures a + b + c == a + (b + c)
  {
  }

  lemma TargetReadsBack(decodes: seq<byte> -> bool, ps: seq<Picture>, later: seq<byte>, count: nat)
    requires decodes(TargetName()) && TargetFits(ps) && count > 0
    ensures ReadTargets(decodes, TargetBytes(ps) + later, count)
         == Prepend(ElementsOf(ps), ReadTargets(decodes, later, count - 1))
  {
    BodyReadsBack(ps, []);
    assert BodyBytes(ps) + [] == BodyBytes(ps);
    hide GetLE, Field, ReadElements, ReadTargets, ElementBytes, Padded, PictureFits, TargetName, TargetPrefix, BodyBytes,
         PicturesFit;
    var body := BodyBytes(ps);
    TargetPrefixBack(|body|, |ps|, body + later);
    Associates(TargetPrefix(|body|, |ps|), body, later);
    TargetStep(decodes, TargetBytes(ps) + later, count);
    TakeDrop(body, later);
  }

  lemma FitsMeans(ps: seq<Picture>)
    requires TargetFits(ps)
    ensures PicturesFit(ps)
  {
  }

  lemma {:induction false} TargetsReadBack(decodes: seq<byte> -> bool, ts: seq<seq<Picture>>, more: seq<byte>)
    requires decodes(TargetName())
    requires forall ps <- ts :: TargetFits(ps)
    ensures ReadTargets(decodes, TargetsBytes(ts) + more, |ts|) == Walk(AllElements(ts), more)
  {
    if |ts| == 0 {
      assert TargetsBytes(ts) + more == more;
      NoTargets(decodes, more);
    } else {
      hide TargetFits, ReadTargets, TargetBytes, TargetName, ElementsOf;
      assert PicturesFit(ts[0]) by { FitsMeans(ts[0]); }
      TargetsReadBack(decodes, ts[1..], more);
      TargetReadsBack(decodes, ts[0], TargetsBytes(ts[1..]) + more, |ts|);
      Associates(TargetBytes(ts[0]), TargetsBytes(ts[1..]), more);
    }
  }

  lemma FitsTargets(ts: seq<seq<Picture>>)
    requires Fits(ts)
    ensures forall ps <- ts :: TargetFits(ps)
  {
    hide Fits, PictureFits, BodyBytes;
    forall ps | ps in ts
      ensures TargetFits(ps)
    {
      var t :| 0 <= t < |ts| && ts[t] == ps;
      FitsEach(ts, t);
    }
  }

  /** What build writes, the reader gets back: every image of every target in order, at its
      address, with its data padded, and nothing of the file left over. It fails, and then raises,
      exactly when there is a target and the name build gives it does not decode. */
  lemma BuildThenRead(crc32: seq<byte> -> u32, decodes: seq<byte> -> bool, ts: seq<seq<Picture>>, vendor: int, product: int)
    requires Fits(ts)
    ensures forall ps <- ts :: TargetFits(ps)
    ensures Read(crc32, decodes, FileOf(crc32, ts, vendor, product))
         == if decodes(TargetName()) || ts == [] then Elements(AllElements(ts)) else Raised
  {
    FitsTargets(ts);
    var crc := ComputeCrc(crc32, FileBody(ts, vendor, product));
    FileReadsBack(decodes, ts, vendor, product, crc);
    hide GetLE, Field, ReadTargets, FileBody, TargetName, AllElements, PicturesFit;
    TakeDrop(FileBody(ts, vendor, product), PutU32(crc));
    assert Drop(FileOf(crc32, ts, vendor, product), |FileBody(ts, vendor, product)|) == PutU32(crc);
  }

  /** A first target whose name does not decode stops the walk. */
  lemma UndecodableStops(decodes: seq<byte> -> bool, ts: seq<seq<Picture>>, more: seq<byte>)
    requires !decodes(TargetName()) && ts != [] && TargetFits(ts[0])
    ensures ReadTargets(decodes, TargetsBytes(ts) + more, |ts|) == Stuck
  {
    var ps := ts[0];
    var body := BodyBytes(ps);
    TargetPrefixBack(|body|, |ps|, body + (TargetsBytes(ts[1..]) + more));
    hide GetLE, Field, ReadElements, ReadTargets, TargetName, TargetPrefix, BodyBytes, TargetsBytes;
    assert TargetsBytes(ts) == TargetBytes(ps) + TargetsBytes(ts[1..]) by { TargetsFirst(ts); }
    var d := TargetPrefix(|body|, |ps|) + (body + (TargetsBytes(ts[1..]) + more));
    Associates(TargetPrefix(|body|, |ps|), body, TargetsBytes(ts[1..]) + more);
    Associates(TargetBytes(ps), TargetsBytes(ts[1..]), more);
    assert TargetsBytes(ts) + more == d;
    TargetStep(decodes, d, |ts|);
  }

  lemma TargetsFirst(ts: seq<seq<Picture>>)
    requires ts != []
    ensures TargetsBytes(ts) == TargetBytes(ts[0]) + TargetsBytes(ts[1..])
  {
    hide TargetBytes;
  }

  lemma CrcReadsBack(vendor: int, product: int, crc: u32)
    ensures GetLE((Suffix(vendor, product) + PutU32(crc))[12..16]) == crc
  {
    hide GetLE, Suffix;
    Pow256Values();
    GetPut(crc, 4);
    assert (Suffix(vendor, product) + PutU32(crc))[12..16] == PutU32(crc);
  }

  lemma PrefixCount(size: nat, count: nat)
    requires count <= 255
    ensures FilePrefix(size, count)[10] == count
  {
    assert Field(count, 1) == [count];
    hide Field;
    var head: seq<byte> := [68, 102, 117, 83, 101] + [1] + Field(size, 4);
    assert FilePrefix(size, count) == head + Field(count, 1) && |head| == 10;
  }

  lemma FileReadsBack(decodes: seq<byte> -> bool, ts: seq<seq<Picture>>, vendor: int, product: int, crc: u32)
    requires |ts| <= 255
    requires forall ps <- ts :: TargetFits(ps)
    ensures var file := FileBody(ts, vendor, product) + PutU32(crc);
      && |file| >= 11
      && ReadTargets(decodes, file[11..], file[10])
         == (if decodes(TargetName()) || ts == [] then Walk(AllElements(ts), Suffix(vendor, product) + PutU32(crc)) else Stuck)
      && GetLE((Suffix(vendor, product) + PutU32(crc))[12..16]) == crc
  {
    var rest := Suffix(vendor, product) + PutU32(crc);
    if decodes(TargetName()) {
      TargetsReadBack(decodes, ts, rest);
    } else if ts == [] {
      assert TargetsBytes(ts) + rest == rest;
      NoTargets(decodes, rest);
    } else {
      UndecodableStops(decodes, ts, rest);
    }
    CrcReadsBack(vendor, product, crc);
    PrefixCount(|TargetsBytes(ts)| + 11, |ts|);
    hide ReadTargets, TargetsBytes, Suffix, AllElements, PicturesFit, TargetFits, TargetName, FilePrefix, GetLE, PutU32, Field;
    AfterPrefix(FilePrefix(|TargetsBytes(ts)| + 11, |ts|), TargetsBytes(ts), Suffix(vendor, product), PutU32(crc));
  }

  // ----- files that are not as built -----

  /** With any other checksum the built file is refused. */
  lemma WrongChecksumRefused(crc32: seq<byte> -> u32, decodes: seq<byte> -> bool, ts: seq<seq<Picture>>, vendor: int,
                             product: int, crc: u32)
    requires Fits(ts) && decodes(TargetName())
    requires crc + crc32(FileBody(ts, vendor, product)) != 0xFFFF_FFFF
    ensures Read(crc32, decodes, FileBody(ts, vendor, product) + PutU32(crc)) == Refused
  {
    FitsTargets(ts);
    FileReadsBack(decodes, ts, vendor, product, crc);
    FourBytes(crc);
    hide GetLE, Field, ReadTargets, FileBody, TargetName, AllElements, PicturesFit, PutU32;
    TakeDrop(FileBody(ts, vendor, product), PutU32(crc));
  }

  /** An element that announces more bytes than its target has left is read with those there are. */
  lemma TruncatedElementIsRead(address: u32, size: u32, data: seq<byte>)
    requires |data| <= size
    ensures ReadElements(PutLE(address, 4) + PutLE(size, 4) + data, 1) == Walk([Element(address, size, data)], [])
  {
    var d := PutLE(address, 4) + PutLE(size, 4) + data;
    Pow256Values();
    GetPut(address, 4);
    GetPut(size, 4);
    hide GetLE, PutLE;
    assert d[..4] == PutLE(address, 4) && d[4..8] == PutLE(size, 4) && d[8..] == data;
    ElementStep(d, 1);
    hide ReadElements;
    ShortEnds(0);
    assert Take(data, size) == data && Drop(data, size) == [];
  }

  /** The name of a target that is not named is not decoded. */
  lemma UnnamedTargetsDecodeNothing(decodes: seq<byte> -> bool, others: seq<byte> -> bool, data: seq<byte>)
    requires |data| >= 274 && GetLE(data[7..11]) == 0
    ensures ReadTargets(decodes, data, 1) == ReadTargets(others, data, 1)
  {
    hide ReadElements, GetLE;
    TargetStep(decodes, data, 1);
    TargetStep(others, data, 1);
    NoTargets(decodes, Drop(data[274..], GetLE(data[266..270])));
    NoTargets(others, Drop(data[274..], GetLE(data[266..270])));
  }

  // ----- the fields of the built file -----

  /** The first eleven bytes of the file. */
  lemma PrefixFields(crc32: seq<byte> -> u32, ts: seq<seq<Picture>>, vendor: int, product: int)
    requires Fits(ts)
    ensures var file := FileOf(crc32, ts, vendor, product);
      && |file| >= 27
      && file[..5] == Ascii("DfuSe") && file[5] == 1
      && GetLE(file[6..10]) == |file| - 16
      && file[10] == |ts|
  {
    hide TargetsBytes, GetLE, Field, PutU32, Suffix;
    var size, file := |TargetsBytes(ts)| + 11, FileOf(crc32, ts, vendor, product);
    var prefix := FilePrefix(size, |ts|);
    AfterPrefix(prefix, TargetsBytes(ts), Suffix(vendor, product), PutU32(ComputeCrc(crc32, FileBody(ts, vendor, product))));
    assert |file| == size + 16 by { FourBytes(ComputeCrc(crc32, FileBody(ts, vendor, product))); }
    PrefixCount(size, |ts|);
    Pow256Values();
    FieldBack(size, 4);
    assert prefix[..5] == Ascii("DfuSe") && prefix[6..10] == Field(size, 4);
    assert file[..5] == prefix[..5] && file[6..10] == prefix[6..10];
  }

  lemma FourBytes(n: u32)
    ensures |PutU32(n)| == 4
  {
  }

  /** Its last sixteen: device 0, product, vendor, format 0x011A, "UFD", its own length, and the
      complement of the CRC-32 of all before. */
  lemma SuffixFields(crc32: seq<byte> -> u32, ts: seq<seq<Picture>>, vendor: int, product: int)
    ensures var file := FileOf(crc32, ts, vendor, product);
      && |file| >= 27
      && var s := file[|file| - 16..];
         && GetLE(s[..2]) == 0 && GetLE(s[2..4]) == product % 0x10000 && GetLE(s[4..6]) == vendor % 0x10000
         && GetLE(s[6..8]) == 0x011A && s[8..11] == Ascii("UFD") && s[11] == 16
         && GetLE(s[12..]) + crc32(file[..|file| - 4]) == 0xFFFF_FFFF
  {
    var body := FileBody(ts, vendor, product);
    var crc, file := ComputeCrc(crc32, body), FileOf(crc32, ts, vendor, product);
    FourBytes(crc);
    SuffixUnpacks(vendor, product);
    Pow256Values();
    GetPut(crc, 4);
    hide TargetsBytes, GetLE, Field, PutU32, Suffix;
    var front := FilePrefix(|TargetsBytes(ts)| + 11, |ts|) + TargetsBytes(ts);
    assert file == front + Suffix(vendor, product) + PutU32(crc);
    SuffixSlices(front, Suffix(vendor, product), PutU32(crc));
    assert file[..|file| - 4] == body;
    assert PutU32(crc) == PutLE(crc, 4) by { IsPutLE(crc); }
  }

  lemma IsPutLE(n: u32)
    ensures PutU32(n) == PutLE(n, 4)
  {
  }

  lemma SuffixSlices(front: seq<byte>, s: seq<byte>, c: seq<byte>)
    requires |s| == 12 && |c| == 4
    ensures var tail := (front + s + c)[|front|..];
      && tail[..2] == s[..2] && tail[2..4] == s[2..4] && tail[4..6] == s[4..6] && tail[6..8] == s[6..8]
      && tail[8..11] == s[8..11] && tail[11] == s[11] && tail[12..] == c
  {
    assert (front + s + c)[|front|..] == s + c;
  }

  lemma SuffixUnpacks(vendor: int, product: int)
    ensures var s := Suffix(vendor, product);
      && GetLE(s[..2]) == 0 && GetLE(s[2..4]) == product % 0x10000 && GetLE(s[4..6]) == vendor % 0x10000
      && GetLE(s[6..8]) == 0x011A && s[8..11] == Ascii("UFD") && s[11] == 16
  {
    hide GetLE, Field;
    Pow256Values();
    var s := Suffix(vendor, product);
    FieldBack(0, 2);
    FieldBack(product % 0x10000, 2);
    FieldBack(vendor % 0x10000, 2);
    FieldBack(0x011A, 2);
    assert s[..2] == Field(0, 2) && s[2..4] == Field(product % 0x10000, 2);
    assert s[4..6] == Field(vendor % 0x10000, 2) && s[6..8] == Field(0x011A, 2);
    assert s[8..11] == Ascii("UFD");
  }

  lemma AfterPrefix(a: seq<byte>, b: seq<byte>, c: seq<byte>, d: seq<byte>)
    ensures (a + b + c + d)[|a|..] == b + (c + d)
    ensures forall i :: 0 <= i < |a| ==> (a + b + c + d)[i] == a[i]
  {
  }

  // ----- what the reader demands of any file -----

  /** Every element but the last has all the bytes it announces, and the last has no more. */
  predicate OnlyLastShort(es: seq<Element>) {
    && (forall i :: 0 <= i < |es| - 1 ==> |es[i].data| == es[i].size)
    && (forall i :: 0 <= i < |es| ==> |es[i].data| <= es[i].size)
  }

  /** A short element leaves nothing behind it. */
  predicate Follows(w: Walk) {
    w.Walk? ==> OnlyLastShort(w.elements) && ((exists e <- w.elements :: |e.data| < e.size) ==> w.rest == [])
  }

  /** The elements of a target as read: only the last may be shorter than announced. */
  lemma {:induction false} ElementsFollow(data: seq<byte>, count: nat)
    ensures Follows(ReadElements(data, count))
    decreases count
  {
    hide GetLE, ReadElements, Follows, Take, Drop, Prepend;
    NothingFollows();
    if count == 0 {
      NoElements(data);
    } else {
      ElementStep(data, count);
      if |data| >= 8 {
        var size, rest := GetLE(data[4..8]), data[8..];
        var e, later := Element(GetLE(data[..4]), size, Take(rest, size)), Drop(rest, size);
        ShortTakesAll(rest, size);
        ElementsFollow(later, count - 1);
        ShortEnds(count - 1);
        FollowsPrepended(e, ReadElements(later, count - 1));
      }
    }
  }

  lemma NothingFollows()
    ensures Follows(Stuck) && forall rest :: Follows(Walk([], rest))
  {
  }

  lemma ShortTakesAll(s: seq<byte>, n: nat)
    ensures |Take(s, n)| <= n && (|Take(s, n)| < n ==> Drop(s, n) == [])
  {
  }

  lemma FollowsPrepended(e: Element, w: Walk)
    requires Follows(w) && |e.data| <= e.size
    requires |e.data| < e.size ==> w == Walk([], []) || w == Stuck
    ensures Follows(Prepend([e], w))
  {
  }

  lemma ShortEnds(count: nat)
    ensures ReadElements([], count) == if count == 0 then Walk([], []) else Stuck
  {
    if count == 0 {
      NoElements([]);
    } else {
      ElementStep([], count);
    }
  }

  predicate IsSuffix(rest: seq<byte>, data: seq<byte>) {
    |rest| <= |data| && data[|data| - |rest|..] == rest
  }

  lemma IsOwnSuffix(data: seq<byte>)
    ensures IsSuffix(data, data)
  {
    assert data[|data| - |data|..] == data;
  }

  lemma SuffixFurther(rest: seq<byte>, data: seq<byte>, k: nat, n: nat)
    requires k <= |data| && IsSuffix(rest, Drop(data[k..], n))
    ensures IsSuffix(rest, data)
  {
    var later := Drop(data[k..], n);
    var d := |data| - |later|;
    assert later == data[d..];
    assert later[|later| - |rest|..] == data[|data| - |rest|..];
  }

  lemma {:induction false} WalkLeavesSuffix(decodes: seq<byte> -> bool, data: seq<byte>, count: nat)
    ensures var w := ReadTargets(decodes, data, count); w.Walk? ==> IsSuffix(w.rest, data)
    decreases count
  {
    hide GetLE, ReadElements, ReadTargets, IsSuffix, Take, Drop;
    if count == 0 {
      NoTargets(decodes, data);
      IsOwnSuffix(data);
    } else {
      TargetStep(decodes, data, count);
      if |data| >= 274 {
        var later := Drop(data[274..], GetLE(data[266..270]));
        WalkLeavesSuffix(decodes, later, count - 1);
        var w := ReadTargets(decodes, later, count - 1);
        if w.Walk? && IsSuffix(w.rest, later) {
          SuffixFurther(w.rest, data, 274, GetLE(data[266..270]));
        }
      }
    }
  }

  /** A file is accepted only when it is complete, its last four bytes are the checksum of
      everything before them, and the walk over the targets ends sixteen bytes before its end. */
  lemma AcceptedMeansChecked(crc32: seq<byte> -> u32, decodes: seq<byte> -> bool, file: seq<byte>)
    ensures Read(crc32, decodes, file).Elements? <==>
      && |file| >= 27
      && GetLE(file[|file| - 4..]) + crc32(file[..|file| - 4]) == 0xFFFF_FFFF
      && var w := ReadTargets(decodes, file[11..], file[10]); w.Walk? && |w.rest| == 16
  {
    if |file| >= 11 {
      WalkLeavesSuffix(decodes, file[11..], file[10]);
      hide GetLE, ReadTargets;
      var w := ReadTargets(decodes, file[11..], file[10]);
      if w.Walk? && |w.rest| == 16 {
        assert w.rest == file[11..][|file| - 11 - 16..] == file[|file| - 16..];
        assert w.rest[12..16] == file[|file| - 4..];
      }
    }
  }
}
