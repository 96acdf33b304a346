/** Protocol v2 frames on the wire: building them, and finding them again in a byte stream. */
module Frame {
  import opened Bytes
  import opened Errno
  import opened Crc
  import opened Transport

  const CMD_START: byte := 0xEA
  const V2_START: byte := 0xEB
  const V2_VERSION: byte := 2
  const HEADER_SIZE := 14
  const CRC_SIZE := 2
  const MAX_PAYLOAD := 240
  const FRAME_TIMEOUT_MS := 1000

  const OFFSET_VERSION := 1
  const OFFSET_FLAGS := 2
  const OFFSET_CMD := 3
  const OFFSET_PORT := 4
  const OFFSET_SIZE := 5
  const OFFSET_SEQUENCE := 6
  const OFFSET_SESSION := 10
  const OFFSET_PAYLOAD := 14

  const DEVICE_PORT_COUNT := 6
  const PORT_NONE: byte := 255

  predicate IsValidPort(port: byte) { port < DEVICE_PORT_COUNT || port == PORT_NONE }

  datatype Frame = Frame(
    flags: byte, cmd: byte, port: byte, sequence: u32, session: u32, payload: seq<byte>)

  /** The header after its start byte, then the payload: what the checksum covers. */
  function Covered(f: Frame): (s: seq<byte>)
    requires |f.payload| <= MAX_PAYLOAD
    ensures |s| == 13 + |f.payload|
  {
    [V2_VERSION, f.flags, f.cmd, f.port, |f.payload|]
    + PutU32(f.sequence) + PutU32(f.session) + f.payload
  }

  /** A register as stored in a frame, low byte first. */
  function PutReg(r: Reg): (s: seq<byte>)
    ensures |s| == 2
  {
    [ByteOf(r[8..]), ByteOf(r[..8])]
  }

  function GetReg(s: seq<byte>): (r: Reg)
    requires |s| == 2
    ensures PutReg(r) == s
  {
    ByteRoundTrip(s[0]);
    ByteRoundTrip(s[1]);
    var r := ByteBits(s[1]) + ByteBits(s[0]);
    assert r[..8] == ByteBits(s[1]) && r[8..] == ByteBits(s[0]);
    r
  }

  lemma GetPutReg(r: Reg)
    ensures GetReg(PutReg(r)) == r
  {
    assert r == r[..8] + r[8..];
  }

  function EncodeV2(f: Frame): seq<byte>
    requires |f.payload| <= MAX_PAYLOAD
  {
    [V2_START] + Covered(f) + PutReg(CrcOf(Covered(f)))
  }

  /** A frame byte by byte: where every field stands, and that all numbers go low byte first. */
  lemma WireLayout(f: Frame)
    requires |f.payload| <= MAX_PAYLOAD
    ensures var b, n := EncodeV2(f), |f.payload|;
      && |b| == 16 + n
      && b[0] == 0xEB && b[1] == 2 && b[2] == f.flags && b[3] == f.cmd && b[4] == f.port && b[5] == n
      && GetLE(b[6..10]) == f.sequence && GetLE(b[10..14]) == f.session
      && b[14..14 + n] == f.payload
      && GetLE(b[14 + n..]) == Value(CrcOf(b[1..14 + n]))
  {
    hide CrcOf, GetLE;
    var b, n := EncodeV2(f), |f.payload|;
    assert b[6..10] == PutU32(f.sequence) && b[10..14] == PutU32(f.session) && b[14..14 + n] == f.payload;
    assert b[1..14 + n] == Covered(f);
    assert b[14 + n..] == PutReg(CrcOf(Covered(f)));
    U32Value(f.sequence);
    U32Value(f.session);
    RegValue(CrcOf(Covered(f)));
  }

  lemma U32Value(n: u32)
    ensures GetLE(PutU32(n)) == n
  {
    Pow256Values();
    GetPut(n, 4);
  }

  /** A stored register is its value, low byte first. */
  lemma RegValue(r: Reg)
    ensures GetLE(PutReg(r)) == Value(r)
  {
    hide Value, ByteOf, GetLE;
    var high, low := r[..8], r[8..];
    assert r == high + low;
    ValueConcat(high, low);
    EightBits();
    ByteOfValue(high);
    ByteOfValue(low);
    TwoBytes(ByteOf(low), ByteOf(high));
  }

  lemma EightBits()
    ensures Pow2(8) == 256
  {
    assert Pow2(4) == 16;
  }

  lemma TwoBytes(low: byte, high: byte)
    ensures GetLE([low, high]) == low + 256 * (high as int)
  {
    assert [low, high][1..] == [high] && GetLE([high]) == high;
  }

  lemma ByteOfValue(b: seq<bool>)
    requires |b| == 8
    ensures ByteOf(b) == Value(b)
  {
    assert Pow2(4) == 16 && Pow2(8) == 256;
    ValueOfBits(ByteOf(b), 8);
  }

  lemma {:induction false} ValueConcat(a: seq<bool>, b: seq<bool>)
    ensures Value(a + b) == Value(a) * Pow2(|b|) + Value(b)
    decreases |b|
  {
    if b == [] {
      assert a + b == a;
    } else {
      hide Value;
      var n := |b| - 1;
      ValueConcat(a, b[..n]);
      ValueStep(b);
      ValueStep(a + b);
      assert (a + b)[..|a + b| - 1] == a + b[..n];
      Doubled(Value(a), Pow2(n));
    }
  }

  lemma ValueStep(b: seq<bool>)
    requires b != []
    ensures Value(b) == 2 * Value(b[..|b| - 1]) + (if b[|b| - 1] then 1 else 0)
  {
  }

  lemma Doubled(v: nat, p: nat)
    ensures v * (2 * p) == 2 * (v * p)
  {
  }

  // ----- sending -----

  method PutU16At(p: array<byte>, at: nat, value: Reg)
    requires at + 2 <= p.Length
    modifies p
    ensures p[..] == old(p[..at]) + PutReg(value) + old(p[at + 2..])
  {
    p[at] := ByteOf(value[8..]);
    p[at + 1] := ByteOf(value[..8]);
  }

  method PutU32At(p: array<byte>, at: nat, value: u32)
    requires at + 4 <= p.Length
    modifies p
    ensures p[..] == old(p[..at]) + PutU32(value) + old(p[at + 4..])
  {
    p[at] := value % 256;
    p[at + 1] := value / 256 % 256;
    p[at + 2] := value / 256 / 256 % 256;
    p[at + 3] := value / 256 / 256 / 256 % 256;
    assert PutU32(value) == [p[at]] + PutLE(value / 256, 3);
    assert PutLE(value / 256, 3) == [p[at + 1]] + PutLE(value / 256 / 256, 2);
    assert PutLE(value / 256 / 256, 2) == [p[at + 2]] + PutLE(value / 256 / 256 / 256, 1);
    assert PutLE(value / 256 / 256 / 256, 1) == [p[at + 3]];
  }

  /** Everything before the payload. */
  method PutHeader(frame: array<byte>, f: Frame)
    requires frame.Length >= HEADER_SIZE && |f.payload| <= MAX_PAYLOAD
    modifies frame
    ensures frame[..OFFSET_PAYLOAD] == ([V2_START] + Covered(f))[..OFFSET_PAYLOAD]
  {
    frame[0] := V2_START;
    frame[OFFSET_VERSION] := V2_VERSION;
    frame[OFFSET_FLAGS] := f.flags;
    frame[OFFSET_CMD] := f.cmd;
    frame[OFFSET_PORT] := f.port;
    frame[OFFSET_SIZE] := |f.payload|;
    ghost var start := [V2_START, V2_VERSION, f.flags, f.cmd, f.port, |f.payload|];
    assert frame[..OFFSET_SEQUENCE] == start;
    PutU32At(frame, OFFSET_SEQUENCE, f.sequence);
    assert frame[..OFFSET_SESSION] == start + PutU32(f.sequence);
    PutU32At(frame, OFFSET_SESSION, f.session);
    assert frame[..OFFSET_PAYLOAD] == start + PutU32(f.sequence) + PutU32(f.session);
  }

  /** The frame, built in place. */
  method BuildV2Frame(f: Frame) returns (frame: array<byte>, length: nat)
    requires |f.payload| <= MAX_PAYLOAD
    ensures fresh(frame) && length <= frame.Length
    ensures frame[..length] == EncodeV2(f)
  {
    frame := new byte[HEADER_SIZE + CRC_SIZE + MAX_PAYLOAD];
    PutHeader(frame, f);
    ghost var header := frame[..OFFSET_PAYLOAD];
    forall i | 0 <= i < |f.payload| {
      frame[OFFSET_PAYLOAD + i] := f.payload[i];
    }
    var crcOffset := OFFSET_PAYLOAD + |f.payload|;
    assert frame[..crcOffset] == header + f.payload;
    assert frame[..crcOffset] == [V2_START] + Covered(f);
    assert frame[1..crcOffset] == Covered(f);
    var crc := Crc16(frame[1..crcOffset]);
    PutU16At(frame, crcOffset, crc);
    length := crcOffset + CRC_SIZE;
    assert frame[..length] == ([V2_START] + Covered(f)) + PutReg(crc);
  }

  /** Builds the frame and hands it to the transport in one send. */
  method SendV2Frame(t: UsbTransport, port: byte, cmd: byte, payload: seq<byte>,
                     sequence: u32, session: u32, flags: byte)
    returns (r: int)
    requires t.Valid()
    modifies t`used, t.buffer, t.fd`wire
    ensures t.Valid()
    ensures !IsValidPort(port) || |payload| > MAX_PAYLOAD ==> r == -EINVAL && t.Abs() == old(t.Abs())
    ensures IsValidPort(port) && |payload| <= MAX_PAYLOAD ==>
      var bytes := EncodeV2(Frame(flags, cmd, port, sequence, session, payload));
      && (t.mode == Buffered ==> r == BufferedResult(old(t.Abs()), bytes) && t.Abs() == BufferedSend(old(t.Abs()), bytes))
      && (t.mode == Normal && r >= 0 ==> r == |bytes| && t.fd.wire == old(t.fd.wire) + bytes)
      && (t.mode == Normal && r < 0 ==> exists k :: 0 <= k < |bytes| && t.fd.wire == old(t.fd.wire) + bytes[..k])
  {
    if !IsValidPort(port) || |payload| > MAX_PAYLOAD {
      return -EINVAL;
    }
    var frame, length := BuildV2Frame(Frame(flags, cmd, port, sequence, session, payload));
    r := t.Send(frame[..length]);
  }

  /** The older framing: start byte, command, size, port, payload, and no checksum. */
  function EncodeLegacy(cmd: byte, port: byte, payload: seq<byte>): seq<byte>
    requires |payload| <= 255
  {
    [CMD_START, cmd, |payload|, port] + payload
  }

  lemma LegacyLayout(cmd: byte, port: byte, payload: seq<byte>)
    requires |payload| <= 255
    ensures var b := EncodeLegacy(cmd, port, payload);
      && |b| == 4 + |payload| && b[0] == 0xEA && b[1] == cmd && b[2] == |payload| && b[3] == port && b[4..] == payload
  {
  }

  method SendLegacyFrame(t: UsbTransport, port: byte, cmd: byte, payload: seq<byte>) returns (r: int)
    requires t.Valid()
    modifies t`used, t.buffer, t.fd`wire
    ensures t.Valid()
    ensures !IsValidPort(port) || |payload| > 255 ==> r == -EINVAL && t.Abs() == old(t.Abs())
    ensures IsValidPort(port) && |payload| <= 255 ==>
      var bytes := EncodeLegacy(cmd, port, payload);
      && (t.mode == Buffered ==> r == BufferedResult(old(t.Abs()), bytes) && t.Abs() == BufferedSend(old(t.Abs()), bytes))
      && (t.mode == Normal && r >= 0 ==> r == |bytes| && t.fd.wire == old(t.fd.wire) + bytes)
      && (t.mode == Normal && r < 0 ==> exists k :: 0 <= k < |bytes| && t.fd.wire == old(t.fd.wire) + bytes[..k])
  {
    if !IsValidPort(port) || |payload| > 255 {
      return -EINVAL;
    }
    var frame := new byte[4 + 255];
    frame[0] := CMD_START;
    frame[1] := cmd;
    frame[2] := |payload|;
    frame[3] := port;
    forall i | 0 <= i < |payload| {
      frame[4 + i] := payload[i];
    }
    assert frame[..4 + |payload|] == EncodeLegacy(cmd, port, payload);
    r := t.Send(frame[..4 + |payload|]);
  }

  // ----- receiving -----

  datatype Outcome =
    | Idle                                               // no start byte arrived
    | Failed(error: int)                                 // the transport gave up
    | NotAStart                                          // one byte skipped
    | BadVersion
    | TooLong
    | CrcMismatch
    | LegacyBadPort
    | Legacy(cmd: byte, port: byte, payload: seq<byte>)
    | V2(frame: Frame)

  /** Reads the fields of a frame back from the bytes its checksum covers. */
  function Parse(covered: seq<byte>): (f: Frame)
    requires 13 <= |covered| <= 13 + MAX_PAYLOAD
    ensures |f.payload| == |covered| - 13
    ensures covered[0] == V2_VERSION && covered[4] == |covered| - 13 ==> Covered(f) == covered
  {
    var f := Frame(covered[1], covered[2], covered[3],
                   GetU32(covered[5..9]), GetU32(covered[9..13]), covered[13..]);
    assert covered == covered[..5] + covered[5..9] + covered[9..13] + covered[13..];
    f
  }

  /** What one receive call makes of a stream that delivers all its bytes,
      and what it leaves unread. */
  function DecodeOne(s: seq<byte>): (Outcome, seq<byte>) {
    if |s| == 0 then (Idle, [])
    else if s[0] == V2_START then DecodeV2(s[1..])
    else if s[0] == CMD_START then DecodeLegacy(s[1..])
    else (NotAStart, s[1..])
  }

  function DecodeV2(s: seq<byte>): (Outcome, seq<byte>) {
    if |s| < 13 then (Failed(-ETIMEDOUT), [])
    else
      var size := s[4];
      if s[0] != V2_VERSION then (BadVersion, Drop(s, 15 + size))
      else if size > MAX_PAYLOAD then (TooLong, Drop(s, 15 + size))
      else if |s| < 15 + size then (Failed(-ETIMEDOUT), [])
      else
        var covered, crc, rest := s[..13 + size], s[13 + size..15 + size], s[15 + size..];
        if GetReg(crc) != CrcOf(covered) then (CrcMismatch, rest) else (V2(Parse(covered)), rest)
  }

  function DecodeLegacy(s: seq<byte>): (Outcome, seq<byte>) {
    if |s| < 3 then (Failed(-ETIMEDOUT), [])
    else if !IsValidPort(s[2]) then (LegacyBadPort, s[3..])
    else if |s| - 3 < s[1] then (Failed(-ETIMEDOUT), [])
    else (Legacy(s[0], s[2], s[3..][..s[1]]), s[3..][s[1]..])
  }

  /** Counters raised before dispatch: framing errors, checksum errors, legacy frames. */
  function FramingErrors(o: Outcome): nat {
    if o in {NotAStart, BadVersion, TooLong, LegacyBadPort} then 1 else 0
  }

  function CrcErrors(o: Outcome): nat { if o.CrcMismatch? then 1 else 0 }

  function LegacyFrames(o: Outcome): nat { if o.Legacy? then 1 else 0 }

  /** The frame of a v2 outcome was the very next thing on the wire. */
  ghost predicate Justified(o: Outcome, before: seq<byte>, after: seq<byte>) {
    o.V2? ==> |o.frame.payload| <= MAX_PAYLOAD && before == EncodeV2(o.frame) + after
  }

  lemma EncodedFromParts(s: seq<byte>, size: nat)
    requires 15 + size <= |s| && size <= MAX_PAYLOAD
    requires s[0] == V2_VERSION && s[4] == size
    requires GetReg(s[13 + size..15 + size]) == CrcOf(s[..13 + size])
    ensures |Parse(s[..13 + size]).payload| == size
    ensures [V2_START] + s == EncodeV2(Parse(s[..13 + size])) + s[15 + size..]
  {
    hide CrcOf, Covered, Parse, GetReg, PutReg;
    var covered, crc, rest := s[..13 + size], s[13 + size..15 + size], s[15 + size..];
    assert covered[0] == V2_VERSION && covered[4] == size;
    assert s == covered + crc + rest;
    assert [V2_START] + s == [V2_START] + covered + crc + rest;
  }

  lemma ShortHeader(s: seq<byte>)
    requires |s| < 13
    ensures DecodeV2(s) == (Failed(-ETIMEDOUT), [])
  {
  }

  lemma RefusedHeader(header: seq<byte>, rest: seq<byte>)
    requires |header| == 13 && (header[0] != V2_VERSION || header[4] > MAX_PAYLOAD)
    ensures var size: nat := header[4];
      DecodeV2(header + rest) == (if header[0] != V2_VERSION then BadVersion else TooLong, Drop(rest, size + 2))
  {
    hide CrcOf, Parse, GetReg;
    var s, size: nat := header + rest, header[4];
    assert s[0] == header[0] && s[4] == size;
    assert Drop(s, 15 + size) == Drop(rest, size + 2);
  }

  lemma ShortTail(header: seq<byte>, rest: seq<byte>)
    requires |header| == 13 && header[0] == V2_VERSION && header[4] <= MAX_PAYLOAD && |rest| < header[4] + 2
    ensures DecodeV2(header + rest) == (Failed(-ETIMEDOUT), [])
  {
    hide CrcOf, Parse, GetReg;
    var s := header + rest;
    assert s[0] == header[0] && s[4] == header[4];
  }

  lemma WholeFrame(header: seq<byte>, tail: seq<byte>, rest: seq<byte>)
    requires |header| == 13 && header[0] == V2_VERSION && header[4] <= MAX_PAYLOAD && |tail| == header[4] + 2
    ensures var covered, crc := header + tail[..header[4]], tail[header[4]..];
      && DecodeV2(header + (tail + rest)) == (if GetReg(crc) != CrcOf(covered) then CrcMismatch else V2(Parse(covered)), rest)
      && (GetReg(crc) == CrcOf(covered) ==>
           && |Parse(covered).payload| <= MAX_PAYLOAD
           && [V2_START] + (header + (tail + rest)) == EncodeV2(Parse(covered)) + rest)
  {
    hide CrcOf, Parse, GetReg, EncodeV2;
    var s, size := header + (tail + rest), header[4];
    assert s[0] == header[0] && s[4] == size;
    assert s[..13 + size] == header + tail[..size];
    assert s[13 + size..15 + size] == tail[size..];
    assert s[15 + size..] == rest;
    if GetReg(s[13 + size..15 + size]) == CrcOf(s[..13 + size]) {
      EncodedFromParts(s, size);
    }
  }

  class Receiver {
    const fd: Fd
    var framingErrors: nat
    var crcErrors: nat
    var legacyFrames: nat

    constructor (fd: Fd)
      ensures this.fd == fd && framingErrors == crcErrors == legacyFrames == 0
    {
      this.fd := fd;
      framingErrors, crcErrors, legacyFrames := 0, 0, 0;
    }

    method DiscardBytes(count: nat) returns (r: int)
      modifies fd`input
      ensures fd.reliable ==> fd.input == Drop(old(fd.input), count)
    {
      var size := count;
      ghost var before := fd.input;
      while size > 0
        invariant 0 <= size <= count
        invariant fd.reliable ==> fd.input == Drop(before, count - size)
      {
        var chunk := if size < 64 then size else 64;
        var scratch, result := ReceiveTimeout(fd, chunk, FRAME_TIMEOUT_MS);
        if result < 0 {
          return result;
        }
        size := size - result;
      }
      return 0;
    }

    method ReceiveV2Frame() returns (o: Outcome)
      modifies this`framingErrors, this`crcErrors, fd`input
      ensures fd.reliable ==> (o, fd.input) == DecodeV2(old(fd.input))
      ensures Justified(o, [V2_START] + old(fd.input), fd.input)
      ensures framingErrors == old(framingErrors) + FramingErrors(o)
      ensures crcErrors == old(crcErrors) + CrcErrors(o)
      ensures !o.Legacy? && !o.Idle?
      ensures o.Failed? ==> o.error < 0 && o.error != -ENOMSG && o.error != -ESTALE
    {
      hide DecodeV2, Parse, CrcOf, GetReg, EncodeV2;
      ghost var s := fd.input;
      var header, ret := ReceiveTimeout(fd, HEADER_SIZE - 1, FRAME_TIMEOUT_MS);
      if ret < 0 {
        if |s| < 13 { ShortHeader(s); }
        return Failed(ret);
      }
      var size := header[OFFSET_SIZE - 1];
      if header[OFFSET_VERSION - 1] != V2_VERSION || size > MAX_PAYLOAD {
        RefusedHeader(header, fd.input);
      }
      if header[OFFSET_VERSION - 1] != V2_VERSION {
        var _ := DiscardBytes(size + CRC_SIZE);
        framingErrors := framingErrors + 1;
        return BadVersion;
      }
      if size > MAX_PAYLOAD {
        var _ := DiscardBytes(size + CRC_SIZE);
        framingErrors := framingErrors + 1;
        return TooLong;
      }
      ghost var afterHeader := fd.input;
      var tail;
      tail, ret := ReceiveTimeout(fd, size + CRC_SIZE, FRAME_TIMEOUT_MS);
      if ret < 0 {
        if |afterHeader| < size + CRC_SIZE { ShortTail(header, afterHeader); }
        return Failed(ret);
      }
      WholeFrame(header, tail, fd.input);
      assert s == header + (tail + fd.input);
      var calculated := Crc16(header + tail[..size]);
      if GetReg(tail[size..]) != calculated {
        crcErrors := crcErrors + 1;
        return CrcMismatch;
      }
      return V2(Parse(header + tail[..size]));
    }

    method ReceiveLegacyFrame() returns (o: Outcome)
      modifies this`framingErrors, this`legacyFrames, fd`input
      ensures fd.reliable ==> (o, fd.input) == DecodeLegacy(old(fd.input))
      ensures framingErrors == old(framingErrors) + FramingErrors(o)
      ensures legacyFrames == old(legacyFrames) + LegacyFrames(o)
      ensures !o.V2? && !o.CrcMismatch? && !o.Idle?
      ensures o.Failed? ==> o.error < 0 && o.error != -ENOMSG && o.error != -ESTALE
    {
      ghost var s := fd.input;
      var header, ret := ReceiveTimeout(fd, 3, FRAME_TIMEOUT_MS);
      if ret < 0 {
        return Failed(ret);
      }
      assert s == header + fd.input && s[3..] == fd.input;
      if !IsValidPort(header[2]) {
        framingErrors := framingErrors + 1;
        return LegacyBadPort;
      }
      var payload;
      payload, ret := ReceiveTimeout(fd, header[1], FRAME_TIMEOUT_MS);
      if ret < 0 {
        return Failed(ret);
      }
      legacyFrames := legacyFrames + 1;
      return Legacy(header[0], header[2], payload);
    }

    /** One receive call up to the point where a frame would be dispatched. However the
        stream is cut into reads, the result is that of DecodeOne on the whole stream. */
    method Receive() returns (o: Outcome)
      modifies this, fd`input
      ensures fd.reliable ==> (o, fd.input) == DecodeOne(old(fd.input))
      ensures Justified(o, old(fd.input), fd.input)
      ensures o.Idle? ==> fd.input == old(fd.input)
      ensures o.Failed? ==> o.error < 0 && o.error != -ENOMSG && o.error != -ESTALE
      ensures framingErrors == old(framingErrors) + FramingErrors(o)
      ensures crcErrors == old(crcErrors) + CrcErrors(o)
      ensures legacyFrames == old(legacyFrames) + LegacyFrames(o)
    {
      ghost var s := fd.input;
      var start, ret := ReceiveTimeout(fd, 1, 500);
      if ret == -ETIMEDOUT || ret == -EAGAIN {
        return Idle;
      }
      if ret < 0 {
        return Failed(ret);
      }
      assert s == start + fd.input && s[1..] == fd.input;
      if start[0] == V2_START {
        o := ReceiveV2Frame();
        assert s == [V2_START] + s[1..];
      } else if start[0] == CMD_START {
        o := ReceiveLegacyFrame();
      } else {
        framingErrors := framingErrors + 1;
        o := NotAStart;
      }
    }
  }

  // ----- decoding undoes encoding -----

  lemma EncodeShape(f: Frame, rest: seq<byte>)
    requires |f.payload| <= MAX_PAYLOAD
    ensures var t := (EncodeV2(f) + rest)[1..]; var n := |f.payload|;
      && |t| >= 15 + n
      && t[..13 + n] == Covered(f)
      && t[13 + n..15 + n] == PutReg(CrcOf(Covered(f)))
      && t[15 + n..] == rest
      && (EncodeV2(f) + rest)[0] == V2_START
  {
    hide Covered, PutReg, CrcOf;
    var n, covered, crc := |f.payload|, Covered(f), PutReg(CrcOf(Covered(f)));
    var t := (EncodeV2(f) + rest)[1..];
    assert t == covered + crc + rest;
    assert t[..13 + n] == covered;
    assert t[13 + n..15 + n] == crc;
    assert t[15 + n..] == rest;
  }

  lemma ParseCovered(f: Frame)
    requires |f.payload| <= MAX_PAYLOAD
    ensures Parse(Covered(f)) == f
  {
    var c := Covered(f);
    assert c[5..9] == PutU32(f.sequence);
    assert c[9..13] == PutU32(f.session);
    assert c[13..] == f.payload;
    GetPutU32(f.sequence);
    GetPutU32(f.session);
  }

  lemma EncodedDecodes(f: Frame, rest: seq<byte>)
    requires |f.payload| <= MAX_PAYLOAD
    ensures DecodeOne(EncodeV2(f) + rest) == (V2(f), rest)
  {
    EncodeShape(f, rest);
    var t := (EncodeV2(f) + rest)[1..];
    var covered := t[..13 + |f.payload|];
    assert covered[0] == V2_VERSION && covered[4] == |f.payload|;
    assert t[0] == covered[0] && t[4] == covered[4];
    GetPutReg(CrcOf(Covered(f)));
    ParseCovered(f);
  }

  lemma DecodedWasEncoded(s: seq<byte>, f: Frame, rest: seq<byte>)
    requires DecodeOne(s) == (V2(f), rest)
    ensures |f.payload| <= MAX_PAYLOAD && s == EncodeV2(f) + rest
  {
    var t := s[1..];
    EncodedFromParts(t, t[4]);
    assert s == [V2_START] + t;
  }

  /** A stream decodes to a v2 frame exactly when it starts with that frame's encoding. */
  lemma DecodeIffEncoded(s: seq<byte>, f: Frame, rest: seq<byte>)
    ensures DecodeOne(s) == (V2(f), rest) <==> |f.payload| <= MAX_PAYLOAD && s == EncodeV2(f) + rest
  {
    if |f.payload| <= MAX_PAYLOAD && s == EncodeV2(f) + rest {
      EncodedDecodes(f, rest);
    }
    if DecodeOne(s) == (V2(f), rest) {
      DecodedWasEncoded(s, f, rest);
    }
  }

  /** And to a legacy frame exactly when it starts with the encoding of that. */
  lemma LegacyDecodeIffEncoded(s: seq<byte>, cmd: byte, port: byte, payload: seq<byte>, rest: seq<byte>)
    ensures DecodeOne(s) == (Legacy(cmd, port, payload), rest)
       <==> IsValidPort(port) && |payload| <= 255 && s == EncodeLegacy(cmd, port, payload) + rest
  {
    hide DecodeV2;
    if IsValidPort(port) && |payload| <= 255 && s == EncodeLegacy(cmd, port, payload) + rest {
      LegacyDecodes(cmd, port, payload, rest);
    }
    if |s| > 0 && s[0] == V2_START {
      NeverLegacy(s[1..]);
    }
    if DecodeOne(s) == (Legacy(cmd, port, payload), rest) {
      var t := s[1..];
      assert t == t[..3] + t[3..][..t[1]] + t[3..][t[1]..];
      assert s == [s[0]] + t;
    }
  }

  lemma LegacyDecodes(cmd: byte, port: byte, payload: seq<byte>, rest: seq<byte>)
    requires IsValidPort(port) && |payload| <= 255
    ensures DecodeOne(EncodeLegacy(cmd, port, payload) + rest) == (Legacy(cmd, port, payload), rest)
  {
    hide DecodeV2;
    var s := EncodeLegacy(cmd, port, payload) + rest;
    assert s[1..][3..] == payload + rest;
  }

  lemma NeverLegacy(s: seq<byte>)
    ensures !DecodeV2(s).0.Legacy?
  {
    hide CrcOf, Parse, GetReg;
  }

  // ----- a stream of frames, damaged frames and noise -----

  /** A block that is led by a v2 start byte and has the length its size byte announces. */
  predicate IsBlock(b: seq<byte>) {
    |b| >= 16 && b[0] == V2_START && |b| - 16 == b[5]
  }

  datatype Item =
    | Gap(b: byte)               // neither start byte
    | Good(frame: Frame)
    | Bad(block: seq<byte>)      // a block some check of the receiver refuses
    | Older(cmd: byte, port: byte, payload: seq<byte>)
    | OlderBad(cmd: byte, size: byte, port: byte)   // a legacy header with an invalid port

  function Verdict(b: seq<byte>): Outcome
    requires IsBlock(b)
  {
    if b[1] != V2_VERSION then BadVersion
    else if b[5] > MAX_PAYLOAD then TooLong
    else if GetReg(b[|b| - 2..]) != CrcOf(b[1..|b| - 2]) then CrcMismatch
    else V2(Parse(b[1..|b| - 2]))
  }

  predicate WellFormed(i: Item) {
    match i
    case Gap(b) => b != V2_START && b != CMD_START
    case Good(f) => IsValidPort(f.port) && |f.payload| <= MAX_PAYLOAD
    case Bad(b) => IsBlock(b) && !Verdict(b).V2?
    case Older(_, port, payload) => IsValidPort(port) && |payload| <= 255
    case OlderBad(_, _, port) => !IsValidPort(port)
  }

  function Render(i: Item): seq<byte>
    requires WellFormed(i)
  {
    match i
    case Gap(b) => [b]
    case Good(f) => EncodeV2(f)
    case Bad(b) => b
    case Older(cmd, port, payload) => EncodeLegacy(cmd, port, payload)
    case OlderBad(cmd, size, port) => [CMD_START, cmd, size, port]
  }

  function Expected(i: Item): Outcome
    requires WellFormed(i)
  {
    match i
    case Gap(_) => NotAStart
    case Good(f) => V2(f)
    case Bad(b) => Verdict(b)
    case Older(cmd, port, payload) => Legacy(cmd, port, payload)
    case OlderBad(_, _, _) => LegacyBadPort
  }

  /** A block is consumed whole, whatever is wrong inside it. */
  lemma BlockConsumed(b: seq<byte>, rest: seq<byte>)
    requires IsBlock(b)
    ensures DecodeOne(b + rest) == (Verdict(b), rest)
  {
    var s := (b + rest)[1..];
    var size := b[5];
    assert s[..13 + size] == b[1..|b| - 2];
    assert s[13 + size..15 + size] == b[|b| - 2..];
    assert s[15 + size..] == rest;
  }

  lemma ItemConsumed(i: Item, rest: seq<byte>)
    requires WellFormed(i)
    ensures DecodeOne(Render(i) + rest) == (Expected(i), rest)
  {
    match i
    case Gap(b) => assert ([b] + rest)[1..] == rest;
    case Good(f) => EncodedDecodes(f, rest);
    case Bad(b) => BlockConsumed(b, rest);
    case Older(cmd, port, payload) => LegacyDecodes(cmd, port, payload, rest);
    case OlderBad(cmd, size, port) =>
      assert (Render(i) + rest)[1..] == [cmd, size, port] + rest;
      assert ([cmd, size, port] + rest)[3..] == rest;
  }

  /** Repeated receive calls until the stream is used up. */
  function DecodeAll(s: seq<byte>): seq<Outcome>
    decreases |s|
  {
    if |s| == 0 then []
    else
      var (o, rest) := DecodeOne(s);
      [o] + DecodeAll(rest)
  }

  function RenderAll(items: seq<Item>): seq<byte>
    requires forall i :: i in items ==> WellFormed(i)
  {
    if |items| == 0 then [] else Render(items[0]) + RenderAll(items[1..])
  }

  /** One outcome per item, in order: no frame is lost, invented, reordered or damaged. */
  lemma {:induction false} StreamDecodes(items: seq<Item>)
    requires forall i :: i in items ==> WellFormed(i)
    ensures |DecodeAll(RenderAll(items))| == |items|
    ensures forall k :: 0 <= k < |items| ==> DecodeAll(RenderAll(items))[k] == Expected(items[k])
  {
    if |items| != 0 {
      ItemConsumed(items[0], RenderAll(items[1..]));
      StreamDecodes(items[1..]);
      var outcomes := DecodeAll(RenderAll(items));
      assert outcomes == [Expected(items[0])] + DecodeAll(RenderAll(items[1..]));
    }
  }

  /** The receiver's loop over a reliable descriptor produces those outcomes. */
  method ReceiveAll(r: Receiver) returns (outcomes: seq<Outcome>)
    requires r.fd.reliable
    modifies r, r.fd`input
    ensures outcomes == DecodeAll(old(r.fd.input)) && r.fd.input == []
    ensures r.framingErrors == old(r.framingErrors) + TotalFraming(outcomes)
    ensures r.crcErrors == old(r.crcErrors) + TotalCrc(outcomes)
  {
    hide DecodeOne, DecodeAll, TotalFraming, FramingErrors, TotalCrc, CrcErrors;
    outcomes := [];
    ghost var all := DecodeAll(r.fd.input);
    NothingReceived();
    while r.fd.input != []
      invariant outcomes + DecodeAll(r.fd.input) == all
      invariant r.framingErrors == old(r.framingErrors) + TotalFraming(outcomes)
      invariant r.crcErrors == old(r.crcErrors) + TotalCrc(outcomes)
      decreases |r.fd.input|
    {
      DecodeAllStep(r.fd.input);
      var o := r.Receive();
      TotalsAppend(outcomes, o);
      outcomes := outcomes + [o];
    }
  }

  lemma DecodeAllStep(s: seq<byte>)
    requires s != []
    ensures |DecodeOne(s).1| < |s| && DecodeAll(s) == [DecodeOne(s).0] + DecodeAll(DecodeOne(s).1)
  {
  }

  lemma NothingReceived()
    ensures DecodeAll([]) == [] && TotalFraming([]) == 0 && TotalCrc([]) == 0
  {
  }

  function TotalFraming(outcomes: seq<Outcome>): nat {
    if |outcomes| == 0 then 0 else FramingErrors(outcomes[0]) + TotalFraming(outcomes[1..])
  }

  function TotalCrc(outcomes: seq<Outcome>): nat {
    if |outcomes| == 0 then 0 else CrcErrors(outcomes[0]) + TotalCrc(outcomes[1..])
  }

  lemma {:induction false} TotalsAppend(outcomes: seq<Outcome>, o: Outcome)
    ensures TotalFraming(outcomes + [o]) == TotalFraming(outcomes) + FramingErrors(o)
    ensures TotalCrc(outcomes + [o]) == TotalCrc(outcomes) + CrcErrors(o)
  {
    if |outcomes| != 0 {
      TotalsAppend(outcomes[1..], o);
      assert (outcomes + [o])[1..] == outcomes[1..] + [o];
    }
  }

  function GapBytes(items: seq<Item>): nat {
    if |items| == 0 then 0 else (if items[0].Gap? then 1 else 0) + GapBytes(items[1..])
  }

  /** What no receiver could take for a frame: a stray byte, a block of another version or above
      the largest payload, a legacy header for no port. */
  predicate Misframed(i: Item) {
    i.Gap? || i.OlderBad? || (i.Bad? && |i.block| > 5 && (i.block[1] != 2 || i.block[5] > 240))
  }

  function CountMisframed(items: seq<Item>): nat {
    if |items| == 0 then 0 else (if Misframed(items[0]) then 1 else 0) + CountMisframed(items[1..])
  }

  /** Blocks that are framed like a frame and refused all the same. */
  function CountDamaged(items: seq<Item>): nat {
    if |items| == 0 then 0 else (if items[0].Bad? && !Misframed(items[0]) then 1 else 0) + CountDamaged(items[1..])
  }

  /** Receiving any stream of items, framing_errors counts the misframed ones and crc_errors the
      blocks refused for their checksum, each once. */
  lemma {:induction false} ErrorsAreCounted(items: seq<Item>)
    requires forall i :: i in items ==> WellFormed(i)
    ensures TotalFraming(DecodeAll(RenderAll(items))) == CountMisframed(items)
    ensures TotalCrc(DecodeAll(RenderAll(items))) == CountDamaged(items)
  {
    if |items| != 0 {
      ItemConsumed(items[0], RenderAll(items[1..]));
      ErrorsAreCounted(items[1..]);
      ItemCounts(items[0]);
      var outcomes := DecodeAll(RenderAll(items));
      hide DecodeOne, FramingErrors, CrcErrors, Misframed, Expected, Render;
      assert outcomes[0] == Expected(items[0]);
      assert outcomes[1..] == DecodeAll(RenderAll(items[1..]));
    }
  }

  lemma ItemCounts(i: Item)
    requires WellFormed(i)
    ensures FramingErrors(Expected(i)) == if Misframed(i) then 1 else 0
    ensures CrcErrors(Expected(i)) == if i.Bad? && !Misframed(i) then 1 else 0
  {
  }

  /** With undamaged frames, framing errors count exactly the bytes between them. */
  lemma {:induction false} FramingErrorsAreGaps(items: seq<Item>)
    requires forall i :: i in items ==> WellFormed(i) && !i.Bad? && !i.OlderBad?
    ensures TotalFraming(DecodeAll(RenderAll(items))) == GapBytes(items)
  {
    ErrorsAreCounted(items);
    OnlyGaps(items);
  }

  lemma {:induction false} OnlyGaps(items: seq<Item>)
    requires forall i :: i in items ==> !i.Bad? && !i.OlderBad?
    ensures CountMisframed(items) == GapBytes(items)
  {
    if |items| != 0 {
      OnlyGaps(items[1..]);
    }
  }

  // ----- damaged frames are refused -----

  /** A frame's bytes after damage that leaves the start and size bytes alone. */
  ghost predicate Damaged(f: Frame, covered: seq<byte>, crc: seq<byte>) {
    && |f.payload| <= MAX_PAYLOAD
    && |covered| == 13 + |f.payload| && |crc| == 2
    && covered[4] == |f.payload|
  }

  lemma RefusedIfCrcDiffers(f: Frame, covered: seq<byte>, crc: seq<byte>, rest: seq<byte>)
    requires Damaged(f, covered, crc)
    requires CrcOf(covered) != GetReg(crc)
    ensures DecodeOne([V2_START] + covered + crc + rest).0 in {BadVersion, CrcMismatch}
    ensures DecodeOne([V2_START] + covered + crc + rest).1 == rest
  {
    var b := [V2_START] + covered + crc;
    assert b[1..|b| - 2] == covered && b[|b| - 2..] == crc;
    assert b[5] == covered[4] && b[1] == covered[0];
    BlockConsumed(b, rest);
  }

  /** Any error burst of up to sixteen bits inside the covered bytes is refused. */
  lemma BurstRefused(f: Frame, covered: seq<byte>, rest: seq<byte>)
    requires |f.payload| <= MAX_PAYLOAD
    requires Damaged(f, covered, PutReg(CrcOf(Covered(f))))
    requires Burst(BitsOf(Covered(f)), BitsOf(covered))
    ensures DecodeOne([V2_START] + covered + PutReg(CrcOf(Covered(f))) + rest).0 in {BadVersion, CrcMismatch}
    ensures DecodeOne([V2_START] + covered + PutReg(CrcOf(Covered(f))) + rest).1 == rest
  {
    GetPutReg(CrcOf(Covered(f)));
    BurstChangesRegister(PRESET, BitsOf(Covered(f)), BitsOf(covered));
    RefusedIfCrcDiffers(f, covered, PutReg(CrcOf(Covered(f))), rest);
  }

  /** Any odd number of flipped bits, checksum bytes included, is refused. */
  lemma OddFlipsRefused(f: Frame, covered: seq<byte>, crc: seq<byte>, rest: seq<byte>)
    requires Damaged(f, covered, crc)
    requires var sent := Covered(f) + PutReg(CrcOf(Covered(f)));
      Odd(Xor(BitsOf(sent), BitsOf(covered + crc)))
    ensures DecodeOne([V2_START] + covered + crc + rest).0 in {BadVersion, CrcMismatch}
    ensures DecodeOne([V2_START] + covered + crc + rest).1 == rest
  {
    var sentCrc := PutReg(CrcOf(Covered(f)));
    GetPutReg(CrcOf(Covered(f)));
    BitsOfAppend(Covered(f), sentCrc);
    BitsOfAppend(covered, crc);
    OddXor(BitsOf(Covered(f) + sentCrc), BitsOf(covered + crc));
    OddConcat(BitsOf(Covered(f)), BitsOf(sentCrc));
    OddConcat(BitsOf(covered), BitsOf(crc));
    OddOfRegBytes(sentCrc);
    OddOfRegBytes(crc);
    FeedParity(PRESET, BitsOf(Covered(f)));
    FeedParity(PRESET, BitsOf(covered));
    RefusedIfCrcDiffers(f, covered, crc, rest);
  }

  /** The order of the two checksum bytes does not matter for their parity. */
  lemma OddOfRegBytes(s: seq<byte>)
    requires |s| == 2
    ensures Odd(BitsOf(s)) == Odd(GetReg(s))
  {
    assert BitsOf(s[1..]) == ByteBits(s[1]);
    OddConcat(ByteBits(s[0]), ByteBits(s[1]));
    OddConcat(ByteBits(s[1]), ByteBits(s[0]));
  }
}
