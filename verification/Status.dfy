/** The cached hub status: a packed record that telemetry frames overlay in place. */
module Status {
  import opened Bytes

  const STATUS_SIZE := 136
  const PORTS_OFFSET := 40      // six port records follow the hub fields
  const PORT_STRIDE := 16
  const DATA_OFFSET := 4        // port, cmd, two bytes of padding, then twelve data bytes
  const DEVICE_PORTS := 6

  const DRIVE_SIZE := 34
  const COUNT_OFFSET := 8
  const SPEED_OFFSET := 16
  const POWER_OFFSET := 24
  const REFLECTION_OFFSET := 28
  const MOTOR_PORT_OFFSET := 30
  const COLOR_PORT_OFFSET := 32
  const FLAGS_OFFSET := 33
  const MOTOR_SLOTS := 2

  const RUNTIME_SIZE := 68

  type StatusBytes = s: seq<byte> | |s| == STATUS_SIZE witness seq(STATUS_SIZE, _ => 0)
  type Drive = t: seq<byte> | |t| == DRIVE_SIZE witness seq(DRIVE_SIZE, _ => 0)

  predicate Flag(t: Drive, k: nat) {
    t[FLAGS_OFFSET] / Pow2(k) % 2 == 1
  }

  function RecordOf(port: nat): nat { PORTS_OFFSET + PORT_STRIDE * port }

  /** An int16_t field widened to the four bytes of an int32_t. */
  function Widened(low: byte, high: byte): (s: seq<byte>)
    ensures |s| == 4
  {
    var sign := if high >= 128 then 255 else 0;
    [low, high, sign, sign]
  }

  // ----- the overlay, byte by byte: who wrote it last -----

  predicate MotorWrites(t: Drive, slot: nat, x: nat)
    requires slot < MOTOR_SLOTS
  {
    var port := t[MOTOR_PORT_OFFSET + slot];
    && Flag(t, slot)
    && port < DEVICE_PORTS
    && (x == RecordOf(port) || RecordOf(port) + DATA_OFFSET <= x < RecordOf(port) + DATA_OFFSET + 10)
  }

  function MotorByte(t: Drive, slot: nat, x: nat): byte
    requires slot < MOTOR_SLOTS && MotorWrites(t, slot, x)
  {
    var port := t[MOTOR_PORT_OFFSET + slot];
    var d: int := x - RecordOf(port) - DATA_OFFSET;
    if d < 0 then port
    else if d < 4 then t[COUNT_OFFSET + 4 * slot + d]
    else if d < 8 then t[SPEED_OFFSET + 4 * slot + d - 4]
    else t[POWER_OFFSET + 2 * slot + d - 8]
  }

  predicate ColorWrites(t: Drive, x: nat) {
    var port := t[COLOR_PORT_OFFSET];
    && Flag(t, 2)
    && port < DEVICE_PORTS
    && (x == RecordOf(port) || RecordOf(port) + DATA_OFFSET <= x < RecordOf(port) + DATA_OFFSET + 4)
  }

  function ColorByte(t: Drive, x: nat): byte
    requires ColorWrites(t, x)
  {
    var port := t[COLOR_PORT_OFFSET];
    if x == RecordOf(port) then port
    else Widened(t[REFLECTION_OFFSET], t[REFLECTION_OFFSET + 1])[x - RecordOf(port) - DATA_OFFSET]
  }

  /** Byte x after the first n motor slots. */
  function AfterMotors(s: StatusBytes, t: Drive, n: nat, x: nat): byte
    requires n <= MOTOR_SLOTS && x < STATUS_SIZE
  {
    if n == 0 then s[x]
    else if MotorWrites(t, n - 1, x) then MotorByte(t, n - 1, x)
    else AfterMotors(s, t, n - 1, x)
  }

  function OverlayByte(s: StatusBytes, t: Drive, x: nat): byte
    requires x < STATUS_SIZE
  {
    if ColorWrites(t, x) then ColorByte(t, x) else AfterMotors(s, t, MOTOR_SLOTS, x)
  }

  function Overlay(s: StatusBytes, t: Drive): (r: StatusBytes)
    ensures forall x :: 0 <= x < STATUS_SIZE ==> r[x] == OverlayByte(s, t, x)
  {
    seq(STATUS_SIZE, x requires 0 <= x < STATUS_SIZE => OverlayByte(s, t, x))
  }

  function CountReset(s: StatusBytes, port: nat): (r: StatusBytes)
    requires port < DEVICE_PORTS
  {
    var at := RecordOf(port) + DATA_OFFSET;
    s[..at] + Zeroed(4) + s[at + 4..]
  }

  // ----- the same overlay as the receiver performs it: a run of copies -----

  method CopyInto(status: array<byte>, at: nat, bytes: seq<byte>)
    requires at + |bytes| <= status.Length
    modifies status
    ensures forall x :: 0 <= x < status.Length ==>
      status[x] == if at <= x < at + |bytes| then bytes[x - at] else old(status[x])
  {
    forall i | 0 <= i < |bytes| {
      status[at + i] := bytes[i];
    }
  }

  method ApplyMotorSlot(status: array<byte>, t: Drive, slot: nat)
    requires status.Length == STATUS_SIZE && slot < MOTOR_SLOTS
    modifies status
    ensures forall x :: 0 <= x < STATUS_SIZE ==>
      status[x] == if MotorWrites(t, slot, x) then MotorByte(t, slot, x) else old(status[x])
  {
    var port := t[MOTOR_PORT_OFFSET + slot];
    if !Flag(t, slot) || port >= DEVICE_PORTS {
      return;
    }
    var data := RecordOf(port) + DATA_OFFSET;
    status[RecordOf(port)] := port;
    CopyInto(status, data, t[COUNT_OFFSET + 4 * slot..COUNT_OFFSET + 4 * slot + 4]);
    CopyInto(status, data + 4, t[SPEED_OFFSET + 4 * slot..SPEED_OFFSET + 4 * slot + 4]);
    CopyInto(status, data + 8, t[POWER_OFFSET + 2 * slot..POWER_OFFSET + 2 * slot + 2]);
  }

  method ApplyDriveTelemetry(status: array<byte>, t: Drive)
    requires status.Length == STATUS_SIZE
    modifies status
    ensures status[..] == Overlay(old(status[..]), t)
  {
    ghost var before := status[..];
    var slot := 0;
    while slot < MOTOR_SLOTS
      invariant 0 <= slot <= MOTOR_SLOTS
      invariant forall x :: 0 <= x < STATUS_SIZE ==> status[x] == AfterMotors(before, t, slot, x)
    {
      ApplyMotorSlot(status, t, slot);
      slot := slot + 1;
    }
    if Flag(t, 2) && t[COLOR_PORT_OFFSET] < DEVICE_PORTS {
      var port := t[COLOR_PORT_OFFSET];
      status[RecordOf(port)] := port;
      CopyInto(status, RecordOf(port) + DATA_OFFSET, Widened(t[REFLECTION_OFFSET], t[REFLECTION_OFFSET + 1]));
    }
  }

  /** The status write of a motor count reset. */
  method ResetCount(status: array<byte>, port: nat)
    requires status.Length == STATUS_SIZE && port < DEVICE_PORTS
    modifies status
    ensures status[..] == CountReset(old(status[..]), port)
  {
    CopyInto(status, RecordOf(port) + DATA_OFFSET, Zeroed(4));
  }

  // ----- what an overlay can reach -----

  /** Ports the frame does not name keep their whole record, and so do the hub fields,
      every cmd byte and the last two data bytes of every port. */
  lemma OverlayFrame(s: StatusBytes, t: Drive, x: nat)
    requires x < STATUS_SIZE
    requires Overlay(s, t)[x] != s[x]
    ensures PORTS_OFFSET <= x
    ensures var port, d := (x - PORTS_OFFSET) / PORT_STRIDE, (x - PORTS_OFFSET) % PORT_STRIDE;
      && (d == 0 || DATA_OFFSET <= d < DATA_OFFSET + 10)
      && ( || (Flag(t, 0) && t[MOTOR_PORT_OFFSET] == port)
           || (Flag(t, 1) && t[MOTOR_PORT_OFFSET + 1] == port)
           || (Flag(t, 2) && t[COLOR_PORT_OFFSET] == port && (d == 0 || d < DATA_OFFSET + 4)))
  {
    assert Overlay(s, t)[x] == OverlayByte(s, t, x);
    AfterMotorsUnnamed(s, t, x);
    if ColorWrites(t, x) {
      RecordCovers(t[COLOR_PORT_OFFSET], x);
    } else if MotorWrites(t, 1, x) {
      RecordCovers(t[MOTOR_PORT_OFFSET + 1], x);
    } else {
      assert MotorWrites(t, 0, x);
      RecordCovers(t[MOTOR_PORT_OFFSET], x);
    }
  }

  lemma RecordCovers(port: nat, x: nat)
    requires RecordOf(port) <= x < RecordOf(port) + PORT_STRIDE
    ensures (x - PORTS_OFFSET) / PORT_STRIDE == port
    ensures (x - PORTS_OFFSET) % PORT_STRIDE == x - RecordOf(port)
  {
  }

  /** Two frames in a row: the later one decides every byte it names. */
  lemma OverlayTwice(s: StatusBytes, t: Drive, u: Drive)
    requires t[MOTOR_PORT_OFFSET..] == u[MOTOR_PORT_OFFSET..]
    ensures Overlay(Overlay(s, t), u) == Overlay(s, u)
  {
    assert forall k :: MOTOR_PORT_OFFSET <= k < DRIVE_SIZE ==> t[k] == t[MOTOR_PORT_OFFSET..][k - MOTOR_PORT_OFFSET];
    assert forall k :: MOTOR_PORT_OFFSET <= k < DRIVE_SIZE ==> u[k] == u[MOTOR_PORT_OFFSET..][k - MOTOR_PORT_OFFSET];
    forall x | 0 <= x < STATUS_SIZE
      ensures Overlay(Overlay(s, t), u)[x] == Overlay(s, u)[x]
    {
      assert MotorWrites(t, 0, x) == MotorWrites(u, 0, x);
      assert MotorWrites(t, 1, x) == MotorWrites(u, 1, x);
      assert ColorWrites(t, x) == ColorWrites(u, x);
      AfterMotorsUnnamed(s, t, x);
      AfterMotorsUnnamed(Overlay(s, t), u, x);
      AfterMotorsUnnamed(s, u, x);
    }
  }

  lemma AfterMotorsUnnamed(s: StatusBytes, t: Drive, x: nat)
    requires x < STATUS_SIZE
    ensures AfterMotors(s, t, 2, x) ==
      if MotorWrites(t, 1, x) then MotorByte(t, 1, x)
      else if MotorWrites(t, 0, x) then MotorByte(t, 0, x) else s[x]
  {
    assert AfterMotors(s, t, 1, x) == if MotorWrites(t, 0, x) then MotorByte(t, 0, x) else s[x];
  }

  // ----- which value lands in which field -----

  /** The value of a two's complement field, low byte first. */
  function SignedLE(s: seq<byte>): int {
    var n := GetLE(s);
    if 2 * n < Pow256(|s|) then n else n - Pow256(|s|)
  }

  /** The slot whose values decide port p: the second of two that name it. */
  predicate Decides(t: Drive, slot: nat, p: nat) {
    var first, second := t[33] % 2 == 1 && t[30] == p, t[33] / 2 % 2 == 1 && t[31] == p;
    if second then slot == 1 else first && slot == 0
  }

  predicate ColorNames(t: Drive, p: nat) { t[33] / 4 % 2 == 1 && t[32] == p }

  lemma FlagBits(t: Drive)
    ensures Flag(t, 0) == (t[33] % 2 == 1)
    ensures Flag(t, 1) == (t[33] / 2 % 2 == 1)
    ensures Flag(t, 2) == (t[33] / 4 % 2 == 1)
  {
    assert Pow2(0) == 1 && Pow2(1) == 2 && Pow2(2) == 4;
  }

  /** The record of a motor port reads back as the frame's port id, count, speed and power; the
      count only where the color port is another one. */
  lemma MotorFieldsLand(s: StatusBytes, t: Drive, slot: nat, p: nat)
    requires p < 6 && Decides(t, slot, p)
    ensures var r, at := Overlay(s, t), 44 + 16 * p;
      && r[at - 4] == p
      && (!ColorNames(t, p) ==> SignedLE(r[at..at + 4]) == SignedLE(t[8 + 4 * slot..12 + 4 * slot]))
      && SignedLE(r[at + 4..at + 8]) == SignedLE(t[16 + 4 * slot..20 + 4 * slot])
      && SignedLE(r[at + 8..at + 10]) == SignedLE(t[24 + 2 * slot..26 + 2 * slot])
  {
    FlagBits(t);
    hide Flag;
    var r, at := Overlay(s, t), 44 + 16 * p;
    forall x | at - 4 <= x < at + 10 && (x == at - 4 || x >= at)
      ensures !ColorWrites(t, x) ==> r[x] == MotorByte(t, slot, x)
      ensures x >= at + 4 ==> !ColorWrites(t, x)
      ensures ColorWrites(t, x) ==> ColorNames(t, p)
    {
      AfterMotorsUnnamed(s, t, x);
    }
    if !ColorNames(t, p) {
      assert r[at..at + 4] == t[8 + 4 * slot..12 + 4 * slot];
    }
    assert r[at + 4..at + 8] == t[16 + 4 * slot..20 + 4 * slot];
    assert r[at + 8..at + 10] == t[24 + 2 * slot..26 + 2 * slot];
  }

  /** The record of the color port reads back as its port id and the frame's reflection, a signed
      16-bit number there and a signed 32-bit number here. */
  lemma ReflectionLands(s: StatusBytes, t: Drive, p: nat)
    requires p < 6 && ColorNames(t, p)
    ensures var r, at := Overlay(s, t), 44 + 16 * p;
      && r[at - 4] == p
      && SignedLE(r[at..at + 4]) == SignedLE(t[28..30])
  {
    FlagBits(t);
    hide Flag;
    var r, at := Overlay(s, t), 44 + 16 * p;
    var wide := Widened(t[28], t[29]);
    assert forall x :: at <= x < at + 4 ==> r[x] == wide[x - at];
    assert r[at..at + 4] == wide;
    assert t[28..30] == [t[28], t[29]];
    WideningKeepsSign(t[28], t[29]);
  }

  lemma WideningKeepsSign(low: byte, high: byte)
    ensures SignedLE(Widened(low, high)) == SignedLE([low, high])
  {
    Pow256Values();
    var sign: nat := if high >= 128 then 255 else 0;
    var two, wide := [low, high], [low, high, sign, sign];
    assert two[1..] == [high] && wide[1..] == [high, sign, sign] && wide[1..][1..] == [sign, sign];
    assert GetLE([]) == 0 && GetLE([sign]) == sign && GetLE([high]) == high;
    assert GetLE([sign, sign]) == sign + 256 * sign;
    assert GetLE(wide) == low + 256 * (high + 256 * (sign + 256 * sign));
    assert GetLE(two) == low + 256 * high;
  }

  /** After a count reset the count of the port is zero, and nothing else has changed. */
  lemma CountIsReset(s: StatusBytes, p: nat)
    requires p < 6
    ensures var r, at := CountReset(s, p), 44 + 16 * p;
      && SignedLE(r[at..at + 4]) == 0
      && forall x :: 0 <= x < STATUS_SIZE && !(at <= x < at + 4) ==> r[x] == s[x]
  {
    var r, at := CountReset(s, p), 44 + 16 * p;
    assert r[at..at + 4] == [0, 0, 0, 0];
    assert GetLE([0]) == 0 && GetLE([0, 0]) == 0 && GetLE([0, 0, 0]) == 0 by {
      assert [0, 0][1..] == [0] && [0, 0, 0][1..] == [0, 0];
    }
    assert [0, 0, 0, 0][1..] == [0, 0, 0];
  }
}
