/** The serial transport: partial reads and writes, and the bounded send buffer. */
module Transport {
  import opened Bytes
  import opened Errno

  const SEND_BUFFER_SIZE := 4096
  const DEFAULT_IO_TIMEOUT_MS := 1000

  /** An open descriptor. The operating system chooses every length and every error,
      except that a reliable descriptor delivers the bytes it has. */
  class Fd {
    var wire: seq<byte>   // bytes written so far
    var input: seq<byte>  // bytes not read yet
    const reliable: bool

    constructor (input: seq<byte>, reliable: bool)
      ensures this.input == input && this.reliable == reliable && wire == []
    {
      this.input, this.reliable, wire := input, reliable, [];
    }

    /** poll for writing, then write; a negative result is an error number. */
    method Write(buf: seq<byte>) returns (len: int)
      requires |buf| > 0
      modifies this`wire
      ensures len <= |buf|
      ensures wire == old(wire) + (if len > 0 then buf[..len] else [])
    {
      if * {
        len :| 1 <= len <= |buf|;
        wire := wire + buf[..len];
      } else {
        var e :| e in {0, EIO, EINTR, EAGAIN, ETIMEDOUT, EPIPE};
        len := -e;
        assert wire == old(wire) + [];
      }
    }

    /** poll for reading, then read; a negative result is an error number. */
    method Read(size: nat) returns (buf: seq<byte>, len: int)
      requires size > 0
      modifies this`input
      ensures len != 0 && len <= size
      ensures len > 0 ==> old(input) == buf + input && |buf| == len
      ensures len < 0 ==> input == old(input) && buf == []
      ensures reliable && old(input) != [] ==> len > 0
      ensures reliable && old(input) == [] ==> len == -ETIMEDOUT
      ensures len != -ENOMSG && len != -ESTALE
    {
      var fails := *;
      if input != [] && (reliable || !fails) {
        len :| 1 <= len <= |input| && len <= size;
        buf, input := input[..len], input[len..];
      } else {
        var e := ETIMEDOUT;
        if !reliable {
          e :| e in {EIO, EINTR, EAGAIN, ETIMEDOUT, EPIPE};
        }
        buf, len := [], -e;
      }
    }
  }

  /** Write everything or report an error; an error leaves a proper prefix on the wire. */
  method WriteAll(fd: Fd, buf: seq<byte>, timeoutMs: int) returns (r: int)
    modifies fd`wire
    ensures r >= 0 ==> r == |buf| && fd.wire == old(fd.wire) + buf
    ensures r < 0 ==> exists k :: 0 <= k < |buf| && fd.wire == old(fd.wire) + buf[..k]
    ensures r != -EINTR && r != -EAGAIN
  {
    var written := 0;
    var remaining: int := if timeoutMs > 0 then timeoutMs else DEFAULT_IO_TIMEOUT_MS;
    assert fd.wire == fd.wire + buf[..0];
    while written < |buf|
      invariant 0 <= written <= |buf|
      invariant fd.wire == old(fd.wire) + buf[..written]
      invariant remaining >= 0
      decreases remaining, |buf| - written
    {
      var elapsed: int :| 0 <= elapsed <= remaining;
      remaining := remaining - elapsed;
      if remaining <= 0 {
        return -ETIMEDOUT;
      }
      var len := fd.Write(buf[written..]);
      if len > 0 {
        assert buf[written..][..len] == buf[written..written + len];
        assert buf[..written] + buf[written..written + len] == buf[..written + len];
        written := written + len;
      } else if len == -EINTR || len == -EAGAIN {
        remaining := remaining - 1;
      } else {
        return if len == 0 then -EIO else len;
      }
    }
    assert buf[..written] == buf;
    return written;
  }

  /** Read exactly size bytes or report an error; an error drops what had already arrived. */
  method ReceiveTimeout(fd: Fd, size: nat, timeoutMs: int) returns (buf: seq<byte>, r: int)
    modifies fd`input
    ensures r == size || r < 0
    ensures r >= 0 ==> |buf| == size && old(fd.input) == buf + fd.input
    ensures r < 0 ==> buf == [] && exists k :: 0 <= k < size && k <= |old(fd.input)| && fd.input == old(fd.input)[k..]
    ensures fd.reliable && size <= |old(fd.input)| ==> r == size
    ensures fd.reliable && size > |old(fd.input)| ==> r == -ETIMEDOUT && fd.input == []
    ensures r != -ENOMSG && r != -ESTALE && r != -EAGAIN && r != -EINTR
  {
    buf := [];
    var remaining: int := if timeoutMs > 0 then timeoutMs else DEFAULT_IO_TIMEOUT_MS;
    ghost var before := fd.input;
    while |buf| < size
      invariant |buf| <= size
      invariant before == buf + fd.input
      invariant remaining >= 0 && (fd.reliable ==> remaining > 0)
      decreases remaining, size - |buf|
    {
      if !fd.reliable {
        var elapsed: int :| 0 <= elapsed <= remaining;
        remaining := remaining - elapsed;
      }
      if remaining <= 0 {
        assert fd.input == before[|buf|..];
        return [], -ETIMEDOUT;
      }
      var chunk, len := fd.Read(size - |buf|);
      if len > 0 {
        buf := buf + chunk;
      } else if len == -EAGAIN || len == -EINTR {
        remaining := remaining - 1;
      } else {
        assert fd.input == before[|buf|..];
        return [], len;
      }
    }
    return buf, size;
  }

  // ----- the send buffer -----

  datatype Mode = Normal | Buffered

  /** What the peer has been sent, and what is still held back. */
  datatype Pipe = Pipe(wire: seq<byte>, held: seq<byte>)

  function BufferedResult(p: Pipe, buf: seq<byte>): int {
    if |buf| > SEND_BUFFER_SIZE then -EINVAL
    else if |p.held| + |buf| > SEND_BUFFER_SIZE then -ENOBUFS
    else |buf|
  }

  function BufferedSend(p: Pipe, buf: seq<byte>): Pipe {
    if BufferedResult(p, buf) < 0 then p else p.(held := p.held + buf)
  }

  function Flushed(p: Pipe): Pipe { Pipe(p.wire + p.held, []) }

  /** A flush whose write failed after k bytes: the buffer is kept whole. */
  function HalfFlushed(p: Pipe, k: nat): Pipe
    requires k <= |p.held|
  {
    p.(wire := p.wire + p.held[..k])
  }

  class UsbTransport {
    const fd: Fd
    const buffer: array<byte>
    var used: nat
    var mode: Mode

    ghost predicate Valid()
      reads this
    {
      buffer.Length == SEND_BUFFER_SIZE && used <= SEND_BUFFER_SIZE
    }

    ghost function Abs(): Pipe
      requires Valid()
      reads this, buffer, fd
    {
      Pipe(fd.wire, buffer[..used])
    }

    constructor (fd: Fd)
      ensures Valid() && this.fd == fd && mode == Normal && Abs() == Pipe(fd.wire, [])
      ensures fresh(buffer)
    {
      this.fd := fd;
      buffer := new byte[SEND_BUFFER_SIZE];
      used, mode := 0, Normal;
    }

    method BufferedWrite(buf: seq<byte>) returns (r: int)
      requires Valid()
      modifies this`used, buffer
      ensures Valid()
      ensures r == BufferedResult(old(Abs()), buf)
      ensures Abs() == BufferedSend(old(Abs()), buf)
    {
      if |buf| > SEND_BUFFER_SIZE {
        return -EINVAL;
      }
      if used + |buf| > buffer.Length {
        return -ENOBUFS;
      }
      forall i | 0 <= i < |buf| {
        buffer[used + i] := buf[i];
      }
      ghost var kept := old(buffer[..used]);
      assert buffer[..used] == kept;
      used := used + |buf|;
      assert buffer[..used] == kept + buf;
      return |buf|;
    }

    method Flush() returns (r: int)
      requires Valid()
      modifies this`used, fd`wire
      ensures Valid()
      ensures r >= 0 ==> Abs() == Flushed(old(Abs()))
      ensures r < 0 ==> exists k :: 0 <= k < |old(Abs()).held| && Abs() == HalfFlushed(old(Abs()), k)
    {
      if used == 0 {
        assert old(Abs()).held == [];
        return 0;
      }
      r := WriteAll(fd, buffer[..used], DEFAULT_IO_TIMEOUT_MS);
      if r >= 0 {
        used := 0;
      } else {
        ghost var before := old(Abs());
        ghost var k :| 0 <= k < |before.held| && fd.wire == before.wire + before.held[..k];
        assert Abs() == HalfFlushed(before, k);
      }
    }

    method SetMode(m: Mode)
      modifies this`mode
      ensures mode == m
    {
      mode := m;
    }

    method Send(buf: seq<byte>) returns (r: int)
      requires Valid()
      modifies this`used, buffer, fd`wire
      ensures Valid()
      ensures mode == Buffered ==> r == BufferedResult(old(Abs()), buf) && Abs() == BufferedSend(old(Abs()), buf)
      ensures mode == Normal ==> Abs().held == old(Abs()).held
      ensures mode == Normal && r >= 0 ==> r == |buf| && fd.wire == old(fd.wire) + buf
      ensures mode == Normal && r < 0 ==> exists k :: 0 <= k < |buf| && fd.wire == old(fd.wire) + buf[..k]
    {
      if mode == Buffered {
        r := BufferedWrite(buf);
      } else {
        r := WriteAll(fd, buf, DEFAULT_IO_TIMEOUT_MS);
      }
    }
  }

  // ----- buffered mode is a queue -----

  /** A send in buffered mode, a send in normal mode, and the two ways a flush can end. */
  datatype Op = Send(buf: seq<byte>) | SendThrough(buf: seq<byte>) | Flush | FailedFlush(wrote: nat)

  predicate CanRun(p: Pipe, op: Op) {
    (op.FailedFlush? ==> op.wrote < |p.held|) && (op.SendThrough? ==> p.held == [])
  }

  function Apply(p: Pipe, op: Op): Pipe
    requires CanRun(p, op)
  {
    match op
    case Send(buf) => BufferedSend(p, buf)
    case SendThrough(buf) => p.(wire := p.wire + buf)
    case Flush => Flushed(p)
    case FailedFlush(k) => HalfFlushed(p, k)
  }

  predicate CanRunAll(p: Pipe, ops: seq<Op>)
    decreases |ops|
  {
    |ops| == 0 || (CanRun(p, ops[0]) && CanRunAll(Apply(p, ops[0]), ops[1..]))
  }

  function ApplyAll(p: Pipe, ops: seq<Op>): Pipe
    requires CanRunAll(p, ops)
    decreases |ops|
  {
    if |ops| == 0 then p else ApplyAll(Apply(p, ops[0]), ops[1..])
  }

  predicate IsAccepted(p: Pipe, op: Op) {
    op.SendThrough? || (op.Send? && BufferedResult(p, op.buf) >= 0)
  }

  /** Everything the callers were told had been sent, in order. */
  function Accepted(p: Pipe, ops: seq<Op>): seq<byte>
    requires CanRunAll(p, ops)
    decreases |ops|
  {
    if |ops| == 0 then []
    else
      (if IsAccepted(p, ops[0]) then ops[0].buf else [])
      + Accepted(Apply(p, ops[0]), ops[1..])
  }

  /** Bytes put on the wire by flushes that then failed. */
  function Leaked(ops: seq<Op>): nat {
    if |ops| == 0 then 0
    else (if ops[0].FailedFlush? then ops[0].wrote else 0) + Leaked(ops[1..])
  }

  lemma {:induction false} BytesOnTheWay(p: Pipe, ops: seq<Op>)
    requires CanRunAll(p, ops)
    ensures |ApplyAll(p, ops).wire| + |ApplyAll(p, ops).held|
         == |p.wire| + |p.held| + |Accepted(p, ops)| + Leaked(ops)
    decreases |ops|
  {
    if |ops| != 0 {
      BytesOnTheWay(Apply(p, ops[0]), ops[1..]);
    }
  }

  lemma {:induction false} QueueWithoutLeaks(p: Pipe, ops: seq<Op>)
    requires CanRunAll(p, ops) && Leaked(ops) == 0
    ensures ApplyAll(p, ops).wire + ApplyAll(p, ops).held == p.wire + p.held + Accepted(p, ops)
    decreases |ops|
  {
    if |ops| == 0 {
      assert p.wire + p.held == p.wire + p.held + [];
    } else {
      var q := Apply(p, ops[0]);
      QueueWithoutLeaks(q, ops[1..]);
      var said := if IsAccepted(p, ops[0]) then ops[0].buf else [];
      assert q.wire + q.held == p.wire + p.held + said;
      assert p.wire + p.held + said + Accepted(q, ops[1..]) == p.wire + p.held + (said + Accepted(q, ops[1..]));
    }
  }

  /** Wire followed by buffer is exactly what was accepted, unless a failed flush wrote something. */
  lemma BufferedFifo(p: Pipe, ops: seq<Op>)
    requires CanRunAll(p, ops)
    ensures ApplyAll(p, ops).wire + ApplyAll(p, ops).held == p.wire + p.held + Accepted(p, ops)
       <==> Leaked(ops) == 0
  {
    BytesOnTheWay(p, ops);
    if Leaked(ops) == 0 {
      QueueWithoutLeaks(p, ops);
    }
  }

  lemma {:induction false} BufferBounded(p: Pipe, ops: seq<Op>)
    requires CanRunAll(p, ops) && |p.held| <= SEND_BUFFER_SIZE
    ensures |ApplyAll(p, ops).held| <= SEND_BUFFER_SIZE
    decreases |ops|
  {
    if |ops| != 0 {
      BufferBounded(Apply(p, ops[0]), ops[1..]);
    }
  }

  /** The same accepted sends, made in normal mode. */
  function Unbuffered(p: Pipe, ops: seq<Op>): seq<Op>
    requires CanRunAll(p, ops)
    decreases |ops|
  {
    if |ops| == 0 then []
    else
      (if IsAccepted(p, ops[0]) then [SendThrough(ops[0].buf)] else [])
      + Unbuffered(Apply(p, ops[0]), ops[1..])
  }

  lemma {:induction false} UnbufferedRun(q: Pipe, p: Pipe, ops: seq<Op>)
    requires CanRunAll(p, ops) && q.held == []
    ensures CanRunAll(q, Unbuffered(p, ops))
    ensures ApplyAll(q, Unbuffered(p, ops)) == Pipe(q.wire + Accepted(p, ops), [])
    decreases |ops|
  {
    if |ops| == 0 {
      assert q.wire + [] == q.wire;
    } else {
      var p', later := Apply(p, ops[0]), Unbuffered(Apply(p, ops[0]), ops[1..]);
      if IsAccepted(p, ops[0]) {
        var q' := Pipe(q.wire + ops[0].buf, []);
        UnbufferedRun(q', p', ops[1..]);
        assert Unbuffered(p, ops)[0] == SendThrough(ops[0].buf) && Unbuffered(p, ops)[1..] == later;
        assert q'.wire + Accepted(p', ops[1..]) == q.wire + (ops[0].buf + Accepted(p', ops[1..]));
      } else {
        UnbufferedRun(q, p', ops[1..]);
        assert Unbuffered(p, ops) == later && Accepted(p, ops) == Accepted(p', ops[1..]);
      }
    }
  }

  /** A buffered run followed by a flush and the same accepted sends in normal mode leave the same
      bytes on the wire and nothing held back. */
  lemma FlushCatchesUp(p: Pipe, ops: seq<Op>)
    requires CanRunAll(p, ops) && Leaked(ops) == 0 && p.held == []
    ensures CanRunAll(p, Unbuffered(p, ops))
    ensures Flushed(ApplyAll(p, ops)) == ApplyAll(p, Unbuffered(p, ops))
  {
    QueueWithoutLeaks(p, ops);
    UnbufferedRun(p, p, ops);
    assert p.wire + p.held == p.wire;
  }

  // ----- what is refused, and why -----

  /** A send is accepted exactly when it fits behind what is held. ENOBUFS means it would fit after a
      flush, EINVAL that it never will. */
  lemma RefusedOnlyForRoom(p: Pipe, buf: seq<byte>)
    ensures BufferedResult(p, buf) >= 0 <==> |p.held| + |buf| <= 4096
    ensures BufferedResult(p, buf) == -ENOBUFS <==> BufferedResult(p, buf) < 0 && BufferedResult(Flushed(p), buf) >= 0
    ensures BufferedResult(p, buf) == -EINVAL <==> forall q: Pipe :: BufferedResult(q, buf) < 0
  {
    assert BufferedResult(Flushed(p), buf) >= 0 <==> |buf| <= 4096;
  }

  function TotalSize(bufs: seq<seq<byte>>): nat {
    if |bufs| == 0 then 0 else |bufs[0]| + TotalSize(bufs[1..])
  }

  function Joined(bufs: seq<seq<byte>>): seq<byte> {
    if |bufs| == 0 then [] else bufs[0] + Joined(bufs[1..])
  }

  function Sends(bufs: seq<seq<byte>>): (ops: seq<Op>)
    ensures |ops| == |bufs| && forall i :: 0 <= i < |bufs| ==> ops[i] == Send(bufs[i])
  {
    seq(|bufs|, i requires 0 <= i < |bufs| => Send(bufs[i]))
  }

  /** Any number of sends that fit together are all accepted and reach the wire with the next flush. */
  lemma {:induction false} FittingSendsArrive(p: Pipe, bufs: seq<seq<byte>>)
    requires |p.held| + TotalSize(bufs) <= 4096
    ensures CanRunAll(p, Sends(bufs))
    ensures Flushed(ApplyAll(p, Sends(bufs))) == Pipe(p.wire + p.held + Joined(bufs), [])
    decreases |bufs|
  {
    if bufs == [] {
      assert p.wire + p.held + [] == p.wire + p.held;
    } else {
      var q := p.(held := p.held + bufs[0]);
      FittingSendsArrive(q, bufs[1..]);
      assert Sends(bufs)[0] == Send(bufs[0]) && Sends(bufs)[1..] == Sends(bufs[1..]);
      assert q.wire + q.held + Joined(bufs[1..]) == p.wire + p.held + Joined(bufs);
    }
  }
}
