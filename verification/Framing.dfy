/**
 * Message framing of billiard/connection.py: each message is sent as a four-byte big-endian
 * signed length followed by its bytes.  The system may accept or deliver any part of what it
 * is asked for, interrupt a call, or fail; `writes` and `arrivals` say what it does to the calls
 * of one operation.  If they run out the operation is still blocked.
 */
module Framing {
  import opened Optional

  type Byte = x: int | 0 <= x < 256

  const LIMIT := 0x8000_0000
  const LARGE := 16384

  // ----- The wire format -----

  /** Four bytes, the most significant one first. */
  function Pack(n: nat): seq<Byte>
    requires n < LIMIT
  {
    [n / 0x100_0000, n / 0x1_0000 % 256, n / 256 % 256, n % 256]
  }

  /** The signed number that four bytes stand for. */
  function Unpack(h: seq<Byte>): int
    requires |h| == 4
  {
    var v: int := h[0] as int * 0x100_0000 + h[1] as int * 0x1_0000 + h[2] as int * 256 + h[3] as int;
    if v >= LIMIT then v - 0x1_0000_0000 else v
  }

  function Frame(m: seq<Byte>): seq<Byte>
    requires |m| < LIMIT
  {
    Pack(|m|) + m
  }

  ghost predicate Sendable(ms: seq<seq<Byte>>) {
    forall i :: 0 <= i < |ms| ==> |ms[i]| < LIMIT
  }

  /** The bytes of a list of messages. */
  function Wire(ms: seq<seq<Byte>>): seq<Byte>
    requires Sendable(ms)
  {
    if ms == [] then [] else Frame(ms[0]) + Wire(ms[1..])
  }

  /** The number that bytes stand for, the first one counting most. */
  ghost function BigEndian(bytes: seq<Byte>): nat {
    if bytes == [] then 0 else BigEndian(bytes[..|bytes| - 1]) * 256 + bytes[|bytes| - 1] as int
  }

  lemma BigEndianFour(h: seq<Byte>)
    requires |h| == 4
    ensures BigEndian(h) == h[0] as int * 0x100_0000 + h[1] as int * 0x1_0000 + h[2] as int * 256 + h[3] as int
  {
    assert h[..3][..2] == h[..2] && h[..2][..1] == h[..1] && h[..1][..0] == [];
    assert BigEndian(h[..1]) == h[0] as int;
    assert BigEndian(h[..2]) == h[0] as int * 256 + h[1] as int;
    assert BigEndian(h[..3]) == (h[0] as int * 256 + h[1] as int) * 256 + h[2] as int;
  }

  /** A header is the length in big-endian order. */
  lemma PackBigEndian(n: nat)
    requires n < LIMIT
    ensures |Pack(n)| == 4 && BigEndian(Pack(n)) == n
  {
    PackUnpack(n);
    BigEndianFour(Pack(n));
  }

  /** Read back, any four bytes are a signed number of 32 bits in two's complement. */
  lemma UnpackSigned(h: seq<Byte>)
    requires |h| == 4
    ensures -0x8000_0000 <= Unpack(h) < 0x8000_0000
    ensures Unpack(h) == BigEndian(h) || Unpack(h) == BigEndian(h) - 0x1_0000_0000
  {
    BigEndianFour(h);
  }

  lemma PackUnpack(n: nat)
    requires n < LIMIT
    ensures Unpack(Pack(n)) == n
  {
    var a, b, c := n / 256, n / 0x1_0000, n / 0x100_0000;
    assert b == a / 256 && c == b / 256;
    assert n == a * 256 + n % 256 && a == b * 256 + a % 256 && b == c * 256 + b % 256;
  }

  // ----- Receiving, on the bytes that are still to come -----

  /** Taking `size` bytes off a stream that ends after `input`. */
  datatype Taken = Whole(bytes: seq<Byte>) | AtEnd | CutShort

  function Take(input: seq<Byte>, size: int): Taken {
    if size <= 0 then Whole([])
    else if |input| >= size then Whole(input[..size])
    else if input == [] then AtEnd
    else CutShort
  }

  /** Taking one message off: EndOfFile is EOFError, Broken the OSError "got end of file during
      message", TooLong the refusal of a message of more than `max` bytes. */
  datatype Parsed = Message(bytes: seq<Byte>, used: nat) | EndOfFile | Broken | TooLong

  function Parse(input: seq<Byte>, max: Option<nat>): (p: Parsed)
    ensures p.Message? ==> 4 <= p.used <= |input|
  {
    match Take(input, 4)
    case AtEnd => EndOfFile
    case CutShort => Broken
    case Whole(header) =>
      var size := Unpack(header);
      if max.Some? && size > max.value then TooLong
      else
        match Take(input[4..], size)
        case AtEnd => EndOfFile
        case CutShort => Broken
        case Whole(m) => Message(m, 4 + |m|)
  }

  /** What a receiver without a length limit gets: the messages, and how the stream ends. */
  function ReadAll(input: seq<Byte>): (seq<seq<Byte>>, Parsed)
    decreases |input|
  {
    match Parse(input, None)
    case Message(m, used) =>
      var (ms, end) := ReadAll(input[used..]);
      ([m] + ms, end)
    case other => ([], other)
  }

  // ----- Round trip and truncation -----

  lemma ParseFrame(m: seq<Byte>, rest: seq<Byte>)
    requires |m| < LIMIT
    ensures Parse(Frame(m) + rest, None) == Message(m, 4 + |m|)
    ensures (Frame(m) + rest)[4 + |m|..] == rest
  {
    var s := Frame(m) + rest;
    PackUnpack(|m|);
    assert s[..4] == Pack(|m|);
    assert s[4..] == m + rest;
    if m != [] {
      assert s[4..][..|m|] == m;
    }
  }

  /** A limit on the length refuses exactly what announces more than that, before any of its bytes
      have arrived, and changes nothing else. */
  lemma LimitOnlyRefuses(input: seq<Byte>, max: nat)
    ensures Parse(input, Some(max)) ==
            if |input| >= 4 && Unpack(input[..4]) > max then TooLong else Parse(input, None)
  {
  }

  /** So a message is refused exactly if it is longer than the limit. */
  lemma ParseLimited(m: seq<Byte>, rest: seq<Byte>, max: nat)
    requires |m| < LIMIT
    ensures Parse(Frame(m) + rest, Some(max)) == if |m| > max then TooLong else Message(m, 4 + |m|)
  {
    ParseFrame(m, rest);
    PackUnpack(|m|);
    LimitOnlyRefuses(Frame(m) + rest, max);
    assert (Frame(m) + rest)[..4] == Pack(|m|);
  }

  /** A header with a negative length passes for an empty message, whatever the limit. */
  lemma ParseNegative(h: seq<Byte>, rest: seq<Byte>, max: Option<nat>)
    requires |h| == 4 && Unpack(h) < 0
    ensures Parse(h + rest, max) == Message([], 4)
  {
    assert (h + rest)[..4] == h;
  }

  /** Whatever list of messages is sent, the receiver gets the same list and then EOFError. */
  lemma {:induction false} RoundTrip(ms: seq<seq<Byte>>)
    requires Sendable(ms)
    ensures ReadAll(Wire(ms)) == (ms, EndOfFile)
  {
    if ms != [] {
      ParseFrame(ms[0], Wire(ms[1..]));
      RoundTrip(ms[1..]);
      assert [ms[0]] + ms[1..] == ms;
    }
  }

  /** How a stream of messages that is cut after k bytes ends: cleanly between two messages,
      or right after the header of a message that is not empty, or elsewhere. */
  ghost predicate Boundary(ms: seq<seq<Byte>>, k: nat) {
    k == 0 || (ms != [] && k >= 4 + |ms[0]| && Boundary(ms[1..], k - 4 - |ms[0]|))
  }

  ghost predicate AfterHeader(ms: seq<seq<Byte>>, k: nat) {
    && ms != []
    && ((k == 4 && ms[0] != []) || (k >= 4 + |ms[0]| && AfterHeader(ms[1..], k - 4 - |ms[0]|)))
  }

  /** How many messages are complete in the first k bytes. */
  ghost function Complete(ms: seq<seq<Byte>>, k: nat): (n: nat)
    ensures n <= |ms|
  {
    if ms == [] || k < 4 + |ms[0]| then 0 else 1 + Complete(ms[1..], k - 4 - |ms[0]|)
  }

  lemma ParsePartial(m: seq<Byte>, rest: seq<Byte>, k: nat)
    requires |m| < LIMIT && k < 4 + |m|
    ensures k <= |Frame(m) + rest|
    ensures Parse((Frame(m) + rest)[..k], None) == if k == 0 || k == 4 then EndOfFile else Broken
  {
    var s := (Frame(m) + rest)[..k];
    PackUnpack(|m|);
    if k >= 4 {
      assert s[..4] == Pack(|m|);
      assert s[4..] == m[..k - 4];
    }
  }

  /** Any truncated stream yields exactly the messages that are complete, in order, and then an
      error, never a wrong message.  The error is EOFError exactly if the cut is between two
      messages or right after the header of a message that is not empty. */
  lemma {:induction false} Truncated(ms: seq<seq<Byte>>, k: nat)
    requires Sendable(ms) && k <= |Wire(ms)|
    ensures ReadAll(Wire(ms)[..k]).0 == ms[..Complete(ms, k)]
    ensures ReadAll(Wire(ms)[..k]).1 == if Boundary(ms, k) || AfterHeader(ms, k) then EndOfFile else Broken
  {
    hide Parse, Frame, ReadAll;
    if ms == [] {
      assert Wire(ms)[..k] == [];
      ReadNothing();
    } else if k < 4 + |ms[0]| {
      ReadPartial(ms[0], Wire(ms[1..]), k);
    } else {
      var k' := k - 4 - |ms[0]|;
      ReadPastFirst(ms[0], Wire(ms[1..]), k);
      Truncated(ms[1..], k');
      assert [ms[0]] + ms[1..][..Complete(ms[1..], k')] == ms[..Complete(ms, k)];
    }
  }

  lemma ReadNothing()
    ensures ReadAll([]) == ([], EndOfFile)
  {
  }

  /** The cut is inside the first message. */
  lemma ReadPartial(m: seq<Byte>, rest: seq<Byte>, k: nat)
    requires |m| < LIMIT && k < 4 + |m|
    ensures k <= |Frame(m) + rest|
    ensures ReadAll((Frame(m) + rest)[..k]) == ([], if k == 0 || k == 4 then EndOfFile else Broken)
  {
    hide Parse;
    ParsePartial(m, rest, k);
  }

  /** The cut is after the first message. */
  lemma ReadPastFirst(m: seq<Byte>, rest: seq<Byte>, k: nat)
    requires |m| < LIMIT && 4 + |m| <= k <= |Frame(m) + rest|
    ensures k - 4 - |m| <= |rest|
    ensures var (ms, end) := ReadAll(rest[..k - 4 - |m|]);
            ReadAll((Frame(m) + rest)[..k]) == ([m] + ms, end)
  {
    hide Parse;
    var k' := k - 4 - |m|;
    assert (Frame(m) + rest)[..k] == Frame(m) + rest[..k'];
    ParseFrame(m, rest[..k']);
  }

  // ----- The connection -----

  datatype WriteCall = Wrote(n: nat) | WriteInterrupted | WriteFailed
  datatype ReadCall = Delivered(n: nat) | ReadInterrupted | ReadFailed

  datatype SendResult = Sent | SendError | SendBlocked | StructError | ValueError | Unusable
  datatype RecvResult =
    | Received(bytes: seq<Byte>)
    | EOFError | BrokenMessage | BadLength     // end of the stream, and refusal
    | RecvError | RecvBlocked                  // the system failed, or is still at it
    | RecvValueError | NotReadable

  function Clip(n: nat, lo: nat, hi: nat): nat
    requires lo <= hi
  {
    if n < lo then lo else if n > hi then hi else n
  }

  /** The part of `buf` that send_bytes is asked to send; None if there is no such part. */
  function Slice(buf: seq<Byte>, offset: int, size: Option<int>): Option<seq<Byte>> {
    if offset < 0 || |buf| < offset then None
    else if size.None? then Some(buf[offset..])
    else if size.value < 0 || offset + size.value > |buf| then None
    else Some(buf[offset..offset + size.value])
  }

  /** The part asked for exists exactly if it lies within the buffer, and then consists of the bytes
      from the offset on. */
  lemma SliceMeaning(buf: seq<Byte>, offset: int, size: Option<int>)
    ensures Slice(buf, offset, size).Some? <==>
              0 <= offset <= |buf| && (size.Some? ==> 0 <= size.value <= |buf| - offset)
    ensures Slice(buf, offset, size).Some? ==>
              var m := Slice(buf, offset, size).value;
              && |m| == (if size.Some? then size.value else |buf| - offset)
              && forall k :: 0 <= k < |m| ==> m[k] == buf[offset + k]
  {
  }

  /** How many of the writes accept something. */
  function Accepting(writes: seq<WriteCall>): nat {
    if writes == [] then 0
    else
      var w := writes[|writes| - 1];
      Accepting(writes[..|writes| - 1]) + (if w.Wrote? && w.n > 0 then 1 else 0)
  }

  /** How many of the reads return. */
  function Returning(arrivals: seq<ReadCall>): nat {
    if arrivals == [] then 0
    else Returning(arrivals[..|arrivals| - 1]) + (if arrivals[|arrivals| - 1].Delivered? then 1 else 0)
  }

  class Connection {
    var open: bool
    var readable: bool
    const writable: bool
    var output: seq<Byte>        // everything written so far
    var input: seq<Byte>         // everything still to come, up to the end of the stream

    constructor (readable: bool, writable: bool, input: seq<Byte>)
      requires readable || writable
      ensures open && this.readable == readable && this.writable == writable
      ensures output == [] && this.input == input
    {
      open, this.readable, this.writable, output, this.input := true, readable, writable, [], input;
    }

    /** _send: write all of `buf`, however the system cuts it up. */
    method Send(buf: seq<Byte>, writes: seq<WriteCall>) returns (r: SendResult)
      modifies this`output
      ensures r.Sent? || r.SendError? || r.SendBlocked?
      ensures r.Sent? ==> output == old(output) + buf
      ensures old(output) <= output <= old(output) + buf
      ensures r.SendError? ==> WriteFailed in writes
      ensures r.SendBlocked? ==> Accepting(writes) < |buf| || Accepting(writes) == 0
    {
      var rest, remaining, i := buf, |buf|, 0;
      while true
        invariant 0 <= i <= |writes| && remaining == |rest|
        invariant output + rest == old(output) + buf
        invariant old(output) <= output
        invariant i > 0 && rest == [] ==> Accepting(writes[..i]) == 0
        invariant Accepting(writes[..i]) <= |buf| - |rest|
        decreases |writes| - i
      {
        assert i < |writes| ==> writes[..i + 1][..i] == writes[..i];
        assert writes[..|writes|] == writes;
        if i == |writes| {
          return SendBlocked;
        }
        match writes[i] {
          case WriteInterrupted =>
          case WriteFailed => return SendError;
          case Wrote(k) =>
            var n := Clip(k, 0, |rest|);
            assert rest == rest[..n] + rest[n..];
            output := output + rest[..n];
            remaining := remaining - n;
            rest := rest[n..];
            if remaining == 0 {
              return Sent;
            }
        }
        i := i + 1;
      }
    }

    /** _send_bytes: a large message goes out in two calls of _send, a small one in one. */
    method SendFrame(buf: seq<Byte>, writes: seq<WriteCall>, more: seq<WriteCall>) returns (r: SendResult)
      modifies this`output
      ensures |buf| >= LIMIT <==> r.StructError?
      ensures r.StructError? ==> output == old(output)
      ensures r.Sent? ==> output == old(output) + Frame(buf)
      ensures |buf| < LIMIT ==> old(output) <= output <= old(output) + Frame(buf)
      ensures !r.ValueError? && !r.Unusable?
      ensures r.SendError? ==> WriteFailed in writes || WriteFailed in more
      ensures r.SendBlocked? ==> Accepting(writes) < 4 + |buf| || Accepting(more) < |buf|
    {
      var n := |buf|;
      if n >= LIMIT {
        return StructError;
      }
      var header := Pack(n);
      if n > LARGE {
        r := Send(header, writes);
        if r.Sent? {
          assert old(output) + header + buf == old(output) + Frame(buf);
          r := Send(buf, more);
        } else {
          assert old(output) + header <= old(output) + Frame(buf);
        }
      } else {
        r := Send(header + buf, writes);
      }
    }

    /** send_bytes: the part of `buf` from `offset` on, of the given size or up to the end. */
    method SendBytes(buf: seq<Byte>, offset: int, size: Option<int>, writes: seq<WriteCall>, more: seq<WriteCall>)
      returns (r: SendResult)
      modifies this`output
      ensures !open || !writable <==> r.Unusable?
      ensures open && writable ==> (r.ValueError? <==> Slice(buf, offset, size).None?)
      ensures r.Unusable? || r.ValueError? || r.StructError? ==> output == old(output)
      ensures var m := Slice(buf, offset, size);
              if m.Some? && |m.value| < LIMIT
              then old(output) <= output <= old(output) + Frame(m.value) &&
                   (r.Sent? ==> output == old(output) + Frame(m.value))
              else !r.Sent? && output == old(output)
      ensures r.SendError? ==> WriteFailed in writes || WriteFailed in more
      ensures r.SendBlocked? ==> Accepting(writes) < 4 + |buf| || Accepting(more) < |buf|
    {
      if !open || !writable {
        return Unusable;
      }
      if offset < 0 || |buf| < offset {
        return ValueError;
      }
      var n := if size.None? then |buf| - offset else size.value;
      if n < 0 || offset + n > |buf| {
        return ValueError;
      }
      r := SendFrame(buf[offset..offset + n], writes, more);
    }

    /** _recv: read exactly `size` bytes, however the system cuts them up. */
    method Recv(size: int, arrivals: seq<ReadCall>) returns (r: RecvResult)
      modifies this`input
      ensures r.Received? || r.EOFError? || r.BrokenMessage? || r.RecvError? || r.RecvBlocked?
      ensures r.Received? ==> Take(old(input), size) == Whole(r.bytes) && old(input) == r.bytes + input
      ensures r.EOFError? ==> Take(old(input), size) == AtEnd && input == []
      ensures r.BrokenMessage? ==> Take(old(input), size) == CutShort && input == []
      ensures r.RecvError? ==> ReadFailed in arrivals
      ensures r.RecvBlocked? ==> Returning(arrivals) < size && Returning(arrivals) <= |old(input)|
      ensures |input| <= |old(input)|
    {
      var buf: seq<Byte>, remaining, i := [], size, 0;
      while remaining > 0
        invariant 0 <= i <= |arrivals|
        invariant old(input) == buf + input
        invariant size > 0 ==> remaining == size - |buf| && remaining >= 0
        invariant size <= 0 ==> remaining == size && buf == []
        invariant Returning(arrivals[..i]) <= |buf|
        decreases |arrivals| - i
      {
        assert i < |arrivals| ==> arrivals[..i + 1][..i] == arrivals[..i];
        assert arrivals[..|arrivals|] == arrivals;
        if i == |arrivals| {
          return RecvBlocked;
        }
        match arrivals[i] {
          case ReadInterrupted =>
          case ReadFailed => return RecvError;
          case Delivered(k) =>
            if input == [] {
              return if remaining == size then EOFError else BrokenMessage;
            }
            var n := Clip(k, 1, if remaining < |input| then remaining else |input|);
            assert input == input[..n] + input[n..];
            buf := buf + input[..n];
            remaining := remaining - n;
            input := input[n..];
        }
        i := i + 1;
      }
      assert size > 0 ==> old(input)[..size] == buf;
      return Received(buf);
    }

    /** _recv_bytes: the header, then as many bytes as it says. */
    method RecvFrame(max: Option<nat>, arrivals: seq<ReadCall>, more: seq<ReadCall>) returns (r: RecvResult)
      modifies this`input
      ensures !r.RecvValueError? && !r.NotReadable?
      ensures r.Received? ==>
                Parse(old(input), max) == Message(r.bytes, 4 + |r.bytes|) && input == old(input)[4 + |r.bytes|..]
      ensures r.EOFError? ==> Parse(old(input), max).EndOfFile?
      ensures r.BrokenMessage? ==> Parse(old(input), max).Broken?
      ensures r.BadLength? ==> Parse(old(input), max).TooLong?
      ensures r.RecvError? ==> ReadFailed in arrivals || ReadFailed in more
      ensures r.RecvBlocked? ==> Returning(arrivals) <= |old(input)| || Returning(more) <= |old(input)|
    {
      var h := Recv(4, arrivals);
      if !h.Received? {
        return h;
      }
      assert old(input)[4..] == input;
      var size := Unpack(h.bytes);
      if max.Some? && size > max.value {
        return BadLength;
      }
      r := Recv(size, more);
    }

    /** recv_bytes: refuse a message that is too long, and then receive nothing any more. */
    method RecvBytes(max: Option<int>, arrivals: seq<ReadCall>, more: seq<ReadCall>) returns (r: RecvResult)
      modifies this
      ensures !old(open) || !old(readable) <==> r.NotReadable?
      ensures r.NotReadable? || r.RecvValueError? ==> unchanged(this)
      ensures old(open) && old(readable) ==> (r.RecvValueError? <==> max.Some? && max.value < 0)
      ensures r.Received? ==>
                && (max.None? || max.value >= 0)
                && Parse(old(input), Limit(max)) == Message(r.bytes, 4 + |r.bytes|)
                && input == old(input)[4 + |r.bytes|..]
      ensures r.EOFError? ==> Parse(old(input), Limit(max)).EndOfFile?
      ensures r.BrokenMessage? ==> Parse(old(input), Limit(max)).Broken?
      ensures r.BadLength? ==> Parse(old(input), Limit(max)).TooLong?
      ensures r.BadLength? ==> if writable then open && !readable else !open && readable
      ensures r.RecvError? ==> ReadFailed in arrivals || ReadFailed in more
      ensures r.RecvBlocked? ==> Returning(arrivals) <= |old(input)| || Returning(more) <= |old(input)|
      ensures !r.BadLength? ==> open == old(open) && readable == old(readable)
      ensures open ==> old(open)
      ensures readable ==> old(readable)
      ensures output == old(output)
    {
      if !open || !readable {
        return NotReadable;
      }
      if max.Some? && max.value < 0 {
        return RecvValueError;
      }
      r := RecvFrame(Limit(max), arrivals, more);
      if r.BadLength? {
        if writable {
          readable := false;
        } else {
          open := false;
        }
      }
    }

    method Close()
      modifies this`open
      ensures !open
    {
      open := false;
    }
  }

  function Limit(max: Option<int>): Option<nat> {
    if max.Some? && max.value >= 0 then Some(max.value) else None
  }

  // ----- Whole conversations -----

  /** Sending a list of messages puts exactly their wire form on the stream, or if something
      goes wrong a prefix of it, whatever the system does to the single writes. */
  method SendAll(c: Connection, ms: seq<seq<Byte>>, writes: seq<(seq<WriteCall>, seq<WriteCall>)>)
    returns (ok: bool)
    requires Sendable(ms) && |writes| == |ms|
    modifies c`output
    ensures ok ==> c.output == old(c.output) + Wire(ms)
    ensures old(c.output) <= c.output <= old(c.output) + Wire(ms)
  {
    var i := 0;
    assert ms[0..] == ms && c.output <= c.output + Wire(ms);
    while i < |ms|
      invariant 0 <= i <= |ms|
      invariant c.output + Wire(ms[i..]) == old(c.output) + Wire(ms)
      invariant old(c.output) <= c.output <= old(c.output) + Wire(ms)
    {
      ghost var before := c.output;
      assert ms[i..][0] == ms[i] && ms[i..][1..] == ms[i + 1..];
      assert before + Wire(ms[i..]) == (before + Frame(ms[i])) + Wire(ms[i + 1..]);
      assert ms[i][0..] == ms[i];
      var r := c.SendBytes(ms[i], 0, None, writes[i].0, writes[i].1);
      PrefixTrans(c.output, before + Frame(ms[i]), Wire(ms[i + 1..]));
      if !r.Sent? {
        return false;
      }
      i := i + 1;
    }
    return true;
  }

  lemma PrefixTrans(a: seq<Byte>, b: seq<Byte>, c: seq<Byte>)
    requires a <= b
    ensures a <= b + c
  {
  }

  /** Receiving until the stream ends gives the messages that ReadAll says, however the system
      cuts up the reads. */
  method ReceiveAll(c: Connection, arrivals: seq<(seq<ReadCall>, seq<ReadCall>)>)
    returns (ms: seq<seq<Byte>>, last: RecvResult)
    requires c.open && c.readable
    modifies c
    ensures last.EOFError? ==> ReadAll(old(c.input)) == (ms, EndOfFile)
    ensures last.BrokenMessage? ==> ReadAll(old(c.input)) == (ms, Broken)
    ensures last.EOFError? || last.BrokenMessage? || last.RecvError? || last.RecvBlocked?
    ensures ms <= ReadAll(old(c.input)).0
    ensures c.output == old(c.output)
  {
    ms := [];
    var i := 0;
    assert [] + ReadAll(c.input).0 == ReadAll(c.input).0;
    while i < |arrivals|
      invariant 0 <= i <= |arrivals|
      invariant c.open && c.readable && c.output == old(c.output)
      invariant ReadAll(old(c.input)) == (ms + ReadAll(c.input).0, ReadAll(c.input).1)
    {
      ghost var before := ms;
      last := c.RecvBytes(None, arrivals[i].0, arrivals[i].1);
      if !last.Received? {
        assert before + [] == before;
        return;
      }
      ms := ms + [last.bytes];
      assert forall rest :: before + ([last.bytes] + rest) == ms + rest;
      i := i + 1;
    }
    return ms, RecvBlocked;
  }

  /** The round trip over a pair of connections: whatever the system does to the single reads
      and writes, what is received is a prefix of what was sent, and if all was written and the
      receiver has come to EOFError it is the same list. */
  method Converse(a: Connection, b: Connection, ms: seq<seq<Byte>>,
                  writes: seq<(seq<WriteCall>, seq<WriteCall>)>, arrivals: seq<(seq<ReadCall>, seq<ReadCall>)>)
    returns (sent: bool, got: seq<seq<Byte>>, last: RecvResult)
    requires a != b && a.output == [] && b.open && b.readable
    requires Sendable(ms) && |writes| == |ms|
    modifies a`output, b
    ensures got <= ms
    ensures sent && last.EOFError? ==> got == ms
    ensures sent ==> !last.BrokenMessage?
  {
    sent := SendAll(a, ms, writes);
    b.input := a.output;           // the writer is closed: the stream ends here
    assert a.output == Wire(ms)[..|a.output|] && Wire(ms)[..|Wire(ms)|] == Wire(ms);
    Truncated(ms, |a.output|);
    RoundTrip(ms);
    got, last := ReceiveAll(b, arrivals);
  }

  datatype Call =
    | CallRecv(max: Option<int>, arrivals: seq<ReadCall>, more: seq<ReadCall>)
    | CallSend(buf: seq<Byte>, writes: seq<WriteCall>, moreWrites: seq<WriteCall>)
    | CallClose

  /** Whatever calls are made on a connection, once a message has been refused as too long
      nothing is ever received again. */
  method NothingAfterRefusal(c: Connection, calls: seq<Call>) returns (log: seq<RecvResult>)
    modifies c
    ensures |log| <= |calls|
    ensures forall i, j :: 0 <= i < j < |log| && log[i].BadLength? ==> log[j].NotReadable?
  {
    log := [];
    for k := 0 to |calls|
      invariant |log| <= k
      invariant forall i, j :: 0 <= i < j < |log| && log[i].BadLength? ==> log[j].NotReadable?
      invariant forall i :: 0 <= i < |log| && log[i].BadLength? ==> !(c.open && c.readable)
    {
      match calls[k] {
        case CallRecv(max, arrivals, more) =>
          var r := c.RecvBytes(max, arrivals, more);
          log := log + [r];
        case CallSend(buf, writes, more) =>
          var r := c.SendBytes(buf, 0, None, writes, more);
        case CallClose =>
          c.Close();
      }
    }
  }
}
