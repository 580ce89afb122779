/** The wire format: a 3-byte little-endian length, a type byte, then the payload.  SocketTransport::__send
    in app/server.cpp and the packers in app/utils.cpp write it; full_read and recv_msg read it. */
module Framing {
  import opened Messages
  import opened Wrappers

  const MSG_TYPE_UNKNOWN := -1
  const MSG_TYPE_APPEND := 0
  const MSG_TYPE_APPEND_REPLY := 1
  const MSG_TYPE_CLIENT := 2
  const MSG_TYPE_CLIENT_REPLY := 3
  const MSG_TYPE_GUIDANCE := 4
  const MSG_TYPE_GET_GUIDANCE := 5
  const HEADER_SIZE := 4
  const LENGTH_LIMIT := 0x100_0000

  datatype Message = Message(msgType: uint8, payload: Bytes)

  predicate Known(t: uint8)
  {
    || t as int == MSG_TYPE_APPEND || t as int == MSG_TYPE_APPEND_REPLY
    || t as int == MSG_TYPE_CLIENT || t as int == MSG_TYPE_CLIENT_REPLY
    || t as int == MSG_TYPE_GUIDANCE || t as int == MSG_TYPE_GET_GUIDANCE
  }

  // ---- What a frame is ----

  // 2^(8 * i): shifting left or right by i bytes multiplies or divides by it.
  function Shift(i: nat): (r: nat)
    ensures r > 0
  {
    if i == 0 then 1 else 256 * Shift(i - 1)
  }

  // (n >> (i * 8)) & 0xFF
  function LengthByte(n: nat, i: nat): uint8
  {
    (n / Shift(i) % 256) as uint8
  }

  function Header(t: uint8, n: nat): Bytes
  {
    [LengthByte(n, 0), LengthByte(n, 1), LengthByte(n, 2), t]
  }

  function Frame(m: Message): Bytes
  {
    Header(m.msgType, |m.payload|) + m.payload
  }

  function Stream(ms: seq<Message>): Bytes
  {
    if ms == [] then [] else Frame(ms[0]) + Stream(ms[1..])
  }

  // x | y
  function Or(x: nat, y: nat): nat
    decreases x + y
  {
    if x == 0 && y == 0 then 0
    else 2 * Or(x / 2, y / 2) + if x % 2 == 1 || y % 2 == 1 then 1 else 0
  }

  // The first k bytes of a length put together.
  function PartialLength(s: Bytes, k: nat): nat
    requires k <= 3 && k <= |s|
  {
    if k == 0 then 0 else Or(PartialLength(s, k - 1), s[k - 1] as int * Shift(k - 1))
  }

  // One call of recv_msg: a message, or nothing when its type is unknown, and the bytes left.
  datatype Received = Received(message: Option<Message>, rest: Bytes)

  // None: the bytes the call needs never come.
  function Receive(s: Bytes): Option<Received>
  {
    if |s| < HEADER_SIZE then None
    else if !Known(s[3]) then Some(Received(None, s[HEADER_SIZE..]))
    else
      var n := HEADER_SIZE + PartialLength(s, 3);
      if |s| < n then None else Some(Received(Some(Message(s[3], s[HEADER_SIZE..n])), s[n..]))
  }

  // Calls until the stream is used up, each giving a message.
  function ReceiveAll(s: Bytes): Option<seq<Message>>
    decreases |s|
  {
    if s == [] then Some([])
    else match Receive(s)
      case Some(Received(Some(m), rest)) =>
        (match ReceiveAll(rest)
         case Some(ms) => Some([m] + ms)
         case None => None)
      case _ => None
  }

  // ---- The bytes on their way ----

  // What has arrived, or will, on the read side, and what has been written.
  class Bufferevent {
    var input: Bytes
    var output: Bytes

    constructor (incoming: Bytes)
      ensures input == incoming && output == []
    {
      input, output := incoming, [];
    }

    method Write(data: Bytes)
      modifies this`output
      ensures output == old(output) + data
    {
      output := output + data;
    }

    // Any non-empty part of what is asked for and there; how much is up to the network.
    method Read(buf: array<uint8>, offset: nat, size: nat) returns (n: nat)
      requires offset + size <= buf.Length && size > 0 && input != []
      modifies this`input, buf
      ensures 0 < n <= size && n <= |old(input)|
      ensures input == old(input)[n..]
      ensures buf[..] == old(buf[..offset]) + old(input)[..n] + old(buf[offset + n..])
    {
      n :| 0 < n <= size && n <= |input|;
      for i := 0 to n
        invariant input == old(input)
        invariant forall k :: 0 <= k < i ==> buf[offset + k] == input[k]
        invariant forall k :: 0 <= k < buf.Length && !(offset <= k < offset + i) ==> buf[k] == old(buf[k])
      {
        buf[offset + i] := input[i];
      }
      assert buf[..offset] == old(buf[..offset]);
      assert buf[offset..offset + n] == input[..n];
      assert buf[offset + n..] == old(buf[offset + n..]);
      input := input[n..];
    }
  }

  // ---- Writing ----

  method Send(bev: Bufferevent, msgType: uint8, payload: Bytes)
    modifies bev`output
    ensures bev.output == old(bev.output) + Frame(Message(msgType, payload))
  {
    var header := new uint8[4];
    for i := 0 to 4
      invariant fresh(header) && bev.output == old(bev.output)
      invariant forall k :: 0 <= k < i ==> header[k] == LengthByte(|payload|, k)
    {
      header[i] := (|payload| / Shift(i) % 256) as uint8;
    }
    header[3] := msgType;
    bev.Write(header[..]);
    bev.Write(payload);
    assert header[..] == Header(msgType, |payload|);
  }

  method PackOperation(body: Bytes, dest: array<uint8>) returns (size: nat)
    requires |body| < 2000 && dest.Length >= HEADER_SIZE + |body|
    modifies dest
    ensures size <= dest.Length && dest[..size] == Frame(Message(MSG_TYPE_CLIENT as uint8, body))
    ensures dest[size..] == old(dest[size..])
  {
    for i := 0 to 3
      invariant forall k :: 0 <= k < i ==> dest[k] == LengthByte(|body|, k)
      invariant dest[3..] == old(dest[3..])
    {
      dest[i] := (|body| / Shift(i) % 256) as uint8;
    }
    dest[3] := MSG_TYPE_CLIENT as uint8;
    size := HEADER_SIZE + |body|;
    assert dest[..4] == Header(MSG_TYPE_CLIENT as uint8, |body|);
    assert dest[4..] == old(dest[4..]);
    for i := 0 to |body|
      invariant dest[..4] == Header(MSG_TYPE_CLIENT as uint8, |body|)
      invariant dest[4..4 + i] == body[..i] && dest[4 + i..] == old(dest[4 + i..])
    {
      ghost var was := dest[..];
      dest[4 + i] := body[i];
      assert dest[..] == was[4 + i := body[i]];
      assert dest[4..4 + (i + 1)] == was[4..4 + i] + [body[i]];
    }
    assert dest[..size] == dest[..4] + dest[4..size];
  }

  method PackGetGuidance(dest: array<uint8>) returns (size: nat)
    requires dest.Length >= HEADER_SIZE
    modifies dest
    ensures size <= dest.Length && dest[..size] == Frame(Message(MSG_TYPE_GET_GUIDANCE as uint8, []))
    ensures dest[size..] == old(dest[size..])
  {
    dest[0], dest[1], dest[2], dest[3] := 0, 0, 0, 0;
    dest[3] := MSG_TYPE_GET_GUIDANCE as uint8;
    size := 4;
  }

  // ---- Reading ----

  method FullRead(bev: Bufferevent, buf: array<uint8>, size: nat)
    requires size <= buf.Length && size <= |bev.input|
    modifies bev`input, buf
    ensures buf[..] == old(bev.input[..size]) + old(buf[size..])
    ensures bev.input == old(bev.input[size..])
  {
    var remain, finished := size, 0;
    while remain > 0
      invariant remain + finished == size
      invariant bev.input == old(bev.input[finished..])
      invariant buf[..] == old(bev.input[..finished]) + old(buf[finished..])
      decreases remain
    {
      ghost var was := buf[..];
      var n := bev.Read(buf, finished, remain);
      assert was[..finished] == old(bev.input[..finished]);
      assert was[finished + n..] == old(buf[finished + n..]);
      assert old(bev.input[..finished]) + old(bev.input[finished..])[..n] == old(bev.input[..finished + n]);
      remain := remain - n;
      finished := finished + n;
    }
  }

  /** The size is left as it was when the type is unknown, and the payload is then still to be read. */
  method RecvMsg(bev: Bufferevent, buf: array<uint8>, sizeBefore: nat) returns (msgType: int, size: nat)
    requires Receive(bev.input).Some? && buf.Length >= HEADER_SIZE
    requires Known(bev.input[3]) ==> PartialLength(bev.input, 3) <= buf.Length
    modifies bev`input, buf
    ensures var r := old(Receive(bev.input)).value;
            && bev.input == r.rest
            && (match r.message
                case Some(m) =>
                  msgType == m.msgType as int && size == |m.payload| <= buf.Length && buf[..size] == m.payload
                case None => msgType == MSG_TYPE_UNKNOWN && size == sizeBefore)
  {
    FullRead(bev, buf, HEADER_SIZE);
    ghost var s := old(bev.input);
    var payloadSize := 0;
    assert forall k :: 0 <= k < 4 ==> buf[k] == s[k];
    for i := 0 to HEADER_SIZE - 1
      invariant payloadSize == PartialLength(s, i)
    {
      payloadSize := Or(payloadSize, buf[i] as int * Shift(i));
    }
    msgType := buf[3] as int;
    size := sizeBefore;
    if !Known(buf[3]) {
      return MSG_TYPE_UNKNOWN, size;
    }
    FullRead(bev, buf, payloadSize);
    size := payloadSize;
  }

  // ---- Lengths survive below 2^24, and only there ----

  function Pow2(k: nat): (r: nat)
    ensures r > 0
  {
    if k == 0 then 1 else 2 * Pow2(k - 1)
  }

  lemma {:induction false} OrZero(y: nat)
    ensures Or(0, y) == y
  {
    if y == 0 {
    } else {
      OrZero(y / 2);
    }
  }

  lemma Doubled(a: nat, z: nat)
    ensures 2 * a * z == 2 * (a * z) && 2 * a * z / 2 == a * z && 2 * a * z % 2 == 0
  {
    assert 2 * a * z == 2 * (a * z);
  }

  /** Putting bits above those of x next to it adds them. */
  lemma {:induction false} OrAdds(x: nat, z: nat, k: nat)
    requires x < Pow2(k)
    ensures Or(x, Pow2(k) * z) == x + Pow2(k) * z
  {
    if k == 0 {
      OrZero(z);
    } else {
      Doubled(Pow2(k - 1), z);
      OrAdds(x / 2, z, k - 1);
    }
  }

  lemma Shifts()
    ensures Shift(0) == Pow2(0) == 1 && Shift(1) == Pow2(8) == 0x100 && Shift(2) == Pow2(16) == 0x1_0000
  {
    assert Shift(1) == 256 * Shift(0);
    assert Shift(2) == 256 * Shift(1);
    assert Pow2(4) == 16 && Pow2(8) == 256;
    assert Pow2(12) == 4096 && Pow2(16) == 65536;
  }

  // A length read is the sum of its bytes' values.
  lemma LengthAdds(s: Bytes)
    requires |s| >= 3
    ensures PartialLength(s, 3) == s[0] as int + s[1] as int * 0x100 + s[2] as int * 0x1_0000
  {
    PartialLengths(s, s[0] as int, s[1] as int, s[2] as int);
    JoinBytes(s[0] as int, s[1] as int, s[2] as int);
  }

  lemma PartialLengths(s: Bytes, a: nat, b: nat, c: nat)
    requires |s| >= 3 && a == s[0] as int && b == s[1] as int && c == s[2] as int
    ensures PartialLength(s, 3) == Or(Or(Or(0, a), b * 0x100), c * 0x1_0000)
  {
    Shifts();
    assert PartialLength(s, 1) == Or(0, a);
    assert PartialLength(s, 2) == Or(Or(0, a), b * 0x100);
  }

  lemma JoinBytes(a: nat, b: nat, c: nat)
    requires a < 256 && b < 256 && c < 256
    ensures Or(0, a) == a
    ensures Or(a, b * 0x100) == a + b * 0x100
    ensures Or(a + b * 0x100, c * 0x1_0000) == a + b * 0x100 + c * 0x1_0000
  {
    OrZero(a);
    AboveByte(a, b);
    AboveTwoBytes(a + b * 0x100, c);
  }

  lemma AboveByte(a: nat, b: nat)
    requires a < 0x100
    ensures Or(a, b * 0x100) == a + b * 0x100
  {
    Shifts();
    OrAdds(a, b, 8);
  }

  lemma AboveTwoBytes(a: nat, c: nat)
    requires a < 0x1_0000
    ensures Or(a, c * 0x1_0000) == a + c * 0x1_0000
  {
    Shifts();
    OrAdds(a, c, 16);
  }

  lemma ThreeDigits(n: nat)
    ensures n % 256 + n / 256 % 256 * 256 + n / 65536 % 256 * 65536 == n % LENGTH_LIMIT
  {
    assert n / 65536 == n / 256 / 256;
    var a, b, c, q := n % 256, n / 256 % 256, n / 65536 % 256, n / 65536 / 256;
    assert n == a + 256 * b + 65536 * c + LENGTH_LIMIT * q;
  }

  lemma LengthRead(m: Message, s: Bytes)
    requires Header(m.msgType, |m.payload|) <= s
    ensures PartialLength(s, 3) == |m.payload| % LENGTH_LIMIT
  {
    var n := |m.payload|;
    var h := Header(m.msgType, n);
    Shifts();
    assert s[0] == h[0] && s[1] == h[1] && s[2] == h[2];
    LengthAdds(s);
    ThreeDigits(n);
  }

  /** A framed message of a known type is read back, with the stream left where its frame ends, exactly
      when its payload is shorter than 2^24 bytes. */
  lemma FrameReadBack(m: Message, rest: Bytes)
    requires Known(m.msgType)
    ensures Receive(Frame(m) + rest) == Some(Received(Some(m), rest)) <==> |m.payload| < LENGTH_LIMIT
  {
    var s := Frame(m) + rest;
    assert s == Header(m.msgType, |m.payload|) + (m.payload + rest);
    LengthRead(m, s);
    var n := HEADER_SIZE + |m.payload|;
    if |m.payload| < LENGTH_LIMIT {
      assert s[HEADER_SIZE..n] == m.payload;
      assert s[n..] == rest;
    }
  }

  /** The bytes of a frame: the length, least significant byte first, the type, then the payload. */
  lemma FrameBytes(m: Message)
    ensures var f, n := Frame(m), |m.payload|;
            && |f| == 4 + n
            && f[0] as int == n % 256 && f[1] as int == n / 256 % 256 && f[2] as int == n / 65536 % 256
            && f[3] == m.msgType && f[4..] == m.payload
  {
    Shifts();
  }

  /** The types that are read are the six that are ever sent, 0 to 5. */
  lemma KnownTypes(t: uint8)
    ensures Known(t) <==> t as int <= 5
  {
  }

  /** What the packers write is read back, whatever follows. */
  lemma PackedIsRead(body: Bytes, rest: Bytes)
    requires |body| < 2000
    ensures Receive(Frame(Message(2, body)) + rest) == Some(Received(Some(Message(2, body)), rest))
    ensures Receive(Frame(Message(5, [])) + rest) == Some(Received(Some(Message(5, [])), rest))
    ensures MSG_TYPE_CLIENT == 2 && MSG_TYPE_GET_GUIDANCE == 5
  {
    FrameReadBack(Message(2, body), rest);
    FrameReadBack(Message(5, []), rest);
  }

  /** Of a frame of any other type only the header is taken: its payload is read as if it were the next frame. */
  lemma UnknownTypeLeavesPayload(m: Message, rest: Bytes)
    requires m.msgType as int > 5
    ensures Receive(Frame(m) + rest) == Some(Received(None, m.payload + rest))
  {
    var s := Frame(m) + rest;
    assert s == Header(m.msgType, |m.payload|) + (m.payload + rest);
    assert s[HEADER_SIZE..] == m.payload + rest;
  }

  predicate Sendable(m: Message)
  {
    Known(m.msgType) && |m.payload| < LENGTH_LIMIT
  }

  /** Whatever list of sendable messages is written, exactly that list is read. */
  lemma {:induction false} StreamReadBack(ms: seq<Message>)
    requires forall m <- ms :: Sendable(m)
    ensures ReceiveAll(Stream(ms)) == Some(ms)
  {
    if ms == [] {
    } else {
      StreamReadBack(ms[1..]);
      assert Sendable(ms[0]);
      FrameReadBack(ms[0], Stream(ms[1..]));
      assert ms == [ms[0]] + ms[1..];
    }
  }

  lemma BytesOfLength(a: nat, b: nat, c: nat)
    requires a < 256 && b < 256 && c < 256
    ensures var n := a + b * 0x100 + c * 0x1_0000;
            n < LENGTH_LIMIT && n % 256 == a && n / 256 % 256 == b && n / 65536 % 256 == c
  {
    var n := a + b * 0x100 + c * 0x1_0000;
    assert n / 256 == b + c * 256;
    assert n / 65536 == n / 256 / 256;
  }

  lemma ReadWasFramed(s: Bytes, m: Message, rest: Bytes)
    requires Receive(s) == Some(Received(Some(m), rest))
    ensures s == Frame(m) + rest && Sendable(m)
  {
    var n := |m.payload|;
    Shifts();
    BytesOfLength(s[0] as int, s[1] as int, s[2] as int);
    LengthAdds(s);
    assert n == s[0] as int + s[1] as int * 0x100 + s[2] as int * 0x1_0000;
    assert Header(m.msgType, n) == s[..4];
    assert s == s[..4] + s[4..4 + n] + s[4 + n..];
  }

  /** Whatever is read to the end of a stream is what was written: no other bytes, no other messages. */
  lemma {:induction false} ReadMeansWritten(s: Bytes, ms: seq<Message>)
    requires ReceiveAll(s) == Some(ms)
    ensures s == Stream(ms) && forall m <- ms :: Sendable(m)
    decreases |s|
  {
    if s == [] {
    } else {
      var r := Receive(s).value;
      ReadWasFramed(s, r.message.value, r.rest);
      ReadMeansWritten(r.rest, ms[1..]);
      forall m <- ms
        ensures Sendable(m)
      {
        if m != ms[0] {
          assert m in ms[1..];
        }
      }
    }
  }

  /** The callback run until the stream is used up: whatever list of sendable messages was written, and however the
      network splits it, exactly that list is read. */
  method ReadStream(bev: Bufferevent, buf: array<uint8>, ghost ms: seq<Message>) returns (got: seq<Message>)
    requires bev.input == Stream(ms) && buf.Length >= HEADER_SIZE
    requires forall m <- ms :: Sendable(m) && |m.payload| <= buf.Length
    modifies bev`input, buf
    ensures got == ms && bev.input == []
  {
    got := [];
    while bev.input != []
      invariant |got| <= |ms| && got == ms[..|got|] && bev.input == Stream(ms[|got|..])
      decreases |ms| - |got|
    {
      ghost var m, rest := ms[|got|], Stream(ms[|got| + 1..]);
      assert ms[|got|..][1..] == ms[|got| + 1..] && m in ms;
      FrameReadBack(m, rest);
      FitsBuffer(m, rest);
      var msgType, size := RecvMsg(bev, buf, 0);
      got := got + [Message(msgType as uint8, buf[..size])];
    }
    StreamIsEmpty(ms[|got|..]);
  }

  lemma FitsBuffer(m: Message, rest: Bytes)
    requires Sendable(m)
    ensures var s := Frame(m) + rest; |s| >= HEADER_SIZE && PartialLength(s, 3) == |m.payload|
  {
    var s := Frame(m) + rest;
    assert s == Header(m.msgType, |m.payload|) + (m.payload + rest);
    LengthRead(m, s);
  }

  lemma StreamIsEmpty(ms: seq<Message>)
    requires Stream(ms) == []
    ensures ms == []
  {
  }
}
