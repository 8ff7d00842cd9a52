/** The peer wire protocol: length-prefixed messages on a byte stream and the fixed-size payloads. */
module Message {
  import opened Prelude

  type Bytes = seq<byte>

  const MSG_CHOKE: byte := 0
  const MSG_UNCHOKE: byte := 1
  const MSG_INTERESTED: byte := 2
  const MSG_HAVE: byte := 4
  const MSG_BITFIELD: byte := 5
  const MSG_REQUEST: byte := 6
  const MSG_PIECE: byte := 7
  const MSG_EXTENDED: byte := 20

  /** The block size of piece requests: 16 KiB. */
  const BLOCK_SIZE: int := 16384

  /** The longest message that is accepted: 16 MiB. */
  const MAX_MESSAGE_LEN: int := 0x100_0000

  datatype Msg = Msg(id: byte, payload: Bytes)

  datatype Error = UnexpectedEOF | MessageTooLarge | PayloadTooShort | BadPayloadLength

  type uint32 = x: int | 0 <= x < UINT32_RANGE

  // ---- Big-endian 32-bit integers ----

  function PutUint32(v: uint32): (b: Bytes)
    ensures |b| == 4
  {
    [(v / 0x100_0000) as byte, (v / 0x1_0000 % 256) as byte, (v / 256 % 256) as byte, (v % 256) as byte]
  }

  function Uint32(b: Bytes): uint32
    requires |b| == 4
  {
    b[0] as int * 0x100_0000 + b[1] as int * 0x1_0000 + b[2] as int * 256 + b[3] as int
  }

  lemma {:induction false} PutThenGet(v: uint32)
    ensures Uint32(PutUint32(v)) == v
  {
    var a, b := v / 256, v / 0x1_0000;
    assert v == a * 256 + v % 256;
    assert b == a / 256;
    assert a == b * 256 + a % 256;
    assert v / 0x100_0000 == b / 256;
    assert b == b / 256 * 256 + b % 256;
  }

  lemma LastDigit(q: nat, r: nat)
    requires r < 256
    ensures (q * 256 + r) / 256 == q && (q * 256 + r) % 256 == r
  {
  }

  lemma DivideTwice(v: nat)
    ensures v / 0x1_0000 == v / 256 / 256 && v / 0x100_0000 == v / 256 / 256 / 256
  {
  }

  lemma {:induction false} GetThenPut(b: Bytes)
    requires |b| == 4
    ensures PutUint32(Uint32(b)) == b
  {
    var b0, b1, b2, b3 := b[0] as int, b[1] as int, b[2] as int, b[3] as int;
    var high := b0 * 256 + b1;
    var mid := high * 256 + b2;
    var w := mid * 256 + b3;
    assert Uint32(b) == w;
    LastDigit(mid, b3);
    LastDigit(high, b2);
    LastDigit(b0, b1);
    DivideTwice(w);
  }

  // ---- Framing ----

  /** What WriteMessage puts on the wire; no message is a keep-alive. The length is a uint32. */
  function Frame(m: Option<Msg>): Bytes {
    match m
    case None => [0, 0, 0, 0]
    case Some(msg) => PutUint32((1 + |msg.payload|) % UINT32_RANGE) + [msg.id] + msg.payload
  }

  /** What ReadMessage makes of a stream, with the number of bytes it takes. */
  function Unframe(s: Bytes): (r: Result<(Option<Msg>, nat), Error>)
    ensures r.Ok? ==> 4 <= r.value.1 <= |s|
  {
    if |s| < 4 then Err(UnexpectedEOF)
    else
      var length := Uint32(s[..4]);
      if length == 0 then Ok((None, 4))
      else if length > MAX_MESSAGE_LEN then Err(MessageTooLarge)
      else if |s| - 4 < length then Err(UnexpectedEOF)
      else Ok((Some(Msg(s[4], s[5..4 + length])), 4 + length))
  }

  /** A message survives the wire exactly when it fits the limit: longer ones are refused, or cut
      short where their length no longer fits 32 bits. */
  lemma {:induction false} FrameRoundTrip(m: Option<Msg>, rest: Bytes)
    ensures Unframe(Frame(m) + rest) == Ok((m, |Frame(m)|))
       <==> (m.Some? ==> 1 + |m.value.payload| <= 0x100_0000)
  {
    var s := Frame(m) + rest;
    assert Uint32([0, 0, 0, 0]) == 0;
    hide PutUint32, Uint32;
    match m
    case None =>
      assert s[..4] == [0, 0, 0, 0];
    case Some(msg) =>
      var length := (1 + |msg.payload|) % UINT32_RANGE;
      PutThenGet(length);
      assert s[..4] == PutUint32(length);
      assert s[4] == msg.id;
      assert length <= 1 + |msg.payload|;
      if 1 + |msg.payload| <= MAX_MESSAGE_LEN {
        assert s[5..4 + length] == msg.payload;
      }
  }

  /** The bytes of a series of messages written one after the other. */
  function FrameAll(ms: seq<Option<Msg>>): Bytes {
    if ms == [] then [] else Frame(ms[0]) + FrameAll(ms[1..])
  }

  /** Reading until the stream fails: the messages before the failure and the failure. */
  function ReadAll(s: Bytes): (seq<Option<Msg>>, Error)
    decreases |s|
  {
    match Unframe(s)
    case Err(e) => ([], e)
    case Ok((m, n)) =>
      var (ms, e) := ReadAll(s[n..]);
      ([m] + ms, e)
  }

  /** Framing is self-delimiting: a series of messages is read back message by message. */
  lemma {:induction false} StreamRoundTrip(ms: seq<Option<Msg>>)
    requires forall i :: 0 <= i < |ms| && ms[i].Some? ==> 1 + |ms[i].value.payload| <= MAX_MESSAGE_LEN
    ensures ReadAll(FrameAll(ms)) == (ms, UnexpectedEOF)
  {
    if ms != [] {
      var rest := FrameAll(ms[1..]);
      FrameRoundTrip(ms[0], rest);
      assert FrameAll(ms)[|Frame(ms[0])|..] == rest;
      StreamRoundTrip(ms[1..]);
      assert ms == [ms[0]] + ms[1..];
    }
  }

  // ---- The writer and the reader as they run ----

  method WriteMessage(m: Option<Msg>) returns (wire: Bytes)
    ensures wire == Frame(m)
  {
    if m.None? { return [0, 0, 0, 0]; }
    var payload := m.value.payload;
    var length := (1 + |payload|) % UINT32_RANGE;
    var buf := new byte[4 + 1 + |payload|](_ => 0);
    var header := PutUint32(length);
    for i := 0 to 4
      invariant forall k :: 0 <= k < i ==> buf[k] == header[k]
    {
      buf[i] := header[i];
    }
    buf[4] := m.value.id;
    for i := 0 to |payload|
      invariant buf[4] == m.value.id
      invariant forall k :: 0 <= k < 4 ==> buf[k] == header[k]
      invariant forall k :: 0 <= k < i ==> buf[5 + k] == payload[k]
    {
      buf[5 + i] := payload[i];
    }
    wire := buf[..];
    assert wire == header + [m.value.id] + payload;
  }

  /** A connection's byte stream, consumed from the front. */
  class Stream {
    var rest: Bytes

    constructor (data: Bytes)
      ensures rest == data
    {
      rest := data;
    }

    /** io.ReadFull: everything asked for, or an error after taking what there was. */
    method ReadFull(n: nat) returns (r: Option<Bytes>)
      modifies this
      ensures n <= old(|rest|) ==> r == Some(old(rest)[..n]) && rest == old(rest)[n..]
      ensures n > old(|rest|) ==> r == None && rest == []
    {
      if n > |rest| {
        rest := [];
        return None;
      }
      r := Some(rest[..n]);
      rest := rest[n..];
    }

    method ReadMessage() returns (r: Result<Option<Msg>, Error>)
      modifies this
      ensures match Unframe(old(rest))
              case Ok((m, n)) => r == Ok(m) && rest == old(rest)[n..]
              case Err(e) => r == Err(e)
    {
      var header := ReadFull(4);
      if header.None? { return Err(UnexpectedEOF); }
      var length := Uint32(header.value);
      if length == 0 { return Ok(None); }
      if length > MAX_MESSAGE_LEN { return Err(MessageTooLarge); }
      var buf := ReadFull(length);
      if buf.None? { return Err(UnexpectedEOF); }
      r := Ok(Some(Msg(buf.value[0], buf.value[1..])));
      assert old(rest)[4..][..length][1..] == old(rest)[5..4 + length];
    }
  }

  // ---- Payloads ----

  function NewRequest(index: uint32, begin: uint32, length: uint32): Msg {
    Msg(MSG_REQUEST, PutUint32(index) + PutUint32(begin) + PutUint32(length))
  }

  function ParseRequest(payload: Bytes): Result<(uint32, uint32, uint32), Error> {
    if |payload| != 12 then Err(BadPayloadLength)
    else Ok((Uint32(payload[..4]), Uint32(payload[4..8]), Uint32(payload[8..])))
  }

  function NewHave(index: uint32): Msg { Msg(MSG_HAVE, PutUint32(index)) }

  function ParseHave(payload: Bytes): Result<uint32, Error> {
    if |payload| != 4 then Err(BadPayloadLength) else Ok(Uint32(payload))
  }

  /** A piece message as a serving peer builds it. */
  function NewPiece(index: uint32, begin: uint32, block: Bytes): Msg {
    Msg(MSG_PIECE, PutUint32(index) + PutUint32(begin) + block)
  }

  function ParsePiece(payload: Bytes): Result<(uint32, uint32, Bytes), Error> {
    if |payload| < 8 then Err(PayloadTooShort)
    else Ok((Uint32(payload[..4]), Uint32(payload[4..8]), payload[8..]))
  }

  /** Building and parsing a payload undo each other, in both directions. */
  lemma {:induction false} PayloadsRoundTrip(index: uint32, begin: uint32, length: uint32, block: Bytes)
    ensures ParseRequest(NewRequest(index, begin, length).payload) == Ok((index, begin, length))
    ensures ParsePiece(NewPiece(index, begin, block).payload) == Ok((index, begin, block))
    ensures ParseHave(NewHave(index).payload) == Ok(index)
  {
    hide PutUint32, Uint32;
    PutThenGet(index);
    PutThenGet(begin);
    PutThenGet(length);
    var p := NewRequest(index, begin, length).payload;
    assert p[..4] == PutUint32(index) && p[4..8] == PutUint32(begin) && p[8..] == PutUint32(length);
    var q := NewPiece(index, begin, block).payload;
    assert q[..4] == PutUint32(index) && q[4..8] == PutUint32(begin) && q[8..] == block;
  }

  /** Every payload that parses is the one that would be built from the parsed parts. */
  lemma {:induction false} ParsedPayloadsRebuild(p: Bytes)
    ensures ParseRequest(p).Ok? ==>
              var (index, begin, length) := ParseRequest(p).value; NewRequest(index, begin, length).payload == p
    ensures ParsePiece(p).Ok? ==>
              var (index, begin, block) := ParsePiece(p).value; NewPiece(index, begin, block).payload == p
    ensures ParseHave(p).Ok? ==> NewHave(ParseHave(p).value).payload == p
  {
    hide PutUint32, Uint32;
    if |p| >= 8 {
      GetThenPut(p[..4]);
      GetThenPut(p[4..8]);
      assert p == p[..4] + p[4..8] + p[8..];
      if |p| == 12 { GetThenPut(p[8..]); }
    } else if |p| == 4 {
      GetThenPut(p);
    }
  }

  // ---- The layout ----

  /** The most significant byte comes first. */
  lemma {:induction false} BigEndian(v: uint32)
    ensures var b := PutUint32(v);
            b[0] as int * 0x100_0000 + b[1] as int * 0x1_0000 + b[2] as int * 0x100 + b[3] as int == v
  {
    hide PutUint32;
    PutThenGet(v);
  }

  /** What stands where in a frame and in the payloads. */
  lemma Layout(msg: Msg, index: uint32, begin: uint32, length: uint32, block: Bytes)
    ensures Frame(None) == [0, 0, 0, 0]
    ensures var f := Frame(Some(msg));
            && |f| == 5 + |msg.payload| && f[4] == msg.id && f[5..] == msg.payload
            && f[..4] == PutUint32((1 + |msg.payload|) % UINT32_RANGE)
    ensures NewRequest(index, begin, length) == Msg(6, PutUint32(index) + PutUint32(begin) + PutUint32(length))
    ensures NewHave(index) == Msg(4, PutUint32(index))
    ensures NewPiece(index, begin, block) == Msg(7, PutUint32(index) + PutUint32(begin) + block)
    ensures MSG_CHOKE == 0 && MSG_UNCHOKE == 1 && MSG_INTERESTED == 2 && MSG_BITFIELD == 5 && MSG_EXTENDED == 20
  {
  }

  /** A stream that ends inside a frame gives no message. */
  lemma {:induction false} CutFrameIsEOF(m: Option<Msg>, n: nat)
    requires m.Some? ==> 1 + |m.value.payload| <= MAX_MESSAGE_LEN
    requires n < |Frame(m)|
    ensures Unframe(Frame(m)[..n]) == Err(UnexpectedEOF)
  {
    var s := Frame(m)[..n];
    hide PutUint32, Uint32;
    if n >= 4 {
      var length := (1 + |m.value.payload|) % UINT32_RANGE;
      PutThenGet(length);
      assert s[..4] == Frame(m)[..4] == PutUint32(length);
    }
  }

  /** A length above the limit is refused, whatever follows. */
  lemma {:induction false} OversizedIsRefused(length: uint32, rest: Bytes)
    requires length > MAX_MESSAGE_LEN
    ensures Unframe(PutUint32(length) + rest) == Err(MessageTooLarge)
  {
    hide PutUint32, Uint32;
    PutThenGet(length);
    assert (PutUint32(length) + rest)[..4] == PutUint32(length);
  }

  /** Payloads of a wrong length are refused. */
  lemma WrongLengthsFail(p: Bytes)
    ensures |p| != 12 <==> ParseRequest(p).Err?
    ensures |p| != 4 <==> ParseHave(p).Err?
    ensures |p| < 8 <==> ParsePiece(p).Err?
  {
  }
}
