/** A connection to one peer as the download code sees it: what the peer sends is an arbitrary
    series of messages that may stop at any point, and sending may fail at any point. */
module PeerConn {
  import opened Prelude
  import opened Message
  import opened Bencode
  import BencodeCodec
  import BencodeLaws

  type Inbox = seq<Option<Msg>>

  datatype ConnError = BadExtHandshake | NoUtMetadata | SendFailed

  const UT_METADATA: Bytes := [117, 116, 95, 109, 101, 116, 97, 100, 97, 116, 97]
  const METADATA_SIZE: Bytes := [109, 101, 116, 97, 100, 97, 116, 97, 95, 115, 105, 122, 101]
  const M: Bytes := [109]
  const MSG_TYPE: Bytes := [109, 115, 103, 95, 116, 121, 112, 101]
  const PIECE: Bytes := [112, 105, 101, 99, 101]

  class Conn {
    /** Messages still to arrive, keep-alives included; reading past them fails. */
    var inbox: Inbox
    var sent: seq<Msg>
    /** How many more sends succeed. */
    var sendBudget: nat
    var extensionIDs: map<Bytes, int>
    var metadataSize: int

    constructor (inbox: Inbox, sendBudget: nat)
      ensures this.inbox == inbox && this.sendBudget == sendBudget && sent == []
      ensures extensionIDs == map[] && metadataSize == 0
    {
      this.inbox, this.sendBudget, sent := inbox, sendBudget, [];
      extensionIDs, metadataSize := map[], 0;
    }

    method SendMessage(m: Msg) returns (ok: bool)
      modifies this`sent, this`sendBudget
      ensures ok <==> old(sendBudget) > 0
      ensures ok ==> sent == old(sent) + [m] && sendBudget == old(sendBudget) - 1
      ensures !ok ==> sent == old(sent) && sendBudget == 0
    {
      if sendBudget == 0 { return false; }
      sent, sendBudget, ok := sent + [m], sendBudget - 1, true;
    }

    /** None is a receive error, Some(None) a keep-alive. */
    method RecvMessage() returns (r: Option<Option<Msg>>)
      modifies this`inbox
      ensures old(inbox) == [] ==> r == None && inbox == []
      ensures old(inbox) != [] ==> r == Some(old(inbox)[0]) && inbox == old(inbox)[1..]
    {
      if inbox == [] { return None; }
      r, inbox := Some(inbox[0]), inbox[1..];
    }

    method HandleExtensionHandshake(payload: Bytes) returns (ok: bool)
      modifies this`extensionIDs, this`metadataSize
      ensures ok <==> DecodeValue(payload).Ok? && DecodeValue(payload).value.0.Dict?
      ensures !ok ==> extensionIDs == old(extensionIDs) && metadataSize == old(metadataSize)
      ensures ok ==>
                var d := DecodeValue(payload).value.0.entries;
                && extensionIDs == (if M in d && d[M].Dict? then IntsOf(d[M].entries) else old(extensionIDs))
                && metadataSize == (if METADATA_SIZE in d && d[METADATA_SIZE].Int64? then d[METADATA_SIZE].n64
                                    else old(metadataSize))
    {
      hide DecodeValue;
      var decoded := BencodeCodec.DecodeBytes(payload);
      if decoded.Err? || !decoded.value.0.Dict? { return false; }
      var d := decoded.value.0.entries;
      if M in d && d[M].Dict? { extensionIDs := IntsOf(d[M].entries); }
      if METADATA_SIZE in d && d[METADATA_SIZE].Int64? { metadataSize := d[METADATA_SIZE].n64; }
      ok := true;
    }

    /** Asks for one piece of the metadata (BEP 9) under the id the peer chose, as a byte. */
    method RequestMetadataPiece(piece: nat) returns (r: Option<ConnError>)
      modifies this`sent, this`sendBudget
      ensures r.None? <==> UT_METADATA in extensionIDs && old(sendBudget) > 0
      ensures r.None? ==>
                && sent == old(sent) + [MetadataRequest(extensionIDs[UT_METADATA], piece)]
                && sendBudget == old(sendBudget) - 1
      ensures r.Some? ==> sent == old(sent)
    {
      if UT_METADATA !in extensionIDs { return Some(NoUtMetadata); }
      var payload := BencodeCodec.Encode(RequestValue(piece));
      var ok := SendMessage(Msg(MSG_EXTENDED, [(extensionIDs[UT_METADATA] % 256) as byte] + payload.value));
      r := if ok then None else Some(SendFailed);
    }
  }

  function IntsOf(m: map<Bytes, Any>): map<Bytes, int> { map k | k in m && m[k].Int64? :: m[k].n64 }

  function RequestValue(piece: nat): (v: Any)
    ensures Encodable(v)
  {
    Dict(map[MSG_TYPE := Int64(0), PIECE := Int64(piece)])
  }

  ghost function MetadataRequest(id: int, piece: nat): Msg {
    Msg(MSG_EXTENDED, [(id % 256) as byte] + Render(RequestValue(piece)))
  }

  /** A BEP 9 data message: the piece index and the bytes after the bencoded header. */
  function ParseMetadataPiece(payload: Bytes): Option<(int, Bytes)> {
    match DecodeValue(payload)
    case Err(_) => None
    case Ok((v, consumed)) =>
      if !v.Dict? then None
      else if MSG_TYPE !in v.entries || v.entries[MSG_TYPE] != Int64(1) then None
      else if PIECE !in v.entries || !v.entries[PIECE].Int64? then None
      else Some((v.entries[PIECE].n64, payload[consumed..]))
  }

  /** Whatever else the header says, the payload behind it is recovered exactly. */
  lemma {:induction false} MetadataPieceRoundTrip(header: Any, piece: int, data: Bytes)
    requires header.Dict? && Encodable(header) && Representable(header)
    requires MSG_TYPE in header.entries && header.entries[MSG_TYPE] in {Int(1), Int64(1)}
    requires PIECE in header.entries && header.entries[PIECE] in {Int(piece), Int64(piece)}
    ensures ParseMetadataPiece(Render(header) + data) == Some((piece, data))
  {
    hide DecodeValue, Render;
    BencodeLaws.RoundTrip(header, data);
  }

  /** The header of a BEP 9 data message. */
  predicate DataHeader(header: Any, piece: int) {
    && header.Dict? && MSG_TYPE in header.entries && header.entries[MSG_TYPE] in {Int(1), Int64(1)}
    && PIECE in header.entries && header.entries[PIECE] in {Int(piece), Int64(piece)}
  }

  /** A payload is a data message exactly when its header is a dictionary whose msg_type is 1 and whose piece is an
      integer; a request, a reject and anything else is none. */
  lemma {:induction false} OnlyDataParses(header: Any, data: Bytes)
    requires Encodable(header) && Representable(header)
    ensures ParseMetadataPiece(Render(header) + data).Some? <==> exists piece :: DataHeader(header, piece)
    ensures forall piece :: DataHeader(header, piece) ==>
              ParseMetadataPiece(Render(header) + data) == Some((piece, data))
  {
    hide DecodeValue, Render;
    BencodeLaws.RoundTrip(header, data);
    var p := Render(header) + data;
    assert p[|Render(header)|..] == data;
    if ParseMetadataPiece(p).Some? {
      var v := Normalise(header);
      assert header.Dict?;
      NormalisedInt(header.entries[MSG_TYPE], 1);
      NormalisedInt(header.entries[PIECE], v.entries[PIECE].n64);
      assert DataHeader(header, v.entries[PIECE].n64);
    }
  }

  lemma NormalisedInt(v: Any, n: int)
    ensures Normalise(v) == Int64(n) <==> v in {Int(n), Int64(n)}
  {
  }

  /** The request for a piece of the metadata: the low byte of the peer's number, and then a text that decodes to a
      dictionary with the message type 0 and the piece. */
  lemma {:induction false} RequestMeans(id: int, piece: nat)
    requires piece <= INT64_MAX
    ensures var m, v := MetadataRequest(id, piece), Dict(map[Chars("msg_type") := Int64(0), Chars("piece") := Int64(piece)]);
            && m.id == 20 && |m.payload| > 0 && (0 <= id < 256 ==> m.payload[0] as int == id)
            && m == MetadataRequest(id % 256, piece)
            && DecodeValue(m.payload[1..]) == Ok((v, |m.payload| - 1))
  {
    hide DecodeValue, Render, RequestValue, Chars;
    RequestKeys(piece);
    RequestReads(piece);
    var m := MetadataRequest(id, piece);
    assert m.payload[1..] == Render(RequestValue(piece));
    IdByte(id);
  }

  lemma IdByte(id: int)
    ensures 0 <= id < 256 ==> id % 256 == id
    ensures id % 256 % 256 == id % 256
  {
  }

  lemma RequestKeys(piece: nat)
    ensures RequestValue(piece) == Dict(map[Chars("msg_type") := Int64(0), Chars("piece") := Int64(piece)])
  {
    KeysSpell();
  }

  lemma {:induction false} RequestReads(piece: nat)
    requires piece <= INT64_MAX
    ensures DecodeValue(Render(RequestValue(piece))) == Ok((RequestValue(piece), |Render(RequestValue(piece))|))
  {
    hide DecodeValue, Render, RequestValue;
    RequestIsPlain(piece);
    BencodeLaws.RoundTrip(RequestValue(piece), []);
    assert Render(RequestValue(piece)) + [] == Render(RequestValue(piece));
  }

  lemma RequestIsPlain(piece: nat)
    requires piece <= INT64_MAX
    ensures Representable(RequestValue(piece)) && Normalise(RequestValue(piece)) == RequestValue(piece)
  {
    var v := RequestValue(piece);
    assert Normalise(v).entries == v.entries;
  }

  /** Of the table of extensions the integers are taken over. */
  lemma TableMeans(m: map<Bytes, Any>, name: Bytes)
    ensures name in IntsOf(m) <==> name in m && m[name].Int64?
    ensures name in IntsOf(m) ==> m[name] == Int64(IntsOf(m)[name])
  {
  }

  /** The keys of the extension messages. */
  lemma KeysSpell()
    ensures UT_METADATA == Chars("ut_metadata") && METADATA_SIZE == Chars("metadata_size") && M == Chars("m")
    ensures MSG_TYPE == Chars("msg_type") && PIECE == Chars("piece")
  {
  }
}
