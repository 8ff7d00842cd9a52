/** Fetching the info dictionary from one peer (BEP 9): requests for all pieces, answers in any order
    amid anything else the peer sends, and assembly into one buffer. */
module Metadata {
  import opened Prelude
  import opened Message
  import opened Bencode
  import opened PeerConn
  import BencodeLaws
  import Metainfo

  const PIECE_SIZE := 16384

  /** `CannotAllocate` stands for the failed allocation of the buffer, which stops the program. */
  datatype FetchError =
    | RecvFailed | BadHandshake | NoMetadataSize | CannotAllocate | RequestFailed
    | BadInfo(reason: Metainfo.ParseError)

  function PiecesFor(size: nat): nat { (size + PIECE_SIZE - 1) / PIECE_SIZE }

  datatype Assembly = Assembly(metadata: Bytes, received: seq<bool>, got: nat) {
    predicate Valid() {
      && |received| == PiecesFor(|metadata|)
      && got == CountTrue(received)
    }
  }

  function CountTrue(b: seq<bool>): nat {
    if b == [] then 0 else CountTrue(b[..|b| - 1]) + if b[|b| - 1] then 1 else 0
  }

  /** The data message that a received message amounts to, if it does and the piece exists. */
  function DataPiece(m: Option<Msg>, numPieces: nat): (r: Option<(nat, Bytes)>)
    ensures r.Some? ==> r.value.0 < numPieces
  {
    if m.None? || m.value.id != MSG_EXTENDED || |m.value.payload| < 2 || m.value.payload[0] != 1 then None
    else match ParseMetadataPiece(m.value.payload[1..])
      case None => None
      case Some((piece, data)) => if 0 <= piece < numPieces then Some((piece, data)) else None
  }

  /** What one message does to the assembly. */
  function Accept(a: Assembly, m: Option<Msg>): (r: Assembly)
    requires a.Valid()
    ensures r.Valid() && |r.metadata| == |a.metadata| && a.got <= r.got
  {
    match DataPiece(m, |a.received|)
    case None => a
    case Some((piece, data)) =>
      if a.received[piece] then a
      else
        CountSet(a.received, piece);
        Assembly(CopyInto(a.metadata, piece * PIECE_SIZE, data), a.received[piece := true], a.got + 1)
  }

  /** Reading until every piece has arrived: the assembly and the messages left, or None when the
      messages run out first. */
  function Collect(a: Assembly, inbox: Inbox): Option<(Assembly, Inbox)>
    requires a.Valid()
    decreases |inbox|
  {
    if a.got >= |a.received| then Some((a, inbox))
    else if inbox == [] then None
    else Collect(Accept(a, inbox[0]), inbox[1..])
  }

  function Start(size: nat): (a: Assembly)
    ensures a.Valid()
  {
    NoneTrue(PiecesFor(size));
    Assembly(seq(size, _ => 0), seq(PiecesFor(size), _ => false), 0)
  }

  // ---- Counting ----

  lemma {:induction false} NoneTrue(n: nat)
    ensures CountTrue(seq(n, _ => false)) == 0
  {
    if n > 0 {
      NoneTrue(n - 1);
      assert seq(n, _ => false)[..n - 1] == seq(n - 1, _ => false);
    }
  }

  lemma {:induction false} CountSet(b: seq<bool>, i: nat)
    requires i < |b| && !b[i]
    ensures CountTrue(b[i := true]) == CountTrue(b) + 1
  {
    if i == |b| - 1 {
      assert b[i := true][..i] == b[..i];
    } else {
      CountSet(b[..|b| - 1], i);
      assert b[i := true][..|b| - 1] == b[..|b| - 1][i := true];
    }
  }

  /** The counter is the number of true entries, so the loop ends exactly when none is false. */
  lemma {:induction false} CountIsFull(b: seq<bool>)
    ensures CountTrue(b) <= |b|
    ensures CountTrue(b) == |b| <==> forall i :: 0 <= i < |b| ==> b[i]
  {
    if b != [] {
      var front := b[..|b| - 1];
      CountIsFull(front);
      assert forall i :: 0 <= i < |front| ==> front[i] == b[i];
    }
  }

  // ---- Assembly gives the published bytes ----

  function Slice(original: Bytes, piece: nat): Bytes
    requires piece < PiecesFor(|original|)
  {
    original[piece * PIECE_SIZE..Min((piece + 1) * PIECE_SIZE, |original|)]
  }

  /** A piece is 16 KiB of the metadata in place, the last one what is left; there are as many as it takes. */
  lemma {:induction false} SliceMeans(original: Bytes, piece: nat)
    ensures piece < PiecesFor(|original|) <==> piece * 16384 < |original|
    ensures piece < PiecesFor(|original|) ==>
              && |Slice(original, piece)| == Min(16384, |original| - piece * 16384) > 0
              && forall k :: 0 <= k < |Slice(original, piece)| ==> Slice(original, piece)[k] == original[piece * 16384 + k]
  {
  }

  /** A data message for a piece carries that piece; anything else may be anything. */
  predicate Honest(m: Option<Msg>, original: Bytes) {
    match DataPiece(m, PiecesFor(|original|))
    case None => true
    case Some((piece, data)) => data == Slice(original, piece)
  }

  /** The message that a peer with the published bytes builds for a piece is a data message for that piece,
      and honest, whatever else its header says. */
  lemma {:induction false} PublishedMessageIsHonest(original: Bytes, piece: nat, header: Any)
    requires piece < PiecesFor(|original|)
    requires header.Dict? && Encodable(header) && Representable(header)
    requires MSG_TYPE in header.entries && header.entries[MSG_TYPE] in {Int(1), Int64(1)}
    requires PIECE in header.entries && header.entries[PIECE] in {Int(piece), Int64(piece)}
    ensures var m := Some(Msg(MSG_EXTENDED, [1] + (Render(header) + Slice(original, piece))));
            && DataPiece(m, PiecesFor(|original|)) == Some((piece, Slice(original, piece)))
            && Honest(m, original)
  {
    hide Render, Slice, DecodeValue;
    var rest := Render(header) + Slice(original, piece);
    MetadataPieceRoundTrip(header, piece, Slice(original, piece));
    assert rest != [] by { NothingDecodes(rest); }
    assert ([1] + rest)[1..] == rest;
  }

  lemma NothingDecodes(d: Bytes)
    ensures DecodeValue(d).Ok? ==> d != []
  {
  }

  /** Every byte of a received piece is in place. */
  ghost predicate Placed(a: Assembly, original: Bytes) {
    && a.Valid() && |a.metadata| == |original|
    && forall q :: 0 <= q < |original| && a.received[q / PIECE_SIZE] ==> a.metadata[q] == original[q]
  }

  lemma {:induction false} AcceptPlaces(a: Assembly, m: Option<Msg>, original: Bytes)
    requires Placed(a, original) && Honest(m, original)
    ensures Placed(Accept(a, m), original)
  {
    hide DataPiece;
    var d := DataPiece(m, |a.received|);
    if d.Some? && !a.received[d.value.0] {
      var piece := d.value.0;
      var r := Accept(a, m);
      forall q | 0 <= q < |original| && r.received[q / PIECE_SIZE] ensures r.metadata[q] == original[q] {
        if q / PIECE_SIZE == piece {
          assert piece * PIECE_SIZE <= q < Min((piece + 1) * PIECE_SIZE, |original|);
          assert Slice(original, piece)[q - piece * PIECE_SIZE] == original[q];
        } else {
          assert !(piece * PIECE_SIZE <= q < piece * PIECE_SIZE + |Slice(original, piece)|);
        }
      }
    }
  }

  /** When every data message is honest, the loop can only end with the published bytes, whatever
      the order, the repeats and the noise between them. */
  lemma {:induction false} CollectAssembles(a: Assembly, inbox: Inbox, original: Bytes)
    requires Placed(a, original)
    requires forall i :: 0 <= i < |inbox| ==> Honest(inbox[i], original)
    ensures Collect(a, inbox).Some? ==> Collect(a, inbox).value.0.metadata == original
    decreases |inbox|
  {
    hide Accept, Honest;
    if a.got >= |a.received| {
      CountIsFull(a.received);
      assert forall q :: 0 <= q < |original| ==> a.metadata[q] == original[q];
    } else if inbox != [] {
      AcceptPlaces(a, inbox[0], original);
      CollectAssembles(Accept(a, inbox[0]), inbox[1..], original);
    }
  }

  /** The loop does end once a data message for every piece has been read. */
  lemma {:induction false} CollectEnds(a: Assembly, inbox: Inbox)
    requires a.Valid()
    requires forall p :: 0 <= p < |a.received| && !a.received[p] ==> Arrives(inbox, p, |a.received|)
    ensures Collect(a, inbox).Some?
    decreases |inbox|
  {
    hide DataPiece;
    CountIsFull(a.received);
    if a.got < |a.received| {
      var p :| 0 <= p < |a.received| && !a.received[p];
      assert Arrives(inbox, p, |a.received|);
      var next := Accept(a, inbox[0]);
      forall p | 0 <= p < |next.received| && !next.received[p] ensures Arrives(inbox[1..], p, |next.received|) {
        assert Arrives(inbox, p, |a.received|);
        var i :| 0 <= i < |inbox| && DataPiece(inbox[i], |a.received|).Some?
                 && DataPiece(inbox[i], |a.received|).value.0 == p;
        if i > 0 { assert inbox[1..][i - 1] == inbox[i]; }
      }
      CollectEnds(next, inbox[1..]);
    }
  }

  ghost predicate Arrives(inbox: Inbox, piece: nat, numPieces: nat) {
    exists i :: 0 <= i < |inbox| && DataPiece(inbox[i], numPieces).Some? && DataPiece(inbox[i], numPieces).value.0 == piece
  }

  /** From an empty buffer: honest data for every piece yields exactly the published metadata. */
  lemma {:induction false} FetchYieldsOriginal(original: Bytes, inbox: Inbox)
    requires forall i :: 0 <= i < |inbox| ==> Honest(inbox[i], original)
    requires forall p :: 0 <= p < PiecesFor(|original|) ==> Arrives(inbox, p, PiecesFor(|original|))
    ensures Collect(Start(|original|), inbox).Some?
    ensures Collect(Start(|original|), inbox).value.0.metadata == original
  {
    CollectEnds(Start(|original|), inbox);
    CollectAssembles(Start(|original|), inbox, original);
  }

  // ---- The code as it runs ----

  predicate IsHandshake(m: Option<Msg>) {
    m.Some? && m.value.id == MSG_EXTENDED && m.value.payload != [] && m.value.payload[0] == 0
  }

  /** How many messages are read up to and including the extension handshake. */
  function UntilHandshake(inbox: Inbox): (r: Option<nat>)
    ensures r.Some? ==> 1 <= r.value <= |inbox| && IsHandshake(inbox[r.value - 1])
  {
    if inbox == [] then None
    else if IsHandshake(inbox[0]) then Some(1)
    else match UntilHandshake(inbox[1..])
      case None => None
      case Some(k) => Some(k + 1)
  }

  /** The metadata size a handshake announces, 0 when it announces none; None for a bad handshake. */
  function AnnouncedSize(m: Msg): Option<int>
    requires m.payload != []
  {
    match DecodeValue(m.payload[1..])
    case Err(_) => None
    case Ok((v, _)) =>
      if !v.Dict? then None
      else if METADATA_SIZE in v.entries && v.entries[METADATA_SIZE].Int64? then Some(v.entries[METADATA_SIZE].n64)
      else Some(0)
  }

  function ParseOutcome(raw: Bytes, sha1: Bytes -> Bytes, infoHash: Bytes): Result<Metainfo.Info, FetchError> {
    if sha1(raw) != infoHash then Err(BadInfo(Metainfo.HashMismatch))
    else match Metainfo.ParseRaw(raw)
      case Ok(info) => Ok(info)
      case Err(e) => Err(BadInfo(e))
  }

  /** A buffer of this size can be made: `limit` is the largest that the machine allows. */
  predicate Allocates(size: int, limit: nat) { 0 <= size <= limit }

  /** The size that the peer's extension handshake announces, if there is a good one. */
  function HeardSize(inbox: Inbox): Option<int> {
    match UntilHandshake(inbox)
    case None => None
    case Some(k) => AnnouncedSize(inbox[k - 1].value)
  }

  /** What the messages that a peer sends lead to, once all requests are sent. */
  function Outcome(inbox: Inbox, limit: nat, sha1: Bytes -> Bytes, infoHash: Bytes): Result<Metainfo.Info, FetchError> {
    match UntilHandshake(inbox)
    case None => Err(RecvFailed)
    case Some(k) =>
      match AnnouncedSize(inbox[k - 1].value)
      case None => Err(BadHandshake)
      case Some(size) =>
        if size == 0 then Err(NoMetadataSize)
        else if !Allocates(size, limit) then Err(CannotAllocate)
        else match Collect(Start(size), inbox[k..])
          case None => Err(RecvFailed)
          case Some((a, _)) => ParseOutcome(a.metadata, sha1, infoHash)
  }

  /** The requests for the first `count` pieces. */
  ghost function Requests(id: int, count: nat): seq<Msg> {
    seq(count, i requires 0 <= i < count => MetadataRequest(id, i))
  }

  method ReadMetadataFromPeer(conn: Conn, limit: nat, sha1: Bytes -> Bytes, infoHash: Bytes)
      returns (r: Result<Metainfo.Info, FetchError>)
    requires conn.metadataSize == 0 && conn.extensionIDs == map[]
    modifies conn
    ensures r != Err(RequestFailed) ==> r == Outcome(old(conn.inbox), limit, sha1, infoHash)
    ensures r == Err(RequestFailed) ==>
              && conn.metadataSize > 0
              && (UT_METADATA !in conn.extensionIDs || old(conn.sendBudget) < PiecesFor(conn.metadataSize))
    ensures r.Ok? ==>
              && conn.metadataSize > 0 && UT_METADATA in conn.extensionIDs
              && conn.sent == old(conn.sent) + Requests(conn.extensionIDs[UT_METADATA], PiecesFor(conn.metadataSize))
  {
    hide Collect, Start, AnnouncedSize, UntilHandshake, DecodeValue;
    var e := AwaitHandshake(conn);
    if e.Some? { return Err(e.value); }
    if conn.metadataSize == 0 { return Err(NoMetadataSize); }
    if !Allocates(conn.metadataSize, limit) { return Err(CannotAllocate); }
    var ok := RequestAll(conn, PiecesFor(conn.metadataSize));
    if !ok { return Err(RequestFailed); }
    var metadata := CollectPieces(conn, conn.metadataSize);
    if metadata.None? { return Err(RecvFailed); }
    var info := Metainfo.Parse(metadata.value, sha1, infoHash);
    r := match info case Ok(v) => Ok(v) case Err(reason) => Err(BadInfo(reason));
  }

  /** Reads up to the extension handshake and takes its contents into the connection. */
  method AwaitHandshake(conn: Conn) returns (e: Option<FetchError>)
    requires conn.metadataSize == 0 && conn.extensionIDs == map[]
    modifies conn`inbox, conn`metadataSize, conn`extensionIDs
    ensures UntilHandshake(old(conn.inbox)).None? ==> e == Some(RecvFailed)
    ensures UntilHandshake(old(conn.inbox)).Some? ==>
              var k := UntilHandshake(old(conn.inbox)).value;
              var size := AnnouncedSize(old(conn.inbox)[k - 1].value);
              && (size.None? ==> e == Some(BadHandshake))
              && (size.Some? ==> e == None && conn.metadataSize == size.value && conn.inbox == old(conn.inbox)[k..])
  {
    hide DecodeValue;
    ghost var all := conn.inbox;
    ghost var at := 0;
    while true
      invariant at <= |all| && conn.inbox == all[at..]
      invariant UntilHandshake(all) == match UntilHandshake(all[at..]) case None => None case Some(k) => Some(at + k)
      invariant unchanged(conn`metadataSize) && unchanged(conn`extensionIDs)
      decreases |conn.inbox|
    {
      var m := conn.RecvMessage();
      if m.None? { return Some(RecvFailed); }
      at := at + 1;
      if IsHandshake(m.value) {
        assert UntilHandshake(all) == Some(at) && all[at - 1] == m.value;
        var ok := conn.HandleExtensionHandshake(m.value.value.payload[1..]);
        e := if ok then None else Some(BadHandshake);
        return;
      }
      assert all[at - 1..][1..] == all[at..];
    }
  }

  method RequestAll(conn: Conn, numPieces: nat) returns (ok: bool)
    requires numPieces > 0
    modifies conn`sent, conn`sendBudget
    ensures ok <==> UT_METADATA in conn.extensionIDs && old(conn.sendBudget) >= numPieces
    ensures ok ==> conn.sent == old(conn.sent) + Requests(conn.extensionIDs[UT_METADATA], numPieces)
  {
    hide MetadataRequest;
    for i := 0 to numPieces
      invariant conn.sendBudget + i == old(conn.sendBudget)
      invariant i > 0 ==> UT_METADATA in conn.extensionIDs
      invariant conn.sent == old(conn.sent) + if i == 0 then [] else Requests(conn.extensionIDs[UT_METADATA], i)
    {
      var e := conn.RequestMetadataPiece(i);
      if e.Some? { return false; }
      ghost var id := conn.extensionIDs[UT_METADATA];
      assert Requests(id, i) + [MetadataRequest(id, i)] == Requests(id, i + 1);
    }
    ok := true;
  }

  method CollectPieces(conn: Conn, size: nat) returns (r: Option<Bytes>)
    modifies conn`inbox
    ensures match Collect(Start(size), old(conn.inbox))
            case Some((a, rest)) => r == Some(a.metadata) && conn.inbox == rest
            case None => r == None
  {
    hide DataPiece;
    var numPieces := PiecesFor(size);
    var metadata := new byte[size](_ => 0);
    var received := new bool[numPieces](_ => false);
    var got := 0;
    ghost var a := Start(size);
    assert metadata[..] == a.metadata && received[..] == a.received;
    while got < numPieces
      invariant fresh(metadata) && fresh(received)
      invariant a.Valid() && a == Assembly(metadata[..], received[..], got)
      invariant Collect(Start(size), old(conn.inbox)) == Collect(a, conn.inbox)
      decreases |conn.inbox|
    {
      var m := conn.RecvMessage();
      if m.None? { return None; }
      a := Accept(a, m.value);
      var d := DataPiece(m.value, numPieces);
      if d.None? || received[d.value.0] { continue; }
      CopyBytes(metadata, d.value.0 * PIECE_SIZE, d.value.1);
      received[d.value.0] := true;
      got := got + 1;
    }
    r := Some(metadata[..]);
  }

  // ---- Main results ----

  /** The bytes that are assembled from the messages, if the assembly gets that far. */
  function Assembled(inbox: Inbox, limit: nat): Option<Bytes> {
    match UntilHandshake(inbox)
    case None => None
    case Some(k) =>
      match AnnouncedSize(inbox[k - 1].value)
      case None => None
      case Some(size) =>
        if size == 0 || !Allocates(size, limit) then None
        else match Collect(Start(size), inbox[k..])
          case None => None
          case Some((a, _)) => Some(a.metadata)
  }

  /** What is assembled is not a hash collision with the published bytes. */
  predicate NoCollision(inbox: Inbox, limit: nat, sha1: Bytes -> Bytes, original: Bytes) {
    var raw := Assembled(inbox, limit);
    raw.Some? && sha1(raw.value) == sha1(original) ==> raw.value == original
  }

  /** Whatever a peer sends, the info that is returned is the published one, provided that what was
      assembled is not a hash collision. */
  lemma {:induction false} OnlyPublishedInfoIsReturned(inbox: Inbox, limit: nat, sha1: Bytes -> Bytes, original: Bytes)
    requires NoCollision(inbox, limit, sha1, original)
    requires Outcome(inbox, limit, sha1, sha1(original)).Ok?
    ensures Metainfo.ParseRaw(original) == Ok(Outcome(inbox, limit, sha1, sha1(original)).value)
  {
    hide Collect, Start, DecodeValue, AnnouncedSize, UntilHandshake, Metainfo.ParseRaw;
  }

  /** When a peer announces the size of `original`, and its data messages are honest and cover every piece, these
      bytes are assembled, whatever else it sends, in whatever order, if the buffer can be made; their hash and
      their contents decide. */
  lemma {:induction false} HonestInboxDecides(inbox: Inbox, limit: nat, sha1: Bytes -> Bytes, original: Bytes, infoHash: Bytes)
    requires original != [] && UntilHandshake(inbox).Some?
    requires AnnouncedSize(inbox[UntilHandshake(inbox).value - 1].value) == Some(|original|)
    requires forall i :: UntilHandshake(inbox).value <= i < |inbox| ==> Honest(inbox[i], original)
    requires forall p :: 0 <= p < PiecesFor(|original|) ==>
               Arrives(inbox[UntilHandshake(inbox).value..], p, PiecesFor(|original|))
    ensures Outcome(inbox, limit, sha1, infoHash)
         == if |original| <= limit then ParseOutcome(original, sha1, infoHash) else Err(CannotAllocate)
  {
    hide Collect, Start, Honest, Arrives, DecodeValue, IsHandshake, ParseOutcome;
    FetchYieldsOriginal(original, inbox[UntilHandshake(inbox).value..]);
  }

  // ---- The same from the bytes of the messages ----

  /** A data message with the published bytes of piece `piece`. */
  ghost predicate PublishedPiece(m: Option<Msg>, original: Bytes, piece: nat)
    requires piece < PiecesFor(|original|)
  {
    exists header :: Encodable(header) && Representable(header) && DataHeader(header, piece)
                     && m == Some(Msg(MSG_EXTENDED, [1] + (Render(header) + Slice(original, piece))))
  }

  /** The header of anything else: a request, a reject, a piece that there is not. */
  ghost predicate OtherHeader(header: Any, numPieces: nat) {
    Encodable(header) && Representable(header) && forall piece: nat :: piece < numPieces ==> !DataHeader(header, piece)
  }

  /** Another message of the protocol, an extended message under another number, or one whose header is not that of
      a data message for a piece of the metadata, or no bencoded text at all. */
  ghost predicate Irrelevant(m: Option<Msg>, numPieces: nat) {
    || m.None? || m.value.id != MSG_EXTENDED || |m.value.payload| < 2 || m.value.payload[0] != 1
    || DecodeValue(m.value.payload[1..]).Err?
    || exists header, data :: OtherHeader(header, numPieces) && m.value.payload == [1] + (Render(header) + data)
  }

  ghost predicate PublishedOrIrrelevant(m: Option<Msg>, original: Bytes) {
    || Irrelevant(m, PiecesFor(|original|))
    || exists piece: nat :: piece < PiecesFor(|original|) && PublishedPiece(m, original, piece)
  }

  lemma {:induction false} PublishedIsData(m: Option<Msg>, original: Bytes, piece: nat)
    requires piece < PiecesFor(|original|) && PublishedPiece(m, original, piece)
    ensures DataPiece(m, PiecesFor(|original|)) == Some((piece, Slice(original, piece))) && Honest(m, original)
  {
    hide Render, Slice, DecodeValue, Representable, DataPiece, Honest;
    var header :| Encodable(header) && Representable(header) && DataHeader(header, piece)
                  && m == Some(Msg(MSG_EXTENDED, [1] + (Render(header) + Slice(original, piece))));
    PublishedMessageIsHonest(original, piece, header);
  }

  lemma {:induction false} IrrelevantIsNoData(m: Option<Msg>, numPieces: nat)
    requires Irrelevant(m, numPieces)
    ensures DataPiece(m, numPieces) == None
  {
    hide Render, DecodeValue, Representable, DataHeader;
    if m.Some? && m.value.id == MSG_EXTENDED && |m.value.payload| >= 2 && m.value.payload[0] == 1
       && DecodeValue(m.value.payload[1..]).Ok?
    {
      var header, data :| OtherHeader(header, numPieces) && m.value.payload == [1] + (Render(header) + data);
      assert m.value.payload[1..] == Render(header) + data;
      OtherIsNoData(header, data, numPieces);
    }
  }

  lemma OtherIsNoData(header: Any, data: Bytes, numPieces: nat)
    requires OtherHeader(header, numPieces)
    ensures match ParseMetadataPiece(Render(header) + data)
            case None => true
            case Some((piece, _)) => !(0 <= piece < numPieces)
  {
    hide Render, DecodeValue, Representable, Encodable, ParseMetadataPiece;
    OnlyDataParses(header, data);
  }

  lemma {:induction false} MessagesAreHonest(m: Option<Msg>, original: Bytes)
    requires PublishedOrIrrelevant(m, original)
    ensures Honest(m, original)
  {
    hide Irrelevant, PublishedPiece, DataPiece;
    if Irrelevant(m, PiecesFor(|original|)) {
      IrrelevantIsNoData(m, PiecesFor(|original|));
    } else {
      var piece: nat :| piece < PiecesFor(|original|) && PublishedPiece(m, original, piece);
      PublishedIsData(m, original, piece);
    }
  }

  /** Not the extension handshake. */
  predicate NoHandshake(m: Option<Msg>) {
    m.None? || m.value.id != MSG_EXTENDED || m.value.payload == [] || m.value.payload[0] != 0
  }

  /** The extension handshake of a peer whose metadata has `size` bytes. */
  ghost predicate Announces(m: Option<Msg>, size: int) {
    exists hello, trail :: Encodable(hello) && Representable(hello) && hello.Dict? && METADATA_SIZE in hello.entries
                           && hello.entries[METADATA_SIZE] in {Int(size), Int64(size)}
                           && m == Some(Msg(MSG_EXTENDED, [0] + (Render(hello) + trail)))
  }

  lemma {:induction false} HandshakeFound(before: Inbox, m: Option<Msg>, after: Inbox)
    requires (forall i :: 0 <= i < |before| ==> NoHandshake(before[i])) && IsHandshake(m)
    ensures UntilHandshake(before + [m] + after) == Some(|before| + 1)
    decreases |before|
  {
    var all := before + [m] + after;
    if before != [] {
      HandshakeFound(before[1..], m, after);
      assert all[1..] == before[1..] + [m] + after && NoHandshake(before[0]);
    }
  }

  lemma {:induction false} AnnouncementIsHeard(m: Option<Msg>, size: int)
    requires Announces(m, size)
    ensures IsHandshake(m) && AnnouncedSize(m.value) == Some(size)
  {
    hide Render, DecodeValue, Representable;
    var hello, trail :| Encodable(hello) && Representable(hello) && hello.Dict? && METADATA_SIZE in hello.entries
                        && hello.entries[METADATA_SIZE] in {Int(size), Int64(size)}
                        && m == Some(Msg(MSG_EXTENDED, [0] + (Render(hello) + trail)));
    BencodeLaws.RoundTrip(hello, trail);
    assert m.value.payload[1..] == Render(hello) + trail;
    NormalisedInt(hello.entries[METADATA_SIZE], size);
    assert Normalise(hello).entries[METADATA_SIZE] == Int64(size);
  }

  ghost predicate Sent(ms: Inbox, original: Bytes, piece: nat)
    requires piece < PiecesFor(|original|)
  {
    exists i :: 0 <= i < |ms| && PublishedPiece(ms[i], original, piece)
  }

  /** The messages of a peer that announces the size of `original` and then sends every piece of it at least once, in
      any order, amid requests, rejects, other messages and anything that is no data message for a piece. */
  ghost predicate Sends(before: Inbox, handshake: Option<Msg>, after: Inbox, original: Bytes) {
    && (forall i :: 0 <= i < |before| ==> NoHandshake(before[i]))
    && Announces(handshake, |original|)
    && (forall i :: 0 <= i < |after| ==> PublishedOrIrrelevant(after[i], original))
    && (forall p: nat :: p < PiecesFor(|original|) ==> Sent(after, original, p))
  }

  /** What becomes of the bytes that such a peer sends: the hash is checked first. */
  lemma {:induction false} SentBytesDecide(before: Inbox, handshake: Option<Msg>, after: Inbox, limit: nat,
                                           sha1: Bytes -> Bytes, original: Bytes, infoHash: Bytes)
    requires original != [] && Sends(before, handshake, after, original)
    ensures Outcome(before + [handshake] + after, limit, sha1, infoHash)
         == if |original| > limit then Err(CannotAllocate)
            else if sha1(original) != infoHash then Err(BadInfo(Metainfo.HashMismatch))
            else match Metainfo.ParseRaw(original)
              case Ok(info) => Ok(info)
              case Err(e) => Err(BadInfo(e))
  {
    hide Collect, Start, DecodeValue, IsHandshake, UntilHandshake, AnnouncedSize, Honest, DataPiece, Announces,
         PublishedOrIrrelevant, PublishedPiece, PiecesFor;
    AnnouncementIsHeard(handshake, |original|);
    HandshakeFound(before, handshake, after);
    var inbox := before + [handshake] + after;
    assert inbox[|before| + 1..] == after && inbox[|before|] == handshake;
    forall i | 0 <= i < |after| ensures Honest(after[i], original) { MessagesAreHonest(after[i], original); }
    forall p | 0 <= p < PiecesFor(|original|) ensures Arrives(after, p, PiecesFor(|original|)) {
      assert Sent(after, original, p);
      var i :| 0 <= i < |after| && PublishedPiece(after[i], original, p);
      PublishedIsData(after[i], original, p);
    }
    HonestInboxDecides(inbox, limit, sha1, original, infoHash);
  }

  /** A peer that sends the published metadata delivers the published info, if the buffer can be made. */
  lemma {:induction false} HonestPeerDelivers(before: Inbox, handshake: Option<Msg>, after: Inbox, limit: nat,
                                              sha1: Bytes -> Bytes, original: Bytes, info: Metainfo.Info)
    requires original != [] && Metainfo.ParseRaw(original) == Ok(info)
    requires Sends(before, handshake, after, original)
    ensures Outcome(before + [handshake] + after, limit, sha1, sha1(original))
         == if |original| <= limit then Ok(info) else Err(CannotAllocate)
  {
    hide Outcome, Sends;
    SentBytesDecide(before, handshake, after, limit, sha1, original, sha1(original));
  }

  // ---- How a fetch fails ----

  /** An extension handshake that is no bencoded dictionary. */
  predicate Garbled(m: Option<Msg>) {
    && m.Some? && m.value.id == MSG_EXTENDED && |m.value.payload| > 0 && m.value.payload[0] == 0
    && (DecodeValue(m.value.payload[1..]).Err? || !DecodeValue(m.value.payload[1..]).value.0.Dict?)
  }

  /** An extension handshake without an integer under the key of the size. */
  ghost predicate Silent(m: Option<Msg>) {
    exists hello, trail :: Encodable(hello) && Representable(hello) && hello.Dict?
                           && (METADATA_SIZE in hello.entries ==>
                                 !hello.entries[METADATA_SIZE].Int? && !hello.entries[METADATA_SIZE].Int64?)
                           && m == Some(Msg(MSG_EXTENDED, [0] + (Render(hello) + trail)))
  }

  /** No data message for this piece: anything that is not one at all, or one for another piece. */
  ghost predicate Misses(m: Option<Msg>, piece: nat, numPieces: nat) {
    || Irrelevant(m, numPieces)
    || exists header, data, other :: Encodable(header) && Representable(header) && DataHeader(header, other) && other != piece
                                     && m == Some(Msg(MSG_EXTENDED, [1] + (Render(header) + data)))
  }

  ghost predicate NeverCame(ms: Inbox, piece: nat, size: nat) {
    forall i :: 0 <= i < |ms| ==> Misses(ms[i], piece, PiecesFor(size))
  }

  lemma {:induction false} SilenceIsHeard(m: Option<Msg>)
    requires Silent(m)
    ensures IsHandshake(m) && AnnouncedSize(m.value) == Some(0)
  {
    hide Render, DecodeValue, Representable;
    var hello, trail :| Encodable(hello) && Representable(hello) && hello.Dict?
                        && (METADATA_SIZE in hello.entries ==>
                              !hello.entries[METADATA_SIZE].Int? && !hello.entries[METADATA_SIZE].Int64?)
                        && m == Some(Msg(MSG_EXTENDED, [0] + (Render(hello) + trail)));
    BencodeLaws.RoundTrip(hello, trail);
    assert m.value.payload[1..] == Render(hello) + trail;
    assert Normalise(hello).Dict?;
    if METADATA_SIZE in hello.entries { assert !Normalise(hello).entries[METADATA_SIZE].Int64?; }
  }

  lemma {:induction false} MissesIsNoData(m: Option<Msg>, piece: nat, numPieces: nat)
    requires Misses(m, piece, numPieces)
    ensures DataPiece(m, numPieces) == None || DataPiece(m, numPieces).value.0 != piece
  {
    hide Render, DecodeValue, Representable, Irrelevant, ParseMetadataPiece;
    if Irrelevant(m, numPieces) {
      IrrelevantIsNoData(m, numPieces);
    } else {
      var header, data, other :| Encodable(header) && Representable(header) && DataHeader(header, other) && other != piece
                                 && m == Some(Msg(MSG_EXTENDED, [1] + (Render(header) + data)));
      MetadataPieceRoundTrip(header, other, data);
      assert m.value.payload[1..] == Render(header) + data;
    }
  }

  /** Without one piece the assembly never ends. */
  lemma {:induction false} CollectWaits(a: Assembly, inbox: Inbox, piece: nat)
    requires a.Valid() && piece < |a.received| && !a.received[piece]
    requires forall i :: 0 <= i < |inbox| ==>
               DataPiece(inbox[i], |a.received|) == None || DataPiece(inbox[i], |a.received|).value.0 != piece
    ensures Collect(a, inbox) == None
    decreases |inbox|
  {
    hide DataPiece;
    CountIsFull(a.received);
    if inbox != [] { CollectWaits(Accept(a, inbox[0]), inbox[1..], piece); }
  }

  lemma {:induction false} NoHandshakeFound(before: Inbox)
    requires forall i :: 0 <= i < |before| ==> NoHandshake(before[i])
    ensures UntilHandshake(before) == None
    decreases |before|
  {
    if before != [] {
      assert NoHandshake(before[0]);
      NoHandshakeFound(before[1..]);
    }
  }

  /** How a fetch fails, from the messages alone: none of them is a handshake; the first handshake is no dictionary,
      announces no size or the size 0, or one that no buffer can be made for; or some piece never comes. */
  lemma {:induction false} FetchFails(before: Inbox, handshake: Option<Msg>, after: Inbox, size: int, piece: nat,
                                      limit: nat, sha1: Bytes -> Bytes, infoHash: Bytes)
    requires forall i :: 0 <= i < |before| ==> NoHandshake(before[i])
    ensures Outcome(before, limit, sha1, infoHash) == Err(RecvFailed)
    ensures var r := Outcome(before + [handshake] + after, limit, sha1, infoHash);
            && (Garbled(handshake) ==> r == Err(BadHandshake))
            && (Silent(handshake) || Announces(handshake, 0) ==> r == Err(NoMetadataSize))
            && (Announces(handshake, size) && size != 0 && !(0 <= size <= limit) ==> r == Err(CannotAllocate))
            && (Announces(handshake, size) && 0 < size <= limit && piece * 16384 < size && NeverCame(after, piece, size) ==>
                  r == Err(RecvFailed))
  {
    hide Collect, Start, DataPiece, Announces, Silent, Misses, UntilHandshake, DecodeValue, NoHandshake;
    NoHandshakeFound(before);
    if Garbled(handshake) || Silent(handshake) || Announces(handshake, 0) || Announces(handshake, size) {
      if Silent(handshake) { SilenceIsHeard(handshake); }
      if Announces(handshake, 0) { AnnouncementIsHeard(handshake, 0); }
      if Announces(handshake, size) { AnnouncementIsHeard(handshake, size); }
      HandshakeFound(before, handshake, after);
      var inbox := before + [handshake] + after;
      assert inbox[|before| + 1..] == after && inbox[|before|] == handshake;
      if 0 < size <= limit && piece * 16384 < size && NeverCame(after, piece, size) {
        PieceNeverComes(after, size, piece);
      }
    }
  }

  lemma {:induction false} PieceNeverComes(after: Inbox, size: nat, piece: nat)
    requires 0 < size && piece * 16384 < size && NeverCame(after, piece, size)
    ensures Collect(Start(size), after) == None
  {
    hide Misses, DataPiece, Collect;
    forall i | 0 <= i < |after|
      ensures DataPiece(after[i], PiecesFor(size)) == None || DataPiece(after[i], PiecesFor(size)).value.0 != piece
    {
      MissesIsNoData(after[i], piece, PiecesFor(size));
    }
    CollectWaits(Start(size), after, piece);
  }

  /** A data message for this piece, with any bytes. */
  ghost predicate Carries(m: Option<Msg>, piece: nat) {
    exists header, data :: Encodable(header) && Representable(header) && DataHeader(header, piece)
                           && m == Some(Msg(MSG_EXTENDED, [1] + (Render(header) + data)))
  }

  lemma {:induction false} CarriesIsData(m: Option<Msg>, piece: nat, numPieces: nat)
    requires Carries(m, piece) && piece < numPieces
    ensures IsData(m, piece, numPieces)
  {
    hide Render, DecodeValue, Representable, ParseMetadataPiece;
    var header, data :| Encodable(header) && Representable(header) && DataHeader(header, piece)
                        && m == Some(Msg(MSG_EXTENDED, [1] + (Render(header) + data)));
    MetadataPieceRoundTrip(header, piece, data);
    assert m.value.payload[1..] == Render(header) + data;
    assert Render(header) + data != [] by { NothingDecodes(Render(header) + data); ParsedDecodes(Render(header) + data); }
  }

  lemma ParsedDecodes(payload: Bytes)
    ensures ParseMetadataPiece(payload).Some? ==> DecodeValue(payload).Ok?
  {
    hide DecodeValue;
  }

  ghost predicate IsData(m: Option<Msg>, piece: nat, numPieces: nat) {
    DataPiece(m, numPieces).Some? && DataPiece(m, numPieces).value.0 == piece
  }

  /** The bytes that the messages assemble. */
  function BytesOf(a: Assembly, inbox: Inbox): Option<Bytes>
    requires a.Valid()
  {
    match Collect(a, inbox)
    case None => None
    case Some((b, _)) => Some(b.metadata)
  }

  lemma {:induction false} SkippingRepeats(a: Assembly, pre: Inbox, m: Option<Msg>, post: Inbox, piece: nat)
    requires a.Valid() && piece < |a.received| && IsData(m, piece, |a.received|)
    requires a.received[piece] || exists k :: 0 <= k < |pre| && IsData(pre[k], piece, |a.received|)
    ensures BytesOf(a, pre + [m] + post) == BytesOf(a, pre + post)
    decreases |pre|
  {
    hide DataPiece;
    if a.got < |a.received| {
      if pre == [] {
        assert pre + [m] + post == [m] + post && pre + post == post;
        assert Accept(a, m) == a;
      } else {
        SkippingRepeats(Accept(a, pre[0]), pre[1..], m, post, piece);
        assert (pre + [m] + post)[1..] == pre[1..] + [m] + post && (pre + post)[1..] == pre[1..] + post;
      }
    }
  }

  /** Of several data messages for one piece only the first counts: the others change nothing. */
  lemma {:induction false} RepeatsChangeNothing(before: Inbox, handshake: Option<Msg>, pre: Inbox, k: nat, m: Option<Msg>,
                                                post: Inbox, size: int, piece: nat,
                                                limit: nat, sha1: Bytes -> Bytes, infoHash: Bytes)
    requires forall i :: 0 <= i < |before| ==> NoHandshake(before[i])
    requires Announces(handshake, size) && piece * 16384 < size
    requires k < |pre| && Carries(pre[k], piece) && Carries(m, piece)
    ensures Outcome(before + [handshake] + (pre + [m] + post), limit, sha1, infoHash)
         == Outcome(before + [handshake] + (pre + post), limit, sha1, infoHash)
  {
    hide Collect, Start, Announces, Carries, UntilHandshake, DecodeValue, NoHandshake, IsData, ParseOutcome;
    var long, short := pre + [m] + post, pre + post;
    AnnouncementIsHeard(handshake, size);
    HandshakeFound(before, handshake, long);
    HandshakeFound(before, handshake, short);
    assert (before + [handshake] + long)[|before| + 1..] == long && (before + [handshake] + short)[|before| + 1..] == short;
    if size <= limit {
      CarriesIsData(pre[k], piece, PiecesFor(size));
      CarriesIsData(m, piece, PiecesFor(size));
      StartMisses(size, piece);
      SkippingRepeats(Start(size), pre, m, post, piece);
    }
  }

  lemma StartMisses(size: nat, piece: nat)
    requires piece * 16384 < size
    ensures |Start(size).received| == PiecesFor(size) && piece < PiecesFor(size)
  {
  }

  /** The fetch stops the program exactly when the handshake announces a size that cannot be allocated. */
  lemma {:induction false} StopsOnBadSize(inbox: Inbox, limit: nat, sha1: Bytes -> Bytes, infoHash: Bytes)
    ensures Outcome(inbox, limit, sha1, infoHash) == Err(CannotAllocate)
       <==> HeardSize(inbox).Some? && !Allocates(HeardSize(inbox).value, limit)
  {
    hide Collect, Start, DecodeValue, AnnouncedSize, UntilHandshake, Metainfo.ParseRaw;
  }

  /** A peer can announce any size: this handshake does. */
  ghost function Announcing(size: int): Inbox {
    [Some(Msg(MSG_EXTENDED, [0] + Render(Dict(map[METADATA_SIZE := Int64(size)]))))]
  }

  lemma {:induction false} AnySizeCanBeAnnounced(size: int)
    requires INT64_MIN <= size <= INT64_MAX
    ensures HeardSize(Announcing(size)) == Some(size)
  {
    hide Render, DecodeValue;
    var v := Dict(map[METADATA_SIZE := Int64(size)]);
    var m := Announcing(size)[0];
    SizeValueIsPlain(size);
    BencodeLaws.RoundTrip(v, []);
    assert Render(v) + [] == Render(v);
    assert m.value.payload[1..] == Render(v);
    assert UntilHandshake(Announcing(size)) == Some(1);
  }

  lemma SizeValueIsPlain(size: int)
    requires INT64_MIN <= size <= INT64_MAX
    ensures var v := Dict(map[METADATA_SIZE := Int64(size)]); Encodable(v) && Representable(v) && Normalise(v) == v
  {
    var v := Dict(map[METADATA_SIZE := Int64(size)]);
    assert Normalise(v).entries == v.entries;
  }

  // ---- Peers from several sources ----

  datatype Peer = Peer(ip: Bytes, port: nat)

  function Addrs(peers: seq<Peer>, addr: Peer -> Bytes): set<Bytes> { set k | 0 <= k < |peers| :: addr(peers[k]) }

  lemma AddrsGrow(peers: seq<Peer>, p: Peer, addr: Peer -> Bytes)
    ensures Addrs(peers + [p], addr) == Addrs(peers, addr) + {addr(p)}
  {
    var l := peers + [p];
    forall a | a in Addrs(peers, addr) ensures a in Addrs(l, addr) {
      var k :| 0 <= k < |peers| && addr(peers[k]) == a;
      assert addr(l[k]) == a;
    }
    assert addr(l[|peers|]) == addr(p);
  }

  /** No address from position `n` on occurs before. */
  ghost predicate NewFrom(peers: seq<Peer>, n: nat, addr: Peer -> Bytes) {
    forall j :: n <= j < |peers| ==> addr(peers[j]) !in Addrs(peers[..j], addr)
  }

  lemma NewFromGrows(peers: seq<Peer>, p: Peer, n: nat, addr: Peer -> Bytes)
    requires NewFrom(peers, n, addr) && addr(p) !in Addrs(peers, addr)
    ensures NewFrom(peers + [p], n, addr)
  {
    hide Addrs;
    forall j | n <= j < |peers| + 1 ensures addr((peers + [p])[j]) !in Addrs((peers + [p])[..j], addr) {
      if j < |peers| { assert (peers + [p])[..j] == peers[..j]; } else { assert (peers + [p])[..j] == peers; }
    }
  }

  /** Merges new peers into the known ones, which stay first and unchanged: every address of both is there,
      and an added peer's address is not there before it. `addr` is the printed form of an address. */
  method DedupPeers(known: seq<Peer>, found: seq<Peer>, addr: Peer -> Bytes) returns (result: seq<Peer>)
    ensures known <= result && NewFrom(result, |known|, addr)
    ensures Addrs(result, addr) == Addrs(known, addr) + Addrs(found, addr)
    ensures forall k :: |known| <= k < |result| ==> result[k] in found
  {
    hide Addrs, NewFrom;
    assert Addrs([], addr) == {} by { NoAddrs(addr); }
    var seen: set<Bytes> := {};
    for k := 0 to |known|
      invariant seen == Addrs(known[..k], addr)
    {
      assert known[..k + 1] == known[..k] + [known[k]];
      AddrsGrow(known[..k], known[k], addr);
      seen := seen + {addr(known[k])};
    }
    assert known[..|known|] == known;
    result := known;
    NothingNew(known, addr);
    for k := 0 to |found|
      invariant known <= result && NewFrom(result, |known|, addr)
      invariant seen == Addrs(result, addr) == Addrs(known, addr) + Addrs(found[..k], addr)
      invariant forall j :: |known| <= j < |result| ==> result[j] in found
    {
      assert found[..k + 1] == found[..k] + [found[k]];
      AddrsGrow(found[..k], found[k], addr);
      if addr(found[k]) !in seen {
        AddrsGrow(result, found[k], addr);
        NewFromGrows(result, found[k], |known|, addr);
        seen := seen + {addr(found[k])};
        result := result + [found[k]];
      }
    }
    assert found[..|found|] == found;
  }

  lemma NoAddrs(addr: Peer -> Bytes)
    ensures Addrs([], addr) == {}
  {
  }

  lemma NothingNew(peers: seq<Peer>, addr: Peer -> Bytes)
    ensures NewFrom(peers, |peers|, addr)
  {
  }
}
