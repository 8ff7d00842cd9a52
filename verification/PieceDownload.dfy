/** Downloading one piece: a window of pipelined requests, answers in any order, assembly. This is the
    meaning of the loop as a function of the messages that arrive. */
module PieceDownload {
  import opened Prelude
  import opened Message
  import opened PeerConn
  import opened Endgame

  const MAX_BACKLOG := 16

  datatype DownloadError = SendFailed | RecvFailed | BadPiece | Choked | HashMismatch

  datatype Progress = Progress(buf: Bytes, downloaded: nat, requested: nat, backlog: int)

  datatype Verdict = Continue(p: Progress) | Stop(error: DownloadError)

  datatype Outcome = Done(p: Progress, rest: Inbox) | Failed(error: DownloadError)

  /** What a piece of a consistent torrent looks like. */
  predicate ValidWork(pw: PieceWork) { pw.index < UINT32_RANGE && 0 < pw.length < UINT32_RANGE }

  /** What a download without an error hands over. */
  predicate Verified(pw: PieceWork, data: Bytes, sha1: Bytes -> Bytes) { |data| == pw.length && sha1(data) == pw.hash }

  function BlockSize(length: nat, requested: nat): nat
    requires requested <= length
  {
    Min(BLOCK_SIZE, length - requested)
  }

  /** Where the request window ends and how many requests are then unanswered. */
  function Fill(length: nat, requested: nat, backlog: int): (r: (nat, int))
    requires requested <= length
    ensures requested <= r.0 <= length
    decreases length - requested
  {
    if backlog < MAX_BACKLOG && requested < length
    then Fill(length, requested + BlockSize(length, requested), backlog + 1)
    else (requested, backlog)
  }

  /** The requests for the blocks of [from, until). */
  function RequestsFor(pw: PieceWork, from: nat, until: nat): seq<Msg>
    requires ValidWork(pw) && from <= until <= pw.length
    decreases until - from
  {
    if from == until then []
    else
      var size := Min(BlockSize(pw.length, from), until - from);
      [NewRequest(pw.index, from, size)] + RequestsFor(pw, from + size, until)
  }

  /** What one received message does. */
  function Handle(pw: PieceWork, p: Progress, m: Option<Msg>): (v: Verdict)
    ensures v.Continue? ==> |v.p.buf| == |p.buf| && v.p.requested == p.requested
  {
    if m.None? then Continue(p)
    else if m.value.id == MSG_PIECE then
      match ParsePiece(m.value.payload)
      case Err(_) => Stop(BadPiece)
      case Ok((idx, begin, block)) =>
        if idx != pw.index then Continue(p)
        else if begin + |block| > |p.buf| then Continue(p)
        else Continue(Progress(CopyInto(p.buf, begin, block), p.downloaded + |block|, p.requested, p.backlog - 1))
    else if m.value.id == MSG_CHOKE then Stop(Choked)
    else Continue(p)
  }

  function Filled(pw: PieceWork, p: Progress): (r: Progress)
    requires ValidWork(pw) && p.requested <= pw.length
    ensures p.requested <= r.requested <= pw.length && r.buf == p.buf && r.downloaded == p.downloaded
  {
    var (requested, backlog) := Fill(pw.length, p.requested, p.backlog);
    p.(requested := requested, backlog := backlog)
  }

  /** The download loop when every send succeeds. */
  function Run(pw: PieceWork, p: Progress, inbox: Inbox): Outcome
    requires ValidWork(pw) && p.requested <= pw.length
    decreases |inbox|
  {
    if p.downloaded >= pw.length then Done(p, inbox)
    else if inbox == [] then Failed(RecvFailed)
    else match Handle(pw, Filled(pw, p), inbox[0])
      case Stop(e) => Failed(e)
      case Continue(q) => Run(pw, q, inbox[1..])
  }

  function Start(buf: Bytes): Progress { Progress(buf, 0, 0, 0) }

  // ---- Requests ----

  /** Consecutive, non-empty blocks of at most 16 KiB of the piece, from `from` up to `until`. */
  ghost predicate TilesBlocks(pw: PieceWork, requests: seq<Msg>, from: nat, until: nat)
    decreases |requests|
  {
    if requests == [] then from == until
    else match ParseRequest(requests[0].payload)
      case Err(_) => false
      case Ok((index, begin, size)) =>
        && requests[0].id == MSG_REQUEST && index == pw.index && begin == from
        && 0 < size <= 16384 && from + size <= until
        && TilesBlocks(pw, requests[1..], from + size, until)
  }

  /** The first block of a tiling. */
  lemma TileFirst(pw: PieceWork, from: nat, size: nat, rest: seq<Msg>, until: nat)
    requires ValidWork(pw) && 0 < size <= BLOCK_SIZE && from + size <= until <= pw.length
    requires TilesBlocks(pw, rest, from + size, until)
    ensures TilesBlocks(pw, [NewRequest(pw.index, from, size)] + rest, from, until)
  {
    hide PutUint32, Uint32, NewRequest, ParseRequest;
    PayloadsRoundTrip(pw.index, from, size, []);
    RequestId(pw.index, from, size);
    assert ([NewRequest(pw.index, from, size)] + rest)[1..] == rest;
  }

  lemma RequestId(index: uint32, begin: uint32, size: uint32)
    ensures NewRequest(index, begin, size).id == MSG_REQUEST
  {
  }

  lemma {:induction false} RequestsTile(pw: PieceWork, from: nat, until: nat)
    requires ValidWork(pw) && from <= until <= pw.length
    ensures TilesBlocks(pw, RequestsFor(pw, from, until), from, until)
    decreases until - from
  {
    hide NewRequest, TilesBlocks;
    if from < until {
      var size := Min(BlockSize(pw.length, from), until - from);
      RequestsTile(pw, from + size, until);
      TileFirst(pw, from, size, RequestsFor(pw, from + size, until), until);
    } else {
      NothingTiles(pw, from);
    }
  }

  lemma NothingTiles(pw: PieceWork, from: nat)
    ensures TilesBlocks(pw, [], from, from)
  {
  }

  /** Before every wait for a message the window is as full as it may be: sixteen requests are unanswered, or
      everything is requested. It is never filled beyond sixteen, and `backlog` counts the requests. */
  lemma {:induction false} WindowIsFull(pw: PieceWork, p: Progress)
    requires ValidWork(pw) && p.requested <= pw.length
    ensures var q := Filled(pw, p);
            && (q.backlog >= 16 || q.requested == pw.length)
            && (q.backlog <= 16 || (q.backlog == p.backlog && q.requested == p.requested))
            && q.requested <= pw.length && q.backlog - p.backlog == |RequestsFor(pw, p.requested, q.requested)|
    decreases pw.length - p.requested
  {
    hide NewRequest;
    if p.backlog < MAX_BACKLOG && p.requested < pw.length {
      var size := BlockSize(pw.length, p.requested);
      WindowIsFull(pw, p.(requested := p.requested + size, backlog := p.backlog + 1));
    }
  }

  // ---- A peer that answers every request exactly once ----

  function NumBlocks(length: nat): nat { (length + BLOCK_SIZE - 1) / BLOCK_SIZE }

  function BlockBegin(b: nat): nat { b * BLOCK_SIZE }

  function BlockEnd(length: nat, b: nat): nat { Min((b + 1) * BLOCK_SIZE, length) }

  /** The first position after `blocks` blocks. */
  function Frontier(length: nat, blocks: nat): nat { Min(blocks * BLOCK_SIZE, length) }

  /** How many blocks are requested after the window is filled. */
  function BlocksAfter(length: nat, blocks: nat, backlog: int): (r: nat)
    ensures r >= blocks
    decreases NumBlocks(length) - blocks
  {
    if backlog < MAX_BACKLOG && blocks < NumBlocks(length) then BlocksAfter(length, blocks + 1, backlog + 1) else blocks
  }

  function Answer(pw: PieceWork, content: Bytes, b: nat): Msg
    requires ValidWork(pw) && |content| == pw.length && b < NumBlocks(pw.length)
  {
    NewPiece(pw.index, BlockBegin(b), content[BlockBegin(b)..BlockEnd(pw.length, b)])
  }

  /** Messages that change nothing: keep-alives, other kinds, pieces of another index, blocks that
      do not fit. */
  predicate Noise(pw: PieceWork, m: Option<Msg>) {
    m.Some? ==>
      && m.value.id != MSG_CHOKE
      && (m.value.id == MSG_PIECE ==>
            match ParsePiece(m.value.payload)
            case Err(_) => false
            case Ok((idx, begin, block)) => idx != pw.index || begin + |block| > pw.length)
  }

  function Range(from: nat, until: nat): (r: set<nat>)
    ensures forall b :: b in r <==> (from <= b < until)
    decreases until - from
  {
    if from >= until then {} else {from} + Range(from + 1, until)
  }

  /** The blocks requested and unanswered once the window is filled. */
  function Opened(pw: PieceWork, blocks: nat, open: set<nat>): set<nat>
    requires ValidWork(pw)
  {
    open + Range(blocks, BlocksAfter(pw.length, blocks, |open|))
  }

  /** The block that a piece message is about. */
  function BlockOf(m: Option<Msg>): nat {
    if m.None? then 0
    else match ParsePiece(m.value.payload)
      case Err(_) => 0
      case Ok((_, begin, _)) => begin / BLOCK_SIZE
  }

  predicate Answers(pw: PieceWork, content: Bytes, m: Option<Msg>, pending: set<nat>)
    requires ValidWork(pw) && |content| == pw.length
  {
    BlockOf(m) in pending && BlockOf(m) < NumBlocks(pw.length) && m == Some(Answer(pw, content, BlockOf(m)))
  }

  /** What is open after a message. */
  function OpenAfter(pw: PieceWork, pending: set<nat>, m: Option<Msg>): set<nat> {
    if Noise(pw, m) then pending else pending - {BlockOf(m)}
  }

  /** Each message is noise or answers an open request, which is then closed; the peer falls silent
      only when it has answered everything. */
  ghost predicate ExactPeer(pw: PieceWork, content: Bytes, blocks: nat, open: set<nat>, inbox: Inbox)
    requires ValidWork(pw) && |content| == pw.length
    decreases |inbox|
  {
    var pending := Opened(pw, blocks, open);
    if inbox == [] then pending == {}
    else
      && (Noise(pw, inbox[0]) || Answers(pw, content, inbox[0], pending))
      && ExactPeer(pw, content, BlocksAfter(pw.length, blocks, |open|), OpenAfter(pw, pending, inbox[0]), inbox[1..])
  }

  /** How many bytes of open requests are still to come: every block is full but perhaps the last. */
  function OpenBytes(length: nat, open: set<nat>): int {
    var last := NumBlocks(length) - 1;
    BLOCK_SIZE * |open| - if last in open then (last + 1) * BLOCK_SIZE - length else 0
  }

  /** The counters agree with the requests made and answered. */
  ghost predicate Counted(length: nat, p: Progress, blocks: nat, open: set<nat>) {
    && 0 < length < UINT32_RANGE
    && blocks <= NumBlocks(length)
    && (forall b :: b in open ==> b < blocks)
    && p.requested == Frontier(length, blocks)
    && p.backlog == |open| <= MAX_BACKLOG
    && p.downloaded + OpenBytes(length, open) == p.requested
  }

  /** Every byte of an answered block is in place. */
  ghost predicate InBuffer(buf: Bytes, content: Bytes, blocks: nat, open: set<nat>) {
    && |buf| == |content|
    && forall q :: 0 <= q < |content| && q / BLOCK_SIZE < blocks && q / BLOCK_SIZE !in open ==> buf[q] == content[q]
  }

  ghost predicate Synced(pw: PieceWork, content: Bytes, p: Progress, blocks: nat, open: set<nat>) {
    && ValidWork(pw) && |content| == pw.length
    && Counted(pw.length, p, blocks, open)
    && InBuffer(p.buf, content, blocks, open)
  }

  lemma BlockBounds(length: nat, b: nat)
    requires length > 0 && b < NumBlocks(length)
    ensures BlockBegin(b) < BlockEnd(length, b) <= length
    ensures BlockEnd(length, b) == Frontier(length, b + 1)
    ensures BlockEnd(length, b) - BlockBegin(b)
         == if b == NumBlocks(length) - 1 then BLOCK_SIZE - (NumBlocks(length) * BLOCK_SIZE - length) else BLOCK_SIZE
    ensures forall q :: 0 <= q < length ==> (BlockBegin(b) <= q < BlockEnd(length, b) <==> q / BLOCK_SIZE == b)
  {
  }

  lemma {:induction false} FrontierAtEnd(length: nat, blocks: nat)
    requires length > 0 && blocks <= NumBlocks(length)
    ensures Frontier(length, blocks) == length <==> blocks == NumBlocks(length)
    ensures blocks < NumBlocks(length) ==> Frontier(length, blocks) == BlockBegin(blocks) < length
  {
  }

  function Requested(p: Progress, size: nat): Progress { p.(requested := p.requested + size, backlog := p.backlog + 1) }

  /** Asking for one more block keeps the books. */
  lemma {:induction false} CountedRequest(length: nat, p: Progress, blocks: nat, open: set<nat>)
    requires Counted(length, p, blocks, open) && p.backlog < MAX_BACKLOG && p.requested < length
    ensures blocks < NumBlocks(length)
    ensures Counted(length, Requested(p, BlockSize(length, p.requested)), blocks + 1, open + {blocks})
  {
    FrontierAtEnd(length, blocks);
    BlockBounds(length, blocks);
    assert |open + {blocks}| == |open| + 1;
  }

  lemma {:induction false} InBufferRequest(buf: Bytes, content: Bytes, blocks: nat, open: set<nat>)
    requires InBuffer(buf, content, blocks, open)
    ensures InBuffer(buf, content, blocks + 1, open + {blocks})
  {
  }

  lemma FillTurn(pw: PieceWork, p: Progress, blocks: nat, open: set<nat>)
    requires ValidWork(pw) && p.requested <= pw.length && blocks !in open && p.backlog == |open|
    requires p.requested < pw.length <==> blocks < NumBlocks(pw.length)
    ensures var more := p.backlog < MAX_BACKLOG && p.requested < pw.length;
            var next := Requested(p, if more then BlockSize(pw.length, p.requested) else 0);
            && Filled(pw, p) == (if more then Filled(pw, next) else p)
            && BlocksAfter(pw.length, blocks, |open|)
            == (if more then BlocksAfter(pw.length, blocks + 1, |open + {blocks}|) else blocks)
            && Opened(pw, blocks, open) == (if more then Opened(pw, blocks + 1, open + {blocks}) else open)
  {
    hide NumBlocks;
    assert |open + {blocks}| == |open| + 1;
  }

  lemma {:induction false} SyncedFill(pw: PieceWork, content: Bytes, p: Progress, blocks: nat, open: set<nat>)
    requires ValidWork(pw) && p.requested <= pw.length && Synced(pw, content, p, blocks, open)
    ensures Synced(pw, content, Filled(pw, p), BlocksAfter(pw.length, blocks, |open|), Opened(pw, blocks, open))
    ensures BlocksAfter(pw.length, blocks, |open|) == NumBlocks(pw.length) || Filled(pw, p).backlog >= MAX_BACKLOG
    decreases NumBlocks(pw.length) - blocks
  {
    hide Synced, ValidWork, NumBlocks, Filled, BlocksAfter, Opened, BlockSize, Requested;
    SyncedMeans(pw, content, p, blocks, open);
    FillTurn(pw, p, blocks, open);
    if p.backlog < MAX_BACKLOG && p.requested < pw.length {
      SyncedRequest(pw, content, p, blocks, open);
      SyncedFill(pw, content, Requested(p, BlockSize(pw.length, p.requested)), blocks + 1, open + {blocks});
    }
  }

  lemma SyncedRequest(pw: PieceWork, content: Bytes, p: Progress, blocks: nat, open: set<nat>)
    requires Synced(pw, content, p, blocks, open) && p.backlog < MAX_BACKLOG && p.requested < pw.length
    ensures Synced(pw, content, Requested(p, BlockSize(pw.length, p.requested)), blocks + 1, open + {blocks})
  {
    CountedRequest(pw.length, p, blocks, open);
    InBufferRequest(p.buf, content, blocks, open);
    hide Counted, InBuffer, BlockSize;
  }

  lemma SyncedMeans(pw: PieceWork, content: Bytes, p: Progress, blocks: nat, open: set<nat>)
    requires Synced(pw, content, p, blocks, open)
    ensures ValidWork(pw) && p.requested <= pw.length && blocks <= NumBlocks(pw.length)
    ensures blocks !in open && p.backlog == |open|
    ensures p.requested < pw.length <==> blocks < NumBlocks(pw.length)
  {
    CountedMeans(pw.length, p, blocks, open);
  }

  lemma CountedMeans(length: nat, p: Progress, blocks: nat, open: set<nat>)
    requires Counted(length, p, blocks, open)
    ensures blocks !in open && p.backlog == |open| && p.requested <= length && blocks <= NumBlocks(length)
    ensures p.requested < length <==> blocks < NumBlocks(length)
  {
    FrontierAtEnd(length, blocks);
  }

  /** An answer to an open request keeps the books and fills in its block. */
  lemma {:induction false} SyncedAnswer(pw: PieceWork, content: Bytes, p: Progress, blocks: nat, open: set<nat>, b: nat)
    requires Synced(pw, content, p, blocks, open) && b in open && b < NumBlocks(pw.length)
    ensures var v := Handle(pw, p, Some(Answer(pw, content, b)));
            v.Continue? && Synced(pw, content, v.p, blocks, open - {b})
  {
    BlockBounds(pw.length, b);
    var block := content[BlockBegin(b)..BlockEnd(pw.length, b)];
    PayloadsRoundTrip(pw.index, BlockBegin(b), 0, block);
    CountedAnswer(pw.length, p, blocks, open, b, CopyInto(p.buf, BlockBegin(b), block));
    InBufferAnswer(p.buf, content, blocks, open, b);
    hide Counted, InBuffer, NumBlocks, BlockEnd, CopyInto, BlockBegin, NewPiece, ParsePiece;
  }

  lemma CountedAnswer(length: nat, p: Progress, blocks: nat, open: set<nat>, b: nat, buf: Bytes)
    requires Counted(length, p, blocks, open) && b in open && b < NumBlocks(length)
    requires BlockBegin(b) <= BlockEnd(length, b)
    ensures Counted(length, Progress(buf, p.downloaded + (BlockEnd(length, b) - BlockBegin(b)), p.requested, p.backlog - 1),
                    blocks, open - {b})
  {
    BlockBounds(length, b);
    assert |open - {b}| == |open| - 1;
  }

  lemma InBufferAnswer(buf: Bytes, content: Bytes, blocks: nat, open: set<nat>, b: nat)
    requires InBuffer(buf, content, blocks, open) && content != [] && b < NumBlocks(|content|)
    requires BlockBegin(b) <= BlockEnd(|content|, b) <= |content|
    ensures InBuffer(CopyInto(buf, BlockBegin(b), content[BlockBegin(b)..BlockEnd(|content|, b)]), content, blocks, open - {b})
  {
    BlockBounds(|content|, b);
    var r := CopyInto(buf, BlockBegin(b), content[BlockBegin(b)..BlockEnd(|content|, b)]);
    forall q | 0 <= q < |content| && q / BLOCK_SIZE < blocks && q / BLOCK_SIZE !in open - {b} ensures r[q] == content[q] {
      assert BlockBegin(b) <= q < BlockEnd(|content|, b) <==> q / BLOCK_SIZE == b;
    }
  }

  lemma {:induction false} NoiseIsIgnored(pw: PieceWork, p: Progress, m: Option<Msg>)
    requires Noise(pw, m) && |p.buf| == pw.length
    ensures Handle(pw, p, m) == Continue(p)
  {
  }

  /** At every wait for a message, the backlog is the number of open requests, there is at least one,
      and there are no more than the window holds. */
  ghost predicate WaitsForSomething(pw: PieceWork, p: Progress, blocks: nat, open: set<nat>, inbox: Inbox)
    requires ValidWork(pw) && p.requested <= pw.length
    decreases |inbox|
  {
    p.downloaded < pw.length ==>
      var pending, q := Opened(pw, blocks, open), Filled(pw, p);
      && 1 <= q.backlog == |pending| <= MAX_BACKLOG
      && (inbox != [] ==>
            var v := Handle(pw, q, inbox[0]);
            v.Continue? ==> WaitsForSomething(pw, v.p, BlocksAfter(pw.length, blocks, |open|),
                                              OpenAfter(pw, pending, inbox[0]), inbox[1..]))
  }

  lemma {:induction false} OpenBytesPositive(pw: PieceWork, content: Bytes, p: Progress, blocks: nat, open: set<nat>)
    requires Synced(pw, content, p, blocks, open)
    ensures open == {} <==> p.downloaded == p.requested
    ensures p.downloaded <= p.requested <= pw.length
  {
  }

  /** Against a peer that answers every request exactly once, in whatever order and amid whatever
      noise, the loop never waits in vain and ends with exactly the piece. */
  lemma {:induction false} ExactPeerDelivers(pw: PieceWork, content: Bytes, p: Progress, blocks: nat, open: set<nat>, inbox: Inbox)
    requires Synced(pw, content, p, blocks, open) && ExactPeer(pw, content, blocks, open, inbox)
    ensures WaitsForSomething(pw, p, blocks, open, inbox)
    ensures Run(pw, p, inbox).Done? && Run(pw, p, inbox).p.buf == content
    decreases |inbox|
  {
    hide Handle, Filled, Answers, Noise, BlocksAfter, Opened, OpenBytes, NumBlocks, Frontier;
    OpenBytesPositive(pw, content, p, blocks, open);
    FrontierAtEnd(pw.length, blocks);
    if p.downloaded >= pw.length {
      AllBlocksIn(pw, content, p, blocks);
    } else {
      var after, pending, q := BlocksAfter(pw.length, blocks, |open|), Opened(pw, blocks, open), Filled(pw, p);
      SyncedFill(pw, content, p, blocks, open);
      OpenBytesPositive(pw, content, q, after, pending);
      FrontierAtEnd(pw.length, after);
      assert pending != {};
      NonEmpty(pending);
      var m := inbox[0];
      if Noise(pw, m) {
        NoiseIsIgnored(pw, q, m);
      } else {
        AnswersMeans(pw, content, m, pending);
        SyncedAnswer(pw, content, q, after, pending, BlockOf(m));
      }
      ExactPeerDelivers(pw, content, Handle(pw, q, m).p, after, OpenAfter(pw, pending, m), inbox[1..]);
    }
  }

  lemma NonEmpty(s: set<nat>)
    ensures s != {} <==> |s| >= 1
  {
  }

  lemma AnswersMeans(pw: PieceWork, content: Bytes, m: Option<Msg>, pending: set<nat>)
    requires ValidWork(pw) && |content| == pw.length && Answers(pw, content, m, pending)
    ensures BlockOf(m) in pending && BlockOf(m) < NumBlocks(pw.length) && m == Some(Answer(pw, content, BlockOf(m)))
  {
  }

  lemma AllBlocksIn(pw: PieceWork, content: Bytes, p: Progress, blocks: nat)
    requires Synced(pw, content, p, blocks, {}) && blocks == NumBlocks(pw.length)
    ensures p.buf == content
  {
  }

  lemma {:induction false} SyncedStart(pw: PieceWork, content: Bytes, buf: Bytes)
    requires ValidWork(pw) && |content| == |buf| == pw.length
    ensures Synced(pw, content, Start(buf), 0, {})
  {
  }

  // ---- How a download ends ----

  /** A block of this piece that fits into it. */
  predicate Useful(pw: PieceWork, m: Option<Msg>) {
    && m.Some? && m.value.id == MSG_PIECE && ParsePiece(m.value.payload).Ok?
    && var (idx, begin, block) := ParsePiece(m.value.payload).value;
       idx == pw.index && begin + |block| <= pw.length
  }

  /** How many bytes of useful blocks these messages carry, repeated ones counted again. */
  function Gathered(pw: PieceWork, ms: Inbox): nat {
    if ms == [] then 0
    else Gathered(pw, ms[1..]) + if Useful(pw, ms[0]) then |ParsePiece(ms[0].value.payload).value.2| else 0
  }

  ghost predicate Harmless(pw: PieceWork, ms: Inbox) {
    forall k :: 0 <= k < |ms| ==> Useful(pw, ms[k]) || Noise(pw, ms[k])
  }

  predicate IsChoke(m: Option<Msg>) { m.Some? && m.value.id == MSG_CHOKE }

  predicate IsMalformed(m: Option<Msg>) { m.Some? && m.value.id == MSG_PIECE && ParsePiece(m.value.payload).Err? }

  /** The first `k` messages are blocks and noise, and do not yet fill the piece. */
  ghost predicate Unfinished(pw: PieceWork, inbox: Inbox, k: nat) {
    k <= |inbox| && Harmless(pw, inbox[..k]) && Gathered(pw, inbox[..k]) < pw.length
  }

  lemma HandleUseful(pw: PieceWork, p: Progress, m: Option<Msg>)
    requires |p.buf| == pw.length && (Useful(pw, m) || Noise(pw, m))
    ensures var v := Handle(pw, p, m);
            v.Continue? && |v.p.buf| == pw.length && v.p.requested == p.requested
            && v.p.downloaded == p.downloaded + if Useful(pw, m) then |ParsePiece(m.value.payload).value.2| else 0
  {
    hide CopyInto, ParsePiece;
  }

  /** One message further. */
  lemma UnfinishedStep(pw: PieceWork, inbox: Inbox, k: nat)
    requires 0 < k <= |inbox| && Harmless(pw, inbox[..k])
    ensures Harmless(pw, inbox[1..][..k - 1]) && (Useful(pw, inbox[0]) || Noise(pw, inbox[0]))
    ensures Gathered(pw, inbox[..k]) == Gathered(pw, inbox[1..][..k - 1])
                                        + if Useful(pw, inbox[0]) then |ParsePiece(inbox[0].value.payload).value.2| else 0
    ensures k < |inbox| ==> inbox[1..][k - 1] == inbox[k]
  {
    hide Useful, Noise, ParsePiece;
    var ms := inbox[..k];
    assert ms[0] == inbox[0] && ms[1..] == inbox[1..][..k - 1];
    assert forall j :: 0 <= j < k - 1 ==> ms[1..][j] == ms[j + 1];
  }

  /** While blocks and noise arrive and the piece is not full, the loop goes on; a choke, a malformed piece
      message or the end of the messages then stops it, each with its own error. */
  lemma {:induction false} WhatStopsADownload(pw: PieceWork, p: Progress, inbox: Inbox, k: nat)
    requires ValidWork(pw) && p.requested <= pw.length && |p.buf| == pw.length
    requires k <= |inbox| && Harmless(pw, inbox[..k]) && p.downloaded + Gathered(pw, inbox[..k]) < pw.length
    ensures k == |inbox| ==> Run(pw, p, inbox) == Failed(RecvFailed)
    ensures k < |inbox| && IsChoke(inbox[k]) ==> Run(pw, p, inbox) == Failed(Choked)
    ensures k < |inbox| && IsMalformed(inbox[k]) ==> Run(pw, p, inbox) == Failed(BadPiece)
    decreases k
  {
    hide Fill, Useful, Noise, ParsePiece, CopyInto, Harmless, Gathered;
    if k == 0 {
      GatheredNothing(pw, inbox);
    } else {
      UnfinishedStep(pw, inbox, k);
      var q := Filled(pw, p);
      HandleUseful(pw, q, inbox[0]);
      WhatStopsADownload(pw, Handle(pw, q, inbox[0]).p, inbox[1..], k - 1);
    }
  }

  lemma GatheredNothing(pw: PieceWork, inbox: Inbox)
    ensures Gathered(pw, inbox[..0]) == 0
  {
  }

  /** Blocks and noise that fill the piece end the loop. */
  lemma {:induction false} FullPieceEnds(pw: PieceWork, p: Progress, inbox: Inbox, k: nat)
    requires ValidWork(pw) && p.requested <= pw.length && |p.buf| == pw.length
    requires k <= |inbox| && Harmless(pw, inbox[..k]) && p.downloaded + Gathered(pw, inbox[..k]) >= pw.length
    ensures Run(pw, p, inbox).Done?
    decreases k
  {
    hide Fill, Useful, Noise, ParsePiece, CopyInto, Harmless, Gathered;
    if k == 0 {
      GatheredNothing(pw, inbox);
    } else if p.downloaded < pw.length {
      UnfinishedStep(pw, inbox, k);
      var q := Filled(pw, p);
      HandleUseful(pw, q, inbox[0]);
      FullPieceEnds(pw, Handle(pw, q, inbox[0]).p, inbox[1..], k - 1);
    }
  }

  /** Every message is a block, noise, a choke or malformed, so one of the ends comes. */
  lemma FourKinds(pw: PieceWork, m: Option<Msg>)
    ensures Useful(pw, m) || Noise(pw, m) || IsChoke(m) || IsMalformed(m)
    ensures IsChoke(m) ==> !Useful(pw, m) && !Noise(pw, m) && !IsMalformed(m)
    ensures IsMalformed(m) ==> !Useful(pw, m) && !Noise(pw, m)
    ensures !(Useful(pw, m) && Noise(pw, m))
  {
    hide ParsePiece;
  }
}
