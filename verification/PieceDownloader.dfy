/** DownloadPiece as it runs: a buffer from the shared pool, the request window, the copies into the
    buffer, the hash check, and the buffer's way back or out. */
module PieceDownloader {
  import opened Prelude
  import opened Message
  import opened PeerConn
  import opened Endgame
  import opened PieceDownload
  import BufferOwnership

  /** sync.Pool: it may lose buffers at any time, and `Get` may come back with nothing. */
  class BufferPool {
    var free: set<array<byte>>

    constructor ()
      ensures free == {}
    {
      free := {};
    }

    method Get() returns (b: array?<byte>)
      modifies this
      ensures free <= old(free)
      ensures b != null ==> b in old(free) && b !in free
    {
      var kept: set<array<byte>> :| kept <= free;
      free, b := kept, null;
      if free != {} {
        if * {
          var c :| c in free;
          free, b := free - {c}, c;
        }
      }
    }

    method Put(b: array<byte>)
      modifies this
      ensures free == old(free) + {b}
    {
      free := free + {b};
    }
  }

  /** What the caller learns from the way the loop ended. */
  function Verify(o: Outcome, hash: Bytes, sha1: Bytes -> Bytes): Option<DownloadError> {
    match o
    case Failed(e) => Some(e)
    case Done(p, _) => if sha1(p.buf) == hash then None else Some(HashMismatch)
  }

  lemma {:induction false} RequestsAppend(pw: PieceWork, from: nat, r: nat)
    requires ValidWork(pw) && from <= r < pw.length && (r - from) % BLOCK_SIZE == 0
    ensures RequestsFor(pw, from, r) + [NewRequest(pw.index, r, BlockSize(pw.length, r))]
         == RequestsFor(pw, from, r + BlockSize(pw.length, r))
    decreases r - from
  {
    hide NewRequest;
    if from < r {
      assert r - from >= BLOCK_SIZE;
      RequestsAppend(pw, from + BLOCK_SIZE, r);
      assert RequestsFor(pw, from, r) == [NewRequest(pw.index, from, BLOCK_SIZE)] + RequestsFor(pw, from + BLOCK_SIZE, r);
    } else {
      assert RequestsFor(pw, r + BlockSize(pw.length, r), r + BlockSize(pw.length, r)) == [];
    }
  }

  predicate Aligned(length: nat, requested: nat) { requested == length || requested % BLOCK_SIZE == 0 }

  lemma AlignedAtStart(length: nat)
    ensures Aligned(length, 0)
  {
  }

  /** Sends requests until the window is full or everything is requested. */
  method SendRequests(conn: Conn, pw: PieceWork, from: nat, unanswered: int)
      returns (ok: bool, requested: nat, backlog: int)
    requires ValidWork(pw) && from <= pw.length && Aligned(pw.length, from)
    modifies conn`sent, conn`sendBudget
    ensures from <= requested <= pw.length && Aligned(pw.length, requested)
    ensures forall base: seq<Msg> :: old(conn.sent) == base + RequestsFor(pw, 0, from) ==>
              conn.sent == base + RequestsFor(pw, 0, requested)
    ensures ok ==> (requested, backlog) == Fill(pw.length, from, unanswered)
    ensures !ok ==> conn.sendBudget == 0
  {
    hide RequestsFor, NewRequest;
    requested, backlog := from, unanswered;
    while backlog < MAX_BACKLOG && requested < pw.length
      invariant from <= requested <= pw.length && Aligned(pw.length, requested)
      invariant forall base: seq<Msg> :: old(conn.sent) == base + RequestsFor(pw, 0, from) ==>
                  conn.sent == base + RequestsFor(pw, 0, requested)
      invariant Fill(pw.length, from, unanswered) == Fill(pw.length, requested, backlog)
      decreases pw.length - requested
    {
      var blockSize := BlockSize(pw.length, requested);
      ok := conn.SendMessage(NewRequest(pw.index, requested, blockSize));
      if !ok { return; }
      RequestsAppend(pw, 0, requested);
      requested, backlog := requested + blockSize, backlog + 1;
    }
    ok := true;
  }

  /** A buffer for the piece: a pooled one that is large enough, or a new one. */
  method TakeBuffer(pool: BufferPool, length: nat) returns (buf: array<byte>)
    modifies pool
    ensures buf.Length >= length
    ensures pool.free <= old(pool.free) && buf !in pool.free
    ensures fresh(buf) || buf in old(pool.free)
  {
    var b := pool.Get();
    if b != null && b.Length >= length {
      buf := b;
    } else {
      buf := new byte[length](_ => 0);
    }
  }

  /** The download loop on a buffer of its own. */
  method DownloadBlocks(conn: Conn, pw: PieceWork, buf: array<byte>) returns (e: Option<DownloadError>)
    requires ValidWork(pw) && buf.Length >= pw.length
    modifies conn, buf
    ensures e == Some(DownloadError.SendFailed) ==> conn.sendBudget == 0
    ensures e == None ==> Run(pw, Start(old(buf[..pw.length])), old(conn.inbox)).Done?
                          && Run(pw, Start(old(buf[..pw.length])), old(conn.inbox)).p.requested <= pw.length
                          && conn.sent == old(conn.sent)
                             + RequestsFor(pw, 0, Run(pw, Start(old(buf[..pw.length])), old(conn.inbox)).p.requested)
    ensures e != Some(DownloadError.SendFailed) ==>
              match Run(pw, Start(old(buf[..pw.length])), old(conn.inbox))
              case Failed(error) => e == Some(error)
              case Done(p, _) => e == None && buf[..pw.length] == p.buf
    ensures exists until :: 0 <= until <= pw.length && conn.sent == old(conn.sent) + RequestsFor(pw, 0, until)
  {
    hide Handle, RequestsFor, Fill, ParsePiece, CopyInto, Aligned;
    assert Aligned(pw.length, 0) by { AlignedAtStart(pw.length); }
    var downloaded, requested, backlog := 0, 0, 0;
    NoRequests(pw);
    while downloaded < pw.length
      invariant 0 <= downloaded && requested <= pw.length && Aligned(pw.length, requested)
      invariant conn.sent == old(conn.sent) + RequestsFor(pw, 0, requested)
      invariant Run(pw, Start(old(buf[..pw.length])), old(conn.inbox))
             == Run(pw, Progress(buf[..pw.length], downloaded, requested, backlog), conn.inbox)
      decreases |conn.inbox|
    {
      ghost var p := Progress(buf[..pw.length], downloaded, requested, backlog);
      var ok: bool;
      ok, requested, backlog := SendRequests(conn, pw, requested, backlog);
      if !ok { return Some(DownloadError.SendFailed); }
      ghost var q := Progress(buf[..pw.length], downloaded, requested, backlog);
      assert q == Filled(pw, p);
      var m := conn.RecvMessage();
      if m.None? { return Some(RecvFailed); }
      var msg := m.value;
      HandleCases(pw, q, msg);
      if msg.None? { continue; }
      if msg.value.id == MSG_PIECE {
        var piece := ParsePiece(msg.value.payload);
        if piece.Err? { return Some(BadPiece); }
        var (idx, begin, block) := piece.value;
        if idx != pw.index { continue; }
        if begin + |block| > pw.length { continue; }
        ghost var held := buf[..];
        CopyBytes(buf, begin, block);
        CopyIntoPrefix(held, pw.length, begin, block);
        downloaded := downloaded + |block|;
        backlog := backlog - 1;
      } else if msg.value.id == MSG_CHOKE {
        return Some(Choked);
      }
    }
    e := None;
  }

  /** What the caller learns, from the messages alone: as long as only blocks of the piece and noise have come and
      the piece is not full, a choke gives `Choked`, a malformed piece message `BadPiece`, the end of the messages
      `RecvFailed`; once the piece is full, the hash of its bytes decides. */
  ghost predicate EndsAsSaid(pw: PieceWork, inbox: Inbox, e: Option<DownloadError>, data: Bytes, sha1: Bytes -> Bytes) {
    && (forall k :: 0 <= k <= |inbox| && Unfinished(pw, inbox, k) ==>
          && (k == |inbox| ==> e == Some(RecvFailed))
          && (k < |inbox| && IsChoke(inbox[k]) ==> e == Some(Choked))
          && (k < |inbox| && IsMalformed(inbox[k]) ==> e == Some(BadPiece)))
    && (forall k :: 0 <= k <= |inbox| && Filling(pw, inbox, k) ==>
          e == if sha1(data) == pw.hash then None else Some(HashMismatch))
  }

  /** The first `k` messages are blocks and noise, and fill the piece. */
  ghost predicate Filling(pw: PieceWork, inbox: Inbox, k: nat) {
    k <= |inbox| && Harmless(pw, inbox[..k]) && Gathered(pw, inbox[..k]) >= pw.length
  }

  lemma {:induction false} RunEndsAsSaid(pw: PieceWork, initial: Bytes, inbox: Inbox, e: Option<DownloadError>,
                                         data: Bytes, sha1: Bytes -> Bytes)
    requires ValidWork(pw) && |initial| == pw.length
    requires e == match Run(pw, Start(initial), inbox)
                  case Failed(error) => Some(error)
                  case Done(p, _) => if sha1(data) == pw.hash then None else Some(HashMismatch)
    ensures EndsAsSaid(pw, inbox, e, data, sha1)
  {
    hide Run, Harmless, Gathered, IsChoke, IsMalformed;
    var p := Start(initial);
    forall k | 0 <= k <= |inbox| && Unfinished(pw, inbox, k)
      ensures && (k == |inbox| ==> e == Some(RecvFailed))
              && (k < |inbox| && IsChoke(inbox[k]) ==> e == Some(Choked))
              && (k < |inbox| && IsMalformed(inbox[k]) ==> e == Some(BadPiece))
    {
      WhatStopsADownload(pw, p, inbox, k);
    }
    forall k | 0 <= k <= |inbox| && Filling(pw, inbox, k)
      ensures e == if sha1(data) == pw.hash then None else Some(HashMismatch)
    {
      FullPieceEnds(pw, p, inbox, k);
    }
  }

  /** `initial` is what the buffer held when it was taken. The caller's data is `buf[..pw.length]`. */
  method DownloadPiece(conn: Conn, pw: PieceWork, pool: BufferPool, sha1: Bytes -> Bytes)
      returns (e: Option<DownloadError>, buf: array<byte>, ghost initial: Bytes)
    requires ValidWork(pw)
    modifies conn, pool, pool.free
    ensures |initial| == pw.length <= buf.Length
    ensures e != Some(DownloadError.SendFailed) ==> e == Verify(Run(pw, Start(initial), old(conn.inbox)), pw.hash, sha1)
    ensures e.None? ==>
              && buf[..pw.length] == Run(pw, Start(initial), old(conn.inbox)).p.buf
              && Verified(pw, buf[..pw.length], sha1)
    ensures e == Some(DownloadError.SendFailed) ==> conn.sendBudget == 0
    ensures e != Some(DownloadError.SendFailed) ==> EndsAsSaid(pw, old(conn.inbox), e, buf[..pw.length], sha1)
    ensures exists until :: 0 <= until <= pw.length && conn.sent == old(conn.sent) + RequestsFor(pw, 0, until)
    ensures fresh(buf) || buf in old(pool.free)
    ensures e.None? ==> buf !in pool.free && pool.free <= old(pool.free)
    ensures e.Some? ==> buf in pool.free && pool.free <= old(pool.free) + {buf}
    ensures forall b :: b in old(pool.free) && b != buf ==> b[..] == old(b[..])
  {
    hide Run, RequestsFor, EndsAsSaid;
    buf := TakeBuffer(pool, pw.length);
    initial := buf[..pw.length];
    e := DownloadBlocks(conn, pw, buf);
    if e.None? && sha1(buf[..pw.length]) != pw.hash { e := Some(HashMismatch); }
    if e.Some? { pool.Put(buf); }
    if e != Some(DownloadError.SendFailed) { RunEndsAsSaid(pw, initial, old(conn.inbox), e, buf[..pw.length], sha1); }
  }

  /** The pool, the buffers of the other downloads and those that were handed out, as the shared state that
      module BufferOwnership is about. */
  ghost predicate Mirrors(s: BufferOwnership.State<array<byte>>, pool: BufferPool)
    reads pool, s.memory.Keys
  {
    && BufferOwnership.Inv(s) && s.free == pool.free
    && forall b :: b in s.memory ==> s.memory[b] == b[..]
  }

  /** One call, among any others that hold buffers: its effect on the shared buffers is a run of the steps of
      module BufferOwnership, so all that is proved of those runs holds of it. */
  method DownloadOwned(conn: Conn, pw: PieceWork, pool: BufferPool, sha1: Bytes -> Bytes,
                       ghost s: BufferOwnership.State<array<byte>>, ghost call: BufferOwnership.Call)
      returns (e: Option<DownloadError>, buf: array<byte>, ghost steps: seq<BufferOwnership.Step<array<byte>>>)
    requires ValidWork(pw) && Mirrors(s, pool) && call !in s.inUse
    modifies conn, pool, pool.free
    ensures BufferOwnership.Exec(s, steps).Some? && Mirrors(BufferOwnership.Exec(s, steps).value, pool)
    ensures e.None? ==> buf in BufferOwnership.Exec(s, steps).value.delivered && pw.length <= buf.Length
                        && Verified(pw, buf[..pw.length], sha1)
    ensures e.Some? ==> BufferOwnership.Exec(s, steps).value.delivered == s.delivered
    ensures BufferOwnership.Exec(s, steps).value.inUse == s.inUse
  {
    hide Run, BufferOwnership.Exec, RequestsFor, Verify, Verified;
    ghost var initial: Bytes;
    e, buf, initial := DownloadPiece(conn, pw, pool, sha1);
    steps := BufferOwnership.CallIsARun(s, call, buf, pool.free, buf[..], e.Some?);
    BufferOwnership.RunKeeps(s, steps);
  }

  lemma NoRequests(pw: PieceWork)
    requires ValidWork(pw)
    ensures RequestsFor(pw, 0, 0) == []
  {
  }

  lemma HandleCases(pw: PieceWork, p: Progress, m: Option<Msg>)
    ensures m.None? ==> Handle(pw, p, m) == Continue(p)
    ensures m.Some? && m.value.id == MSG_PIECE ==>
              var r := ParsePiece(m.value.payload);
              && (r.Err? ==> Handle(pw, p, m) == Stop(BadPiece))
              && (r.Ok? ==>
                    var (idx, begin, block) := r.value;
                    Handle(pw, p, m)
                    == if idx != pw.index || begin + |block| > |p.buf| then Continue(p)
                       else Continue(Progress(CopyInto(p.buf, begin, block), p.downloaded + |block|, p.requested, p.backlog - 1)))
    ensures m.Some? && m.value.id == MSG_CHOKE ==> Handle(pw, p, m) == Stop(Choked)
    ensures m.Some? && m.value.id != MSG_PIECE && m.value.id != MSG_CHOKE ==> Handle(pw, p, m) == Continue(p)
  {
    hide CopyInto;
  }

  lemma CopyIntoPrefix(a: Bytes, n: nat, at: nat, src: Bytes)
    requires at + |src| <= n <= |a|
    ensures CopyInto(a, at, src)[..n] == CopyInto(a[..n], at, src)
  {
  }

  /** Against a peer that answers every request exactly once, with the published piece, the download
      succeeds and returns it, whatever the buffer held before. */
  lemma {:induction false} ExactPeerSucceeds(pw: PieceWork, content: Bytes, initial: Bytes, inbox: Inbox, sha1: Bytes -> Bytes)
    requires ValidWork(pw) && |initial| == |content| == pw.length && sha1(content) == pw.hash
    requires ExactPeer(pw, content, 0, {}, inbox)
    ensures Verify(Run(pw, Start(initial), inbox), pw.hash, sha1) == None
    ensures Run(pw, Start(initial), inbox).p.buf == content
  {
    hide ExactPeer, Run, Synced;
    SyncedStart(pw, content, initial);
    ExactPeerDelivers(pw, content, Start(initial), 0, {}, inbox);
  }
}
