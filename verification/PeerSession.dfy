/** A session with one peer: learning what the peer has, waiting to be unchoked, and the limits that
    every worker respects in every run. */
module PeerSession {
  import opened Prelude
  import opened Message
  import opened Bitfield
  import opened PeerConn
  import opened Endgame
  import opened Engine

  // ---- The first messages ----

  /** The messages up to the first unchoke; None when the connection ends before. */
  function GreetRun(x: Worker, inbox: Inbox, numPieces: nat): Option<(Worker, Inbox)>
    decreases |inbox|
  {
    if x.phase.Top? then Some((x, inbox))
    else if inbox == [] then None
    else GreetRun(Greeted(x, inbox[0], numPieces), inbox[1..], numPieces)
  }

  /** The worker that the loop's variables stand for. */
  function GreetingWorker(bitfield: Option<Bits>, choked: bool): Worker {
    Worker([], 0, bitfield, 0, if choked then Greeting else Top)
  }

  // ---- What the worker knows of its peer ----

  predicate IsUnchoke(m: Option<Msg>) { m.Some? && m.value.id == MSG_UNCHOKE }

  predicate IsBitfield(m: Option<Msg>) { m.Some? && m.value.id == MSG_BITFIELD }

  predicate IsHave(m: Option<Msg>) { m.Some? && m.value.id == MSG_HAVE && ParseHave(m.value.payload).Ok? }

  /** The peer said that it has piece `i`, and sent no new bitfield since. */
  predicate Announced(ms: Inbox, i: nat) {
    ms != [] &&
    var last := ms[|ms| - 1];
    if IsBitfield(last) then HasPiece(last.value.payload, i)
    else (IsHave(last) && ParseHave(last.value.payload).value == i) || Announced(ms[..|ms| - 1], i)
  }

  /** How many bytes the bitfield has after these messages: those of the last bitfield that was sent, or
      those that the torrent needs. */
  function BytesAfter(ms: Inbox, numPieces: nat): nat {
    if ms == [] then (numPieces + 7) / 8
    else if IsBitfield(ms[|ms| - 1]) then |ms[|ms| - 1].value.payload|
    else BytesAfter(ms[..|ms| - 1], numPieces)
  }

  predicate BeforeUnchoke(ms: Inbox) { forall k :: 0 <= k < |ms| ==> !IsUnchoke(ms[k]) }

  /** The bitfield says of a piece that the peer has it exactly when the peer announced it and the bitfield
      reaches it; there is none exactly when nothing was announced. */
  ghost predicate Knows(bitfield: Option<Bits>, ms: Inbox, numPieces: nat) {
    && (bitfield.None? <==> forall k :: 0 <= k < |ms| ==> !IsBitfield(ms[k]) && !IsHave(ms[k]))
    && (bitfield.Some? ==>
          && |bitfield.value| == BytesAfter(ms, numPieces)
          && forall i: nat :: HasPiece(bitfield.value, i) <==> Announced(ms, i) && i / 8 < |bitfield.value|)
  }

  /** The worker after these messages, none of which is the unchoke. */
  function AfterAll(x: Worker, ms: Inbox, numPieces: nat): Worker {
    if ms == [] then x else Greeted(AfterAll(x, ms[..|ms| - 1], numPieces), ms[|ms| - 1], numPieces)
  }

  lemma GreetedKnows(x: Worker, m: Option<Msg>, numPieces: nat, i: nat)
    requires x.phase.Greeting? && !IsUnchoke(m)
    ensures var y := Greeted(x, m, numPieces);
            && y.phase.Greeting? && (y.bitfield.None? <==> x.bitfield.None? && !IsBitfield(m) && !IsHave(m))
            && (y.bitfield.Some? ==>
                  && |y.bitfield.value| == (if IsBitfield(m) then |m.value.payload|
                                            else if x.bitfield.Some? then |x.bitfield.value| else (numPieces + 7) / 8)
                  && (HasPiece(y.bitfield.value, i) <==>
                        if IsBitfield(m) then HasPiece(m.value.payload, i)
                        else (IsHave(m) && ParseHave(m.value.payload).value == i && i / 8 < |y.bitfield.value|)
                             || (x.bitfield.Some? && HasPiece(x.bitfield.value, i))))
  {
    hide HasPiece, SetPiece, ParseHave;
    if IsHave(m) {
      var j := ParseHave(m.value.payload).value;
      var bf := if x.bitfield.Some? then x.bitfield.value else NewBitfield(numPieces);
      assert !HasPiece(NewBitfield(numPieces), i) by { FreshHasNone(numPieces, i); }
      SetPieceEffect(bf, j, i);
    }
  }

  lemma PresentIsInReach(bf: Bits, i: nat)
    ensures HasPiece(bf, i) ==> i / 8 < |bf|
  {
  }

  lemma {:induction false} NothingAnnounced(ms: Inbox, i: nat)
    requires forall k :: 0 <= k < |ms| ==> !IsBitfield(ms[k]) && !IsHave(ms[k])
    ensures !Announced(ms, i)
  {
    hide HasPiece, IsHave, IsBitfield;
    if ms != [] { NothingAnnounced(ms[..|ms| - 1], i); }
  }

  /** Without a bitfield message the bitfield is as long as the torrent needs. */
  lemma {:induction false} BytesWithoutBitfield(ms: Inbox, numPieces: nat)
    requires forall k :: 0 <= k < |ms| ==> !IsBitfield(ms[k])
    ensures BytesAfter(ms, numPieces) == (numPieces + 7) / 8
  {
    if ms != [] { BytesWithoutBitfield(ms[..|ms| - 1], numPieces); }
  }

  /** Whatever the peer sends before it unchokes, the worker knows of exactly the announced pieces that its
      bitfield reaches, and has no bitfield, and then asks for anything, exactly when nothing was announced. */
  lemma {:induction false} KnowsWhatWasAnnounced(ms: Inbox, numPieces: nat)
    requires BeforeUnchoke(ms)
    ensures var y := AfterAll(GreetingWorker(None, true), ms, numPieces);
            y.phase.Greeting? && Knows(y.bitfield, ms, numPieces)
  {
    hide HasPiece, Greeted, IsHave, IsBitfield, IsUnchoke;
    if ms != [] {
      var front, last := ms[..|ms| - 1], ms[|ms| - 1];
      KnowsWhatWasAnnounced(front, numPieces);
      var x := AfterAll(GreetingWorker(None, true), front, numPieces);
      assert forall k :: 0 <= k < |front| ==> front[k] == ms[k];
      GreetedKnows(x, last, numPieces, 0);
      var y := Greeted(x, last, numPieces);
      if y.bitfield.Some? {
        if x.bitfield.None? { BytesWithoutBitfield(front, numPieces); }
        forall i: nat ensures HasPiece(y.bitfield.value, i) <==> Announced(ms, i) && i / 8 < |y.bitfield.value| {
          GreetedKnows(x, last, numPieces, i);
          PresentIsInReach(y.bitfield.value, i);
          if x.bitfield.None? { NothingAnnounced(front, i); }
        }
      }
    }
  }

  /** A bitfield that is as long as the torrent needs reaches every piece, so nothing announced is missed. */
  lemma {:induction false} FullBitfieldMissesNothing(bitfield: Bits, ms: Inbox, numPieces: nat, i: nat)
    requires Knows(Some(bitfield), ms, numPieces) && BytesAfter(ms, numPieces) >= (numPieces + 7) / 8 && i < numPieces
    ensures HasPiece(bitfield, i) <==> Announced(ms, i)
  {
    hide HasPiece, Announced, BytesAfter, IsHave, IsBitfield;
    assert i / 8 < (numPieces + 7) / 8;
  }

  /** A bitfield that is too short makes the worker miss a piece that the peer announces later: of nine
      pieces the last, after a bitfield of one byte. */
  lemma {:induction false} ShortBitfieldMissesAPiece() returns (ms: Inbox)
    ensures BeforeUnchoke(ms) && Announced(ms, 8)
    ensures var y := AfterAll(GreetingWorker(None, true), ms, 9); y.bitfield.Some? && !HasPiece(y.bitfield.value, 8)
  {
    var bits, have := Some(Msg(MSG_BITFIELD, [0])), Some(NewHave(8));
    ms := [bits, have];
    hide PutUint32, Uint32;
    PayloadsRoundTrip(8, 0, 0, []);
    assert ms[..1] == [bits] && [bits][..0] == [];
    assert AfterAll(GreetingWorker(None, true), [bits], 9).bitfield == Some([0]);
  }

  /** The messages up to the first unchoke are read, and the bitfield says what they announced. */
  ghost predicate GreetingMeans(inbox: Inbox, numPieces: nat, bitfield: Option<Bits>, rest: Inbox) {
    exists k :: 0 <= k < |inbox| && IsUnchoke(inbox[k]) && BeforeUnchoke(inbox[..k]) && rest == inbox[k + 1..]
                && Knows(bitfield, inbox[..k], numPieces)
  }

  /** Where the first unchoke is. */
  function FirstUnchoke(inbox: Inbox): (r: Option<nat>)
    ensures r.Some? ==> r.value < |inbox| && IsUnchoke(inbox[r.value]) && BeforeUnchoke(inbox[..r.value])
    ensures r.None? ==> BeforeUnchoke(inbox)
  {
    if inbox == [] then None
    else if IsUnchoke(inbox[0]) then Some(0)
    else match FirstUnchoke(inbox[1..])
      case None =>
        assert forall k :: 1 <= k < |inbox| ==> inbox[k] == inbox[1..][k - 1];
        None
      case Some(k) =>
        assert inbox[..k + 1] == [inbox[0]] + inbox[1..][..k];
        Some(k + 1)
  }

  /** The run up to the unchoke passes through the state after each message. */
  lemma {:induction false} GreetRunPasses(x: Worker, ms: Inbox, rest: Inbox, numPieces: nat)
    requires x.phase.Greeting? && BeforeUnchoke(ms)
    ensures AfterAll(x, ms, numPieces).phase.Greeting?
    ensures GreetRun(x, ms + rest, numPieces) == GreetRun(AfterAll(x, ms, numPieces), rest, numPieces)
    decreases |ms|
  {
    hide ParseHave, SetPiece, NewBitfield;
    if ms == [] {
      assert ms + rest == rest;
    } else {
      var front, last := ms[..|ms| - 1], ms[|ms| - 1];
      assert ms + rest == front + ([last] + rest);
      GreetRunPasses(x, front, [last] + rest, numPieces);
      assert ([last] + rest)[1..] == rest;
      assert !IsUnchoke(last);
    }
  }

  /** The greeting ends at the first unchoke, if there is one, with a bitfield that says exactly what was
      announced before it. */
  lemma {:induction false} GreetingEnds(inbox: Inbox, numPieces: nat)
    ensures var r := GreetRun(GreetingWorker(None, true), inbox, numPieces);
            && (r.Some? <==> exists k :: 0 <= k < |inbox| && IsUnchoke(inbox[k]))
            && (r.Some? ==> GreetingMeans(inbox, numPieces, r.value.0.bitfield, r.value.1))
  {
    hide ParseHave, SetPiece, NewBitfield, Knows;
    var x := GreetingWorker(None, true);
    match FirstUnchoke(inbox)
    case None =>
      GreetRunPasses(x, inbox, [], numPieces);
      assert inbox + [] == inbox;
    case Some(k) =>
      var ms, rest := inbox[..k], inbox[k..];
      assert inbox == ms + rest && rest[0] == inbox[k] && rest[1..] == inbox[k + 1..];
      GreetRunPasses(x, ms, rest, numPieces);
      KnowsWhatWasAnnounced(ms, numPieces);
      UnchokeEnds(AfterAll(x, ms, numPieces), rest, numPieces);
  }

  lemma UnchokeEnds(x: Worker, rest: Inbox, numPieces: nat)
    requires x.phase.Greeting? && rest != [] && IsUnchoke(rest[0])
    ensures GreetRun(x, rest, numPieces) == Some((x.(phase := Top), rest[1..]))
  {
    hide ParseHave, SetPiece, NewBitfield;
    assert Greeted(x, rest[0], numPieces) == x.(phase := Top);
  }

  method ReadInitialMessages(conn: Conn, numPieces: nat) returns (ok: bool, bitfield: Option<Bits>)
    modifies conn`inbox, conn`sent, conn`sendBudget
    ensures ok <==> old(conn.sendBudget) > 0 && GreetRun(GreetingWorker(None, true), old(conn.inbox), numPieces).Some?
    ensures ok ==>
              var (x, rest) := GreetRun(GreetingWorker(None, true), old(conn.inbox), numPieces).value;
              bitfield == x.bitfield && conn.inbox == rest
    ensures ok <==> old(conn.sendBudget) > 0 && exists k :: 0 <= k < |old(conn.inbox)| && IsUnchoke(old(conn.inbox)[k])
    ensures ok ==> GreetingMeans(old(conn.inbox), numPieces, bitfield, conn.inbox)
    ensures ok ==> conn.sent == old(conn.sent) + [Msg(MSG_INTERESTED, [])]
  {
    GreetingEnds(conn.inbox, numPieces);
    hide GreetingMeans, IsUnchoke, ParseHave, SetPiece, NewBitfield;
    bitfield := None;
    var choked := true;
    ok := conn.SendMessage(Msg(MSG_INTERESTED, []));
    if !ok { return; }
    while choked
      invariant GreetRun(GreetingWorker(None, true), old(conn.inbox), numPieces)
             == GreetRun(GreetingWorker(bitfield, choked), conn.inbox, numPieces)
      invariant conn.sent == old(conn.sent) + [Msg(MSG_INTERESTED, [])]
      decreases choked, |conn.inbox|
    {
      var m := conn.RecvMessage();
      if m.None? { return false, bitfield; }
      var msg := m.value;
      if msg.None? { continue; }
      if msg.value.id == MSG_BITFIELD {
        bitfield := Some(msg.value.payload);
      } else if msg.value.id == MSG_UNCHOKE {
        choked := false;
      } else if msg.value.id == MSG_HAVE {
        var idx := ParseHave(msg.value.payload);
        if idx.Ok? {
          if bitfield.None? { bitfield := Some(NewBitfield(numPieces)); }
          bitfield := Some(SetPiece(bitfield.value, idx.value));
        }
      }
    }
  }

  function UnchokeRun(x: Worker, inbox: Inbox): Option<(Worker, Inbox)>
    decreases |inbox|
  {
    if x.phase.Top? then Some((x, inbox))
    else if inbox == [] then None
    else UnchokeRun(Heard(x, inbox[0]), inbox[1..])
  }

  function ChokedWorker(bitfield: Option<Bits>): Worker { Worker([], 0, bitfield, 0, AwaitingUnchoke) }

  /** The peer said that it has piece `i`. */
  ghost predicate SaidHave(ms: Inbox, i: nat) {
    exists k :: 0 <= k < |ms| && IsHave(ms[k]) && ParseHave(ms[k].value.payload).value == i
  }

  /** A known bitfield gains exactly the pieces of the Have messages that it reaches; an unknown one stays
      unknown. */
  ghost predicate Learned(before: Option<Bits>, after: Option<Bits>, ms: Inbox) {
    && (before.None? <==> after.None?)
    && (before.Some? ==>
          && |after.value| == |before.value|
          && forall i: nat :: HasPiece(after.value, i) <==>
               HasPiece(before.value, i) || (SaidHave(ms, i) && i / 8 < |before.value|))
  }

  lemma LearnedNothing(bitfield: Option<Bits>)
    ensures Learned(bitfield, bitfield, [])
  {
  }

  lemma SaidLater(ms: Inbox, m: Option<Msg>, i: nat)
    ensures SaidHave([m] + ms, i) <==> SaidHave(ms, i) || (IsHave(m) && ParseHave(m.value.payload).value == i)
  {
    hide ParseHave;
    var all := [m] + ms;
    assert forall k :: 0 <= k < |ms| ==> all[k + 1] == ms[k];
    assert all[0] == m;
    if SaidHave(ms, i) {
      var k :| 0 <= k < |ms| && IsHave(ms[k]) && ParseHave(ms[k].value.payload).value == i;
      assert IsHave(all[k + 1]);
    }
  }

  /** What one message adds. */
  lemma HeardLearns(x: Worker, m: Option<Msg>, i: nat)
    requires x.phase.AwaitingUnchoke?
    ensures var y := Heard(x, m);
            && (x.bitfield.None? <==> y.bitfield.None?)
            && (x.bitfield.Some? ==>
                  && |y.bitfield.value| == |x.bitfield.value|
                  && (HasPiece(y.bitfield.value, i) <==>
                        HasPiece(x.bitfield.value, i)
                        || (IsHave(m) && ParseHave(m.value.payload).value == i && i / 8 < |x.bitfield.value|)))
  {
    hide HasPiece, SetPiece, ParseHave;
    if x.bitfield.Some? && IsHave(m) { SetPieceEffect(x.bitfield.value, ParseHave(m.value.payload).value, i); }
  }

  lemma {:induction false} LearnedFirst(x: Worker, m: Option<Msg>, after: Option<Bits>, ms: Inbox)
    requires x.phase.AwaitingUnchoke? && Learned(Heard(x, m).bitfield, after, ms)
    ensures Learned(x.bitfield, after, [m] + ms)
  {
    hide HasPiece, Heard, SaidHave, IsHave;
    HeardLearns(x, m, 0);
    if x.bitfield.Some? {
      forall i: nat
        ensures HasPiece(after.value, i) <==>
                HasPiece(x.bitfield.value, i) || (SaidHave([m] + ms, i) && i / 8 < |x.bitfield.value|)
      {
        HeardLearns(x, m, i);
        SaidLater(ms, m, i);
      }
    }
  }

  /** Waiting for an unchoke: what is read is a beginning of what arrives, and adds exactly its Have messages
      to a known bitfield. */
  lemma {:induction false} WaitingLearnsHaves(x: Worker, inbox: Inbox)
    requires UnchokeRun(x, inbox).Some? && (x.phase.AwaitingUnchoke? || x.phase.Top?)
    ensures var (y, rest) := UnchokeRun(x, inbox).value;
            && |rest| <= |inbox| && rest == inbox[|inbox| - |rest|..]
            && Learned(x.bitfield, y.bitfield, inbox[..|inbox| - |rest|])
    decreases |inbox|
  {
    hide Heard, Learned;
    var (y, rest) := UnchokeRun(x, inbox).value;
    if x.phase.Top? {
      LearnedNothing(x.bitfield);
      assert inbox[..0] == [];
    } else {
      HeardStays(x, inbox[0]);
      WaitingLearnsHaves(Heard(x, inbox[0]), inbox[1..]);
      var n := |inbox| - |rest|;
      assert inbox[1..][..n - 1] == inbox[1..n] && [inbox[0]] + inbox[1..n] == inbox[..n];
      LearnedFirst(x, inbox[0], y.bitfield, inbox[1..n]);
    }
  }

  lemma HeardStays(x: Worker, m: Option<Msg>)
    requires x.phase.AwaitingUnchoke?
    ensures Heard(x, m).phase.AwaitingUnchoke? || Heard(x, m).phase.Top?
  {
  }

  lemma FirstIsFirst(inbox: Inbox)
    ensures FirstUnchoke(inbox).Some? <==> exists k :: 0 <= k < |inbox| && IsUnchoke(inbox[k])
    ensures FirstUnchoke(inbox).Some? ==>
              var k := FirstUnchoke(inbox).value; k < |inbox| && IsUnchoke(inbox[k]) && BeforeUnchoke(inbox[..k])
  {
  }

  /** Waiting ends at the first unchoke, if there is one, whatever comes before it. */
  lemma {:induction false} WaitingEnds(x: Worker, inbox: Inbox)
    requires x.phase.AwaitingUnchoke?
    ensures var k := FirstUnchoke(inbox);
            && (k.None? ==> UnchokeRun(x, inbox).None?)
            && (k.Some? ==> UnchokeRun(x, inbox).Some? && UnchokeRun(x, inbox).value.1 == inbox[k.value + 1..])
    decreases |inbox|
  {
    hide ParseHave, SetPiece;
    if inbox != [] {
      if IsUnchoke(inbox[0]) {
        assert Heard(x, inbox[0]).phase.Top?;
      } else {
        assert Heard(x, inbox[0]).phase.AwaitingUnchoke?;
        WaitingEnds(Heard(x, inbox[0]), inbox[1..]);
        if FirstUnchoke(inbox).Some? {
          var k := FirstUnchoke(inbox).value;
          assert inbox[1..][k..] == inbox[k + 1..];
        }
      }
    }
  }

  method WaitForUnchoke(conn: Conn, known: Option<Bits>) returns (ok: bool, bitfield: Option<Bits>)
    modifies conn`inbox
    ensures ok <==> exists k :: 0 <= k < |old(conn.inbox)| && IsUnchoke(old(conn.inbox)[k])
    ensures ok ==> exists k :: 0 <= k < |old(conn.inbox)| && IsUnchoke(old(conn.inbox)[k])
                               && BeforeUnchoke(old(conn.inbox)[..k]) && conn.inbox == old(conn.inbox)[k + 1..]
    ensures ok <==> UnchokeRun(ChokedWorker(known), old(conn.inbox)).Some?
    ensures ok ==>
              var (x, rest) := UnchokeRun(ChokedWorker(known), old(conn.inbox)).value;
              bitfield == x.bitfield && conn.inbox == rest
    ensures ok ==>
              && |conn.inbox| <= |old(conn.inbox)|
              && Learned(known, bitfield, old(conn.inbox)[..|old(conn.inbox)| - |conn.inbox|])
  {
    WaitingEnds(ChokedWorker(known), conn.inbox);
    FirstIsFirst(conn.inbox);
    if UnchokeRun(ChokedWorker(known), conn.inbox).Some? { WaitingLearnsHaves(ChokedWorker(known), conn.inbox); }
    hide ParseHave, SetPiece, Learned, FirstUnchoke, IsUnchoke, BeforeUnchoke;
    bitfield := known;
    while true
      invariant UnchokeRun(ChokedWorker(known), old(conn.inbox)) == UnchokeRun(ChokedWorker(bitfield), conn.inbox)
      decreases |conn.inbox|
    {
      var m := conn.RecvMessage();
      if m.None? { return false, bitfield; }
      var msg := m.value;
      if msg.None? { continue; }
      if msg.value.id == MSG_UNCHOKE {
        return true, bitfield;
      } else if msg.value.id == MSG_HAVE {
        var idx := ParseHave(msg.value.payload);
        if idx.Ok? && bitfield.Some? { bitfield := Some(SetPiece(bitfield.value, idx.value)); }
      }
    }
  }

  // ---- Limits ----

  /** At most four connections, fewer than fifteen misses in a row, and only pieces that the peer has, as
      far as the worker knows. */
  ghost predicate Sound(x: Worker) {
    && (x.attempt <= MAX_RECONNECTS || (x.attempt == MAX_RECONNECTS + 1 && (x.phase.Exiting? || x.phase.Gone?)))
    && x.misses < MAX_MISSES
    && (x.phase.Loading? ==> Has(x.bitfield)(x.phase.pw.index))
  }

  ghost predicate AllSound(workers: seq<Worker>) { forall w :: 0 <= w < |workers| ==> Sound(workers[w]) }

  lemma HearingIsSound(x: Worker, m: Option<Msg>, numPieces: nat)
    requires Sound(x)
    ensures x.phase.Greeting? ==> Sound(Greeted(x, m, numPieces))
    ensures x.phase.AwaitingUnchoke? ==> Sound(Heard(x, m))
  {
    hide HasPiece, SetPiece, NewBitfield, ParseHave;
  }

  lemma LeavingIsSound(x: Worker)
    requires Sound(x) && !x.phase.Exiting? && !x.phase.Gone?
    ensures Sound(LeaveSession(x)) && forall next :: Sound(Resumed(x, next))
  {
    hide HasPiece;
  }

  lemma PickingIsSound(x: Worker, t: Tracker)
    requires Sound(x) && x.phase.Picking?
    ensures var r := Picked(t, Has(x.bitfield)).1; r.Some? ==> Sound(x.(phase := Loading(r.value, Race)))
  {
    hide HasPiece, Picked;
    PickIsComplete(t, Has(x.bitfield));
  }

  lemma {:induction false} WorkerStaysSound(c: Config, s: State, w: nat, step: WorkerStep)
    requires w < |s.workers| && Sound(s.workers[w]) && WorkNext(c, s, w, step).Some?
    ensures var t := WorkNext(c, s, w, step).value;
            |t.workers| == |s.workers| && t.workers == s.workers[w := t.workers[w]] && Sound(t.workers[w])
  {
    hide HasPiece, Greeted, Heard, LeaveSession, Resumed, Picked, PieceDownload.Verified, Ended;
    var x := s.workers[w];
    if step.Hear? && step.m.Some? { HearingIsSound(x, step.m.value, Count(c)); }
    if step.Pick? && x.phase.Picking? { PickingIsSound(x, s.books.tracker); }
    if !x.phase.Exiting? && !x.phase.Gone? { LeavingIsSound(x); }
  }

  lemma {:induction false} WorkKeepsSound(c: Config, s: State, w: nat, step: WorkerStep)
    requires w < |s.workers| && AllSound(s.workers) && WorkNext(c, s, w, step).Some?
    ensures AllSound(WorkNext(c, s, w, step).value.workers)
  {
    hide Sound, WorkNext;
    WorkerStaysSound(c, s, w, step);
  }

  lemma {:induction false} StepKeepsSound(c: Config, s: State, step: Step)
    requires AllSound(s.workers) && Next(c, s, step).Some?
    ensures AllSound(Next(c, s, step).value.workers)
  {
    hide Sound, WorkNext, Judged, Written, AddTurn;
    if step.Work? { WorkKeepsSound(c, s, step.w, step.act); }
    assert forall a :: Sound(NewWorker(a)) by { NewIsSound(); }
  }

  lemma NewIsSound()
    ensures forall a :: Sound(NewWorker(a))
  {
  }

  lemma {:induction false} RunKeepsSound(c: Config, s: State, steps: seq<Step>)
    requires AllSound(s.workers) && Exec(c, s, steps).Some?
    ensures AllSound(Exec(c, s, steps).value.workers)
    decreases |steps|
  {
    hide AllSound, Next;
    if steps != [] {
      StepKeepsSound(c, s, steps[0]);
      RunKeepsSound(c, Next(c, s, steps[0]).value, steps[1..]);
    }
  }

  /** In every run every worker keeps its limits, and downloads only what its peer has. */
  lemma {:induction false} WorkersKeepTheirLimits(c: Config, s: State, w: nat)
    requires Reachable(c, s) && w < |s.workers|
    ensures var x := s.workers[w];
            && x.attempt <= MAX_RECONNECTS + 1 && (x.phase.Dialing? ==> x.attempt <= MAX_RECONNECTS)
            && x.misses < MAX_MISSES
            && (x.phase.Loading? ==> Has(x.bitfield)(x.phase.pw.index))
  {
    hide Exec, HasPiece;
    var steps :| Exec(c, Init(c), steps) == Some(s);
    RunKeepsSound(c, Init(c), steps);
  }
}
