/** What a worker of the engine knows of its peer, in every run: the messages of the session at hand are
    followed along the run, and the bitfield says exactly what they announced. */
module PeerKnowledge {
  import opened Prelude
  import opened Message
  import opened Bitfield
  import opened PeerConn
  import opened Endgame
  import opened Engine
  import opened PeerSession

  /** The messages of a session: those before the first unchoke, and those while waiting to be unchoked
      again. What arrives while a piece is downloaded is not looked at. */
  datatype Session = Session(greeting: Inbox, waited: Inbox)

  /** What a step adds to the session of worker `w`; a new connection begins a new one. */
  function Listen(s: State, step: Step, w: nat, h: Session): Session {
    if !step.Work? || step.w != w || w >= |s.workers| then h
    else
      var p := s.workers[w].phase;
      match step.act
      case Dial(true) => if p.Dialing? then Session([], []) else h
      case Hear(Some(m)) =>
        if p.Greeting? then h.(greeting := h.greeting + [m])
        else if p.AwaitingUnchoke? then h.(waited := h.waited + [m])
        else h
      case _ => h
  }

  /** The session of worker `w` at the end of a run. */
  function SessionAfter(c: Config, s: State, steps: seq<Step>, w: nat, h: Session): Session
    decreases |steps|
  {
    if steps == [] then h
    else match Next(c, s, steps[0])
      case None => h
      case Some(t) => SessionAfter(c, t, steps[1..], w, Listen(s, steps[0], w, h))
  }

  ghost predicate NothingSaid(ms: Inbox) { forall k :: 0 <= k < |ms| ==> !IsBitfield(ms[k]) && !IsHave(ms[k]) }

  ghost predicate Said(h: Session, i: nat) { Announced(h.greeting, i) || SaidHave(h.waited, i) }

  /** The bitfield has exactly the pieces that the session announced and that it reaches; there is none
      exactly when the greeting announced nothing. */
  ghost predicate Informed(bitfield: Option<Bits>, h: Session, numPieces: nat) {
    && (bitfield.None? <==> NothingSaid(h.greeting))
    && (bitfield.Some? ==>
          && |bitfield.value| == BytesAfter(h.greeting, numPieces)
          && forall i: nat :: HasPiece(bitfield.value, i) <==> Said(h, i) && i / 8 < |bitfield.value|)
  }

  predicate InSession(p: Phase) { !p.Attempting? && !p.Dialing? && !p.Exiting? && !p.Gone? }

  ghost predicate WorkerInformed(x: Worker, h: Session, numPieces: nat) {
    && (InSession(x.phase) ==> Informed(x.bitfield, h, numPieces))
    && (x.phase.Attempting? || x.phase.Dialing? ==> x.bitfield.None?)
    && (x.phase.Greeting? ==> h.waited == [])
  }

  // ---- Messages ----

  lemma NewSession(numPieces: nat)
    ensures Informed(None, Session([], []), numPieces)
  {
  }

  lemma AnnouncedNext(ms: Inbox, m: Option<Msg>, i: nat)
    ensures Announced(ms + [m], i) <==>
            if IsBitfield(m) then HasPiece(m.value.payload, i)
            else (IsHave(m) && ParseHave(m.value.payload).value == i) || Announced(ms, i)
  {
    hide HasPiece, ParseHave;
    assert (ms + [m])[..|ms|] == ms;
  }

  lemma BytesNext(ms: Inbox, m: Option<Msg>, numPieces: nat)
    ensures BytesAfter(ms + [m], numPieces) == if IsBitfield(m) then |m.value.payload| else BytesAfter(ms, numPieces)
    ensures NothingSaid(ms + [m]) <==> NothingSaid(ms) && !IsBitfield(m) && !IsHave(m)
  {
    hide IsHave, IsBitfield;
    var all := ms + [m];
    assert all[..|ms|] == ms && all[|ms|] == m;
    assert forall k :: 0 <= k < |ms| ==> all[k] == ms[k];
  }

  /** The bitfield after one message of the greeting, the unchoke included. */
  lemma GreetingInforms(x: Worker, m: Option<Msg>, h: Session, numPieces: nat)
    requires x.phase.Greeting? && Informed(x.bitfield, h, numPieces) && h.waited == []
    ensures Informed(Greeted(x, m, numPieces).bitfield, h.(greeting := h.greeting + [m]), numPieces)
  {
    hide HasPiece, Greeted, Announced, BytesAfter, IsHave, IsBitfield, IsUnchoke, NothingSaid;
    BytesNext(h.greeting, m, numPieces);
    var y, next := Greeted(x, m, numPieces), h.(greeting := h.greeting + [m]);
    if IsUnchoke(m) {
      UnchokeSaysNothing(x, m, numPieces);
      forall i: nat ensures Said(next, i) <==> Said(h, i) { AnnouncedNext(h.greeting, m, i); }
    } else {
      GreetedKnows(x, m, numPieces, 0);
      if y.bitfield.Some? {
        if x.bitfield.None? { SilentGreeting(h.greeting, numPieces); }
        forall i: nat ensures HasPiece(y.bitfield.value, i) <==> Said(next, i) && i / 8 < |y.bitfield.value| {
          GreetedKnows(x, m, numPieces, i);
          AnnouncedNext(h.greeting, m, i);
          PresentIsInReach(y.bitfield.value, i);
          if x.bitfield.None? { SilentAnnounces(h.greeting, i); }
        }
      }
    }
  }

  lemma UnchokeSaysNothing(x: Worker, m: Option<Msg>, numPieces: nat)
    requires IsUnchoke(m)
    ensures !IsBitfield(m) && !IsHave(m) && Greeted(x, m, numPieces).bitfield == x.bitfield
  {
    hide ParseHave, SetPiece, NewBitfield;
  }

  lemma SilentGreeting(ms: Inbox, numPieces: nat)
    requires NothingSaid(ms)
    ensures BytesAfter(ms, numPieces) == (numPieces + 7) / 8
  {
    hide BytesAfter, IsHave, IsBitfield;
    BytesWithoutBitfield(ms, numPieces);
  }

  lemma SilentAnnounces(ms: Inbox, i: nat)
    requires NothingSaid(ms)
    ensures !Announced(ms, i)
  {
    hide Announced, IsHave, IsBitfield;
    NothingAnnounced(ms, i);
  }

  lemma SaidNext(ms: Inbox, m: Option<Msg>, i: nat)
    ensures SaidHave(ms + [m], i) <==> SaidHave(ms, i) || (IsHave(m) && ParseHave(m.value.payload).value == i)
  {
    hide ParseHave;
    var all := ms + [m];
    assert all[|ms|] == m;
    assert forall k :: 0 <= k < |ms| ==> all[k] == ms[k];
    if SaidHave(ms, i) {
      var k :| 0 <= k < |ms| && IsHave(ms[k]) && ParseHave(ms[k].value.payload).value == i;
      assert IsHave(all[k]);
    }
  }

  /** The bitfield after one message while waiting for an unchoke. */
  lemma WaitingInforms(x: Worker, m: Option<Msg>, h: Session, numPieces: nat)
    requires x.phase.AwaitingUnchoke? && Informed(x.bitfield, h, numPieces)
    ensures Informed(Heard(x, m).bitfield, h.(waited := h.waited + [m]), numPieces)
  {
    hide HasPiece, Heard, Announced, BytesAfter, IsHave, SaidHave, NothingSaid;
    HeardLearns(x, m, 0);
    var y, next := Heard(x, m), h.(waited := h.waited + [m]);
    if y.bitfield.Some? {
      forall i: nat ensures HasPiece(y.bitfield.value, i) <==> Said(next, i) && i / 8 < |y.bitfield.value| {
        HeardLearns(x, m, i);
        SaidNext(h.waited, m, i);
      }
    }
  }

  // ---- Steps ----

  lemma LeavingIsQuiet(x: Worker)
    ensures !InSession(LeaveSession(x).phase) && LeaveSession(x).bitfield.None? && !LeaveSession(x).phase.Greeting?
    ensures forall next :: Resumed(x, next) == LeaveSession(x)
                           || (Resumed(x, next).bitfield == x.bitfield && InSession(Resumed(x, next).phase)
                               && !Resumed(x, next).phase.Greeting?)
  {
  }

  lemma HearingKeepsSession(x: Worker, m: Option<Msg>, numPieces: nat)
    ensures x.phase.Greeting? ==> Greeted(x, m, numPieces).phase.Greeting? || Greeted(x, m, numPieces).phase.Top?
    ensures x.phase.AwaitingUnchoke? ==> Heard(x, m).phase.AwaitingUnchoke? || Heard(x, m).phase.Top?
  {
    hide ParseHave, SetPiece, NewBitfield;
  }

  lemma {:induction false} HearKeepsInformed(c: Config, s: State, w: nat, m: Option<Option<Msg>>, h: Session)
    requires w < |s.workers| && WorkerInformed(s.workers[w], h, Count(c)) && WorkNext(c, s, w, Hear(m)).Some?
    ensures var t := WorkNext(c, s, w, Hear(m)).value;
            |t.workers| == |s.workers|
            && WorkerInformed(t.workers[w], Listen(s, Work(w, Hear(m)), w, h), Count(c))
  {
    hide Informed, Greeted, Heard, LeaveSession;
    var x := s.workers[w];
    LeavingIsQuiet(x);
    if m.Some? {
      HearingKeepsSession(x, m.value, Count(c));
      if x.phase.Greeting? { GreetingInforms(x, m.value, h, Count(c)); }
      if x.phase.AwaitingUnchoke? { WaitingInforms(x, m.value, h, Count(c)); }
    }
  }

  lemma {:induction false} ActKeepsInformed(c: Config, s: State, w: nat, step: WorkerStep, h: Session)
    requires w < |s.workers| && WorkerInformed(s.workers[w], h, Count(c)) && WorkNext(c, s, w, step).Some? && !step.Hear?
    ensures var t := WorkNext(c, s, w, step).value;
            |t.workers| == |s.workers| && WorkerInformed(t.workers[w], Listen(s, Work(w, step), w, h), Count(c))
  {
    hide Informed, LeaveSession, Resumed, Picked, PieceDownload.Verified, Ended, Has;
    LeavingIsQuiet(s.workers[w]);
    NewSession(Count(c));
  }

  /** The worker that is followed, if it has been started yet. */
  ghost predicate Follows(c: Config, s: State, w: nat, h: Session) {
    w < |s.workers| ==> WorkerInformed(s.workers[w], h, Count(c))
  }

  lemma {:induction false} OthersKeep(c: Config, s: State, step: Step, w: nat)
    requires Next(c, s, step).Some? && !(step.Work? && step.w == w)
    ensures var t := Next(c, s, step).value;
            && |t.workers| >= |s.workers|
            && (w < |s.workers| ==> t.workers[w] == s.workers[w])
            && (|s.workers| <= w < |t.workers| ==> t.workers[w] == NewWorker(t.workers[w].addr))
  {
    hide Judged, Written, AddTurn, Greeted, Heard, Resumed, LeaveSession, Picked, PieceDownload.Verified, Ended, Has;
  }

  lemma {:induction false} StepKeepsFollows(c: Config, s: State, step: Step, w: nat, h: Session)
    requires Follows(c, s, w, h) && Next(c, s, step).Some?
    ensures Follows(c, Next(c, s, step).value, w, Listen(s, step, w, h))
  {
    if step.Work? && step.w == w {
      hide Informed, WorkNext;
      if step.act.Hear? { HearKeepsInformed(c, s, w, step.act.m, h); } else { ActKeepsInformed(c, s, w, step.act, h); }
    } else {
      hide Informed, Next;
      OthersKeep(c, s, step, w);
    }
  }

  lemma {:induction false} RunKeepsFollows(c: Config, s: State, steps: seq<Step>, w: nat, h: Session)
    requires Follows(c, s, w, h) && Exec(c, s, steps).Some?
    ensures Follows(c, Exec(c, s, steps).value, w, SessionAfter(c, s, steps, w, h))
    decreases |steps|
  {
    hide Follows, Next, Listen;
    if steps != [] {
      StepKeepsFollows(c, s, steps[0], w, h);
      RunKeepsFollows(c, Next(c, s, steps[0]).value, steps[1..], w, Listen(s, steps[0], w, h));
    }
  }

  /** In every run, at every moment of a session, a worker's bitfield says exactly what its peer announced in
      this session, as far as the bitfield reaches. */
  lemma {:induction false} WorkersKnowWhatWasSaid(c: Config, steps: seq<Step>, w: nat)
    requires Exec(c, Init(c), steps).Some? && w < |Exec(c, Init(c), steps).value.workers|
    requires InSession(Exec(c, Init(c), steps).value.workers[w].phase)
    ensures Informed(Exec(c, Init(c), steps).value.workers[w].bitfield,
                     SessionAfter(c, Init(c), steps, w, Session([], [])), Count(c))
  {
    assert Follows(c, Init(c), w, Session([], []));
    hide Exec, SessionAfter, Informed, Init;
    RunKeepsFollows(c, Init(c), steps, w, Session([], []));
  }

  /** In every run, a piece that a worker downloads, in normal mode or in the race, was announced by its peer in
      this session, unless the peer announced nothing at all before it unchoked the worker. */
  lemma {:induction false} LoadsOnlyWhatWasSaid(c: Config, steps: seq<Step>, w: nat)
    requires Exec(c, Init(c), steps).Some? && w < |Exec(c, Init(c), steps).value.workers|
    requires Exec(c, Init(c), steps).value.workers[w].phase.Loading?
    ensures var h := SessionAfter(c, Init(c), steps, w, Session([], []));
            Said(h, Exec(c, Init(c), steps).value.workers[w].phase.pw.index) || NothingSaid(h.greeting)
  {
    var s := Exec(c, Init(c), steps).value;
    assert Exec(c, Init(c), steps) == Some(s);
    hide Exec, SessionAfter, HasPiece, Init, Said, NothingSaid;
    WorkersKnowWhatWasSaid(c, steps, w);
    WorkersKeepTheirLimits(c, s, w);
  }

  // ---- What a worker does with a piece ----

  /** The peer has the piece as far as the session tells: it announced nothing, or announced this piece, and the
      bitfield reaches it. */
  ghost predicate Offers(h: Session, numPieces: nat, i: nat) {
    NothingSaid(h.greeting) || (Said(h, i) && i / 8 < BytesAfter(h.greeting, numPieces))
  }

  lemma {:induction false} InformedOffers(bitfield: Option<Bits>, h: Session, numPieces: nat, i: nat)
    requires Informed(bitfield, h, numPieces)
    ensures Has(bitfield)(i) <==> Offers(h, numPieces, i)
  {
    hide HasPiece, Said, NothingSaid, BytesAfter;
  }

  /** In every run, a worker that took a piece from the channel downloads it if and only if its peer offers it, and
      otherwise puts it back and tries another; there is always one of the two to do, and nothing else. */
  lemma {:induction false} TakesWhatIsOffered(c: Config, steps: seq<Step>, w: nat)
    requires Exec(c, Init(c), steps).Some? && !Exec(c, Init(c), steps).value.crashed
    requires w < |Exec(c, Init(c), steps).value.workers| && Exec(c, Init(c), steps).value.workers[w].phase.Taken?
    ensures var s, h := Exec(c, Init(c), steps).value, SessionAfter(c, Init(c), steps, w, Session([], []));
            var x := s.workers[w];
            && (exists act :: Next(c, s, Work(w, act)).Some?)
            && forall act :: Next(c, s, Work(w, act)).Some? ==>
                 var t := Next(c, s, Work(w, act)).value;
                 && |t.workers| == |s.workers| && t.chan == s.chan && t.books == s.books
                 && (Offers(h, Count(c), x.phase.pw.index) ==>
                       t.workers[w].phase == Loading(x.phase.pw, Normal) && t.workers[w].misses == 0)
                 && (!Offers(h, Count(c), x.phase.pw.index) ==>
                       t.workers[w].phase == Requeuing(x.phase.pw, Retry) && t.workers[w].misses == x.misses)
  {
    var s := Exec(c, Init(c), steps).value;
    var h := SessionAfter(c, Init(c), steps, w, Session([], []));
    hide Exec, SessionAfter, Informed, Init, Offers, Has;
    WorkersKnowWhatWasSaid(c, steps, w);
    var x := s.workers[w];
    InformedOffers(x.bitfield, h, Count(c), x.phase.pw.index);
    TakenStep(c, s, w);
  }

  lemma TakenStep(c: Config, s: State, w: nat)
    requires !s.crashed && w < |s.workers| && s.workers[w].phase.Taken?
    ensures exists act :: Next(c, s, Work(w, act)).Some?
    ensures forall act :: Next(c, s, Work(w, act)).Some? ==>
              var x, t := s.workers[w], Next(c, s, Work(w, act)).value;
              && |t.workers| == |s.workers| && t.chan == s.chan && t.books == s.books
              && (Has(x.bitfield)(x.phase.pw.index) ==>
                    t.workers[w].phase == Loading(x.phase.pw, Normal) && t.workers[w].misses == 0)
              && (!Has(x.bitfield)(x.phase.pw.index) ==>
                    t.workers[w].phase == Requeuing(x.phase.pw, Retry) && t.workers[w].misses == x.misses)
  {
    hide Has, Picked, Greeted, Heard, Resumed, LeaveSession, PieceDownload.Verified, Ended;
    assert Next(c, s, Work(w, Inspect)).Some?;
  }

  /** In every run, a worker that looks for a piece to race for comes to download a held piece that its peer offers
      if there is any, and gives up the session otherwise. */
  lemma {:induction false} RacesForWhatIsOffered(c: Config, steps: seq<Step>, w: nat)
    requires Exec(c, Init(c), steps).Some? && !Exec(c, Init(c), steps).value.crashed
    requires w < |Exec(c, Init(c), steps).value.workers| && Exec(c, Init(c), steps).value.workers[w].phase.Picking?
    ensures var s, h := Exec(c, Init(c), steps).value, SessionAfter(c, Init(c), steps, w, Session([], []));
            var x, held := s.workers[w], s.books.tracker.pieces;
            && (exists act :: Next(c, s, Work(w, act)).Some?)
            && forall act :: Next(c, s, Work(w, act)).Some? ==>
                 var t := Next(c, s, Work(w, act)).value;
                 && |t.workers| == |s.workers| && t.books.tracker.pieces == held
                 && ((exists k :: 0 <= k < |held| && Offers(h, Count(c), held[k].index)) ==>
                       && t.workers[w].phase.Loading? && t.workers[w].phase.mode == Race
                       && t.workers[w].phase.pw in held && Offers(h, Count(c), t.workers[w].phase.pw.index))
                 && ((forall k :: 0 <= k < |held| ==> !Offers(h, Count(c), held[k].index)) ==>
                       t.workers[w].attempt == x.attempt + 1 && t.workers[w].bitfield == None)
  {
    var s := Exec(c, Init(c), steps).value;
    var h := SessionAfter(c, Init(c), steps, w, Session([], []));
    hide Exec, SessionAfter, Informed, Init, Offers, Has;
    WorkersKnowWhatWasSaid(c, steps, w);
    var x := s.workers[w];
    forall i: nat ensures Has(x.bitfield)(i) <==> Offers(h, Count(c), i) { InformedOffers(x.bitfield, h, Count(c), i); }
    var held := s.books.tracker.pieces;
    assert forall k :: 0 <= k < |held| ==> (Has(x.bitfield)(held[k].index) <==> Offers(h, Count(c), held[k].index));
    PickingStep(c, s, w);
    forall act | Next(c, s, Work(w, act)).Some?
      ensures var t := Next(c, s, Work(w, act)).value;
              && |t.workers| == |s.workers| && t.books.tracker.pieces == held
              && ((exists k :: 0 <= k < |held| && Offers(h, Count(c), held[k].index)) ==>
                    && t.workers[w].phase.Loading? && t.workers[w].phase.mode == Race
                    && t.workers[w].phase.pw in held && Offers(h, Count(c), t.workers[w].phase.pw.index))
              && ((forall k :: 0 <= k < |held| ==> !Offers(h, Count(c), held[k].index)) ==>
                    t.workers[w].attempt == x.attempt + 1 && t.workers[w].bitfield == None)
    {
      hide Next;
      var t := Next(c, s, Work(w, act)).value;
      if k :| 0 <= k < |held| && Offers(h, Count(c), held[k].index) {
        assert Has(x.bitfield)(held[k].index);
        assert Has(x.bitfield)(t.workers[w].phase.pw.index);
      }
    }
  }

  lemma PickingStep(c: Config, s: State, w: nat)
    requires !s.crashed && w < |s.workers| && s.workers[w].phase.Picking?
    ensures exists act :: Next(c, s, Work(w, act)).Some?
    ensures forall act :: Next(c, s, Work(w, act)).Some? ==>
              var x, held, t := s.workers[w], s.books.tracker.pieces, Next(c, s, Work(w, act)).value;
              && |t.workers| == |s.workers| && t.books.tracker.pieces == held
              && ((exists k :: 0 <= k < |held| && Has(x.bitfield)(held[k].index)) ==>
                    && t.workers[w].phase.Loading? && t.workers[w].phase.mode == Race
                    && t.workers[w].phase.pw in held && Has(x.bitfield)(t.workers[w].phase.pw.index))
              && ((forall k :: 0 <= k < |held| ==> !Has(x.bitfield)(held[k].index)) ==>
                    t.workers[w].attempt == x.attempt + 1 && t.workers[w].bitfield == None)
  {
    hide Has, Picked, Greeted, Heard, Resumed, PieceDownload.Verified, Ended;
    var x, held := s.workers[w], s.books.tracker.pieces;
    PickIsComplete(s.books.tracker, Has(x.bitfield));
    var r := Picked(s.books.tracker, Has(x.bitfield)).1;
    assert Next(c, s, Work(w, Pick)).Some?;
    assert (exists k :: 0 <= k < |held| && Has(x.bitfield)(held[k].index)) ==> r.Some?;
    assert r.Some? ==> Has(x.bitfield)(r.value.index);
    OnlyPick(c, s, w);
    var t := Next(c, s, Work(w, Pick)).value;
    assert r.Some? ==> t.workers[w].phase == Loading(r.value, Race);
    assert r.None? ==> t.workers[w] == LeaveSession(x);
  }

  lemma OnlyPick(c: Config, s: State, w: nat)
    requires !s.crashed && w < |s.workers| && s.workers[w].phase.Picking?
    ensures forall act :: Next(c, s, Work(w, act)).Some? ==> act == Pick
  {
    hide Has, Picked, Greeted, Heard, Resumed, LeaveSession, PieceDownload.Verified, Ended;
  }
}
