/** The download can succeed: a run of one worker through normal mode and endgame, and the exact condition. */
module EngineSuccess {
  import opened Prelude
  import Message
  import opened Bitfield
  import opened Metainfo
  import opened Endgame
  import opened PieceDownload
  import opened Engine
  import opened EngineInvariants
  import opened EngineTheorems
  import opened EngineProgress
  import EngineCrash
  import Collector

  /** The bitfield of a peer that has every piece. */
  function FullBits(n: nat): Bits { seq((n + 7) / 8, _ => 255) }

  lemma AllSet(k: nat)
    requires k < 8
    ensures HasBit(255, k)
  {
  }

  lemma FullHasAll(n: nat, i: nat)
    requires i < n
    ensures Has(Some(FullBits(n)))(i)
  {
    hide HasBit;
    AllSet(7 - i % 8);
    assert i / 8 < (n + 7) / 8;
  }

  ghost predicate Verifiable(c: Config, i: nat)
    requires i < Count(c)
  {
    exists data :: Verified(WorkOf(c.info, i), data, c.sha1)
  }

  ghost predicate AllVerifiable(c: Config) { forall i: nat :: i < Count(c) ==> Verifiable(c, i) }

  /** No worker but `w` has done anything yet. */
  ghost predicate Alone(s: State, w: nat) {
    forall v :: 0 <= v < |s.workers| && v != w ==> s.workers[v] == NewWorker(s.workers[v].addr)
  }

  /** Worker `w` is at the top of its loop, unchoked by a peer that announced every piece; no other worker has done
      anything yet. */
  ghost predicate Ready(c: Config, s: State, w: nat) {
    && Reachable(c, s) && !s.crashed && s.books.pc.Receiving? && !s.signals.doneClosed && !s.signals.resultClosed
    && w < |s.workers| && s.workers[w].phase.Top? && s.workers[w].bitfield == Some(FullBits(Count(c)))
    && Alone(s, w)
  }

  /** The same with a verified result for an uncompleted piece on its way to the collector. */
  ghost predicate OnItsWay(c: Config, s: State, t: State, w: nat) {
    && Reachable(c, t) && !t.crashed && t.books.pc.Got? && !t.signals.doneClosed && !t.signals.resultClosed
    && w < |t.workers| == |s.workers| && t.workers[w].phase.Top? && t.workers[w].bitfield == s.workers[w].bitfield
    && (forall v :: 0 <= v < |s.workers| && v != w ==> t.workers[v] == s.workers[v])
    && !t.books.pc.result.failed && t.books.pc.result.index !in t.books.completed && t.books.done == s.books.done
  }

  lemma {:induction false} ReachesRun(c: Config, s: State, steps: seq<Step>)
    requires Reachable(c, s) && Exec(c, s, steps).Some?
    ensures Reachable(c, Exec(c, s, steps).value)
  {
    hide Init, Next;
    var first :| Exec(c, Init(c), first) == Some(s);
    ExecJoins(c, Init(c), first, steps);
    assert Exec(c, Init(c), first + steps) == Exec(c, s, steps);
  }

  lemma {:induction false} ChannelHasWork(c: Config, s: State, w: nat)
    requires Ready(c, s, w) && Count(c) > 0 && !s.signals.egClosed
    ensures s.chan != []
  {
    hide Reachable;
    assert forall v :: 0 <= v < |s.workers| ==> Carried(s.workers[v]) == None;
    if s.chan == [] { NotAllIdle(c, s); }
  }

  /** Taking the next piece of the channel. */
  lemma {:induction false} TakeNormal(c: Config, s: State, w: nat) returns (t: State)
    requires Ready(c, s, w) && Count(c) > 0 && !s.signals.egClosed
    ensures Reachable(c, t) && !t.crashed && w < |t.workers| && t.signals == s.signals && t.books == s.books
    ensures exists pw :: Genuine(c, pw) && t.workers == s.workers[w := s.workers[w].(misses := 0, phase := Loading(pw, Normal))]
  {
    ChannelHasWork(c, s, w);
    var pw := s.chan[0];
    assert Genuine(c, pw) by {
      hide Reachable, Genuine, BooksKept, Switched, Conserved, Capped;
      ReachableKeeps(c, s);
    }
    FullHasAll(Count(c), pw.index);
    hide Reachable, Has, FullBits, Genuine;
    t := Act(c, s, w, CheckDone);
    t := Act(c, t, w, CheckSignal);
    t := Act(c, t, w, Take);
    t := Act(c, t, w, Inspect);
    assert t.workers == s.workers[w := s.workers[w].(misses := 0, phase := Loading(pw, Normal))];
  }

  lemma {:induction false} SomethingHeld(c: Config, s: State)
    requires Reachable(c, s) && s.books.pc.Receiving? && s.books.tracker.active && Count(c) > 0
    ensures s.books.tracker.pieces != [] && GenuineAll(c, s.books.tracker.pieces)
    ensures forall pw :: pw in s.books.tracker.pieces ==> Genuine(c, pw) && pw.index !in s.books.completed
  {
    hide Reachable, Genuine, Accounts, Switched, Conserved, Capped, AllGenuine, Distinct, SizeOf;
    ReachableKeeps(c, s);
    TrackerAgrees(c, s);
    CountersAgree(c, s);
    forall pw | pw in s.books.tracker.pieces ensures Genuine(c, pw) && pw.index !in s.books.completed {
      var k :| 0 <= k < |s.books.tracker.pieces| && s.books.tracker.pieces[k] == pw;
      assert pw.index in IndexSet(s.books.tracker.pieces);
    }
  }

  /** Picking a piece of the tracker. */
  lemma {:induction false} TakeRacing(c: Config, s: State, w: nat) returns (t: State, pw: PieceWork)
    requires Ready(c, s, w) && Count(c) > 0 && s.signals.egClosed && s.books.tracker.active
    ensures Reachable(c, t) && !t.crashed && w < |t.workers| && t.signals == s.signals
    ensures t.books == s.books.(tracker := t.books.tracker)
    ensures Genuine(c, pw) && pw.index !in s.books.completed
    ensures t.workers == s.workers[w := s.workers[w].(phase := Loading(pw, Race))]
  {
    SomethingHeld(c, s);
    var held, bits := s.books.tracker.pieces, s.workers[w].bitfield;
    assert held[0] in held;
    FullHasAll(Count(c), held[0].index);
    PickIsComplete(s.books.tracker, Has(bits));
    pw := Picked(s.books.tracker, Has(bits)).1.value;
    hide Reachable, Has, FullBits, Genuine, Picked;
    t := Act(c, s, w, CheckDone);
    t := Act(c, t, w, CheckSignal);
    t := Act(c, t, w, Pick);
    assert t.workers == s.workers[w := s.workers[w].(phase := Loading(pw, Race))];
  }

  /** Downloading it and handing it over. */
  lemma {:induction false} LoadAndDeliver(c: Config, s: State, w: nat, pw: PieceWork, mode: Mode) returns (t: State)
    requires Reachable(c, s) && !s.crashed && s.books.pc.Receiving? && !s.signals.resultClosed
    requires w < |s.workers| && s.workers[w].phase == Loading(pw, mode) && Genuine(c, pw) && AllVerifiable(c)
    ensures Reachable(c, t) && !t.crashed && t.signals == s.signals
    ensures t.workers == s.workers[w := s.workers[w].(phase := Top)]
    ensures t.books.pc.Got? && t.books == s.books.(pc := t.books.pc)
    ensures t.books.pc.result.index == pw.index && !t.books.pc.result.failed
  {
    hide Reachable, Verified;
    assert Verifiable(c, pw.index);
    var data :| Verified(WorkOf(c.info, pw.index), data, c.sha1);
    t := Act(c, s, w, Load(data));
    t := Act(c, t, w, Deliver);
    assert t.workers == s.workers[w := s.workers[w].(phase := Top)];
  }

  /** One piece, from the top of the loop to the collector's hand. */
  lemma {:induction false} FetchOne(c: Config, s: State, w: nat) returns (t: State)
    requires Ready(c, s, w) && Count(c) > 0 && AllVerifiable(c)
    ensures OnItsWay(c, s, t, w)
  {
    hide Reachable, Genuine, AllVerifiable, FullBits;
    assert s.signals.egClosed == s.books.tracker.active by {
      hide AllGenuine, BooksKept, Conserved, Capped;
      ReachableKeeps(c, s);
    }
    if s.signals.egClosed {
      var u, pw := TakeRacing(c, s, w);
      t := LoadAndDeliver(c, u, w, pw, Race);
    } else {
      var u := TakeNormal(c, s, w);
      var pw :| Genuine(c, pw) && u.workers == s.workers[w := s.workers[w].(misses := 0, phase := Loading(pw, Normal))];
      t := LoadAndDeliver(c, u, w, pw, Normal);
      if t.books.pc.result.index in t.books.completed { DuplicatesOnlyInEndgame(c, t); }
    }
  }

  /** What the collector makes of a new result. */
  lemma HandledCounts(c: Config, b: Books, r: PieceResult)
    requires b.pc == Got(r) && !r.failed && r.index !in b.completed
    ensures var h := Collector.Handled(c, b, r, true);
            h.done == b.done + 1 && (h.pc.Receiving? || h.pc == Returned(Success))
  {
    hide Completed, Collector.FilledTracker;
  }

  /** One piece more, and back at the top of the loop or done. */
  lemma {:induction false} OneRound(c: Config, s: State, w: nat) returns (t: State)
    requires Ready(c, s, w) && Count(c) > 0 && AllVerifiable(c)
    ensures t.books.done == s.books.done + 1
    ensures Ready(c, t, w) || (Reachable(c, t) && !t.crashed && t.books.pc == Returned(Success) && w < |t.workers|
                               && Alone(t, w) && t.workers[w].bitfield == Some(FullBits(Count(c))))
  {
    hide Reachable, AllVerifiable, FullBits, Collector.Handled, Exec;
    var u := FetchOne(c, s, w);
    var r := u.books.pc.result;
    var steps := Collector.CollectIsARun(c, u, r, true);
    HandledCounts(c, u.books, r);
    ReachesRun(c, u, steps);
    t := Exec(c, u, steps).value;
  }

  lemma {:induction false} AllRounds(c: Config, s: State, w: nat) returns (t: State)
    requires Ready(c, s, w) && Count(c) > 0 && AllVerifiable(c) && s.books.done < Count(c)
    ensures Reachable(c, t) && !t.crashed && t.books.pc == Returned(Success) && w < |t.workers|
    ensures Alone(t, w) && t.workers[w].bitfield == Some(FullBits(Count(c)))
    decreases Count(c) - s.books.done
  {
    hide Ready, AllVerifiable, FullBits, Reachable;
    t := OneRound(c, s, w);
    if Ready(c, t, w) {
      ReadyIsUnfinished(c, t, w);
      t := AllRounds(c, t, w);
    }
  }

  lemma ReadyIsUnfinished(c: Config, s: State, w: nat)
    requires Ready(c, s, w) && Count(c) > 0
    ensures s.books.done < Count(c)
  {
    hide Reachable, AllGenuine, TrackerExact, Accounts, Switched, Conserved, Capped, ValidResult;
    ReachableKeeps(c, s);
  }

  /** One worker connects to a peer that sends a full bitfield and unchokes it. */
  lemma {:induction false} GetReady(c: Config, s: State) returns (t: State)
    requires Settling(c, s, 0) && s.workers != [] && s.books.pc.Receiving?
    ensures Ready(c, t, 0) && t.books == s.books
  {
    hide Reachable, FullBits, WorkUpTo;
    var bits := Message.Msg(Message.MSG_BITFIELD, FullBits(Count(c)));
    var unchoke := Message.Msg(Message.MSG_UNCHOKE, []);
    t := Act(c, s, 0, CheckDone);
    t := Act(c, t, 0, Dial(true));
    t := Act(c, t, 0, Hear(Some(Some(bits))));
    t := Act(c, t, 0, Hear(Some(Some(unchoke))));
  }

  /** With verifiable data for every piece, a run in which one worker, whose peer announces every piece, downloads
      them all and the download succeeds. */
  lemma {:induction false} OnePeerSuffices(c: Config) returns (t: State)
    requires Count(c) > 0 && AllVerifiable(c)
    ensures Reachable(c, t) && !t.crashed && t.books.pc == Returned(Success) && t.workers != []
    ensures Alone(t, 0) && t.workers[0].bitfield == Some(FullBits(Count(c)))
    ensures Count(c) > 1 ==> t.signals.egClosed && t.books.tracker.active
  {
    hide Reachable, Settling, AllVerifiable, FullBits, Ready;
    StartReachable(c);
    assert Settling(c, Init(c), 0) by { EngineCrash.StartIsSettling(c); }
    t := SpawnRest(c, Init(c));
    t := SomeWorkerStarts(c, t);
    t := GetReady(c, t);
    ReadyIsUnfinished(c, t, 0);
    t := AllRounds(c, t, 0);
    SuccessAfterEndgame(c, t);
  }

  /** A download of more than one piece always ends in endgame. */
  lemma {:induction false} SuccessAfterEndgame(c: Config, s: State)
    requires Reachable(c, s) && s.books.pc == Returned(Success)
    ensures Count(c) > 1 ==> s.signals.egClosed && s.books.tracker.active
  {
    hide Exec;
    var steps :| Exec(c, Init(c), steps) == Some(s);
    InitKeeps(c);
    RunPassesEndgame(c, Init(c), steps);
    hide AllGenuine, BooksKept, Conserved, Capped;
    ReachableKeeps(c, s);
  }

  /** Before the last piece is written the tracker is active. */
  ghost predicate Passed(c: Config, b: Books) {
    Count(c) > 1 && (b.pc.Closing? || b.pc == Returned(Success)) ==> b.tracker.active
  }

  lemma {:induction false} StepPasses(c: Config, s: State, step: Step)
    requires Passed(c, s.books) && Inv(c, s) && Next(c, s, step).Some?
    ensures Passed(c, Next(c, s, step).value.books)
  {
    hide AllGenuine, TrackerExact, Accounts, Switched, Conserved, Capped, ValidResult;
    match step
    case Collect(main) => CollectPasses(c, s, main);
    case Surround(_) =>
    case Work(w, act) => WorkTouchesBooks(c, s, w, act);
  }

  lemma CollectPasses(c: Config, s: State, step: CollectorStep)
    requires Passed(c, s.books) && Stops(c, s.books) && CollectNext(c, s, step).Some?
    ensures Passed(c, CollectNext(c, s, step).value.books)
  {
    hide ValidResult, Completed, Added;
  }

  lemma {:induction false} RunPassesEndgame(c: Config, s: State, steps: seq<Step>)
    requires Passed(c, s.books) && Inv(c, s) && Exec(c, s, steps).Some?
    ensures Passed(c, Exec(c, s, steps).value.books)
    decreases |steps|
  {
    hide Passed, Inv, Next;
    if steps != [] {
      StepPasses(c, s, steps[0]);
      InvStep(c, s, steps[0]);
      RunPassesEndgame(c, Next(c, s, steps[0]).value, steps[1..]);
    }
  }

  // ---- The condition ----

  ghost predicate CanSucceed(c: Config) { exists s :: Reachable(c, s) && s.books.pc == Returned(Success) }

  /** Without pieces: no worker connects, and the download ends at once. */
  lemma {:induction false} NothingToDo(c: Config) returns (t: State)
    requires Count(c) == 0
    ensures Reachable(c, t) && t.books.pc == Returned(Success)
  {
    hide Reachable, Settling, EngineCrash.Retiring;
    StartReachable(c);
    assert Settling(c, Init(c), 0) by { EngineCrash.StartIsSettling(c); }
    t := SpawnRest(c, Init(c));
    assert EngineCrash.Retiring(c, t, 0) by { EngineCrash.SettlingIsRetiring(c, t); }
    t := EngineCrash.RetireAll(c, t, 0);
    t := EndWithout(c, t);
  }

  lemma EndWithout(c: Config, s: State) returns (t: State)
    requires Count(c) == 0 && EngineCrash.Retiring(c, s, |s.workers|) && s.books.pc.Receiving?
    ensures Reachable(c, t) && t.books.pc == Returned(Success)
  {
    hide Reachable;
    t := EngineCrash.Env(c, s, WaitReturns);
    t := EngineCrash.Env(c, t, CloseResults);
    ReachesNext(c, t, Collect(NoMoreResults));
    t := Next(c, t, Collect(NoMoreResults)).value;
  }

  lemma {:induction false} SuccessNeedsData(c: Config, s: State)
    requires Reachable(c, s) && s.books.pc == Returned(Success)
    ensures AllVerifiable(c)
  {
    hide Reachable, BooksKept, Verified;
    ReachableKeeps(c, s);
    SuccessWritesAll(c, s.books);
    forall i: nat | i < Count(c) ensures Verifiable(c, i) {
      assert WrittenOnce(c, s.books.log, i);
      var k :| 0 <= k < |s.books.log| && s.books.log[k].index == i && ValidResult(c, s.books.log[k]);
      assert Verified(WorkOf(c.info, i), s.books.log[k].data, c.sha1);
    }
  }

  /** The download can succeed if and only if every piece has data of its length and hash. */
  lemma {:induction false} CanSucceedIffVerifiable(c: Config)
    ensures CanSucceed(c) <==> AllVerifiable(c)
  {
    hide Reachable, AllVerifiable;
    if CanSucceed(c) {
      var s :| Reachable(c, s) && s.books.pc == Returned(Success);
      SuccessNeedsData(c, s);
    }
    if AllVerifiable(c) {
      if Count(c) == 0 {
        var s := NothingToDo(c);
      } else {
        var s := OnePeerSuffices(c);
      }
    }
  }
}
