/** What comes next: every phase of a worker, from the signals, the channel and the events alone; the start of
    workers; and the end of the download. */
module EngineFlow {
  import opened Prelude
  import opened Message
  import opened Metainfo
  import opened Endgame
  import opened PieceDownload
  import opened Engine
  import opened EngineInvariants
  import opened EngineTheorems

  // ---- Connecting ----

  /** A worker that is about to connect, or is connecting. */
  lemma {:induction false} ConnectingGoesOn(c: Config, s: State, w: nat, act: WorkerStep)
    requires !s.crashed && w < |s.workers| && Next(c, s, Work(w, act)).Some?
    ensures var x, t := s.workers[w], Next(c, s, Work(w, act)).value;
            && |t.workers| == |s.workers|
            && (x.phase.Attempting? ==> t.workers[w] == x.(phase := if s.signals.doneClosed then Exiting else Dialing))
            && (x.phase.Dialing? && act == Dial(true) ==> t.workers[w] == x.(phase := Greeting))
            && (x.phase.Exiting? ==> t.workers[w].phase == Gone)
            && !x.phase.Gone?
  {
    hide Picked, Greeted, Heard, Resumed, LeaveSession, Verified, Ended;
  }

  /** Why a session ends. */
  predicate Ends(s: State, x: Worker, act: WorkerStep, picked: bool) {
    || (x.phase.Dialing? && act == Dial(false))
    || ((x.phase.Greeting? || x.phase.AwaitingUnchoke?) && act == Hear(None))
    || ((x.phase.Top? || x.phase.Waiting?) && s.signals.doneClosed && !act.Take? && !act.SeeSignal?)
    || (x.phase.Picking? && !picked)
    || (x.phase.Loading? && x.phase.mode.Race? && act == LoadFails(false))
    || (x.phase.Requeuing? && x.phase.next.Leave?)
    || (x.phase.Requeuing? && x.phase.next.Retry? && x.misses == 14)
  }

  /** A session ends exactly when the connection fails, the download is done, there is nothing to race for, a download
      fails without a choke, or the fifteenth piece in a row is missing; the worker then connects again unless this
      was its fourth connection. */
  lemma {:induction false} SessionsEnd(c: Config, s: State, w: nat, act: WorkerStep)
    requires !s.crashed && w < |s.workers| && Next(c, s, Work(w, act)).Some? && !Next(c, s, Work(w, act)).value.crashed
    requires s.workers[w].misses < 15
    ensures var x, t := s.workers[w], Next(c, s, Work(w, act)).value;
            && |t.workers| == |s.workers|
            && (t.workers[w].attempt != x.attempt <==> Ends(s, x, act, t.workers[w].phase.Loading?))
            && (t.workers[w].attempt != x.attempt ==>
                  t.workers[w] == Worker(x.addr, x.attempt + 1, None, 0, if x.attempt < 3 then Attempting else Exiting))
  {
    hide Picked, Verified, Ended, Has, Greeted, Heard;
    var x := s.workers[w];
    if act.Hear? && act.m.Some? { HearingStays(x, act.m.value, Count(c)); }
  }

  lemma HearingStays(x: Worker, m: Option<Msg>, numPieces: nat)
    ensures x.phase.Greeting? ==> Greeted(x, m, numPieces).attempt == x.attempt
    ensures x.phase.AwaitingUnchoke? ==> Heard(x, m).attempt == x.attempt
  {
    hide ParseHave, Bitfield.SetPiece, Bitfield.NewBitfield;
  }

  // ---- Choosing ----

  /** At the top of its loop a worker leaves when the download is done, and otherwise looks at the endgame signal: it
      races when that is closed and waits for work when it is open. */
  lemma {:induction false} SignalsDecide(c: Config, s: State, w: nat, act: WorkerStep)
    requires !s.crashed && w < |s.workers| && Next(c, s, Work(w, act)).Some?
    ensures var x, t := s.workers[w], Next(c, s, Work(w, act)).value;
            && |t.workers| == |s.workers|
            && (x.phase.Top? && !s.signals.doneClosed ==> t.workers[w] == x.(phase := AtSignal))
            && (x.phase.AtSignal? ==> t.workers[w] == x.(phase := if s.signals.egClosed then Picking else Waiting))
            && (x.phase.Waiting? ==>
                  || s.signals.doneClosed
                  || (s.signals.egClosed && t.workers[w] == x.(phase := Top) && t.chan == s.chan)
                  || (s.chan != [] && t.workers[w] == x.(phase := Taken(s.chan[0])) && t.chan == s.chan[1..]))
  {
    hide Picked, Greeted, Heard, Resumed, LeaveSession, Verified, Ended;
  }

  /** A waiting worker can go on exactly when there is work or a signal. */
  lemma {:induction false} WaitingIsForWork(c: Config, s: State, w: nat)
    requires !s.crashed && w < |s.workers| && s.workers[w].phase.Waiting?
    ensures (exists act :: Next(c, s, Work(w, act)).Some?) <==> s.chan != [] || s.signals.egClosed || s.signals.doneClosed
    ensures Next(c, s, Work(w, Take)).Some? <==> s.chan != []
    ensures Next(c, s, Work(w, SeeSignal)).Some? <==> s.signals.egClosed
    ensures Next(c, s, Work(w, SeeDone)).Some? <==> s.signals.doneClosed
  {
    hide Next;
    forall act ensures Next(c, s, Work(w, act)).Some? <==> Wakes(s, act) {
      WaitingStep(c, s, w, act);
    }
    assert Wakes(s, Take) == (s.chan != []) && Wakes(s, SeeSignal) == s.signals.egClosed;
    assert Wakes(s, SeeDone) == s.signals.doneClosed;
  }

  predicate Wakes(s: State, act: WorkerStep) {
    || (act.Take? && s.chan != [])
    || (act.SeeSignal? && s.signals.egClosed)
    || (act.SeeDone? && s.signals.doneClosed)
  }

  lemma {:induction false} WaitingStep(c: Config, s: State, w: nat, act: WorkerStep)
    requires !s.crashed && w < |s.workers| && s.workers[w].phase.Waiting?
    ensures Next(c, s, Work(w, act)).Some? <==> Wakes(s, act)
  {
    hide LeaveSession, Greeted, Heard, Picked, Verified, Ended, Resumed;
  }

  // ---- With a piece ----

  /** A download that succeeds hands over exactly its data, which must have the length and the hash of the piece; one
      that fails gives the piece back in normal mode, and then waits for an unchoke exactly when it was choked. */
  lemma {:induction false} DownloadsEnd(c: Config, s: State, w: nat, act: WorkerStep)
    requires !s.crashed && w < |s.workers| && s.workers[w].phase.Loading?
    ensures var x := s.workers[w]; var pw := x.phase.pw;
            && (Next(c, s, Work(w, act)).Some? <==>
                  || act.LoadFails?
                  || (act.Load? && |act.data| == pw.length && c.sha1(act.data) == pw.hash))
            && (Next(c, s, Work(w, act)).Some? ==>
                  var t := Next(c, s, Work(w, act)).value;
                  && |t.workers| == |s.workers| && t.chan == s.chan && t.books == s.books
                  && (act.Load? ==>
                        t.workers[w] == x.(phase := Delivering(PieceResult(pw.index, act.data, false), x.phase.mode)))
                  && (act.LoadFails? && x.phase.mode.Normal? ==>
                        t.workers[w] == x.(phase := Requeuing(pw, if act.choked then AwaitUnchoke else Leave)))
                  && (act.LoadFails? && x.phase.mode.Race? && act.choked ==> t.workers[w] == x.(phase := AwaitingUnchoke)))
  {
    hide LeaveSession;
  }

  /** A piece that is put back goes to the end of the channel; the worker then tries again with one miss more, or waits
      for an unchoke. */
  lemma {:induction false} PiecesGoBack(c: Config, s: State, w: nat)
    requires !s.crashed && w < |s.workers| && s.workers[w].phase.Requeuing?
    requires Next(c, s, Work(w, Requeue)).Some?
    ensures var x, t := s.workers[w], Next(c, s, Work(w, Requeue)).value;
            && |t.workers| == |s.workers| && t.chan == s.chan + [x.phase.pw] && t.books == s.books
            && (x.phase.next.Retry? && x.misses < 14 ==> t.workers[w] == x.(misses := x.misses + 1, phase := Top))
            && (x.phase.next.AwaitUnchoke? ==> t.workers[w] == x.(phase := AwaitingUnchoke))
  {
    hide LeaveSession;
  }

  /** A result waits until the collector receives it, exactly as it is. */
  lemma {:induction false} ResultsArrive(c: Config, s: State, w: nat)
    requires !s.crashed && w < |s.workers| && s.workers[w].phase.Delivering? && !s.signals.resultClosed
    ensures Next(c, s, Work(w, Deliver)).Some? <==> s.books.pc.Receiving?
    ensures s.books.pc.Receiving? ==>
              var x, t := s.workers[w], Next(c, s, Work(w, Deliver)).value;
              && |t.workers| == |s.workers| && t.workers[w] == x.(phase := Top)
              && t.books == s.books.(pc := Got(x.phase.result)) && !t.crashed
  {
  }

  // ---- Starting and ending ----

  /** In every run, a worker is started for an address exactly when fewer than two are alive there. */
  lemma {:induction false} StartsBelowTwo(c: Config, s: State, a: Addr)
    requires Reachable(c, s)
    ensures Started(s, a).workers == if Live(s.workers, a) < 2 then s.workers + [NewWorker(a)] else s.workers
    ensures NewWorker(a) == Worker(a, 0, None, 0, Attempting)
  {
    hide Reachable, Live;
    AtMostTwoWorkers(c, s, a);
  }

  /** The initial workers are started in order, one for each peer, before anything is received. */
  lemma {:induction false} SpawnsInOrder(c: Config, s: State, k: nat)
    requires !s.crashed && s.books.pc == Spawning(k)
    ensures Next(c, s, Collect(Spawn)).Some?
    ensures var t := Next(c, s, Collect(Spawn)).value;
            if k < |c.peers| then t.books.pc == Spawning(k + 1) && t.workers == Started(s, c.peers[k]).workers
            else t.books.pc == Receiving && t.workers == s.workers && t.signals.spawner
  {
    hide Started;
  }

  ghost predicate DoneSignalled(c: Config, s: State) {
    s.books.pc == Returned(Success) && Count(c) > 0 ==> s.signals.doneClosed
  }

  lemma {:induction false} StepSignalsDone(c: Config, s: State, step: Step)
    requires DoneSignalled(c, s) && Inv(c, s) && Next(c, s, step).Some?
    ensures DoneSignalled(c, Next(c, s, step).value)
  {
    hide AllGenuine, TrackerExact, Accounts, Switched, Conserved, Capped, ValidResult;
    match step
    case Collect(main) => CollectSignalsDone(c, s, main);
    case Surround(_) =>
    case Work(w, act) => WorkTouchesBooks(c, s, w, act);
  }

  lemma CollectSignalsDone(c: Config, s: State, step: CollectorStep)
    requires DoneSignalled(c, s) && Stops(c, s.books) && CollectNext(c, s, step).Some?
    ensures DoneSignalled(c, CollectNext(c, s, step).value)
  {
    hide ValidResult, Completed, Added;
  }

  lemma {:induction false} RunSignalsDone(c: Config, s: State, steps: seq<Step>)
    requires DoneSignalled(c, s) && Inv(c, s) && Exec(c, s, steps).Some?
    ensures DoneSignalled(c, Exec(c, s, steps).value)
    decreases |steps|
  {
    hide DoneSignalled, Inv, Next;
    if steps != [] {
      StepSignalsDone(c, s, steps[0]);
      InvStep(c, s, steps[0]);
      RunSignalsDone(c, Next(c, s, steps[0]).value, steps[1..]);
    }
  }

  /** In every run, when the download has succeeded the workers are told so. */
  lemma {:induction false} SuccessIsSignalled(c: Config, s: State)
    requires Reachable(c, s) && s.books.pc == Returned(Success) && Count(c) > 0
    ensures s.signals.doneClosed
  {
    hide Inv, Exec;
    var steps :| Exec(c, Init(c), steps) == Some(s);
    InitKeeps(c);
    RunSignalsDone(c, Init(c), steps);
  }

  // ---- The collector ----

  ghost predicate Logged(log: seq<PieceResult>, index: nat) { exists k :: 0 <= k < |log| && log[k].index == index }

  /** In every run, a result is passed over exactly when its piece has been written before, and otherwise goes to the
      writer as it is. */
  lemma {:induction false} RepeatsArePassedOver(c: Config, s: State)
    requires Reachable(c, s) && !s.crashed && s.books.pc.Got?
    ensures Next(c, s, Collect(Judge)).Some?
    ensures var r, t := s.books.pc.result, Next(c, s, Collect(Judge)).value;
            && t.books.pc == (if Logged(s.books.log, r.index) then Receiving else Writing(r))
            && t.books.log == s.books.log && t.workers == s.workers && t.chan == s.chan && t.signals == s.signals
  {
    hide Reachable, SizeOf, Once, Verified, WorkOf, Completed, TrackerExact, AllGenuine, Switched, Conserved, Capped;
    ReachableKeeps(c, s);
    assert Pending(s.books.pc) == {};
    assert Logged(s.books.log, s.books.pc.result.index) <==> s.books.pc.result.index in LogSet(s.books.log);
  }

  /** In every run, after a write the download goes to its end exactly when every piece is written, and into endgame
      exactly when for the first time at most twenty are missing; otherwise it waits for the next result. */
  lemma {:induction false} WritesLeadOn(c: Config, s: State)
    requires Reachable(c, s) && !s.crashed && s.books.pc.Writing?
    ensures Next(c, s, Collect(Write(true))).Some?
    ensures var b, t := s.books, Next(c, s, Collect(Write(true))).value;
            var missing := Count(c) - |t.books.log|;
            && t.books.log == b.log + [b.pc.result] && missing >= 0
            && (t.books.pc.Closing? <==> missing == 0)
            && (t.books.pc == Adding(0) <==> 0 < missing <= 20 && (b.log == [] || missing + 1 > 20))
            && (t.books.pc.Closing? || t.books.pc == Adding(0) || t.books.pc == Receiving)
            && t.workers == s.workers && t.chan == s.chan && t.signals == s.signals
  {
    hide Reachable, SizeOf, Once, ValidResult, LogSet, TrackerExact, AllGenuine, Switched, Conserved, Capped;
    ReachableKeeps(c, s);
  }

  /** In every run, when the results end while the collector waits for one, the download has failed, unless there
      was nothing to download. */
  lemma {:induction false} ResultsEnd(c: Config, s: State)
    requires Reachable(c, s) && !s.crashed && s.books.pc.Receiving?
    ensures Next(c, s, Collect(NoMoreResults)).Some? <==> s.signals.resultClosed
    ensures s.signals.resultClosed ==>
              Next(c, s, Collect(NoMoreResults)).value.books.pc == Returned(if Count(c) == 0 then Success else AllFailed)
  {
    hide Reachable, SizeOf, Once, ValidResult, LogSet, TrackerExact, AllGenuine, Switched, Conserved, Capped;
    ReachableKeeps(c, s);
  }

  /** The channel is drained piece by piece, and the signal is closed when it is empty and not before. */
  lemma {:induction false} DrainedThenSignalled(c: Config, s: State)
    requires Reachable(c, s) && !s.crashed && s.books.pc.Draining?
    ensures Next(c, s, Collect(Drain)).Some? && !s.signals.egClosed
    ensures var t := Next(c, s, Collect(Drain)).value;
            && t.workers == s.workers && t.books.tracker == s.books.tracker && t.books.log == s.books.log
            && (s.chan == [] ==> t.signals.egClosed && t.chan == [] && t.books.pc == Receiving)
            && (s.chan != [] ==> !t.signals.egClosed && s.chan == [s.chan[0]] + t.chan && t.books.pc == Draining)
  {
    hide Reachable, AllGenuine, BooksKept, Conserved, Capped;
    ReachableKeeps(c, s);
  }

  // ---- Late peers ----

  ghost predicate Serves(s: State) { s.signals.spawner || s.signals.doneClosed || s.books.pc.Spawning? }

  lemma {:induction false} StepServes(c: Config, s: State, step: Step)
    requires Serves(s) && Next(c, s, step).Some?
    ensures Serves(Next(c, s, step).value)
  {
    hide Judged, Written, AddTurn, Picked, Greeted, Heard, Resumed, LeaveSession, Verified, Ended, Has;
    match step
    case Collect(main) => CollectServes(c, s, main);
    case Surround(_) =>
    case Work(w, act) => WorkTouchesBooks(c, s, w, act);
  }

  lemma CollectServes(c: Config, s: State, step: CollectorStep)
    requires Serves(s) && CollectNext(c, s, step).Some?
    ensures Serves(CollectNext(c, s, step).value)
  {
    hide Completed, Added;
  }

  lemma {:induction false} RunServes(c: Config, s: State, steps: seq<Step>)
    requires Serves(s) && Exec(c, s, steps).Some?
    ensures Serves(Exec(c, s, steps).value)
    decreases |steps|
  {
    hide Serves, Next;
    if steps != [] {
      StepServes(c, s, steps[0]);
      RunServes(c, Next(c, s, steps[0]).value, steps[1..]);
    }
  }

  /** In every run, from the last initial worker to the end of the download a newly found peer gets its workers. */
  lemma {:induction false} NewPeersAreServed(c: Config, s: State, a: Addr)
    requires Reachable(c, s) && !s.crashed && !s.books.pc.Spawning? && !s.signals.doneClosed
    ensures Next(c, s, Surround(Discover(a))) == Some(Started(s, a))
  {
    hide Exec, Started;
    var steps :| Exec(c, Init(c), steps) == Some(s);
    RunServes(c, Init(c), steps);
  }
}
