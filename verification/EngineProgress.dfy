/** When the download can always go on: exactly when the torrent has at least one piece. */
module EngineProgress {
  import opened Prelude
  import Message
  import opened Metainfo
  import opened Endgame
  import opened PieceDownload
  import opened Engine
  import opened EngineInvariants
  import opened EngineTheorems

  /** The collector has returned, or the program was stopped by a send on the closed result channel; when that
      can happen is the subject of module EngineCrash. */
  ghost predicate Over(s: State) { s.crashed || s.books.pc.Returned? }

  /** Some step is enabled other than the discovery of one more peer. */
  ghost predicate CanStep(c: Config, s: State) {
    exists step: Step :: !(step.Surround? && step.env.Discover?) && Next(c, s, step).Some?
  }

  ghost predicate NeverStuck(c: Config) { forall s :: Reachable(c, s) && !Over(s) ==> CanStep(c, s) }

  /** A worker that has nothing to do but wait: for work, for the end, or for the signal. */
  predicate Idle(s: State, x: Worker) {
    x.phase.Waiting? && s.chan == [] && !s.signals.doneClosed && !s.signals.egClosed
  }

  /** What a worker can do next while the collector receives. */
  function Turn(s: State, x: Worker): WorkerStep {
    match x.phase
    case Attempting => CheckDone
    case Dialing => Dial(false)
    case Greeting => Hear(None)
    case Top => CheckDone
    case AtSignal => CheckSignal
    case Waiting => if s.signals.doneClosed then SeeDone else if s.signals.egClosed then SeeSignal else Take
    case Picking => Pick
    case Taken(_) => Inspect
    case Loading(_, _) => LoadFails(false)
    case Requeuing(_, _) => Requeue
    case AwaitingUnchoke => Hear(None)
    case Delivering(_, _) => Deliver
    case Exiting => Exit
    case Gone => Exit
  }

  lemma {:induction false} WorkerCanStep(c: Config, s: State, w: nat)
    requires Reachable(c, s) && !s.crashed && s.books.pc.Receiving?
    requires w < |s.workers| && !s.workers[w].phase.Gone? && !Idle(s, s.workers[w])
    ensures Next(c, s, Work(w, Turn(s, s.workers[w]))).Some?
  {
    hide Reachable, Picked, LeaveSession, Resumed, Ended, Holding;
    if s.workers[w].phase.Requeuing? { RequeueNeverBlocks(c, s, w); }
  }

  lemma CollectorCanStep(c: Config, s: State) returns (step: CollectorStep)
    requires !s.crashed && !s.books.pc.Returned? && !s.books.pc.Receiving?
    ensures Next(c, s, Collect(step)).Some?
  {
    hide Judged, Written, AddTurn, Started;
    step := match s.books.pc
      case Spawning(_) => Spawn
      case Got(_) => Judge
      case Writing(_) => Write(true)
      case Adding(_) => Add
      case Draining => Drain
      case _ => Close;
  }

  lemma {:induction false} NothingCarried(workers: seq<Worker>, i: nat)
    requires forall w :: 0 <= w < |workers| ==> Carried(workers[w]) == None
    ensures Carriers(workers, i) == 0
  {
    hide Carried;
    if workers != [] {
      assert forall w :: 0 <= w < |workers| - 1 ==> workers[1..][w] == workers[w + 1];
      NothingCarried(workers[1..], i);
    }
  }

  lemma AllCounted(completed: set<nat>, n: nat)
    requires completed <= Below(n) && forall i: nat :: i < n ==> i in completed
    ensures |completed| == n
  {
    assert completed == Below(n);
  }

  lemma {:induction false} NotAllIdle(c: Config, s: State)
    requires Reachable(c, s) && s.books.pc.Receiving? && Count(c) > 0
    requires s.chan == [] && !s.signals.egClosed
    ensures exists w :: 0 <= w < |s.workers| && Carried(s.workers[w]).Some?
  {
    hide Reachable, TrackerExact, AllGenuine, Carriers, Carried, Capped, Once, SizeOf, ValidResult;
    ReachableKeeps(c, s);
    CountersAgree(c, s);
    if forall w :: 0 <= w < |s.workers| ==> Carried(s.workers[w]) == None {
      forall i: nat | i < Count(c) ensures i in s.books.completed {
        NothingCarried(s.workers, i);
        assert Copies(s, i) == 0;
      }
      AllCounted(s.books.completed, Count(c));
    }
  }

  /** With at least one piece, some step is always enabled until the collector returns: no interleaving
      of failures, requeues, chokes and the switch to endgame leads into a deadlock. */
  lemma {:induction false} AlwaysAStep(c: Config, s: State)
    requires Count(c) > 0 && Reachable(c, s) && !Over(s)
    ensures CanStep(c, s)
  {
    hide Reachable, CollectNext, WorkNext, EnvNext, Carried, Turn;
    if !s.books.pc.Receiving? {
      var step := CollectorCanStep(c, s);
      assert Next(c, s, Collect(step)).Some?;
    } else if w :| 0 <= w < |s.workers| && !s.workers[w].phase.Gone? && !Idle(s, s.workers[w]) {
      WorkerCanStep(c, s, w);
    } else if AllGone(s.workers) {
      EndCanStep(c, s);
    } else {
      var w :| 0 <= w < |s.workers| && !s.workers[w].phase.Gone?;
      assert Idle(s, s.workers[w]);
      NotAllIdle(c, s);
      var v :| 0 <= v < |s.workers| && Carried(s.workers[v]).Some?;
      CarryingIsBusy(s, s.workers[v]);
    }
  }

  lemma CarryingIsBusy(s: State, x: Worker)
    requires Carried(x).Some?
    ensures !x.phase.Gone? && !Idle(s, x)
  {
  }

  /** When all workers are gone the result channel is closed and the collector sees it. */
  lemma EndCanStep(c: Config, s: State)
    requires !s.crashed && s.books.pc.Receiving? && AllGone(s.workers)
    ensures CanStep(c, s)
  {
    hide AllGone;
    if s.signals.resultClosed {
      assert Next(c, s, Collect(NoMoreResults)).Some?;
    } else if s.signals.waited {
      assert Next(c, s, Surround(CloseResults)).Some?;
    } else {
      assert Next(c, s, Surround(WaitReturns)).Some?;
    }
  }

  // ---- Without a piece the workers wait forever ----

  lemma {:induction false} ExecJoins(c: Config, s: State, a: seq<Step>, b: seq<Step>)
    requires Exec(c, s, a).Some?
    ensures Exec(c, s, a + b) == Exec(c, Exec(c, s, a).value, b)
    decreases |a|
  {
    hide Next;
    if a == [] {
      assert a + b == b;
    } else {
      assert (a + b)[1..] == a[1..] + b && (a + b)[0] == a[0];
      ExecJoins(c, Next(c, s, a[0]).value, a[1..], b);
    }
  }

  lemma {:induction false} ReachesNext(c: Config, s: State, step: Step)
    requires Reachable(c, s) && Next(c, s, step).Some?
    ensures Reachable(c, Next(c, s, step).value)
  {
    hide Next, Init;
    var steps :| Exec(c, Init(c), steps) == Some(s);
    ExecJoins(c, Init(c), steps, [step]);
    assert Exec(c, s, [step]) == Exec(c, Next(c, s, step).value, []);
    assert Exec(c, Init(c), steps + [step]) == Some(Next(c, s, step).value);
  }

  /** Nothing has happened but the start of workers, of which the first `settled` wait for work. */
  ghost predicate Settling(c: Config, s: State, settled: nat) {
    && Reachable(c, s) && !s.crashed && settled <= |s.workers| && s.chan == WorkUpTo(c.info, Count(c))
    && !s.signals.doneClosed && !s.signals.egClosed && !s.signals.waited && !s.signals.resultClosed
    && (forall w :: 0 <= w < settled ==> s.workers[w].phase.Waiting?)
    && (forall w :: settled <= w < |s.workers| ==> s.workers[w] == NewWorker(s.workers[w].addr))
  }

  /** A new worker that connects and is unchoked at once. */
  lemma {:induction false} SettleOne(c: Config, s: State, w: nat) returns (t: State)
    requires Settling(c, s, w) && w < |s.workers|
    ensures Settling(c, t, w + 1) && |t.workers| == |s.workers| && t.books == s.books && t.signals == s.signals
  {
    hide Reachable;
    var unchoke := Message.Msg(Message.MSG_UNCHOKE, []);
    t := Act(c, s, w, CheckDone);
    t := Act(c, t, w, Dial(true));
    t := Act(c, t, w, Hear(Some(Some(unchoke))));
    t := Act(c, t, w, CheckDone);
    t := Act(c, t, w, CheckSignal);
  }

  lemma Act(c: Config, s: State, w: nat, act: WorkerStep) returns (t: State)
    requires Reachable(c, s) && !s.crashed && w < |s.workers| && WorkNext(c, s, w, act).Some?
    ensures t == WorkNext(c, s, w, act).value && Reachable(c, t)
  {
    hide Reachable, WorkNext;
    ReachesNext(c, s, Work(w, act));
    t := WorkNext(c, s, w, act).value;
  }

  lemma {:induction false} SettleAll(c: Config, s: State, w: nat) returns (t: State)
    requires Settling(c, s, w) && s.books.pc.Receiving?
    ensures Settling(c, t, |t.workers|) && |t.workers| == |s.workers| && t.books.pc.Receiving?
    decreases |s.workers| - w
  {
    hide Settling;
    if w == |s.workers| {
      t := s;
    } else {
      assert w < |s.workers| by { SettledBound(c, s, w); }
      var u := SettleOne(c, s, w);
      t := SettleAll(c, u, w + 1);
    }
  }

  lemma SettledBound(c: Config, s: State, w: nat)
    requires Settling(c, s, w)
    ensures w <= |s.workers|
  {
  }

  lemma {:induction false} StartSettles(c: Config, s: State, a: Addr)
    requires Settling(c, s, 0)
    ensures Started(s, a).workers == s.workers
            || Started(s, a).workers == s.workers + [NewWorker(a)]
  {
  }

  lemma {:induction false} SpawnRest(c: Config, s: State) returns (t: State)
    requires Settling(c, s, 0) && s.books.pc.Spawning? && s.books.pc.k <= |c.peers| && (s.workers == [] ==> s.active == map[])
    ensures Settling(c, t, 0) && t.books.pc.Receiving? && t.signals.spawner && (t.workers == [] ==> t.active == map[])
    decreases |c.peers| - s.books.pc.k
  {
    hide Reachable;
    ReachesNext(c, s, Collect(Spawn));
    var u := CollectNext(c, s, Spawn).value;
    if s.books.pc.k < |c.peers| {
      StartSettles(c, s, c.peers[s.books.pc.k]);
      t := SpawnRest(c, u);
    } else {
      t := u;
    }
  }

  lemma {:induction false} StartReachable(c: Config)
    ensures Reachable(c, Init(c))
  {
    assert Exec(c, Init(c), []) == Some(Init(c));
  }

  lemma {:induction false} SomeWorkerStarts(c: Config, s: State) returns (t: State)
    requires Settling(c, s, 0) && s.books.pc.Receiving? && s.signals.spawner && (s.workers == [] ==> s.active == map[])
    ensures Settling(c, t, 0) && t.books.pc.Receiving? && t.workers != []
  {
    hide Reachable;
    if s.workers != [] {
      t := s;
    } else {
      var step := Surround(Discover([]));
      ReachesNext(c, s, step);
      t := Next(c, s, step).value;
    }
  }

  lemma {:induction false} AllWaitIsStuck(c: Config, s: State)
    requires Count(c) == 0 && Settling(c, s, |s.workers|) && s.workers != [] && s.books.pc.Receiving?
    ensures !CanStep(c, s)
  {
    hide Reachable;
    assert s.workers[0].phase.Waiting?;
    forall step: Step | !(step.Surround? && step.env.Discover?) ensures Next(c, s, step) == None {
      match step
      case Collect(main) =>
      case Surround(env) =>
      case Work(w, act) => if w < |s.workers| { WaitingIsStuck(c, s, w, act); }
    }
  }

  lemma WaitingIsStuck(c: Config, s: State, w: nat, act: WorkerStep)
    requires w < |s.workers| && Idle(s, s.workers[w])
    ensures WorkNext(c, s, w, act) == None
  {
  }

  /** A torrent without pieces: a run in which every worker waits for work that never comes. */
  lemma {:induction false} NoPiecesGetsStuck(c: Config) returns (s: State)
    requires Count(c) == 0
    ensures Reachable(c, s) && !Over(s) && !CanStep(c, s)
  {
    hide Reachable, CanStep;
    StartReachable(c);
    var t := SpawnRest(c, Init(c));
    t := SomeWorkerStarts(c, t);
    s := SettleAll(c, t, 0);
    AllWaitIsStuck(c, s);
  }

  /** The download is free of deadlock if and only if there is at least one piece. */
  lemma {:induction false} NeverStuckIffPieces(c: Config)
    ensures NeverStuck(c) <==> Count(c) >= 1
  {
    hide Reachable, CanStep;
    if Count(c) == 0 {
      var s := NoPiecesGetsStuck(c);
    } else {
      forall s | Reachable(c, s) && !Over(s) ensures CanStep(c, s) { AlwaysAStep(c, s); }
    }
  }
}
