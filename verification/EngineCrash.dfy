/** A late worker: when the program can be stopped by a send on the closed result channel. */
module EngineCrash {
  import opened Prelude
  import Message
  import opened Metainfo
  import opened Endgame
  import opened PieceDownload
  import opened Engine
  import opened EngineInvariants
  import opened EngineProgress

  // ---- No crash without a peer that is discovered after all workers have gone ----

  /** No peer is discovered after the wait for the workers has returned. */
  ghost predicate Punctual(c: Config, s: State, steps: seq<Step>)
    decreases |steps|
  {
    steps == [] ||
    (&& !(steps[0].Surround? && steps[0].env.Discover? && s.signals.waited)
     && (Next(c, s, steps[0]).Some? ==> Punctual(c, Next(c, s, steps[0]).value, steps[1..])))
  }

  /** The result channel is closed only when there is nobody left to send. */
  ghost predicate NobodySends(s: State) {
    && !s.crashed && (s.signals.resultClosed ==> s.signals.waited)
    && (s.signals.waited ==> AllGone(s.workers) && !s.books.pc.Spawning?)
  }

  lemma {:induction false} WorkKeepsQuiet(c: Config, s: State, w: nat, step: WorkerStep)
    requires w < |s.workers| && NobodySends(s) && WorkNext(c, s, w, step).Some?
    ensures NobodySends(WorkNext(c, s, w, step).value)
  {
    hide Picked, Greeted, Heard, Resumed, LeaveSession, Verified, Ended;
    WorkTouchesBooks(c, s, w, step);
  }

  lemma {:induction false} StepKeepsQuiet(c: Config, s: State, step: Step)
    requires NobodySends(s) && Next(c, s, step).Some?
    requires !(step.Surround? && step.env.Discover? && s.signals.waited)
    ensures NobodySends(Next(c, s, step).value)
  {
    hide WorkNext, Judged, Written, AddTurn;
    match step
    case Collect(main) => CollectKeepsQuiet(c, s, main);
    case Surround(_) =>
    case Work(w, act) => WorkKeepsQuiet(c, s, w, act);
  }

  lemma CollectKeepsQuiet(c: Config, s: State, step: CollectorStep)
    requires NobodySends(s) && CollectNext(c, s, step).Some?
    ensures NobodySends(CollectNext(c, s, step).value)
  {
    hide Completed, Added;
  }

  lemma {:induction false} PunctualKeeps(c: Config, s: State, steps: seq<Step>)
    requires NobodySends(s) && Exec(c, s, steps).Some? && Punctual(c, s, steps)
    ensures NobodySends(Exec(c, s, steps).value)
    decreases |steps|
  {
    hide NobodySends, Next;
    if steps != [] {
      StepKeepsQuiet(c, s, steps[0]);
      PunctualKeeps(c, Next(c, s, steps[0]).value, steps[1..]);
    }
  }

  /** A run in which no peer is discovered after all workers have gone never crashes, and with at least one
      piece it can go on until the collector returns. */
  lemma {:induction false} PunctualRunsGoOn(c: Config, steps: seq<Step>)
    requires Exec(c, Init(c), steps).Some? && Punctual(c, Init(c), steps)
    ensures var s := Exec(c, Init(c), steps).value;
            !s.crashed && (Count(c) >= 1 ==> s.books.pc.Returned? || CanStep(c, s))
  {
    var s := Exec(c, Init(c), steps).value;
    assert NobodySends(Init(c));
    hide Exec, CanStep, Init, Next, Punctual;
    PunctualKeeps(c, Init(c), steps);
    assert Exec(c, Init(c), steps) == Some(s);
    if Count(c) >= 1 && !s.books.pc.Returned? { AlwaysAStep(c, s); }
  }

  // ---- A crash needs a verified result ----

  ghost predicate SomeResult(c: Config) { exists r: PieceResult :: ValidResult(c, r) }

  ghost predicate CanCrash(c: Config) { exists s :: Reachable(c, s) && s.crashed }

  lemma {:induction false} CrashingStep(c: Config, s: State, step: Step)
    requires Inv(c, s) && !s.crashed && Next(c, s, step).Some? && Next(c, s, step).value.crashed
    ensures SomeResult(c)
  {
    hide Picked, Greeted, Heard, Resumed, LeaveSession, Verified, Ended, BooksKept, Conserved, Switched, Capped, ValidResult,
         Judged, Written, AddTurn;
    assert step.Work? && step.act.Deliver?;
    assert PhaseGenuine(c, s.workers[step.w].phase);
    assert ValidResult(c, s.workers[step.w].phase.result);
  }

  lemma {:induction false} CrashingRun(c: Config, s: State, steps: seq<Step>)
    requires Inv(c, s) && !s.crashed && Exec(c, s, steps).Some? && Exec(c, s, steps).value.crashed
    ensures SomeResult(c)
    decreases |steps|
  {
    hide Inv, Next, SomeResult;
    var t := Next(c, s, steps[0]).value;
    InvStep(c, s, steps[0]);
    if t.crashed { CrashingStep(c, s, steps[0]); } else { CrashingRun(c, t, steps[1..]); }
  }

  // ---- A run that crashes ----

  /** The first `gone` workers could not connect and have ended; the others have not begun. */
  ghost predicate Retiring(c: Config, s: State, gone: nat) {
    && Reachable(c, s) && !s.crashed && gone <= |s.workers| && s.chan == WorkUpTo(c.info, Count(c))
    && !s.signals.doneClosed && !s.signals.egClosed && !s.signals.waited && !s.signals.resultClosed
    && (forall w :: 0 <= w < gone ==> s.workers[w].phase.Gone?)
    && (forall w :: gone <= w < |s.workers| ==> s.workers[w] == NewWorker(s.workers[w].addr))
  }

  lemma {:induction false} FailToConnect(c: Config, s: State, w: nat) returns (t: State)
    requires Reachable(c, s) && !s.crashed && !s.signals.doneClosed && w < |s.workers| && s.workers[w].phase.Attempting?
    ensures Reachable(c, t) && t == With(s, w, LeaveSession(s.workers[w]))
  {
    hide Reachable;
    t := Act(c, s, w, CheckDone);
    t := Act(c, t, w, Dial(false));
  }

  lemma {:induction false} RetireOne(c: Config, s: State, w: nat) returns (t: State)
    requires Retiring(c, s, w) && w < |s.workers|
    ensures Retiring(c, t, w + 1) && |t.workers| == |s.workers| && t.books == s.books && t.signals == s.signals
  {
    hide Reachable;
    t := FailToConnect(c, s, w);
    t := FailToConnect(c, t, w);
    t := FailToConnect(c, t, w);
    t := FailToConnect(c, t, w);
    t := Act(c, t, w, Exit);
  }

  lemma {:induction false} RetireAll(c: Config, s: State, w: nat) returns (t: State)
    requires Retiring(c, s, w)
    ensures Retiring(c, t, |t.workers|) && t.books == s.books && t.signals == s.signals
    decreases |s.workers| - w
  {
    if w == |s.workers| {
      t := s;
    } else {
      var u := RetireOne(c, s, w);
      hide Retiring;
      t := RetireAll(c, u, w + 1);
    }
  }

  /** Worker `w` came after the result channel was closed, and waits for work. */
  ghost predicate Late(c: Config, s: State, w: nat) {
    && Reachable(c, s) && !s.crashed && !s.signals.doneClosed && !s.signals.egClosed && s.signals.resultClosed
    && w < |s.workers| && s.workers[w].phase.Waiting? && s.workers[w].bitfield == None && |s.chan| <= Count(c)
  }

  lemma {:induction false} NobodyLive(workers: seq<Worker>, a: Addr)
    requires forall w :: 0 <= w < |workers| ==> workers[w].phase.Gone?
    ensures Live(workers, a) == 0
  {
    if workers != [] {
      assert forall w :: 0 <= w < |workers| - 1 ==> workers[1..][w] == workers[w + 1];
      NobodyLive(workers[1..], a);
    }
  }

  /** After the result channel is closed one more peer is discovered. */
  lemma {:induction false} LateStart(c: Config, s: State) returns (t: State)
    requires Retiring(c, s, |s.workers|) && s.books.pc.Receiving? && s.signals.spawner
    ensures Late(c, t, |s.workers|) && t.chan == s.chan
  {
    assert ActiveOf(s.active, []) == 0 by {
      hide Reachable, AllGenuine, BooksKept, Switched, Conserved;
      ReachableKeeps(c, s);
      NobodyLive(s.workers, []);
    }
    FilledChan(c.info, Count(c), 0);
    hide Reachable, WorkUpTo;
    var w := |s.workers|;
    t := Env(c, s, WaitReturns);
    t := Env(c, t, CloseResults);
    t := Env(c, t, Discover([]));
    t := Greet(c, t, w);
  }

  lemma Env(c: Config, s: State, env: EnvStep) returns (t: State)
    requires Reachable(c, s) && !s.crashed && EnvNext(c, s, env).Some?
    ensures t == EnvNext(c, s, env).value && Reachable(c, t)
  {
    hide Reachable, EnvNext;
    ReachesNext(c, s, Surround(env));
    t := EnvNext(c, s, env).value;
  }

  lemma {:induction false} Greet(c: Config, s: State, w: nat) returns (t: State)
    requires Reachable(c, s) && !s.crashed && !s.signals.doneClosed && !s.signals.egClosed
    requires w < |s.workers| && s.workers[w] == NewWorker(s.workers[w].addr)
    ensures Reachable(c, t) && t == With(s, w, s.workers[w].(phase := Waiting))
  {
    hide Reachable;
    var unchoke := Message.Msg(Message.MSG_UNCHOKE, []);
    t := Act(c, s, w, CheckDone);
    t := Act(c, t, w, Dial(true));
    t := Act(c, t, w, Hear(Some(Some(unchoke))));
    t := Act(c, t, w, CheckDone);
    t := Act(c, t, w, CheckSignal);
  }

  /** A worker whose peer chokes it puts the piece back, and comes back for the next one. */
  lemma {:induction false} Rotate(c: Config, s: State, w: nat) returns (t: State)
    requires Late(c, s, w) && s.chan != []
    ensures Late(c, t, w) && t.chan == s.chan[1..] + [s.chan[0]]
  {
    hide Reachable, Verified;
    var unchoke := Message.Msg(Message.MSG_UNCHOKE, []);
    t := Act(c, s, w, Take);
    t := Act(c, t, w, Inspect);
    t := Act(c, t, w, LoadFails(true));
    t := Act(c, t, w, Requeue);
    t := Act(c, t, w, Hear(Some(Some(unchoke))));
    t := Act(c, t, w, CheckDone);
    t := Act(c, t, w, CheckSignal);
  }

  lemma {:induction false} RotateTo(c: Config, s: State, w: nat, i: nat) returns (t: State)
    requires Late(c, s, w) && i < |s.chan|
    ensures Late(c, t, w) && t.chan != [] && t.chan[0] == s.chan[i]
    decreases i
  {
    hide Late;
    if i == 0 {
      t := s;
    } else {
      var u := Rotate(c, s, w);
      t := RotateTo(c, u, w, i - 1);
    }
  }

  lemma {:induction false} LateDelivery(c: Config, s: State, w: nat, r: PieceResult) returns (t: State)
    requires Late(c, s, w) && s.chan != [] && Verified(s.chan[0], r.data, c.sha1)
    ensures Reachable(c, t) && t.crashed
  {
    hide Reachable, Verified;
    t := Act(c, s, w, Take);
    t := Act(c, t, w, Inspect);
    t := Act(c, t, w, Load(r.data));
    t := Act(c, t, w, Deliver);
  }

  /** With one verifiable piece: all workers fail to connect, the result channel is closed, and a peer that is
      discovered then delivers the piece. */
  lemma {:induction false} ACrash(c: Config, r: PieceResult) returns (t: State)
    requires ValidResult(c, r)
    ensures Reachable(c, t) && t.crashed
  {
    hide Reachable, Verified, Settling, Late, Retiring, WorkUpTo;
    StartReachable(c);
    FilledChan(c.info, Count(c), r.index);
    assert Settling(c, Init(c), 0) by { StartIsSettling(c); }
    t := SpawnRest(c, Init(c));
    assert Retiring(c, t, 0) by { SettlingIsRetiring(c, t); }
    t := RetireAll(c, t, 0);
    var w := |t.workers|;
    assert t.chan == WorkUpTo(c.info, Count(c)) by { RetiringChan(c, t, w); }
    t := LateStart(c, t);
    t := RotateTo(c, t, w, r.index);
    t := LateDelivery(c, t, w, r);
  }

  lemma StartIsSettling(c: Config)
    requires Reachable(c, Init(c))
    ensures Settling(c, Init(c), 0)
  {
    hide Reachable;
  }

  lemma SettlingIsRetiring(c: Config, s: State)
    requires Settling(c, s, 0)
    ensures Retiring(c, s, 0)
  {
    hide Reachable;
  }

  lemma RetiringChan(c: Config, s: State, gone: nat)
    requires Retiring(c, s, gone)
    ensures s.chan == WorkUpTo(c.info, Count(c))
  {
    hide Reachable;
  }

  /** The program can be stopped by a send on the closed result channel if and only if some data passes the
      hash check of some piece: that every torrent worth downloading has, so only the absence of late
      discoveries excludes the crash. */
  lemma {:induction false} CanCrashIffVerifiable(c: Config)
    ensures CanCrash(c) <==> SomeResult(c)
  {
    hide Inv, ValidResult, Exec;
    if CanCrash(c) {
      var s :| Reachable(c, s) && s.crashed;
      var steps :| Exec(c, Init(c), steps) == Some(s);
      InitKeeps(c);
      CrashingRun(c, Init(c), steps);
    }
    if SomeResult(c) {
      var r :| ValidResult(c, r);
      var t := ACrash(c, r);
    }
  }
}
